// The part of the C++ stream library the record codec relies on: `<<` of
// strings and integers into an ostringstream, and the formatted extraction
// `>>` of whitespace-delimited words and decimal integers out of an
// istringstream. An input stream is modelled by its buffer and its read position.
module Text {

  datatype Option<T> = None | Some(value: T)

  type String = seq<char>

  /** The characters std::isspace accepts in the "C" locale. */
  predicate IsSpace(c: char) {
    c == ' ' || c == '\t' || c == '\n' || c == '\r' || c == 11 as char || c == 12 as char
  }

  predicate IsDigit(c: char) {
    '0' <= c <= '9'
  }

  predicate AllDigits(s: String) {
    forall k :: 0 <= k < |s| ==> IsDigit(s[k])
  }

  predicate NoSpace(s: String) {
    forall k :: 0 <= k < |s| ==> !IsSpace(s[k])
  }

  /** A string that `>>` reads back whole: non-empty and free of whitespace. */
  predicate IsToken(s: String) {
    |s| > 0 && NoSpace(s)
  }

  // ---------------------------------------------------------------------
  // Output: `<<` of unsigned and signed integers

  function DigitChar(d: nat): (c: char)
    requires d < 10
    ensures IsDigit(c)
  {
    ('0' as int + d) as char
  }

  function DigitValue(c: char): (d: nat)
    requires IsDigit(c)
    ensures d < 10
  {
    c as int - '0' as int
  }

  /** Decimal rendering of a size or count: most significant digit first, no leading zero. */
  function Decimal(n: nat): (s: String)
    ensures |s| > 0 && IsDigit(s[0])
    ensures n > 0 ==> s[0] != '0'
  {
    (if n < 10 then [] else Decimal(n / 10)) + [DigitChar(n % 10)]
  }

  lemma {:induction false} DecimalDigits(n: nat)
    ensures AllDigits(Decimal(n))
  {
    var s := Decimal(n);
    if n >= 10 {
      DecimalDigits(n / 10);
      assert s == Decimal(n / 10) + [DigitChar(n % 10)];
    }
  }

  /** Decimal rendering of an int: a minus sign for negative values. */
  function IntDecimal(x: int): (s: String)
    ensures |s| > 0 && (x < 0 <==> s[0] == '-')
  {
    if x < 0 then ['-'] + Decimal(-x) else Decimal(x)
  }

  /** A rendered int is one token: `>>` reads it back whole. */
  lemma IntDecimalToken(x: int)
    ensures IsToken(IntDecimal(x))
  {
    var n := if x < 0 then -x else x;
    DecimalDigits(n);
    var d := Decimal(n);
    if x < 0 {
      assert forall k :: 1 <= k < |d| + 1 ==> (['-'] + d)[k] == d[k - 1];
    }
  }

  lemma DigitRoundTrip(d: nat)
    requires d < 10
    ensures DigitValue(DigitChar(d)) == d
  {
  }

  /** The characters of `s` in positions `a` up to `b`. */
  function Chars(s: String, a: nat, b: nat): (w: String)
    requires a <= b <= |s|
    ensures |w| == b - a
  {
    seq(b - a, k requires 0 <= k < b - a => s[a + k])
  }

  predicate DigitAt(s: String, k: nat)
    requires k < |s|
  {
    IsDigit(s[k])
  }

  /** Positions `a` up to `b` of `s` hold decimal digits. */
  predicate DigitsBetween(s: String, a: nat, b: nat) {
    a <= b <= |s| && forall k {:trigger DigitAt(s, k)} :: a <= k < b ==> DigitAt(s, k)
  }

  /** The value of the decimal digits of `s` in positions `a` up to `b`. */
  function DigitsValue(s: String, a: nat, b: nat): nat
    requires DigitsBetween(s, a, b)
    decreases b
  {
    if b == a then 0
    else
      assert DigitAt(s, b - 1);
      DigitsValue(s, a, b - 1) * 10 + DigitValue(s[b - 1])
  }

  // ---------------------------------------------------------------------
  // Input: the scanning steps of `>>` on a stream read from position `i`

  /** The first position at or after `i` that is not whitespace: where every extraction starts. */
  function SpaceEnd(s: String, i: nat): (j: nat)
    requires i <= |s|
    ensures i <= j <= |s| && (j == |s| || !IsSpace(s[j]))
    decreases |s| - i
  {
    if i < |s| && IsSpace(s[i]) then SpaceEnd(s, i + 1) else i
  }

  /** The first whitespace position at or after `i`: where the extraction of a word stops. */
  function WordEnd(s: String, i: nat): (j: nat)
    requires i <= |s|
    ensures i <= j <= |s| && (j == |s| || IsSpace(s[j]))
    ensures i < |s| && !IsSpace(s[i]) ==> i < j
    decreases |s| - i
  {
    if i < |s| && !IsSpace(s[i]) then WordEnd(s, i + 1) else i
  }

  /** The first position at or after `i` that is not a decimal digit. */
  function DigitEnd(s: String, i: nat): (j: nat)
    requires i <= |s|
    ensures i <= j <= |s| && (j == |s| || !IsDigit(s[j]))
    decreases |s| - i
  {
    if i < |s| && IsDigit(s[i]) then DigitEnd(s, i + 1) else i
  }

  lemma {:induction false} DigitEndDigits(s: String, i: nat)
    requires i <= |s|
    ensures DigitsBetween(s, i, DigitEnd(s, i))
    decreases |s| - i
  {
    if i < |s| && IsDigit(s[i]) {
      DigitEndDigits(s, i + 1);
    }
  }

  /** `in >> word` for a std::string: the word and the position after it; fails at the end of the stream. */
  function ReadWord(s: String, i: nat): (r: Option<(String, nat)>)
    requires i <= |s|
    ensures r.Some? ==> i < r.value.1 <= |s|
  {
    var a := SpaceEnd(s, i);
    if a == |s| then None
    else
      var b := WordEnd(s, a);
      Some((Chars(s, a, b), b))
  }

  /** `in >> n` for an unsigned count: fails unless a digit follows the whitespace. */
  function ReadUnsigned(s: String, i: nat): (r: Option<(nat, nat)>)
    requires i <= |s|
    ensures r.Some? ==> i < r.value.1 <= |s|
  {
    var a := SpaceEnd(s, i);
    var b := DigitEnd(s, a);
    DigitEndDigits(s, a);
    if a == b then None else Some((DigitsValue(s, a, b), b))
  }

  /** `in >> x` for an int: an optional sign, then at least one digit. */
  function ReadInt(s: String, i: nat): (r: Option<(int, nat)>)
    requires i <= |s|
    ensures r.Some? ==> i < r.value.1 <= |s|
  {
    var a := SpaceEnd(s, i);
    if a < |s| && (s[a] == '-' || s[a] == '+') then
      var b := DigitEnd(s, a + 1);
      DigitEndDigits(s, a + 1);
      if b == a + 1 then None
      else
        var v: int := DigitsValue(s, a + 1, b);
        Some((if s[a] == '-' then -v else v, b))
    else
      var b := DigitEnd(s, a);
      DigitEndDigits(s, a);
      if a == b then None else Some((DigitsValue(s, a, b), b))
  }

  /** Filling slot `i` of a sequence extends its first `i` elements by one. */
  lemma UpdateTake<T>(xs: seq<T>, i: nat, x: T)
    requires i < |xs|
    ensures xs[i := x][..i + 1] == xs[..i] + [x]
  {
  }

  lemma HeadTail<T>(xs: seq<T>)
    requires xs != []
    ensures [xs[0]] + xs[1..] == xs
  {
  }

  /** Puts `xs` in front of the values of a successful read. */
  function Prepend<T>(xs: seq<T>, r: Option<(seq<T>, nat)>): Option<(seq<T>, nat)> {
    match r
    case None => None
    case Some((ys, j)) => Some((xs + ys, j))
  }

  lemma PrependNil<T>(r: Option<(seq<T>, nat)>)
    ensures Prepend([], r) == r
  {
    if r.Some? {
      assert [] + r.value.0 == r.value.0;
    }
  }

  lemma PrependTwice<T>(xs: seq<T>, ys: seq<T>, r: Option<(seq<T>, nat)>)
    ensures Prepend(xs, Prepend(ys, r)) == Prepend(xs + ys, r)
  {
    if r.Some? {
      assert xs + (ys + r.value.0) == xs + ys + r.value.0;
    }
  }

  /** `n` words read one after the other, in stream order. */
  function ReadWords(s: String, i: nat, n: nat): (r: Option<(seq<String>, nat)>)
    requires i <= |s|
    ensures r.Some? ==> |r.value.0| == n && i <= r.value.1 <= |s|
    decreases n
  {
    if n == 0 then Some(([], i))
    else
      match ReadWord(s, i)
      case None => None
      case Some((w, j)) => Prepend([w], ReadWords(s, j, n - 1))
  }

  /** `n` ints read one after the other, in stream order. */
  function ReadInts(s: String, i: nat, n: nat): (r: Option<(seq<int>, nat)>)
    requires i <= |s|
    ensures r.Some? ==> |r.value.0| == n && i <= r.value.1 <= |s|
    decreases n
  {
    if n == 0 then Some(([], i))
    else
      match ReadInt(s, i)
      case None => None
      case Some((x, j)) => Prepend([x], ReadInts(s, j, n - 1))
  }

  // ---------------------------------------------------------------------
  // What an extraction yields

  lemma {:induction false} SpaceEndSpaces(s: String, i: nat)
    requires i <= |s|
    ensures forall k :: i <= k < SpaceEnd(s, i) ==> IsSpace(s[k])
    decreases |s| - i
  {
    if i < |s| && IsSpace(s[i]) {
      SpaceEndSpaces(s, i + 1);
    }
  }

  lemma {:induction false} WordEndNoSpace(s: String, i: nat)
    requires i <= |s|
    ensures forall k :: i <= k < WordEnd(s, i) ==> !IsSpace(s[k])
    decreases |s| - i
  {
    if i < |s| && !IsSpace(s[i]) {
      WordEndNoSpace(s, i + 1);
    }
  }

  /**
   * A word extraction fails exactly when only whitespace is left, and a word
   * it yields is a whitespace-free token that ends at whitespace or at the end.
   */
  lemma ReadWordToken(s: String, i: nat)
    requires i <= |s|
    ensures ReadWord(s, i).None? <==> forall k :: i <= k < |s| ==> IsSpace(s[k])
    ensures ReadWord(s, i).Some? ==>
      IsToken(ReadWord(s, i).value.0) && BoundaryAt(s, ReadWord(s, i).value.1)
  {
    var a := SpaceEnd(s, i);
    SpaceEndSpaces(s, i);
    if a < |s| {
      WordEndNoSpace(s, a);
      var w := Chars(s, a, WordEnd(s, a));
      assert forall k :: 0 <= k < |w| ==> w[k] == s[a + k];
    }
  }

  lemma {:induction false} ReadWordsTokens(s: String, i: nat, n: nat)
    requires i <= |s|
    ensures ReadWords(s, i, n).Some? ==> forall k :: 0 <= k < n ==> IsToken(ReadWords(s, i, n).value.0[k])
    decreases n
  {
    if n > 0 && ReadWord(s, i).Some? {
      var (w, j) := ReadWord(s, i).value;
      ReadWordToken(s, i);
      ReadWordsTokens(s, j, n - 1);
    }
  }

  // ---------------------------------------------------------------------
  // Line-oriented layouts

  /** Each string followed by a newline: what a loop of `oss << t << "\n"` emits. */
  function Lines(ts: seq<String>): String {
    if ts == [] then [] else ts[0] + "\n" + Lines(ts[1..])
  }

  /** Each string preceded by a newline: the same text seen from just before its first newline. */
  function PreJoin(ts: seq<String>): String {
    if ts == [] then [] else "\n" + ts[0] + PreJoin(ts[1..])
  }

  /** The rendering of each int, in order. */
  function IntStrs(xs: seq<int>): (ts: seq<String>)
    ensures |ts| == |xs|
  {
    if xs == [] then [] else [IntDecimal(xs[0])] + IntStrs(xs[1..])
  }

  lemma IntStrsSplit(xs: seq<int>)
    requires xs != []
    ensures IntStrs(xs)[0] == IntDecimal(xs[0]) && IntStrs(xs)[1..] == IntStrs(xs[1..])
  {
    var ts := IntStrs(xs);
    assert ts == [IntDecimal(xs[0])] + IntStrs(xs[1..]);
  }

  lemma {:induction false} IntStrsSnoc(xs: seq<int>, x: int)
    ensures IntStrs(xs + [x]) == IntStrs(xs) + [IntDecimal(x)]
  {
    if xs == [] {
      assert [x][1..] == [];
    } else {
      assert (xs + [x])[1..] == xs[1..] + [x];
      IntStrsSnoc(xs[1..], x);
    }
  }

  lemma {:induction false} LinesSnoc(ts: seq<String>, t: String)
    ensures Lines(ts + [t]) == Lines(ts) + t + "\n"
  {
    if ts == [] {
      assert [t][1..] == [];
    } else {
      assert (ts + [t])[1..] == ts[1..] + [t];
      LinesSnoc(ts[1..], t);
    }
  }

  /** Moving the newline that ends every line to the front of the next one. */
  lemma {:induction false} LinesShift(ts: seq<String>)
    ensures "\n" + Lines(ts) == PreJoin(ts) + "\n"
  {
    if ts != [] {
      LinesShift(ts[1..]);
      calc {
        "\n" + Lines(ts);
        "\n" + ts[0] + ("\n" + Lines(ts[1..]));
        "\n" + ts[0] + (PreJoin(ts[1..]) + "\n");
        PreJoin(ts) + "\n";
      }
    }
  }

  // ---------------------------------------------------------------------
  // Reading back what was written

  /** The character `k` places after position `p`. */
  function CharAt(s: String, p: nat, k: nat): char
    requires p + k < |s|
  {
    s[p + k]
  }

  /** `s` holds `x` from position `p` on. */
  predicate At(s: String, p: nat, x: String) {
    p + |x| <= |s| && forall k {:trigger CharAt(s, p, k)} :: 0 <= k < |x| ==> CharAt(s, p, k) == x[k]
  }

  /** Position `j` ends a token: the end of the stream, or whitespace. */
  predicate BoundaryAt(s: String, j: nat) {
    j == |s| || (j < |s| && IsSpace(s[j]))
  }

  predicate SpaceAt(s: String, k: nat)
    requires k < |s|
  {
    IsSpace(s[k])
  }

  /** Positions `i` up to `a` of `s` hold whitespace. */
  predicate SpacesBetween(s: String, i: nat, a: nat) {
    i <= a <= |s| && forall k {:trigger SpaceAt(s, k)} :: i <= k < a ==> SpaceAt(s, k)
  }

  /** What holds `x + y` at `p` holds `x` at `p` and `y` at `q`, just after `x`. */
  lemma AtSplit(s: String, p: nat, x: String, y: String, q: nat)
    requires At(s, p, x + y) && q == p + |x|
    ensures At(s, p, x) && At(s, q, y)
  {
    forall k | 0 <= k < |x|
      ensures CharAt(s, p, k) == x[k]
    {
      assert CharAt(s, p, k) == (x + y)[k];
    }
    forall k | 0 <= k < |y|
      ensures CharAt(s, p + |x|, k) == y[k]
    {
      assert CharAt(s, p, |x| + k) == (x + y)[|x| + k];
    }
  }

  lemma AtChar(s: String, p: nat, x: String, k: nat)
    requires At(s, p, x) && k < |x|
    ensures s[p + k] == x[k]
  {
    assert CharAt(s, p, k) == x[k];
  }

  /** The characters that hold `x` are `x`. */
  lemma AtChars(s: String, p: nat, x: String)
    requires At(s, p, x)
    ensures Chars(s, p, p + |x|) == x
  {
    forall k | 0 <= k < |x|
      ensures Chars(s, p, p + |x|)[k] == x[k]
    {
      AtChar(s, p, x, k);
    }
  }

  /** Every string holds itself from its start. */
  lemma AtWhole(s: String)
    ensures At(s, 0, s)
  {
    forall k | 0 <= k < |s|
      ensures CharAt(s, 0, k) == s[k]
    {
    }
  }

  /** A layout of newline-led lines begins at a token boundary when it ends at one. */
  lemma LaidOutBoundary(s: String, p: nat, ts: seq<String>, q: nat)
    requires At(s, p, PreJoin(ts)) && q == p + |PreJoin(ts)| && BoundaryAt(s, q)
    ensures BoundaryAt(s, p)
  {
    if ts != [] {
      AtChar(s, p, PreJoin(ts), 0);
    }
  }

  /** The digits of `Decimal(n)`, wherever they are laid out, are worth `n`. */
  lemma {:induction false} DecimalValueAt(s: String, a: nat, n: nat, end: nat)
    requires At(s, a, Decimal(n)) && end == a + |Decimal(n)|
    ensures DigitsBetween(s, a, end) && DigitsValue(s, a, end) == n
    decreases n
  {
    var d := Decimal(n);
    DecimalDigits(n);
    forall k | a <= k < end
      ensures IsDigit(s[k])
    {
      AtChar(s, a, d, k - a);
    }
    var c := DigitChar(n % 10);
    AtChar(s, a, d, |d| - 1);
    DigitRoundTrip(n % 10);
    if n < 10 {
      assert d == [c];
    } else {
      var high := Decimal(n / 10);
      assert d == high + [c];
      AtSplit(s, a, high, [c], a + |high|);
      DecimalValueAt(s, a, n / 10, end - 1);
    }
  }


  lemma {:induction false} SpaceEndIs(s: String, i: nat, j: nat)
    requires SpacesBetween(s, i, j) && (j == |s| || !IsSpace(s[j]))
    ensures SpaceEnd(s, i) == j
    decreases j - i
  {
    if i < j {
      assert SpaceAt(s, i);
      SpaceEndIs(s, i + 1, j);
    }
  }

  lemma {:induction false} WordEndIs(s: String, i: nat, j: nat)
    requires i <= j <= |s| && BoundaryAt(s, j)
    requires forall k :: i <= k < j ==> !IsSpace(s[k])
    ensures WordEnd(s, i) == j
    decreases j - i
  {
    if i < j {
      WordEndIs(s, i + 1, j);
    }
  }

  lemma {:induction false} DigitEndIs(s: String, i: nat, j: nat)
    requires i <= j <= |s| && (j == |s| || !IsDigit(s[j]))
    requires DigitsBetween(s, i, j)
    ensures DigitEnd(s, i) == j
    decreases j - i
  {
    if i < j {
      assert DigitAt(s, i);
      DigitEndIs(s, i + 1, j);
    }
  }

  /** A token written between whitespace is read back as itself. */
  lemma ReadWordAt(s: String, i: nat, a: nat, w: String)
    requires SpacesBetween(s, i, a) && At(s, a, w) && IsToken(w) && BoundaryAt(s, a + |w|)
    ensures ReadWord(s, i) == Some((w, a + |w|))
  {
    AtChar(s, a, w, 0);
    SpaceEndIs(s, i, a);
    forall k | a <= k < a + |w|
      ensures !IsSpace(s[k])
    {
      AtChar(s, a, w, k - a);
    }
    WordEndIs(s, a, a + |w|);
    AtChars(s, a, w);
    
  }

  /** The digits of a rendered number, laid out at `a`, end at its last digit. */
  lemma DigitsAt(s: String, a: nat, d: String, end: nat)
    requires At(s, a, d) && AllDigits(d) && |d| > 0 && end == a + |d|
    requires end == |s| || !IsDigit(s[end])
    ensures DigitEnd(s, a) == end && a < |s| && IsDigit(s[a])
  {
    AtChar(s, a, d, 0);
    forall k | a <= k < end
      ensures IsDigit(s[k])
    {
      AtChar(s, a, d, k - a);
    }
    DigitEndIs(s, a, end);
  }


  /** A count written with `<<` is read back by `>>` into an unsigned. */
  lemma ReadUnsignedAt(s: String, i: nat, a: nat, n: nat, end: nat)
    requires SpacesBetween(s, i, a) && At(s, a, Decimal(n)) && end == a + |Decimal(n)|
    requires end == |s| || !IsDigit(s[end])
    ensures ReadUnsigned(s, i) == Some((n, end))
  {
    NumberAt(s, a, n, end);
    SpaceEndIs(s, i, a);
  }

  /** An int written with `<<` is read back by `>>` into an int. */
  lemma ReadIntAt(s: String, i: nat, a: nat, x: int, end: nat)
    requires SpacesBetween(s, i, a) && At(s, a, IntDecimal(x))
    requires end == a + |IntDecimal(x)| && BoundaryAt(s, end)
    ensures ReadInt(s, i) == Some((x, end))
  {
    AtChar(s, a, IntDecimal(x), 0);
    SpaceEndIs(s, i, a);
    if x < 0 {
      NegativeAt(s, a, x, end);
      ReadSigned(s, i, a, x, end);
    } else {
      NumberAt(s, a, x, end);
      ReadDigits(s, i, a, x, end);
    }
  }

  /** A minus sign followed by the digits of `Decimal(-x)`. */
  lemma NegativeAt(s: String, a: nat, x: int, end: nat)
    requires x < 0 && At(s, a, ['-'] + Decimal(-x))
    requires end == a + 1 + |Decimal(-x)| && BoundaryAt(s, end)
    ensures a < |s| && s[a] == '-' && a + 1 < end && DigitEnd(s, a + 1) == end
    ensures DigitsBetween(s, a + 1, end) && DigitsValue(s, a + 1, end) == -x
  {
    AtSplit(s, a, ['-'], Decimal(-x), a + 1);
    AtChar(s, a, ['-'], 0);
    NumberAt(s, a + 1, -x, end);
  }

  /** `>>` into an int, once the digits are known. */
  lemma ReadDigits(s: String, i: nat, a: nat, x: int, end: nat)
    requires x >= 0 && i <= |s| && SpaceEnd(s, i) == a && a < |s| && IsDigit(s[a])
    requires a < end && DigitEnd(s, a) == end
    requires DigitsBetween(s, a, end) && DigitsValue(s, a, end) == x
    ensures ReadInt(s, i) == Some((x, end))
  {
  }

  /** `>>` into an int, once the sign and the digits after it are known. */
  lemma ReadSigned(s: String, i: nat, a: nat, x: int, end: nat)
    requires x < 0 && i <= |s| && SpaceEnd(s, i) == a && a < |s| && s[a] == '-'
    requires a + 1 < end && DigitEnd(s, a + 1) == end
    requires DigitsBetween(s, a + 1, end) && DigitsValue(s, a + 1, end) == -x
    ensures ReadInt(s, i) == Some((x, end))
  {
  }

  /** The digits of `Decimal(n)` laid out at `a`: where `>>` stops reading them, and their value. */
  lemma NumberAt(s: String, a: nat, n: nat, end: nat)
    requires At(s, a, Decimal(n)) && end == a + |Decimal(n)|
    requires end == |s| || !IsDigit(s[end])
    ensures a < end && IsDigit(s[a]) && DigitEnd(s, a) == end
    ensures DigitsBetween(s, a, end) && DigitsValue(s, a, end) == n
  {
    DecimalDigits(n);
    DigitsAt(s, a, Decimal(n), end);
    DecimalValueAt(s, a, n, end);
  }

  /** `ts` laid out from `p` on, each preceded by a newline, the layout ending at `end`. */
  predicate LinesAt(s: String, p: nat, ts: seq<String>, end: nat)
    decreases |ts|
  {
    if ts == [] then p == end <= |s|
    else
      p < |s| && s[p] == '\n' && At(s, p + 1, ts[0]) && LinesAt(s, p + 1 + |ts[0]|, ts[1..], end)
  }

  lemma {:induction false} PreJoinAt(s: String, p: nat, ts: seq<String>)
    requires At(s, p, PreJoin(ts))
    ensures LinesAt(s, p, ts, p + |PreJoin(ts)|)
    decreases |ts|
  {
    if ts != [] {
      var later := PreJoin(ts[1..]);
      assert PreJoin(ts) == "\n" + ts[0] + later;
      AtSplit(s, p, "\n" + ts[0], later, p + 1 + |ts[0]|);
      AtSplit(s, p, "\n", ts[0], p + 1);
      AtChar(s, p, "\n", 0);
      PreJoinAt(s, p + 1 + |ts[0]|, ts[1..]);
    }
  }

  /** The token after the newline at `p` ends where the next newline, or the layout, begins. */
  lemma LinesHead(s: String, p: nat, ts: seq<String>, end: nat)
    requires ts != [] && LinesAt(s, p, ts, end) && BoundaryAt(s, end)
    ensures SpacesBetween(s, p, p + 1) && BoundaryAt(s, p + 1 + |ts[0]|)
  {
    var q := p + 1 + |ts[0]|;
    if ts[1..] == [] {
      assert LinesAt(s, q, ts[1..], end);
    }
  }

  lemma {:induction false} ReadLaidOutWords(s: String, p: nat, ws: seq<String>, end: nat)
    requires forall k :: 0 <= k < |ws| ==> IsToken(ws[k])
    requires LinesAt(s, p, ws, end) && BoundaryAt(s, end)
    ensures ReadWords(s, p, |ws|) == Some((ws, end))
    decreases |ws|
  {
    if ws != [] {
      var q := p + 1 + |ws[0]|;
      LinesHead(s, p, ws, end);
      ReadWordAt(s, p, p + 1, ws[0]);
      ReadWordsCons(s, p, |ws|, ws[0], q);
      ReadLaidOutWords(s, q, ws[1..], end);
      HeadTail(ws);
    }
  }

  lemma {:induction false} ReadLaidOutInts(s: String, p: nat, xs: seq<int>, end: nat)
    requires LinesAt(s, p, IntStrs(xs), end) && BoundaryAt(s, end)
    ensures ReadInts(s, p, |xs|) == Some((xs, end))
    decreases |xs|
  {
    if xs != [] {
      var q := FirstIntAt(s, p, xs, end);
      ReadLaidOutInts(s, q, xs[1..], end);
      HeadTail(xs);
    }
  }

  /** The first of the laid-out ints is read back, and the rest are laid out after it. */
  lemma FirstIntAt(s: String, p: nat, xs: seq<int>, end: nat) returns (q: nat)
    requires xs != [] && LinesAt(s, p, IntStrs(xs), end) && BoundaryAt(s, end)
    ensures q <= |s| && LinesAt(s, q, IntStrs(xs[1..]), end)
    ensures ReadInts(s, p, |xs|) == Prepend([xs[0]], ReadInts(s, q, |xs| - 1))
  {
    var ts := IntStrs(xs);
    q := p + 1 + |ts[0]|;
    IntStrsSplit(xs);
    LinesHead(s, p, ts, end);
    ReadIntAt(s, p, p + 1, xs[0], q);
    ReadIntsCons(s, p, |xs|, xs[0], q);
  }

  lemma ReadWordsCons(s: String, p: nat, n: nat, w: String, q: nat)
    requires n > 0 && p <= |s| && q <= |s| && ReadWord(s, p) == Some((w, q))
    ensures ReadWords(s, p, n) == Prepend([w], ReadWords(s, q, n - 1))
  {
  }

  lemma ReadIntsCons(s: String, p: nat, n: nat, x: int, q: nat)
    requires n > 0 && p <= |s| && q <= |s| && ReadInt(s, p) == Some((x, q))
    ensures ReadInts(s, p, n) == Prepend([x], ReadInts(s, q, n - 1))
  {
  }

  /** Tokens laid out one per line are read back, in order, by `n` extractions. */
  lemma ReadWordsAt(s: String, p: nat, ws: seq<String>, end: nat)
    requires forall k :: 0 <= k < |ws| ==> IsToken(ws[k])
    requires At(s, p, PreJoin(ws)) && end == p + |PreJoin(ws)| && BoundaryAt(s, end)
    ensures ReadWords(s, p, |ws|) == Some((ws, end))
  {
    PreJoinAt(s, p, ws);
    ReadLaidOutWords(s, p, ws, end);
  }

  /** Ints laid out one per line are read back, in order, by `n` extractions. */
  lemma ReadIntsAt(s: String, p: nat, xs: seq<int>, end: nat)
    requires At(s, p, PreJoin(IntStrs(xs))) && end == p + |PreJoin(IntStrs(xs))| && BoundaryAt(s, end)
    ensures ReadInts(s, p, |xs|) == Some((xs, end))
  {
    PreJoinAt(s, p, IntStrs(xs));
    ReadLaidOutInts(s, p, xs, end);
  }

  // ---------------------------------------------------------------------
  // The loops of `deserialize`, one extraction at a time

  /** One more word read by a loop that started at `p0` and has already read `done`, reaching `p`. */
  lemma ReadWordsAdvance(s: String, p0: nat, n: nat, i: nat, done: seq<String>, p: nat)
    requires i < n && p0 <= |s| && p <= |s|
    requires ReadWords(s, p0, n) == Prepend(done, ReadWords(s, p, n - i))
    ensures ReadWord(s, p).None? ==> ReadWords(s, p0, n).None?
    ensures ReadWord(s, p).Some? ==>
      ReadWords(s, p0, n) == Prepend(done + [ReadWord(s, p).value.0], ReadWords(s, ReadWord(s, p).value.1, n - (i + 1)))
  {
    if ReadWord(s, p).Some? {
      var (w, q) := ReadWord(s, p).value;
      PrependTwice(done, [w], ReadWords(s, q, n - (i + 1)));
    }
  }

  /** One more int read by a loop that started at `p0` and has already read `done`, reaching `p`. */
  lemma ReadIntsAdvance(s: String, p0: nat, n: nat, i: nat, done: seq<int>, p: nat)
    requires i < n && p0 <= |s| && p <= |s|
    requires ReadInts(s, p0, n) == Prepend(done, ReadInts(s, p, n - i))
    ensures ReadInt(s, p).None? ==> ReadInts(s, p0, n).None?
    ensures ReadInt(s, p).Some? ==>
      ReadInts(s, p0, n) == Prepend(done + [ReadInt(s, p).value.0], ReadInts(s, ReadInt(s, p).value.1, n - (i + 1)))
  {
    if ReadInt(s, p).Some? {
      var (x, q) := ReadInt(s, p).value;
      PrependTwice(done, [x], ReadInts(s, q, n - (i + 1)));
    }
  }
}
