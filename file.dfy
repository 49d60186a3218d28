// The file record exchanged between peers and the tracker (src/file.h) and
// its newline-separated text encoding (src/file.cpp): one record, and a
// length-framed sequence of records.
module FileCodec {
  import opened Text

  /** A file: its name, its chunk hashes in order, and the peers known to hold it. */
  datatype File = File(name: String, hashes: seq<String>, swarm: seq<int>)

  /**
   * The records the text encoding carries without loss: decoding splits at
   * whitespace, so the name and every hash must be non-empty and free of it.
   */
  predicate Transmittable(f: File) {
    IsToken(f.name) && forall k :: 0 <= k < |f.hashes| ==> IsToken(f.hashes[k])
  }

  predicate AllTransmittable(fs: seq<File>) {
    forall k :: 0 <= k < |fs| ==> Transmittable(fs[k])
  }

  // ---------------------------------------------------------------------
  // One record

  /**
   * The encoding of one record: the name, the hash count, one hash per line,
   * the swarm size, one peer id per line; every line ends in a newline.
   */
  function Encode(f: File): String {
    f.name + "\n"
    + Decimal(|f.hashes|) + "\n" + Lines(f.hashes)
    + Decimal(|f.swarm|) + "\n" + Lines(IntStrs(f.swarm))
  }

  /** Everything after the name, with each newline moved in front of the line it ends. */
  function Body(f: File): String {
    "\n" + Decimal(|f.hashes|) + PreJoin(f.hashes)
    + "\n" + Decimal(|f.swarm|) + PreJoin(IntStrs(f.swarm))
  }

  lemma EncodeShape(f: File)
    ensures Encode(f) == f.name + Body(f) + "\n"
  {
    var ids := IntStrs(f.swarm);
    LinesShift(f.hashes);
    LinesShift(ids);
    ShiftTwice(f.name, Decimal(|f.hashes|), Lines(f.hashes), PreJoin(f.hashes),
               Decimal(|f.swarm|), Lines(ids), PreJoin(ids));
  }

  lemma ShiftTwice(name: String, h: String, l1: String, p1: String, s: String, l2: String, p2: String)
    requires "\n" + l1 == p1 + "\n" && "\n" + l2 == p2 + "\n"
    ensures name + "\n" + h + "\n" + l1 + s + "\n" + l2 == name + ("\n" + h + p1 + "\n" + s + p2) + "\n"
  {
    calc {
      name + "\n" + h + "\n" + l1 + s + "\n" + l2;
      name + "\n" + h + ("\n" + l1) + s + "\n" + l2;
      name + "\n" + h + (p1 + "\n") + s + "\n" + l2;
      name + "\n" + h + p1 + "\n" + s + ("\n" + l2);
      name + "\n" + h + p1 + "\n" + s + (p2 + "\n");
      name + ("\n" + h + p1 + "\n" + s + p2) + "\n";
    }
  }

  /**
   * What `deserialize` reconstructs: the name, a count and that many hashes,
   * a count and that many peer ids, each read by `>>` in stream order.
   * None when an extraction fails; anything after the last id is ignored.
   */
  function Decode(d: String): Option<File> {
    match ReadWord(d, 0)
    case None => None
    case Some((name, p1)) =>
      match ReadUnsigned(d, p1)
      case None => None
      case Some((numChunks, p2)) =>
        match ReadWords(d, p2, numChunks)
        case None => None
        case Some((hashes, p3)) =>
          match ReadUnsigned(d, p3)
          case None => None
          case Some((numPeers, p4)) =>
            match ReadInts(d, p4, numPeers)
            case None => None
            case Some((swarm, _)) => Some(File(name, hashes, swarm))
  }

  /** Every record the decoder produces is one the encoding can carry. */
  lemma DecodeTransmittable(d: String)
    ensures Decode(d).Some? ==> Transmittable(Decode(d).value)
  {
    if Decode(d).Some? {
      var (name, p1) := ReadWord(d, 0).value;
      var (numChunks, p2) := ReadUnsigned(d, p1).value;
      ReadWordToken(d, 0);
      ReadWordsTokens(d, p2, numChunks);
    }
  }

  /** The stages of a successful decode, as the stream is consumed. */
  lemma DecodeStages(d: String, name: String, p1: nat, numChunks: nat, p2: nat,
                     hashes: seq<String>, p3: nat, numPeers: nat, p4: nat,
                     swarm: seq<int>, p5: nat)
    requires p1 <= |d| && p2 <= |d| && p3 <= |d| && p4 <= |d|
    requires ReadWord(d, 0) == Some((name, p1))
    requires ReadUnsigned(d, p1) == Some((numChunks, p2))
    requires ReadWords(d, p2, numChunks) == Some((hashes, p3))
    requires ReadUnsigned(d, p3) == Some((numPeers, p4))
    requires ReadInts(d, p4, numPeers) == Some((swarm, p5))
    ensures Decode(d) == Some(File(name, hashes, swarm))
  {
  }

  /** Where the pieces of a record's text lie once the record is laid out at `a`. */
  lemma BodyAt(d: String, a: nat, f: File, p1: nat, p2: nat, p3: nat, p4: nat)
    requires At(d, a, f.name + Body(f))
    requires p1 == a + |f.name| && p2 == p1 + 1 + |Decimal(|f.hashes|)|
    requires p3 == p2 + |PreJoin(f.hashes)| && p4 == p3 + 1 + |Decimal(|f.swarm|)|
    ensures At(d, a, f.name) && At(d, p1, "\n") && At(d, p1 + 1, Decimal(|f.hashes|))
    ensures At(d, p2, PreJoin(f.hashes)) && At(d, p3, "\n") && At(d, p3 + 1, Decimal(|f.swarm|))
    ensures At(d, p4, PreJoin(IntStrs(f.swarm)))
  {
    var dh, dn := Decimal(|f.hashes|), Decimal(|f.swarm|);
    var ph, pi := PreJoin(f.hashes), PreJoin(IntStrs(f.swarm));
    AtSplit(d, a, f.name, Body(f), p1);
    AtSplit(d, p1, "\n" + dh + ph + "\n" + dn, pi, p4);
    AtSplit(d, p1, "\n" + dh + ph + "\n", dn, p3 + 1);
    AtSplit(d, p1, "\n" + dh + ph, "\n", p3);
    AtSplit(d, p1, "\n" + dh, ph, p2);
    AtSplit(d, p1, "\n", dh, p1 + 1);
  }

  /**
   * A record is read back from its text whatever whitespace precedes it and
   * whatever follows it, as long as a token boundary does.
   */
  lemma DecodeOf(d: String, a: nat, f: File, end: nat)
    requires Transmittable(f) && SpacesBetween(d, 0, a)
    requires At(d, a, f.name + Body(f)) && end == a + |f.name + Body(f)| && BoundaryAt(d, end)
    ensures Decode(d) == Some(f)
  {
    var p1 := a + |f.name|;
    var p2 := p1 + 1 + |Decimal(|f.hashes|)|;
    var p3 := p2 + |PreJoin(f.hashes)|;
    var p4 := p3 + 1 + |Decimal(|f.swarm|)|;
    BodyAt(d, a, f, p1, p2, p3, p4);
    AtChar(d, p3, "\n", 0);
    HashesRead(d, a, f, p1, p2, p3);
    SwarmRead(d, f, p3, p4, end);
    DecodeStages(d, f.name, p1, |f.hashes|, p2, f.hashes, p3, |f.swarm|, p4, f.swarm, end);
  }

  /** The name, the hash count and the hashes are extracted from where the record lays them out. */
  lemma HashesRead(d: String, a: nat, f: File, p1: nat, p2: nat, p3: nat)
    requires Transmittable(f) && SpacesBetween(d, 0, a)
    requires p1 == a + |f.name| && p2 == p1 + 1 + |Decimal(|f.hashes|)| && p3 == p2 + |PreJoin(f.hashes)|
    requires At(d, a, f.name) && At(d, p1, "\n") && At(d, p1 + 1, Decimal(|f.hashes|))
    requires At(d, p2, PreJoin(f.hashes)) && BoundaryAt(d, p3)
    ensures ReadWord(d, 0) == Some((f.name, p1))
    ensures ReadUnsigned(d, p1) == Some((|f.hashes|, p2))
    ensures ReadWords(d, p2, |f.hashes|) == Some((f.hashes, p3))
  {
    AtChar(d, p1, "\n", 0);
    LaidOutBoundary(d, p2, f.hashes, p3);
    ReadWordAt(d, 0, a, f.name);
    ReadUnsignedAt(d, p1, p1 + 1, |f.hashes|, p2);
    ReadWordsAt(d, p2, f.hashes, p3);
  }

  /** The peer count and the peer ids are extracted from where the record lays them out. */
  lemma SwarmRead(d: String, f: File, p3: nat, p4: nat, end: nat)
    requires p4 == p3 + 1 + |Decimal(|f.swarm|)| && end == p4 + |PreJoin(IntStrs(f.swarm))|
    requires At(d, p3, "\n") && At(d, p3 + 1, Decimal(|f.swarm|))
    requires At(d, p4, PreJoin(IntStrs(f.swarm))) && BoundaryAt(d, end)
    ensures ReadUnsigned(d, p3) == Some((|f.swarm|, p4))
    ensures ReadInts(d, p4, |f.swarm|) == Some((f.swarm, end))
  {
    AtChar(d, p3, "\n", 0);
    LaidOutBoundary(d, p4, IntStrs(f.swarm), end);
    ReadUnsignedAt(d, p3, p3 + 1, |f.swarm|, p4);
    ReadIntsAt(d, p4, f.swarm, end);
  }

  /** deserialize(serialize(f)) == f, for records with no empty or whitespace-bearing name or hash. */
  lemma RoundTrip(f: File)
    requires Transmittable(f)
    ensures Decode(Encode(f)) == Some(f)
  {
    var e, x := Encode(f), f.name + Body(f);
    EncodeShape(f);
    AtWhole(e);
    AtSplit(e, 0, x, "\n", |x|);
    AtChar(e, |x|, "\n", 0);
    DecodeOf(e, 0, f, |x|);
  }

  // ---------------------------------------------------------------------
  // A sequence of records

  /** A text framed by its exact length in characters. */
  function Framed(e: String): String {
    Decimal(|e|) + "\n" + e
  }

  /** Texts framed one after the other. */
  function Frames(es: seq<String>): String {
    if es == [] then [] else Framed(es[0]) + Frames(es[1..])
  }

  /** The encoding of each record, in order. */
  function Encodings(fs: seq<File>): (es: seq<String>)
    ensures |es| == |fs|
  {
    if fs == [] then [] else [Encode(fs[0])] + Encodings(fs[1..])
  }

  /** The encoding of a sequence: the record count, then each record framed by its length. */
  function EncodeVector(fs: seq<File>): String {
    Decimal(|fs|) + "\n" + Frames(Encodings(fs))
  }

  lemma {:induction false} FramesSnoc(es: seq<String>, e: String)
    ensures Frames(es + [e]) == Frames(es) + Framed(e)
  {
    if es == [] {
      assert [e][1..] == [];
    } else {
      assert (es + [e])[1..] == es[1..] + [e];
      FramesSnoc(es[1..], e);
    }
  }

  lemma {:induction false} EncodingsSnoc(fs: seq<File>, f: File)
    ensures Encodings(fs + [f]) == Encodings(fs) + [Encode(f)]
  {
    if fs == [] {
      assert [f][1..] == [];
    } else {
      assert (fs + [f])[1..] == fs[1..] + [f];
      EncodingsSnoc(fs[1..], f);
    }
  }

  /** Puts `xs` in front of a successful result. */
  function Prefix<T>(xs: seq<T>, r: Option<seq<T>>): Option<seq<T>> {
    match r
    case None => None
    case Some(ys) => Some(xs + ys)
  }

  lemma PrefixNil<T>(r: Option<seq<T>>)
    ensures Prefix([], r) == r
  {
    if r.Some? {
      assert [] + r.value == r.value;
    }
  }

  lemma PrefixTwice<T>(xs: seq<T>, ys: seq<T>, r: Option<seq<T>>)
    ensures Prefix(xs, Prefix(ys, r)) == Prefix(xs + ys, r)
  {
    if r.Some? {
      assert xs + (ys + r.value) == xs + ys + r.value;
    }
  }

  /**
   * One frame at position `p`: a length read by `>>`, then exactly that many
   * raw characters taken from where the length token ended. None when the
   * length is missing or runs past the end of the stream.
   */
  function NextFrame(s: String, p: nat): (r: Option<(String, nat)>)
    requires p <= |s|
    ensures r.Some? ==> p < r.value.1 <= |s|
  {
    match ReadUnsigned(s, p)
    case None => None
    case Some((size, q)) =>
      if size > |s| - q then None else Some((Chars(s, q, q + size), q + size))
  }

  /** The windows of `n` frames, one after the other, from position `p`. */
  function ReadFrames(s: String, p: nat, n: nat): (r: Option<seq<String>>)
    requires p <= |s|
    ensures r.Some? ==> |r.value| == n
    decreases n
  {
    if n == 0 then Some([])
    else
      match NextFrame(s, p)
      case None => None
      case Some((w, q)) => Prefix([w], ReadFrames(s, q, n - 1))
  }

  /** Each window decoded as one record; None as soon as one does not decode. */
  function DecodeAll(ws: seq<String>): (r: Option<seq<File>>)
    ensures r.Some? ==> |r.value| == |ws|
  {
    if ws == [] then Some([])
    else
      match Decode(ws[0])
      case None => None
      case Some(f) => Prefix([f], DecodeAll(ws[1..]))
  }

  /** `n` framed records from position `p`: every frame read, every window decoded. */
  function ReadRecords(s: String, p: nat, n: nat): (r: Option<seq<File>>)
    requires p <= |s|
  {
    match ReadFrames(s, p, n)
    case None => None
    case Some(ws) => DecodeAll(ws)
  }

  /** What `deserialize_vector` reconstructs: a count, then that many framed records. */
  function DecodeVector(d: String): Option<seq<File>> {
    match ReadUnsigned(d, 0)
    case None => None
    case Some((numFiles, p)) => ReadRecords(d, p, numFiles)
  }

  /**
   * The window read for a frame holding `e`: it starts at the newline left
   * unread after the length, so it stops one character short of `e`.
   */
  function Window(e: String): (w: String)
    ensures |w| == |e|
  {
    ("\n" + e)[..|e|]
  }

  function Windows(es: seq<String>): (ws: seq<String>)
    ensures |ws| == |es|
  {
    if es == [] then [] else [Window(es[0])] + Windows(es[1..])
  }

  /**
   * The character a window drops is the record's final newline, so the
   * window `deserialize_vector` hands to `deserialize` still decodes to the
   * record.
   */
  lemma RecordWindow(f: File)
    requires Transmittable(f)
    ensures |Encode(f)| > 0 && Encode(f)[|Encode(f)| - 1] == '\n'
    ensures Decode(Window(Encode(f))) == Some(f)
  {
    var e, x := Encode(f), f.name + Body(f);
    EncodeShape(f);
    var w := Window(e);
    assert w == "\n" + x;
    AtWhole(w);
    AtSplit(w, 0, "\n", x, 1);
    AtChar(w, 0, "\n", 0);
    DecodeOf(w, 1, f, |w|);
  }

  /** A text that ends a line: the whitespace the next frame's length is read after. */
  predicate EndsLine(e: String) {
    |e| > 0 && e[|e| - 1] == '\n'
  }

  /** A frame laid out at `p` is read back, and the read stops at the newline ending its text. */
  lemma NextFrameAt(s: String, i: nat, p: nat, e: String, q: nat, end: nat)
    requires EndsLine(e) && SpacesBetween(s, i, p) && At(s, p, Framed(e))
    requires q == p + |Decimal(|e|)| && end == q + |e|
    ensures NextFrame(s, i) == Some((Window(e), end)) && SpacesBetween(s, end, end + 1)
  {
    AtSplit(s, p, Decimal(|e|) + "\n", e, q + 1);
    AtSplit(s, p, Decimal(|e|), "\n", q);
    AtChar(s, q, "\n", 0);
    AtChar(s, q + 1, e, |e| - 1);
    ReadUnsignedAt(s, i, p, |e|, q);
    WindowAt(s, q, e);
  }

  /** The characters of the window are those of the newline and the text after it. */
  lemma WindowAt(s: String, q: nat, e: String)
    requires At(s, q, "\n") && At(s, q + 1, e)
    ensures Chars(s, q, q + |e|) == Window(e)
  {
    forall k | 0 <= k < |e|
      ensures Chars(s, q, q + |e|)[k] == Window(e)[k]
    {
      if k == 0 {
        AtChar(s, q, "\n", 0);
      } else {
        AtChar(s, q + 1, e, k - 1);
      }
    }
  }

  lemma ReadFramesCons(s: String, i: nat, n: nat, w: String, q: nat)
    requires n > 0 && i <= |s| && q <= |s| && NextFrame(s, i) == Some((w, q))
    ensures ReadFrames(s, i, n) == Prefix([w], ReadFrames(s, q, n - 1))
  {
  }

  /** Texts framed one after the other are read back as their windows, in order. */
  lemma {:induction false} ReadFramesAt(s: String, i: nat, p: nat, es: seq<String>)
    requires forall k :: 0 <= k < |es| ==> EndsLine(es[k])
    requires SpacesBetween(s, i, p) && At(s, p, Frames(es))
    ensures ReadFrames(s, i, |es|) == Some(Windows(es))
    decreases |es|
  {
    if es != [] {
      var e := es[0];
      var next := p + |Framed(e)| - 1;
      AtSplit(s, p, Framed(e), Frames(es[1..]), next + 1);
      NextFrameAt(s, i, p, e, p + |Decimal(|e|)|, next);
      ReadFramesAt(s, next, next + 1, es[1..]);
      ReadFramesCons(s, i, |es|, Window(e), next);
    }
  }

  /** The windows of encoded records decode to the records. */
  lemma {:induction false} DecodeWindows(fs: seq<File>)
    requires AllTransmittable(fs)
    ensures DecodeAll(Windows(Encodings(fs))) == Some(fs)
  {
    if fs != [] {
      var ws := Windows(Encodings(fs));
      WindowsHead(fs);
      RecordWindow(fs[0]);
      DecodeAllCons(ws, fs[0]);
      DecodeWindows(fs[1..]);
      HeadTail(fs);
    }
  }

  lemma WindowsHead(fs: seq<File>)
    requires fs != []
    ensures Windows(Encodings(fs))[0] == Window(Encode(fs[0]))
    ensures Windows(Encodings(fs))[1..] == Windows(Encodings(fs[1..]))
  {
    var es := Encodings(fs);
    assert es[0] == Encode(fs[0]) && es[1..] == Encodings(fs[1..]);
  }

  lemma DecodeAllCons(ws: seq<String>, f: File)
    requires ws != [] && Decode(ws[0]) == Some(f)
    ensures DecodeAll(ws) == Prefix([f], DecodeAll(ws[1..]))
  {
  }

  lemma {:induction false} EncodingsEndLines(fs: seq<File>)
    requires AllTransmittable(fs)
    ensures forall k :: 0 <= k < |fs| ==> EndsLine(Encodings(fs)[k])
  {
    if fs != [] {
      RecordWindow(fs[0]);
      EncodingsEndLines(fs[1..]);
    }
  }

  /** deserialize_vector(serialize_vector(fs)) == fs, the empty sequence included. */
  lemma VectorRoundTrip(fs: seq<File>)
    requires AllTransmittable(fs)
    ensures DecodeVector(EncodeVector(fs)) == Some(fs)
  {
    var d, n, es := EncodeVector(fs), Decimal(|fs|), Encodings(fs);
    AtWhole(d);
    AtSplit(d, 0, n + "\n", Frames(es), |n| + 1);
    AtSplit(d, 0, n, "\n", |n|);
    AtChar(d, |n|, "\n", 0);
    ReadUnsignedAt(d, 0, 0, |fs|, |n|);
    EncodingsEndLines(fs);
    ReadFramesAt(d, |n|, |n| + 1, es);
    DecodeWindows(fs);
  }

  /** Every record the decoder produces is one the encoding can carry. */
  lemma {:induction false} DecodeAllTransmittable(ws: seq<String>)
    ensures DecodeAll(ws).Some? ==> AllTransmittable(DecodeAll(ws).value)
  {
    if ws != [] {
      DecodeTransmittable(ws[0]);
      DecodeAllTransmittable(ws[1..]);
    }
  }

  lemma {:induction false} DecodeAllSnoc(ws: seq<String>, w: String, fs: seq<File>, f: File)
    requires DecodeAll(ws) == Some(fs) && Decode(w) == Some(f)
    ensures DecodeAll(ws + [w]) == Some(fs + [f])
  {
    if ws == [] {
      assert [w][1..] == [] && ws + [w] == [w];
      assert DecodeAll([w]) == Prefix([f], DecodeAll([]));
      assert fs + [f] == [f] + [];
    } else {
      var g := Decode(ws[0]).value;
      assert (ws + [w])[0] == ws[0] && (ws + [w])[1..] == ws[1..] + [w];
      DecodeAllSnoc(ws[1..], w, fs[1..], f);
      assert fs == [g] + fs[1..];
      assert [g] + (fs[1..] + [f]) == fs + [f];
    }
  }

  /** One window that does not decode spoils the whole sequence. */
  lemma {:induction false} DecodeAllStuck(ws: seq<String>, w: String, rest: seq<String>)
    requires Decode(w).None?
    ensures DecodeAll(ws + [w] + rest).None?
  {
    var all := ws + [w] + rest;
    if ws == [] {
      assert all[0] == w;
    } else {
      assert all[0] == ws[0] && all[1..] == ws[1..] + [w] + rest;
      DecodeAllStuck(ws[1..], w, rest);
    }
  }

  // ---------------------------------------------------------------------
  // The stream-driven implementations

  /** serialize: appends each line to an output buffer. */
  method Serialize(f: File) returns (out: String)
    ensures out == Encode(f)
  {
    out := f.name + "\n";
    out := out + Decimal(|f.hashes|) + "\n";
    var header := out;
    for i := 0 to |f.hashes|
      invariant out == header + Lines(f.hashes[..i])
    {
      LinesSnoc(f.hashes[..i], f.hashes[i]);
      assert f.hashes[..i + 1] == f.hashes[..i] + [f.hashes[i]];
      Associate(header, Lines(f.hashes[..i]), f.hashes[i] + "\n");
      out := out + (f.hashes[i] + "\n");
    }
    assert f.hashes[..|f.hashes|] == f.hashes;
    out := out + Decimal(|f.swarm|) + "\n";
    var middle := out;
    for i := 0 to |f.swarm|
      invariant out == middle + Lines(IntStrs(f.swarm[..i]))
    {
      LinesSnoc(IntStrs(f.swarm[..i]), IntDecimal(f.swarm[i]));
      IntStrsSnoc(f.swarm[..i], f.swarm[i]);
      assert f.swarm[..i + 1] == f.swarm[..i] + [f.swarm[i]];
      Associate(middle, Lines(IntStrs(f.swarm[..i])), IntDecimal(f.swarm[i]) + "\n");
      out := out + (IntDecimal(f.swarm[i]) + "\n");
    }
    assert f.swarm[..|f.swarm|] == f.swarm;
  }

  /** serialize_vector: the count, then for each record its length and its text. */
  method SerializeVector(fs: seq<File>) returns (out: String)
    ensures out == EncodeVector(fs)
  {
    var header := Decimal(|fs|) + "\n";
    out := header;
    for i := 0 to |fs|
      invariant out == header + Frames(Encodings(fs[..i]))
    {
      var serialized := Serialize(fs[i]);
      FramesStep(fs, i, serialized);
      Associate(header, Frames(Encodings(fs[..i])), Framed(serialized));
      out := out + Framed(serialized);
    }
    assert fs[..|fs|] == fs;
  }

  /** The frames of one more record are those before it followed by its own. */
  lemma FramesStep(fs: seq<File>, i: nat, e: String)
    requires i < |fs| && e == Encode(fs[i])
    ensures Frames(Encodings(fs[..i + 1])) == Frames(Encodings(fs[..i])) + Framed(e)
  {
    assert fs[..i + 1] == fs[..i] + [fs[i]];
    EncodingsSnoc(fs[..i], fs[i]);
    FramesSnoc(Encodings(fs[..i]), e);
  }

  lemma Associate(a: String, b: String, c: String)
    ensures a + b + c == a + (b + c)
  {
  }

  /** The hash loop of deserialize: `n` words read into a vector resized to `n`. */
  method ReadHashes(s: String, p: nat, n: nat) returns (r: Option<(seq<String>, nat)>)
    requires p <= |s|
    ensures r == ReadWords(s, p, n)
  {
    var hashes: seq<String> := seq(n, _ => []);
    var cur: nat := p;
    ghost var done := [];
    PrependNil(ReadWords(s, p, n));
    for i := 0 to n
      invariant cur <= |s| && |hashes| == n && hashes[..i] == done
      invariant ReadWords(s, p, n) == Prepend(done, ReadWords(s, cur, n - i))
    {
      ReadWordsAdvance(s, p, n, i, done, cur);
      match ReadWord(s, cur) {
        case None =>
          return None;
        case Some((w, next)) =>
          UpdateTake(hashes, i, w);
          hashes := hashes[i := w];
          done := done + [w];
          cur := next;
      }
    }
    assert done + [] == hashes[..n] == hashes;
    return Some((hashes, cur));
  }

  /** The peer-id loop of deserialize: `n` ints read into a vector resized to `n`. */
  method ReadIds(s: String, p: nat, n: nat) returns (r: Option<(seq<int>, nat)>)
    requires p <= |s|
    ensures r == ReadInts(s, p, n)
  {
    var swarm: seq<int> := seq(n, _ => 0);
    var cur: nat := p;
    ghost var done := [];
    PrependNil(ReadInts(s, p, n));
    for i := 0 to n
      invariant cur <= |s| && |swarm| == n && swarm[..i] == done
      invariant ReadInts(s, p, n) == Prepend(done, ReadInts(s, cur, n - i))
    {
      ReadIntsAdvance(s, p, n, i, done, cur);
      match ReadInt(s, cur) {
        case None =>
          return None;
        case Some((x, next)) =>
          UpdateTake(swarm, i, x);
          swarm := swarm[i := x];
          done := done + [x];
          cur := next;
      }
    }
    assert done + [] == swarm[..n] == swarm;
    return Some((swarm, cur));
  }

  /** deserialize: the name, the hash count and hashes, the peer count and ids, in stream order. */
  method Deserialize(d: String) returns (r: Option<File>)
    ensures r == Decode(d)
  {
    match ReadWord(d, 0) {
      case None => return None;
      case Some((name, p1)) =>
        match ReadUnsigned(d, p1) {
          case None => return None;
          case Some((numChunks, p2)) =>
            var hashes := ReadHashes(d, p2, numChunks);
            match hashes {
              case None => return None;
              case Some((hs, p3)) =>
                match ReadUnsigned(d, p3) {
                  case None => return None;
                  case Some((numPeers, p4)) =>
                    var swarm := ReadIds(d, p4, numPeers);
                    match swarm {
                      case None => return None;
                      case Some((ids, _)) => return Some(File(name, hs, ids));
                    }
                }
            }
        }
    }
  }

  /** One length and the window of exactly that many raw characters after it, as `iss.read` takes it. */
  method ReadFrame(s: String, p: nat) returns (r: Option<(String, nat)>)
    requires p <= |s|
    ensures r == NextFrame(s, p)
  {
    match ReadUnsigned(s, p) {
      case None => return None;
      case Some((fileSize, q)) =>
        if fileSize > |s| - q {
          return None;
        }
        var serializedFile := Chars(s, q, q + fileSize);
        return Some((serializedFile, q + fileSize));
    }
  }

  /**
   * The record loop of deserialize_vector: for each of `n` records a framed
   * window, and the record decoded from it into a vector filled by index.
   */
  method ReadFiles(s: String, p: nat, n: nat) returns (r: Option<seq<File>>)
    requires p <= |s|
    ensures r == ReadRecords(s, p, n)
  {
    var files := seq(n, _ => File([], [], []));
    var cur: nat := p;
    ghost var windows := [];
    PrefixNil(ReadFrames(s, p, n));
    for i := 0 to n
      invariant cur <= |s| && |windows| == i
      invariant |files| == n && DecodeAll(windows) == Some(files[..i])
      invariant ReadFrames(s, p, n) == Prefix(windows, ReadFrames(s, cur, n - i))
    {
      FramesAdvance(s, p, n, i, windows, cur);
      var frame := ReadFrame(s, cur);
      match frame {
        case None =>
          return None;
        case Some((serializedFile, next)) =>
          var decoded := Deserialize(serializedFile);
          match decoded {
            case None =>
              DecodeFails(s, p, n, i, windows, serializedFile, next);
              return None;
            case Some(f) =>
              DecodeAllSnoc(windows, serializedFile, files[..i], f);
              UpdateTake(files, i, f);
              files := files[i := f];
              windows := windows + [serializedFile];
              cur := next;
          }
      }
    }
    FramesDone(s, p, n, windows, cur);
    assert files[..n] == files;
    return Some(files);
  }

  /** One more frame read by a loop that started at `p0` and has already read `windows`, reaching `p`. */
  lemma FramesAdvance(s: String, p0: nat, n: nat, i: nat, windows: seq<String>, p: nat)
    requires i < n && p0 <= |s| && p <= |s|
    requires ReadFrames(s, p0, n) == Prefix(windows, ReadFrames(s, p, n - i))
    ensures NextFrame(s, p).None? ==> ReadFrames(s, p0, n).None?
    ensures NextFrame(s, p).Some? ==>
      ReadFrames(s, p0, n) == Prefix(windows + [NextFrame(s, p).value.0], ReadFrames(s, NextFrame(s, p).value.1, n - (i + 1)))
  {
    if NextFrame(s, p).Some? {
      var (w, q) := NextFrame(s, p).value;
      PrefixTwice(windows, [w], ReadFrames(s, q, n - (i + 1)));
    }
  }

  /** A window that does not decode, wherever it comes, leaves no records at all. */
  lemma DecodeFails(s: String, p: nat, n: nat, i: nat, windows: seq<String>, w: String, q: nat)
    requires p <= |s| && q <= |s| && i < n && Decode(w).None?
    requires ReadFrames(s, p, n) == Prefix(windows + [w], ReadFrames(s, q, n - (i + 1)))
    ensures ReadRecords(s, p, n).None?
  {
    var later := ReadFrames(s, q, n - (i + 1));
    if later.Some? {
      DecodeAllStuck(windows, w, later.value);
    }
  }

  lemma FramesDone(s: String, p: nat, n: nat, windows: seq<String>, q: nat)
    requires p <= |s| && q <= |s|
    requires ReadFrames(s, p, n) == Prefix(windows, ReadFrames(s, q, n - n))
    ensures ReadRecords(s, p, n) == DecodeAll(windows)
  {
    assert windows + [] == windows;
  }

  /** deserialize_vector: the record count, then that many framed records. */
  method DeserializeVector(d: String) returns (r: Option<seq<File>>)
    ensures r == DecodeVector(d)
  {
    match ReadUnsigned(d, 0) {
      case None => return None;
      case Some((numFiles, p)) => r := ReadFiles(d, p, numFiles);
    }
  }
}
