// A peer (src/peer.cpp): the set of chunk hashes it owns, seeded from the
// files it starts with; a download thread that fetches every chunk of each
// needed file from random swarm members; an upload thread that answers
// chunk requests until the tracker's shutdown notice arrives.
//
// The network and `rand()` are replaced by oracle inputs: what the tracker
// and the other peers answer, and the number `rand()` returns.
module Peer {
  import opened Utils
  import opened Text
  import opened FileCodec

  /** A message the peer sends. */
  datatype Outgoing =
    | ToTracker(tag: int, name: String)         // a swarm request, a swarm update or the finished notice
    | ChunkRequest(dest: int, hash: String)     // asks `dest` for one chunk
    | ChunkReply(dest: int, value: int)         // answers a chunk request with ACK or NACK

  // ---------------------------------------------------------------------
  // Seeding the owned set

  /** The hashes of one file. */
  function Chunks(f: File): set<String> {
    Span(f.hashes, 0, |f.hashes|)
  }

  /** Every hash of every file in `fs`. */
  function HashesOf(fs: seq<File>): set<String> {
    if fs == [] then {} else HashesOf(fs[..|fs| - 1]) + Chunks(fs[|fs| - 1])
  }

  /** A hash is seeded exactly when it is one of the hashes of an owned file. */
  lemma {:induction false} HashesOfExactly(fs: seq<File>, h: String)
    ensures h in HashesOf(fs) <==> exists i, k :: 0 <= i < |fs| && 0 <= k < |fs[i].hashes| && h == fs[i].hashes[k]
  {
    if fs != [] {
      var init := fs[..|fs| - 1];
      HashesOfExactly(init, h);
      if h in HashesOf(fs) {
        if h !in HashesOf(init) {
          var k :| 0 <= k < |fs[|fs| - 1].hashes| && h == fs[|fs| - 1].hashes[k];
          assert h == fs[|fs| - 1].hashes[k];
        } else {
          var i, k :| 0 <= i < |init| && 0 <= k < |init[i].hashes| && h == init[i].hashes[k];
          assert fs[i] == init[i];
        }
      } else {
        forall i, k | 0 <= i < |fs| && 0 <= k < |fs[i].hashes|
          ensures h != fs[i].hashes[k]
        {
          if i < |init| {
            assert fs[i] == init[i];
          }
        }
      }
    }
  }

  lemma HashesOfSnoc(fs: seq<File>, i: nat)
    requires i < |fs|
    ensures HashesOf(fs[..i + 1]) == HashesOf(fs[..i]) + Chunks(fs[i])
  {
    assert fs[..i + 1][..i] == fs[..i];
  }

  // ---------------------------------------------------------------------
  // The acquisition loop

  /**
   * What one pass of the download loop receives: the swarm the tracker
   * returns if the swarm is refreshed, the number `rand()` returns, and the
   * answer of the chosen peer if a chunk is requested.
   */
  datatype Attempt = Attempt(update: seq<int>, draw: nat, reply: int)

  /** The download loop's state: the file, the owned set, the chunk index, the download count, and every message sent. */
  datatype Download = Download(file: File, owned: set<String>, i: nat, count: nat, sent: seq<Outgoing>)

  /** The swarm is refreshed when it is empty or the count of chunks downloaded is a multiple of ten. */
  predicate Refresh(d: Download) {
    |d.file.swarm| == 0 || d.count % 10 == 0
  }

  /** update_swarm's effect on the file: only the swarm is replaced. */
  function WithSwarm(f: File, peers: seq<int>): (f': File)
    ensures f'.name == f.name && f'.hashes == f.hashes && f'.swarm == peers
  {
    f.(swarm := peers)
  }

  /** The swarm after the refresh this pass may make. */
  function Refreshed(d: Download, a: Attempt): File {
    if Refresh(d) then WithSwarm(d.file, a.update) else d.file
  }

  /** The peer this pass picks: the random number reduced modulo the swarm size. */
  function Chosen(d: Download, a: Attempt): int
    requires Refresh(d) ==> a.update != []
  {
    var f := Refreshed(d, a);
    f.swarm[a.draw % |f.swarm|]
  }

  /**
   * One pass of the download loop for chunk `d.i`: refresh the swarm if
   * due, pick a peer, and skip the pass if it is this peer; otherwise ask
   * it for the chunk, and only on ACK own the chunk and move to the next.
   */
  function Try(d: Download, a: Attempt, rank: int): (d': Download)
    requires d.i < |d.file.hashes|
    requires Refresh(d) ==> a.update != []
  {
    var f := Refreshed(d, a);
    var log := if Refresh(d) then d.sent + [ToTracker(SwarmUpdateTag, d.file.name)] else d.sent;
    var peer := Chosen(d, a);
    if peer == rank then d.(file := f, sent := log)
    else
      var log' := log + [ChunkRequest(peer, f.hashes[d.i])];
      if a.reply != Ack then d.(file := f, sent := log')
      else Download(f, d.owned + {f.hashes[d.i]}, d.i + 1, d.count + 1, log')
  }

  /** Every swarm the tracker returns is non-empty: `rand() % 0` would be undefined. */
  predicate Answered(attempts: seq<Attempt>) {
    forall k :: 0 <= k < |attempts| ==> attempts[k].update != []
  }

  /**
   * download_file's loop on the answers `attempts`, one per pass: it runs
   * until every chunk is owned, or until the answers run out. Returns the
   * final state and how many passes were made.
   */
  function Acquire(d: Download, attempts: seq<Attempt>, rank: int): (res: (Download, nat))
    requires Answered(attempts)
    ensures res.1 <= |attempts|
    decreases |attempts|
  {
    if d.i >= |d.file.hashes| || attempts == [] then (d, 0)
    else
      var (d', n) := Acquire(Try(d, attempts[0], rank), attempts[1..], rank);
      (d', n + 1)
  }

  /**
   * A pass moves to the next chunk, and owns it, exactly when the chosen
   * peer is not this one and it answered ACK; otherwise the index, the
   * count and the owned set are unchanged.
   */
  lemma TryAdvancesOnAck(d: Download, a: Attempt, rank: int)
    requires d.i < |d.file.hashes|
    requires Refresh(d) ==> a.update != []
    ensures var d' := Try(d, a, rank);
      (d'.i == d.i + 1 <==> Chosen(d, a) != rank && a.reply == Ack) &&
      (d'.i == d.i + 1 ==> d'.owned == d.owned + {d.file.hashes[d.i]} && d'.count == d.count + 1) &&
      (d'.i != d.i + 1 ==> d'.i == d.i && d'.owned == d.owned && d'.count == d.count)
  {
  }

  /**
   * A pass asks the tracker for the swarm exactly when the swarm is empty
   * or the count is a multiple of ten, and then adopts the returned swarm.
   */
  lemma TryRefreshes(d: Download, a: Attempt, rank: int)
    requires d.i < |d.file.hashes|
    requires Refresh(d) ==> a.update != []
    ensures var d' := Try(d, a, rank);
      (Refresh(d) <==> |d'.sent| > |d.sent| && d'.sent[|d.sent|] == ToTracker(SwarmUpdateTag, d.file.name)) &&
      (Refresh(d) ==> d'.file.swarm == a.update) && (!Refresh(d) ==> d'.file == d.file)
  {
  }

  /** A pass that gets no chunk while the count is a multiple of ten leaves the next pass to refresh again. */
  lemma RetryRefreshesAgain(d: Download, a: Attempt, rank: int)
    requires d.i < |d.file.hashes| && d.count % 10 == 0
    requires a.update != []
    requires Try(d, a, rank).i == d.i
    ensures Refresh(Try(d, a, rank))
  {
  }

  /** The messages of the download loop: swarm updates for this file, and chunk requests never to this peer. */
  predicate Polite(m: Outgoing, name: String, rank: int) {
    m == ToTracker(SwarmUpdateTag, name) || (m.ChunkRequest? && m.dest != rank)
  }

  /** The chunks of `hashes` from index `a` up to `b`. */
  function Span(hashes: seq<String>, a: nat, b: nat): set<String>
    requires a <= b <= |hashes|
  {
    set k | a <= k < b :: hashes[k]
  }

  lemma SpanStep(hashes: seq<String>, a: nat, b: nat)
    requires a < b <= |hashes|
    ensures Span(hashes, a, b) == {hashes[a]} + Span(hashes, a + 1, b)
  {
    assert forall h :: h in Span(hashes, a, b) ==> h == hashes[a] || h in Span(hashes, a + 1, b);
  }

  /**
   * What the loop keeps: the file's name and hashes; the count equals the
   * chunks fetched; the owned set gains exactly the chunks from the start
   * index to the final one; messages are only appended, and each is a swarm
   * update or a chunk request to another peer. The loop stops only with
   * every chunk owned or the answers exhausted.
   */
  lemma {:induction false} AcquireKeeps(d: Download, attempts: seq<Attempt>, rank: int)
    requires Answered(attempts)
    requires d.i <= |d.file.hashes|
    ensures var (d', n) := Acquire(d, attempts, rank);
      d'.file.name == d.file.name && d'.file.hashes == d.file.hashes &&
      d.i <= d'.i <= |d.file.hashes| && d'.count - d.count == d'.i - d.i &&
      d'.owned == d.owned + Span(d.file.hashes, d.i, d'.i) &&
      (d'.i == |d.file.hashes| || n == |attempts|) &&
      d.sent <= d'.sent && (forall k :: |d.sent| <= k < |d'.sent| ==> Polite(d'.sent[k], d.file.name, rank))
    decreases |attempts|
  {
    if d.i < |d.file.hashes| && attempts != [] {
      var d1 := Try(d, attempts[0], rank);
      TryAdvancesOnAck(d, attempts[0], rank);
      AcquireKeeps(d1, attempts[1..], rank);
      var d' := Acquire(d, attempts, rank).0;
      if d1.i == d.i + 1 {
        SpanStep(d.file.hashes, d.i, d'.i);
      }
    }
  }

  /**
   * A download from the first chunk that stops with answers left over has
   * reached the last chunk; and whenever it reaches the last chunk, however
   * many retries it took, it owns every chunk of the file and has counted
   * each one.
   */
  lemma OwnsEveryChunk(f: File, owned: set<String>, sent: seq<Outgoing>, attempts: seq<Attempt>, rank: int)
    requires Answered(attempts)
    ensures var (d', n) := Acquire(Download(f, owned, 0, 0, sent), attempts, rank);
      n < |attempts| ==> d'.i == |f.hashes|
    ensures var d' := Acquire(Download(f, owned, 0, 0, sent), attempts, rank).0;
      d'.i == |f.hashes| ==> d'.count == |f.hashes| && forall k :: 0 <= k < |f.hashes| ==> f.hashes[k] in d'.owned
  {
    AcquireKeeps(Download(f, owned, 0, 0, sent), attempts, rank);
  }

  // ---------------------------------------------------------------------
  // Answering chunk requests

  /** A message the upload thread may receive: its sender, its tag and the hash it carries. */
  datatype Incoming = Incoming(source: int, tag: int, hash: String)

  /**
   * upload_thread_func on the messages addressed to this peer, in order:
   * it takes only chunk-request-tagged ones; one from the tracker ends the
   * loop; any other gets ACK if the hash is owned and NACK if not. Returns
   * the replies and whether the shutdown notice arrived.
   */
  function Answers(owned: set<String>, ms: seq<Incoming>): (res: (seq<Outgoing>, bool))
    ensures |res.0| <= |ms|
  {
    if ms == [] then ([], false)
    else if ms[0].tag != ChunkRequestTag then Answers(owned, ms[1..])
    else if ms[0].source == TrackerRank then ([], true)
    else
      var (rest, stopped) := Answers(owned, ms[1..]);
      ([ChunkReply(ms[0].source, if ms[0].hash in owned then Ack else Nack)] + rest, stopped)
  }

  /** The chunk requests among `ms` before the first one from the tracker. */
  function RequestsBeforeStop(ms: seq<Incoming>): (rs: seq<Incoming>)
    ensures |rs| <= |ms|
    ensures forall k :: 0 <= k < |rs| ==> rs[k].tag == ChunkRequestTag && rs[k].source != TrackerRank
  {
    if ms == [] then []
    else if ms[0].tag != ChunkRequestTag then RequestsBeforeStop(ms[1..])
    else if ms[0].source == TrackerRank then []
    else [ms[0]] + RequestsBeforeStop(ms[1..])
  }

  /**
   * One reply per chunk request before the shutdown notice, in order, to
   * its sender, with ACK exactly when the hash is owned; none to the
   * tracker.
   */
  lemma {:induction false} AnswersExactly(owned: set<String>, ms: seq<Incoming>)
    ensures var (rs, _) := Answers(owned, ms);
      |rs| == |RequestsBeforeStop(ms)| &&
      forall k :: 0 <= k < |rs| ==>
        rs[k] == ChunkReply(RequestsBeforeStop(ms)[k].source, if RequestsBeforeStop(ms)[k].hash in owned then Ack else Nack)
  {
    if ms != [] {
      AnswersExactly(owned, ms[1..]);
    }
  }

  /** The loop stops exactly when a chunk-request-tagged message from the tracker arrives. */
  lemma {:induction false} AnswersStop(owned: set<String>, ms: seq<Incoming>)
    ensures Answers(owned, ms).1 <==> exists k :: 0 <= k < |ms| && ms[k].tag == ChunkRequestTag && ms[k].source == TrackerRank
  {
    if ms != [] {
      AnswersStop(owned, ms[1..]);
      if ms[0].tag == ChunkRequestTag && ms[0].source == TrackerRank {
        assert ms[0].tag == ChunkRequestTag && ms[0].source == TrackerRank;
      } else {
        assert forall k :: 1 <= k < |ms| ==> ms[k] == ms[1..][k - 1];
      }
    }
  }

  /**
   * The tracker's shutdown notice carries the chunk-request tag, so the
   * upload thread receives it, and stops, whatever messages surround it.
   */
  lemma ShutdownReachesUploader(owned: set<String>, pre: seq<Incoming>, h: String, post: seq<Incoming>)
    ensures AllFinishedTag == ChunkRequestTag
    ensures Answers(owned, pre + [Incoming(TrackerRank, AllFinishedTag, h)] + post).1
  {
    var ms := pre + [Incoming(TrackerRank, AllFinishedTag, h)] + post;
    assert ms[|pre|] == Incoming(TrackerRank, AllFinishedTag, h);
    AnswersStop(owned, ms);
  }

  // ---------------------------------------------------------------------
  // The download thread

  /** One needed file: request its record, then run the download loop on it from the first chunk. */
  function FetchOne(owned: set<String>, sent: seq<Outgoing>, name: String, record: File,
                    attempts: seq<Attempt>, rank: int): (d: Download)
    requires Answered(attempts)
  {
    Acquire(Download(record, owned, 0, 0, sent + [ToTracker(SwarmRequestTag, name)]), attempts, rank).0
  }

  /** Fetching one file requests that file and nothing else, and does not send the finished notice. */
  lemma FetchOneRequests(owned: set<String>, sent: seq<Outgoing>, name: String, record: File,
                         attempts: seq<Attempt>, rank: int)
    requires Answered(attempts)
    ensures var d := FetchOne(owned, sent, name, record, attempts, rank);
      sent <= d.sent && Requested(d.sent[|sent|..]) == [name] && ToTracker(ClientFinishedTag, "") !in d.sent[|sent|..]
  {
    var start := sent + [ToTracker(SwarmRequestTag, name)];
    var log := FetchOne(owned, sent, name, record, attempts, rank).sent;
    AcquirePolite(Download(record, owned, 0, 0, start), attempts, rank);
    LoopLog(sent, name, log, record.name, rank);
  }

  /** The download loop only appends messages, each a swarm update or a chunk request to another peer. */
  lemma AcquirePolite(d: Download, attempts: seq<Attempt>, rank: int)
    requires Answered(attempts)
    ensures var log := Acquire(d, attempts, rank).0.sent;
      d.sent <= log && forall k :: |d.sent| <= k < |log| ==> Polite(log[k], d.file.name, rank)
  {
    if d.i <= |d.file.hashes| {
      AcquireKeeps(d, attempts, rank);
    }
  }

  /** A swarm request followed by the download loop's messages requests that one file and does not finish. */
  lemma LoopLog(sent: seq<Outgoing>, name: String, log: seq<Outgoing>, fileName: String, rank: int)
    requires sent + [ToTracker(SwarmRequestTag, name)] <= log
    requires forall k :: |sent| + 1 <= k < |log| ==> Polite(log[k], fileName, rank)
    ensures sent <= log && Requested(log[|sent|..]) == [name] && ToTracker(ClientFinishedTag, "") !in log[|sent|..]
  {
    var loop := log[|sent| + 1..];
    assert forall k :: 0 <= k < |loop| ==> Polite(loop[k], fileName, rank);
    PoliteRequestsNothing(loop, fileName, rank);
    assert log[|sent|..] == [ToTracker(SwarmRequestTag, name)] + loop;
    RequestedAppend([ToTracker(SwarmRequestTag, name)], loop);
    assert Requested([ToTracker(SwarmRequestTag, name)]) == [name];
    assert ToTracker(ClientFinishedTag, "") !in loop by {
      forall k | 0 <= k < |loop|
        ensures loop[k] != ToTracker(ClientFinishedTag, "")
      {
        assert Polite(loop[k], fileName, rank);
      }
    }
  }

  /**
   * download_thread_func on the records the tracker returns and the answers
   * for each needed file: request the file's record, download it, and move
   * to the next file only once it is complete; the finished notice follows
   * the last file. Returns the owned set, the messages sent and how many
   * files were completed.
   */
  function FetchAll(owned: set<String>, sent: seq<Outgoing>, names: seq<String>, records: seq<File>,
                    attempts: seq<seq<Attempt>>, rank: int): (res: (set<String>, seq<Outgoing>, nat))
    requires |records| == |names| == |attempts|
    requires forall k :: 0 <= k < |attempts| ==> Answered(attempts[k])
    ensures res.2 <= |names|
    decreases |names|
  {
    if names == [] then (owned, sent + [ToTracker(ClientFinishedTag, "")], 0)
    else
      var d := FetchOne(owned, sent, names[0], records[0], attempts[0], rank);
      if d.i < |d.file.hashes| then (d.owned, d.sent, 0)
      else
        var (o, s, n) := FetchAll(d.owned, d.sent, names[1..], records[1..], attempts[1..], rank);
        (o, s, n + 1)
  }

  /** The names of the files requested from the tracker in `ms`, in order. */
  function Requested(ms: seq<Outgoing>): seq<String> {
    if ms == [] then []
    else Requested(ms[..|ms| - 1]) + (if ms[|ms| - 1].ToTracker? && ms[|ms| - 1].tag == SwarmRequestTag then [ms[|ms| - 1].name] else [])
  }

  lemma {:induction false} RequestedAppend(a: seq<Outgoing>, b: seq<Outgoing>)
    ensures Requested(a + b) == Requested(a) + Requested(b)
  {
    if b != [] {
      RequestedAppend(a, b[..|b| - 1]);
      assert (a + b)[..|a + b| - 1] == a + b[..|b| - 1];
    } else {
      assert a + b == a;
    }
  }

  /** Messages of the download loop request no file. */
  lemma {:induction false} PoliteRequestsNothing(ms: seq<Outgoing>, name: String, rank: int)
    requires forall k :: 0 <= k < |ms| ==> Polite(ms[k], name, rank)
    ensures Requested(ms) == []
  {
    if ms != [] {
      PoliteRequestsNothing(ms[..|ms| - 1], name, rank);
    }
  }

  /** The first file of the download thread, and what comes after it. */
  lemma FetchUnfold(owned: set<String>, sent: seq<Outgoing>, names: seq<String>, records: seq<File>,
                    attempts: seq<seq<Attempt>>, rank: int)
    requires names != [] && |records| == |names| == |attempts|
    requires forall k :: 0 <= k < |attempts| ==> Answered(attempts[k])
    ensures var d := FetchOne(owned, sent, names[0], records[0], attempts[0], rank);
      var now := FetchAll(owned, sent, names, records, attempts, rank);
      var next := FetchAll(d.owned, d.sent, names[1..], records[1..], attempts[1..], rank);
      (d.i < |d.file.hashes| ==> now == (d.owned, d.sent, 0)) &&
      (d.i >= |d.file.hashes| ==> now.0 == next.0 && now.1 == next.1 && now.2 == next.2 + 1)
  {
  }

  /** Requests made in two stretches of the log are those of the first stretch, then those of the second. */
  lemma RequestedChain(sent: seq<Outgoing>, mid: seq<Outgoing>, s: seq<Outgoing>)
    requires sent <= mid <= s
    ensures Requested(s[|sent|..]) == Requested(mid[|sent|..]) + Requested(s[|mid|..])
    ensures forall m :: m in s[|sent|..] <==> m in mid[|sent|..] || m in s[|mid|..]
  {
    assert s[|sent|..] == mid[|sent|..] + s[|mid|..];
    RequestedAppend(mid[|sent|..], s[|mid|..]);
  }

  /**
   * The files are requested in list order, one at a time: the next only
   * after the previous is complete. The finished notice is sent exactly
   * when every file is complete, and then it is the last message.
   */
  lemma {:induction false} FetchInOrder(owned: set<String>, sent: seq<Outgoing>, names: seq<String>, records: seq<File>,
                                        attempts: seq<seq<Attempt>>, rank: int)
    requires |records| == |names| == |attempts|
    requires forall k :: 0 <= k < |attempts| ==> Answered(attempts[k])
    ensures var r := FetchAll(owned, sent, names, records, attempts, rank);
      sent <= r.1 &&
      (r.2 == |names| ==> Requested(r.1[|sent|..]) == names && r.1[|r.1| - 1] == ToTracker(ClientFinishedTag, "")) &&
      (r.2 < |names| ==> Requested(r.1[|sent|..]) == names[..r.2 + 1] && ToTracker(ClientFinishedTag, "") !in r.1[|sent|..])
    decreases |names|
  {
    if names == [] {
      assert FetchAll(owned, sent, names, records, attempts, rank).1[|sent|..] == [ToTracker(ClientFinishedTag, "")];
    } else {
      var d := FetchOne(owned, sent, names[0], records[0], attempts[0], rank);
      FetchUnfold(owned, sent, names, records, attempts, rank);
      FetchOneRequests(owned, sent, names[0], records[0], attempts[0], rank);
      if d.i < |d.file.hashes| {
        assert names[..1] == [names[0]];
      } else {
        FetchLater(owned, sent, names, records, attempts, rank, d);
      }
    }
  }

  /** The inductive step of FetchInOrder, once the first file is complete. */
  lemma {:induction false} FetchLater(owned: set<String>, sent: seq<Outgoing>, names: seq<String>, records: seq<File>,
                                      attempts: seq<seq<Attempt>>, rank: int, d: Download)
    requires names != [] && |records| == |names| == |attempts|
    requires forall k :: 0 <= k < |attempts| ==> Answered(attempts[k])
    requires d == FetchOne(owned, sent, names[0], records[0], attempts[0], rank) && d.i >= |d.file.hashes|
    requires sent <= d.sent && Requested(d.sent[|sent|..]) == [names[0]] && ToTracker(ClientFinishedTag, "") !in d.sent[|sent|..]
    ensures var r := FetchAll(owned, sent, names, records, attempts, rank);
      sent <= r.1 &&
      (r.2 == |names| ==> Requested(r.1[|sent|..]) == names && r.1[|r.1| - 1] == ToTracker(ClientFinishedTag, "")) &&
      (r.2 < |names| ==> Requested(r.1[|sent|..]) == names[..r.2 + 1] && ToTracker(ClientFinishedTag, "") !in r.1[|sent|..])
    decreases |names|, 0
  {
    FetchUnfold(owned, sent, names, records, attempts, rank);
    var next := FetchAll(d.owned, d.sent, names[1..], records[1..], attempts[1..], rank);
    FetchInOrder(d.owned, d.sent, names[1..], records[1..], attempts[1..], rank);
    RequestedChain(sent, d.sent, next.1);
    if next.2 == |names[1..]| {
      assert [names[0]] + names[1..] == names;
    } else {
      assert [names[0]] + names[1..][..next.2 + 1] == names[..next.2 + 2];
    }
  }

  /** The records decoded from the tracker's replies, in order. */
  function Records(replies: seq<String>): (fs: seq<File>)
    requires forall k :: 0 <= k < |replies| ==> Decode(replies[k]).Some?
    ensures |fs| == |replies|
    ensures forall k :: 0 <= k < |fs| ==> Decode(replies[k]) == Some(fs[k])
  {
    seq(|replies|, k requires 0 <= k < |replies| => Decode(replies[k]).value)
  }

  // ---------------------------------------------------------------------
  // The peer process

  /** A peer: its rank, the chunk hashes it owns, and every message it has sent. */
  class PeerNode {
    const rank: int
    var owned: set<String>
    var sent: seq<Outgoing>

    constructor(rank: int)
      ensures this.rank == rank && owned == {} && sent == []
    {
      this.rank := rank;
      owned := {};
      sent := [];
    }

    /** read_input's seeding: every hash of every owned file becomes an owned chunk. */
    method SeedOwnedChunks(files: seq<File>)
      modifies this
      ensures owned == old(owned) + HashesOf(files) && sent == old(sent)
    {
      var i := 0;
      while i < |files|
        invariant i <= |files|
        invariant owned == old(owned) + HashesOf(files[..i]) && sent == old(sent)
      {
        var j := 0;
        while j < |files[i].hashes|
          invariant j <= |files[i].hashes|
          invariant owned == old(owned) + HashesOf(files[..i]) + Span(files[i].hashes, 0, j) && sent == old(sent)
        {
          SpanSnoc(files[i].hashes, j);
          owned := owned + {files[i].hashes[j]};
          j := j + 1;
        }
        HashesOfSnoc(files, i);
        i := i + 1;
      }
      assert files[..i] == files;
    }

    /** request_swarm: asks the tracker for a file's record and decodes the reply. */
    method RequestSwarm(name: String, reply: String) returns (file: File)
      requires Decode(reply).Some?
      modifies this
      ensures Some(file) == Decode(reply)
      ensures owned == old(owned) && sent == old(sent) + [ToTracker(SwarmRequestTag, name)]
    {
      sent := sent + [ToTracker(SwarmRequestTag, name)];
      var r := Deserialize(reply);
      file := r.value;
    }

    /** update_swarm: asks the tracker for the file's current swarm and adopts it. */
    method UpdateSwarm(file: File, peers: seq<int>) returns (updated: File)
      modifies this
      ensures updated == WithSwarm(file, peers)
      ensures owned == old(owned) && sent == old(sent) + [ToTracker(SwarmUpdateTag, file.name)]
    {
      sent := sent + [ToTracker(SwarmUpdateTag, file.name)];
      updated := file;
      updated := updated.(swarm := peers);
    }

    /**
     * download_file: fetches the chunks in order from random swarm members,
     * one pass per answer in `attempts`; `complete` tells whether every
     * chunk was fetched before the answers ran out.
     */
    method DownloadFile(file: File, attempts: seq<Attempt>) returns (result: File, complete: bool)
      requires Answered(attempts)
      modifies this
      ensures var d := Acquire(Download(file, old(owned), 0, 0, old(sent)), attempts, rank).0;
        result == d.file && owned == d.owned && sent == d.sent && (complete <==> d.i == |file.hashes|)
    {
      ghost var goal := Acquire(Download(file, owned, 0, 0, sent), attempts, rank).0;
      result := file;
      var i: nat := 0;
      var chunksDownloaded: nat := 0;
      var passes := 0;
      while i < |result.hashes| && passes < |attempts|
        invariant passes <= |attempts| && result.hashes == file.hashes
        invariant Acquire(Download(result, owned, i, chunksDownloaded, sent), attempts[passes..], rank).0 == goal
        decreases |attempts| - passes
      {
        var a := attempts[passes];
        ghost var d := Download(result, owned, i, chunksDownloaded, sent);
        assert attempts[passes..][0] == a && attempts[passes..][1..] == attempts[passes + 1..];
        passes := passes + 1;
        if |result.swarm| == 0 || chunksDownloaded % 10 == 0 {
          result := UpdateSwarm(result, a.update);
        }
        var peerIdx := a.draw % |result.swarm|;
        var peer := result.swarm[peerIdx];
        if peer == rank {
          assert Download(result, owned, i, chunksDownloaded, sent) == Try(d, a, rank);
          continue;
        }
        sent := sent + [ChunkRequest(peer, result.hashes[i])];
        var buffer := a.reply;
        if buffer != Ack {
          assert Download(result, owned, i, chunksDownloaded, sent) == Try(d, a, rank);
          continue;
        }
        owned := owned + {result.hashes[i]};
        chunksDownloaded := chunksDownloaded + 1;
        i := i + 1;
        assert Download(result, owned, i, chunksDownloaded, sent) == Try(d, a, rank);
      }
      complete := i == |result.hashes|;
    }

    /**
     * download_thread_func: downloads the needed files in list order, then
     * tells the tracker it has finished. Stops early only when a file's
     * answers run out before it is complete.
     */
    method DownloadAll(names: seq<String>, replies: seq<String>, attempts: seq<seq<Attempt>>) returns (completed: nat)
      requires |replies| == |names| == |attempts|
      requires forall k :: 0 <= k < |replies| ==> Decode(replies[k]).Some?
      requires forall k :: 0 <= k < |attempts| ==> Answered(attempts[k])
      modifies this
      ensures owned == FetchAll(old(owned), old(sent), names, Records(replies), attempts, rank).0
      ensures sent == FetchAll(old(owned), old(sent), names, Records(replies), attempts, rank).1
      ensures completed == FetchAll(old(owned), old(sent), names, Records(replies), attempts, rank).2
    {
      var records := Records(replies);
      ghost var goal := FetchAll(owned, sent, names, records, attempts, rank);
      completed := 0;
      while completed < |names|
        invariant completed <= |names|
        invariant FetchAll(owned, sent, names[completed..], records[completed..], attempts[completed..], rank).0 == goal.0
        invariant FetchAll(owned, sent, names[completed..], records[completed..], attempts[completed..], rank).1 == goal.1
        invariant FetchAll(owned, sent, names[completed..], records[completed..], attempts[completed..], rank).2 + completed == goal.2
      {
        FetchStep(owned, sent, names, records, attempts, completed, rank);
        assert records[completed] == Decode(replies[completed]).value;
        var complete := FetchFile(names[completed], replies[completed], attempts[completed]);
        if !complete {
          return;
        }
        completed := completed + 1;
      }
      assert names[completed..] == [] && records[completed..] == [] && attempts[completed..] == [];
      sent := sent + [ToTracker(ClientFinishedTag, "")];
    }

    /** One iteration of download_thread_func: request the file's record, then download it. */
    method FetchFile(name: String, reply: String, attempts: seq<Attempt>) returns (complete: bool)
      requires Decode(reply).Some? && Answered(attempts)
      modifies this
      ensures var d := FetchOne(old(owned), old(sent), name, Decode(reply).value, attempts, rank);
        owned == d.owned && sent == d.sent && (complete <==> d.i >= |d.file.hashes|)
    {
      var file := RequestSwarm(name, reply);
      ghost var d := FetchOne(old(owned), old(sent), name, file, attempts, rank);
      AcquireKeeps(Download(file, owned, 0, 0, sent), attempts, rank);
      file, complete := DownloadFile(file, attempts);
    }

    /**
     * upload_thread_func: answers each chunk request with ACK or NACK by
     * whether the hash is owned, until a request from the tracker arrives.
     */
    method Upload(incoming: seq<Incoming>) returns (stopped: bool)
      modifies this
      ensures owned == old(owned)
      ensures sent == old(sent) + Answers(owned, incoming).0 && stopped == Answers(owned, incoming).1
    {
      var k := 0;
      while k < |incoming|
        invariant k <= |incoming| && owned == old(owned)
        invariant old(sent) + Answers(owned, incoming).0 == sent + Answers(owned, incoming[k..]).0
        invariant Answers(owned, incoming).1 == Answers(owned, incoming[k..]).1
      {
        var m := incoming[k];
        assert incoming[k..][0] == m && incoming[k..][1..] == incoming[k + 1..];
        k := k + 1;
        if m.tag != ChunkRequestTag {
          continue;
        }
        if m.source == TrackerRank {
          return true;
        }
        var buffer := if m.hash in owned then Ack else Nack;
        sent := sent + [ChunkReply(m.source, buffer)];
      }
      return false;
    }
  }

  lemma SpanSnoc(hashes: seq<String>, j: nat)
    requires j < |hashes|
    ensures Span(hashes, 0, j + 1) == Span(hashes, 0, j) + {hashes[j]}
  {
  }

  /** One file of the download thread, as the loop in DownloadAll takes it. */
  lemma FetchStep(owned: set<String>, sent: seq<Outgoing>, names: seq<String>, records: seq<File>,
                  attempts: seq<seq<Attempt>>, c: nat, rank: int)
    requires c < |records| == |names| == |attempts|
    requires forall k :: 0 <= k < |attempts| ==> Answered(attempts[k])
    ensures var d := FetchOne(owned, sent, names[c], records[c], attempts[c], rank);
      var now := FetchAll(owned, sent, names[c..], records[c..], attempts[c..], rank);
      var next := FetchAll(d.owned, d.sent, names[c + 1..], records[c + 1..], attempts[c + 1..], rank);
      (d.i < |d.file.hashes| ==> now == (d.owned, d.sent, 0)) &&
      (d.i >= |d.file.hashes| ==> now.0 == next.0 && now.1 == next.1 && now.2 == next.2 + 1)
  {
    FetchUnfold(owned, sent, names[c..], records[c..], attempts[c..], rank);
    assert names[c..][1..] == names[c + 1..];
    assert records[c..][1..] == records[c + 1..];
    assert attempts[c..][1..] == attempts[c + 1..];
  }
}
