// The tracker (src/tracker.cpp): a catalog from file name to record, built
// from every peer's registration in rank order, then served to the peers
// until each of them reports that it has finished.
module Tracker {
  import opened Utils
  import opened Text
  import opened FileCodec

  /** The tracker's catalog: each file name with its record. */
  type Catalog = map<String, File>

  // ---------------------------------------------------------------------
  // Bootstrap registration

  /** One record received from the peer of rank `rank`. */
  datatype Registration = Registration(record: File, rank: int)

  /**
   * Registering one record: a name already in the catalog only gains the
   * peer at the end of its swarm; a new name is stored as received, with
   * the peer appended to the received swarm.
   */
  function Register(c: Catalog, r: Registration): (c': Catalog)
    ensures c'.Keys == c.Keys + {r.record.name}
  {
    var name := r.record.name;
    if name in c then c[name := c[name].(swarm := c[name].swarm + [r.rank])]
    else c[name := r.record.(swarm := r.record.swarm + [r.rank])]
  }

  /** The records of one peer's vector, each tagged with the peer's rank. */
  function Ranked(fs: seq<File>, rank: int): (rs: seq<Registration>)
    ensures |rs| == |fs|
  {
    seq(|fs|, k requires 0 <= k < |fs| => Registration(fs[k], rank))
  }

  /** Every peer's records in the order they are registered: peer `k + 1` sent `vs[k]`. */
  function Registrations(vs: seq<seq<File>>): seq<Registration> {
    if vs == [] then [] else Registrations(vs[..|vs| - 1]) + Ranked(vs[|vs| - 1], |vs|)
  }

  /** The catalog after registering `rs` in order. */
  function Merge(c: Catalog, rs: seq<Registration>): Catalog {
    if rs == [] then c else Register(Merge(c, rs[..|rs| - 1]), rs[|rs| - 1])
  }

  /** The catalog `init` builds, starting empty, from the vectors peers `1..|vs|` sent. */
  function Bootstrap(vs: seq<seq<File>>): Catalog {
    Merge(map[], Registrations(vs))
  }

  /** The earliest registered record named `name`: the one whose hashes the catalog keeps. */
  function FirstNamed(rs: seq<Registration>, name: String): Option<File> {
    if rs == [] then None
    else
      match FirstNamed(rs[..|rs| - 1], name)
      case Some(f) => Some(f)
      case None => if rs[|rs| - 1].record.name == name then Some(rs[|rs| - 1].record) else None
  }

  /** The ranks of every registration of `name`, in registration order. */
  function RanksNamed(rs: seq<Registration>, name: String): seq<int> {
    if rs == [] then []
    else RanksNamed(rs[..|rs| - 1], name) + (if rs[|rs| - 1].record.name == name then [rs[|rs| - 1].rank] else [])
  }

  lemma MergeSnoc(c: Catalog, rs: seq<Registration>, r: Registration)
    ensures Merge(c, rs + [r]) == Register(Merge(c, rs), r)
  {
    assert (rs + [r])[..|rs|] == rs;
  }

  /**
   * What registration leaves for each name, stated independently of the
   * order of map updates: the name is catalogued exactly when some peer
   * registered it, with the first registration's name and hashes, and its
   * swarm is that record's received swarm followed by the rank of every
   * registration of the name, in order.
   */
  lemma {:induction false} MergeEntry(rs: seq<Registration>, name: String)
    ensures name in Merge(map[], rs) <==> FirstNamed(rs, name).Some?
    ensures name in Merge(map[], rs) ==>
      Merge(map[], rs)[name] == FirstNamed(rs, name).value.(swarm := FirstNamed(rs, name).value.swarm + RanksNamed(rs, name))
  {
    if rs != [] {
      var init, r := rs[..|rs| - 1], rs[|rs| - 1];
      assert rs == init + [r];
      MergeEntry(init, name);
      MergeSnoc(map[], init, r);
      if FirstNamed(init, name).None? && r.record.name == name {
        assert RanksNamed(init, name) == [] by {
          NoRanksUnnamed(init, name);
        }
      }
    }
  }

  /** A name never registered has no ranks. */
  lemma {:induction false} NoRanksUnnamed(rs: seq<Registration>, name: String)
    requires FirstNamed(rs, name).None?
    ensures RanksNamed(rs, name) == []
  {
    if rs != [] {
      NoRanksUnnamed(rs[..|rs| - 1], name);
    }
  }

  /** Registrations come in increasing rank order, peer `1` first, each rank within `1..|vs|`. */
  lemma {:induction false} RegistrationsInRankOrder(vs: seq<seq<File>>)
    ensures forall k :: 0 <= k < |Registrations(vs)| ==> 1 <= Registrations(vs)[k].rank <= |vs|
    ensures forall j, k :: 0 <= j < k < |Registrations(vs)| ==> Registrations(vs)[j].rank <= Registrations(vs)[k].rank
  {
    if vs != [] {
      RegistrationsInRankOrder(vs[..|vs| - 1]);
    }
  }

  lemma RankedSnoc(fs: seq<File>, j: nat, rank: int)
    requires j < |fs|
    ensures Ranked(fs[..j + 1], rank) == Ranked(fs[..j], rank) + [Registration(fs[j], rank)]
  {
  }

  // ---------------------------------------------------------------------
  // Catalog invariants

  /** Every entry is stored under its own name. */
  predicate Keyed(c: Catalog) {
    forall n :: n in c ==> c[n].name == n
  }

  /** Every entry can be sent to a peer and read back. */
  predicate Sendable(c: Catalog) {
    forall n :: n in c ==> Transmittable(c[n])
  }

  /** From `c` to `c'` no name is dropped, no record's hashes change and every swarm only grows at its end. */
  predicate Grows(c: Catalog, c': Catalog) {
    c.Keys <= c'.Keys &&
    forall n :: n in c ==> c'[n].name == c[n].name && c'[n].hashes == c[n].hashes && c[n].swarm <= c'[n].swarm
  }

  lemma GrowsTrans(a: Catalog, b: Catalog, c: Catalog)
    requires Grows(a, b) && Grows(b, c)
    ensures Grows(a, c)
  {
    forall n | n in a
      ensures a[n].swarm <= c[n].swarm
    {
      assert a[n].swarm <= b[n].swarm <= c[n].swarm;
    }
  }

  /** Registration keeps the catalog keyed and sendable, and only grows it. */
  lemma RegisterGrows(c: Catalog, r: Registration)
    requires Keyed(c) && Sendable(c) && Transmittable(r.record)
    ensures Keyed(Register(c, r)) && Sendable(Register(c, r)) && Grows(c, Register(c, r))
  {
  }

  lemma {:induction false} MergeGrows(c: Catalog, rs: seq<Registration>)
    requires Keyed(c) && Sendable(c)
    requires forall k :: 0 <= k < |rs| ==> Transmittable(rs[k].record)
    ensures Keyed(Merge(c, rs)) && Sendable(Merge(c, rs)) && Grows(c, Merge(c, rs))
  {
    if rs != [] {
      var init := rs[..|rs| - 1];
      MergeGrows(c, init);
      RegisterGrows(Merge(c, init), rs[|rs| - 1]);
      GrowsTrans(c, Merge(c, init), Merge(c, rs));
    }
  }

  /** Records that came out of the decoder make a catalog every entry of which can be sent on. */
  lemma {:induction false} RegistrationsTransmittable(vs: seq<seq<File>>)
    requires forall k :: 0 <= k < |vs| ==> AllTransmittable(vs[k])
    ensures forall k :: 0 <= k < |Registrations(vs)| ==> Transmittable(Registrations(vs)[k].record)
  {
    if vs != [] {
      RegistrationsTransmittable(vs[..|vs| - 1]);
    }
  }

  /** Vectors that came out of the decoder hold only records the encoding can carry. */
  lemma DecodedTransmittable(d: String)
    requires DecodeVector(d).Some?
    ensures AllTransmittable(DecodeVector(d).value)
  {
    var (n, p) := ReadUnsigned(d, 0).value;
    DecodeAllTransmittable(ReadFrames(d, p, n).value);
  }

  /** The vectors `init` decodes, one per peer, in rank order. */
  function Decoded(received: seq<String>): (vs: seq<seq<File>>)
    requires forall k :: 0 <= k < |received| ==> DecodeVector(received[k]).Some?
    ensures |vs| == |received|
    ensures forall k :: 0 <= k < |vs| ==> AllTransmittable(vs[k])
  {
    if received == [] then []
    else
      DecodedTransmittable(received[|received| - 1]);
      Decoded(received[..|received| - 1]) + [DecodeVector(received[|received| - 1]).value]
  }

  /** A bootstrapped catalog stores each record under its own name, and every record can be sent on. */
  lemma BootstrapCatalog(received: seq<String>)
    requires forall k :: 0 <= k < |received| ==> DecodeVector(received[k]).Some?
    ensures Keyed(Bootstrap(Decoded(received))) && Sendable(Bootstrap(Decoded(received)))
  {
    var vs := Decoded(received);
    RegistrationsTransmittable(vs);
    MergeGrows(map[], Registrations(vs));
  }

  // ---------------------------------------------------------------------
  // Serving requests

  /** What one message carries after its destination and tag. */
  datatype Payload = Count(n: int) | Record(text: String) | Ids(ids: seq<int>) | Blank

  /** A message the tracker sends: to one peer, or broadcast to everyone. */
  datatype Message = Send(dest: int, tag: int, payload: Payload) | Broadcast(value: int)

  /** A message received from a peer: its sender, its tag and the file name it carries. */
  datatype Request = Request(source: int, tag: int, name: String)

  /** The tracker's state while serving: the catalog, the peers still downloading, and every message sent. */
  datatype Service = Service(files: Catalog, active: int, sent: seq<Message>)

  /** An empty record: what the catalog holds for a name looked up before anyone registered it. */
  const EmptyRecord: File := File("", [], [])

  /** The record looked up for `name`; looking up an unregistered name inserts an empty record. */
  function Entry(c: Catalog, name: String): (f: File)
    ensures name in c ==> f == c[name]
    ensures name !in c ==> f.hashes == [] && f.swarm == []
  {
    if name in c then c[name] else EmptyRecord
  }

  /** The reply to a swarm request: the length of the encoded record, then the record. */
  function RecordReply(f: File, client: int): (ms: seq<Message>)
    ensures |ms| == 2 && ms[0].Send? && ms[1].Send?
    ensures ms[0].dest == ms[1].dest == client
    ensures ms[0].tag == SizeTag && ms[1].tag == SwarmRequestTag
    ensures ms[1].payload.Record? && ms[0].payload == Count(|ms[1].payload.text|)
  {
    [Send(client, SizeTag, Count(|Encode(f)|)), Send(client, SwarmRequestTag, Record(Encode(f)))]
  }

  /** The reply to a swarm update: the swarm size, then the peer ids. */
  function SwarmReply(swarm: seq<int>, client: int): (ms: seq<Message>)
    ensures |ms| == 2 && ms[0].Send? && ms[1].Send?
    ensures ms[0].dest == ms[1].dest == client
    ensures ms[0].tag == SizeTag && ms[1].tag == SwarmUpdateTag
    ensures ms[1].payload.Ids? && ms[0].payload == Count(|ms[1].payload.ids|)
  {
    [Send(client, SizeTag, Count(|swarm|)), Send(client, SwarmUpdateTag, Ids(swarm))]
  }

  /**
   * One pass of the tracker loop on a received message: a swarm request is
   * answered with the record as it was and then joins the sender to the
   * swarm; a swarm update is answered with the current swarm; a finished
   * notice retires one peer; any other tag is ignored.
   */
  function Step(st: Service, r: Request): (st': Service)
    ensures st'.files.Keys == st.files.Keys + (if r.tag == SwarmRequestTag || r.tag == SwarmUpdateTag then {r.name} else {})
    ensures st'.active == (if r.tag == ClientFinishedTag then st.active - 1 else st.active)
    ensures st.sent <= st'.sent
    ensures forall k :: |st.sent| <= k < |st'.sent| ==> st'.sent[k].Send? && st'.sent[k].dest == r.source
  {
    var e := Entry(st.files, r.name);
    if r.tag == SwarmRequestTag then
      st.(files := st.files[r.name := e.(swarm := e.swarm + [r.source])],
          sent := st.sent + RecordReply(e, r.source))
    else if r.tag == SwarmUpdateTag then
      st.(files := st.files[r.name := e], sent := st.sent + SwarmReply(e.swarm, r.source))
    else if r.tag == ClientFinishedTag then
      st.(active := st.active - 1)
    else
      st
  }

  /**
   * The tracker loop over the messages in the order they arrive: it stops
   * as soon as no peer is still downloading, and also when the messages run
   * out. Returns the final state and how many messages were consumed.
   */
  function Served(st: Service, rs: seq<Request>): (res: (Service, nat))
    ensures res.1 <= |rs|
    decreases |rs|
  {
    if st.active == 0 || rs == [] then (st, 0)
    else
      var (st', n) := Served(Step(st, rs[0]), rs[1..]);
      (st', n + 1)
  }

  /** How many of `rs` are finished notices. */
  function Finished(rs: seq<Request>): nat {
    if rs == [] then 0 else Finished(rs[..|rs| - 1]) + (if rs[|rs| - 1].tag == ClientFinishedTag then 1 else 0)
  }

  lemma FinishedCons(r: Request, rs: seq<Request>)
    ensures Finished([r] + rs) == (if r.tag == ClientFinishedTag then 1 else 0) + Finished(rs)
  {
    if rs != [] {
      assert ([r] + rs)[..|[r] + rs| - 1] == [r] + rs[..|rs| - 1];
      FinishedCons(r, rs[..|rs| - 1]);
    }
  }

  /**
   * The loop leaves only when every peer has finished or the messages are
   * exhausted; the count of peers still downloading drops by exactly the
   * number of finished notices consumed and never goes below zero.
   */
  lemma {:induction false} ServeCounter(st: Service, rs: seq<Request>)
    requires st.active >= 0
    ensures Served(st, rs).0.active == 0 || Served(st, rs).1 == |rs|
    ensures Served(st, rs).0.active == st.active - Finished(rs[..Served(st, rs).1])
    ensures Served(st, rs).0.active >= 0
    decreases |rs|
  {
    if st.active != 0 && rs != [] {
      var st1 := Step(st, rs[0]);
      ServeCounter(st1, rs[1..]);
      var n := Served(st1, rs[1..]).1;
      assert rs[..n + 1] == [rs[0]] + rs[1..][..n];
      FinishedCons(rs[0], rs[1..][..n]);
    } else {
      assert rs[..0] == [];
    }
  }

  /** Serving never drops a name, changes a record's hashes or shrinks a swarm, and only appends messages. */
  lemma {:induction false} ServeGrows(st: Service, rs: seq<Request>)
    ensures Grows(st.files, Served(st, rs).0.files)
    ensures st.sent <= Served(st, rs).0.sent
    decreases |rs|
  {
    if st.active != 0 && rs != [] {
      var st1 := Step(st, rs[0]);
      ServeGrows(st1, rs[1..]);
      GrowsTrans(st.files, st1.files, Served(st1, rs[1..]).0.files);
    }
  }

  /** A request for a known name that was registered as sendable keeps the catalog keyed and sendable. */
  predicate Known(c: Catalog, r: Request) {
    (r.tag == SwarmRequestTag || r.tag == SwarmUpdateTag) ==> r.name in c
  }

  lemma StepKeepsCatalog(st: Service, r: Request)
    requires Keyed(st.files) && Sendable(st.files) && Known(st.files, r)
    ensures Keyed(Step(st, r).files) && Sendable(Step(st, r).files)
  {
  }

  /**
   * A swarm request for a known name is answered with the record's size and
   * its encoding, which the peer decodes back to the record as it was before
   * the sender joined; the sender is then the last member of the swarm.
   */
  lemma RequestReply(st: Service, r: Request)
    requires r.tag == SwarmRequestTag && r.name in st.files && Transmittable(st.files[r.name])
    ensures Step(st, r).sent[|st.sent|].payload == Count(|Encode(st.files[r.name])|)
    ensures Decode(Step(st, r).sent[|st.sent| + 1].payload.text) == Some(st.files[r.name])
    ensures Step(st, r).files == st.files[r.name := st.files[r.name].(swarm := st.files[r.name].swarm + [r.source])]
  {
    RoundTrip(st.files[r.name]);
  }

  /** A swarm update for a known name sends that file's swarm and changes nothing in the catalog. */
  lemma UpdateReply(st: Service, r: Request)
    requires r.tag == SwarmUpdateTag && r.name in st.files
    ensures Step(st, r).sent == st.sent + SwarmReply(st.files[r.name].swarm, r.source)
    ensures Step(st, r).files == st.files
  {
  }

  /** A request naming a file nobody registered stores an empty record under that name. */
  lemma UnknownName(st: Service, r: Request)
    requires r.tag == SwarmRequestTag || r.tag == SwarmUpdateTag
    requires r.name !in st.files
    ensures Step(st, r).files[r.name] == (if r.tag == SwarmRequestTag then File("", [], [r.source]) else EmptyRecord)
    ensures Step(st, r).sent[|st.sent|].payload == Count(if r.tag == SwarmRequestTag then |Encode(EmptyRecord)| else 0)
  {
  }

  /**
   * The reply to a swarm request for an unregistered name cannot be read
   * back: the decoder takes the hash count for the name, the swarm size for
   * the hash count, and then finds no swarm size.
   */
  lemma EmptyRecordUndecodable()
    ensures Encode(EmptyRecord) == "\n0\n0\n"
    ensures Decode(Encode(EmptyRecord)).None?
  {
  }

  // ---------------------------------------------------------------------
  // Shutdown

  /** The shutdown notices: one to every peer, ranks `1` to `numtasks - 1` in order. */
  function Stops(numtasks: int): (ms: seq<Message>)
    ensures |ms| == if numtasks <= 1 then 0 else numtasks - 1
  {
    if numtasks <= 1 then [] else Stops(numtasks - 1) + [Send(numtasks - 1, AllFinishedTag, Blank)]
  }

  /** How many messages of `ms` go to `dest`. */
  function SentTo(ms: seq<Message>, dest: int): nat {
    if ms == [] then 0
    else SentTo(ms[..|ms| - 1], dest) + (if ms[|ms| - 1].Send? && ms[|ms| - 1].dest == dest then 1 else 0)
  }

  /** Every peer gets exactly one shutdown notice, with the all-finished tag; the tracker itself gets none. */
  lemma {:induction false} StopsReachEachPeerOnce(numtasks: int, dest: int)
    ensures SentTo(Stops(numtasks), dest) == if 1 <= dest < numtasks then 1 else 0
    ensures forall k :: 0 <= k < |Stops(numtasks)| ==> Stops(numtasks)[k].Send? && Stops(numtasks)[k].tag == AllFinishedTag
  {
    if numtasks > 1 {
      StopsReachEachPeerOnce(numtasks - 1, dest);
      assert Stops(numtasks)[..|Stops(numtasks)| - 1] == Stops(numtasks - 1);
    }
  }

  /**
   * The tracker's whole life on the messages `rs` that arrive after the
   * bootstrap: the loop starts with every peer downloading, and ends only
   * once exactly that many finished notices have been consumed; before
   * that, it has consumed every message.
   */
  lemma ShutdownOnlyWhenAllFinished(numtasks: int, c: Catalog, sent: seq<Message>, rs: seq<Request>)
    requires numtasks >= 1
    ensures var (fin, n) := Served(Service(c, numtasks - 1, sent), rs);
      (fin.active == 0 <==> Finished(rs[..n]) == numtasks - 1) && (fin.active != 0 ==> n == |rs|)
  {
    ServeCounter(Service(c, numtasks - 1, sent), rs);
  }

  // ---------------------------------------------------------------------
  // The tracker process

  /** The tracker process: its catalog, the count of peers still downloading, and every message it has sent. */
  class TrackerNode {
    /** The number of processes: the tracker and peers `1` to `numtasks - 1`. */
    const numtasks: int
    var files: Catalog
    var activeClients: int
    var sent: seq<Message>

    function State(): Service
      reads this
    {
      Service(files, activeClients, sent)
    }

    constructor(numtasks: int)
      requires numtasks >= 1
      ensures this.numtasks == numtasks && files == map[] && activeClients == 0 && sent == []
    {
      this.numtasks := numtasks;
      files := map[];
      activeClients := 0;
      sent := [];
    }

    /**
     * init: decodes the vector each peer sent, in rank order, registers
     * every record, then broadcasts the signal to start downloading.
     */
    method Init(received: seq<String>)
      requires |received| == numtasks - 1
      requires forall k :: 0 <= k < |received| ==> DecodeVector(received[k]).Some?
      modifies this
      ensures files == Merge(old(files), Registrations(Decoded(received)))
      ensures activeClients == old(activeClients) && sent == old(sent) + [Broadcast(Ack)]
    {
      var i := 1;
      while i < numtasks
        invariant 1 <= i <= numtasks
        invariant files == Merge(old(files), Registrations(Decoded(received[..i - 1])))
        invariant activeClients == old(activeClients) && sent == old(sent)
      {
        var r := DeserializeVector(received[i - 1]);
        RegisterVector(r.value, i);
        InitNext(old(files), received, i);
        i := i + 1;
      }
      assert received[..numtasks - 1] == received;
      sent := sent + [Broadcast(Ack)];
    }

    /** The inner loop of init: registers every record of one peer's vector. */
    method RegisterVector(receivedFiles: seq<File>, rank: int)
      modifies this
      ensures files == Merge(old(files), Ranked(receivedFiles, rank))
      ensures activeClients == old(activeClients) && sent == old(sent)
    {
      var j := 0;
      assert Ranked(receivedFiles[..0], rank) == [];
      while j < |receivedFiles|
        invariant j <= |receivedFiles|
        invariant files == Merge(old(files), Ranked(receivedFiles[..j], rank))
        invariant activeClients == old(activeClients) && sent == old(sent)
      {
        var file := receivedFiles[j];
        if file.name in files {
          files := files[file.name := files[file.name].(swarm := files[file.name].swarm + [rank])];
        } else {
          files := files[file.name := file.(swarm := file.swarm + [rank])];
        }
        RankedSnoc(receivedFiles, j, rank);
        MergeSnoc(old(files), Ranked(receivedFiles[..j], rank), Registration(file, rank));
        j := j + 1;
      }
      assert receivedFiles[..j] == receivedFiles;
    }

    /** swarm_request: sends the record as it is, then adds the sender to its swarm. */
    method SwarmRequest(name: String, client: int)
      modifies this
      ensures State() == Step(old(State()), Request(client, SwarmRequestTag, name))
    {
      if name !in files {
        files := files[name := EmptyRecord];
      }
      var buffer := Serialize(files[name]);
      var size := |buffer|;
      sent := sent + [Send(client, SizeTag, Count(size)), Send(client, SwarmRequestTag, Record(buffer))];
      files := files[name := files[name].(swarm := files[name].swarm + [client])];
    }

    /** swarm_update: sends the file's current swarm. */
    method SwarmUpdate(name: String, client: int)
      modifies this
      ensures State() == Step(old(State()), Request(client, SwarmUpdateTag, name))
    {
      if name !in files {
        files := files[name := EmptyRecord];
      }
      var swarm := files[name].swarm;
      sent := sent + [Send(client, SizeTag, Count(|swarm|)), Send(client, SwarmUpdateTag, Ids(swarm))];
    }

    /**
     * The request loop: dispatches each message on its tag until no peer
     * is still downloading, or the messages run out.
     */
    method Serve(requests: seq<Request>) returns (consumed: nat)
      modifies this
      ensures (State(), consumed) == Served(old(State()), requests)
    {
      consumed := 0;
      while activeClients != 0 && consumed < |requests|
        decreases |requests| - consumed
        invariant consumed <= |requests|
        invariant Served(State(), requests[consumed..]).0 == Served(old(State()), requests).0
        invariant consumed + Served(State(), requests[consumed..]).1 == Served(old(State()), requests).1
      {
        var r := requests[consumed];
        ghost var st := State();
        if r.tag == SwarmRequestTag {
          SwarmRequest(r.name, r.source);
        } else if r.tag == SwarmUpdateTag {
          SwarmUpdate(r.name, r.source);
        } else if r.tag == ClientFinishedTag {
          activeClients := activeClients - 1;
        }
        assert State() == Step(st, r);
        assert requests[consumed..][1..] == requests[consumed + 1..];
        consumed := consumed + 1;
      }
    }

    /** The shutdown fan-out: one all-finished notice to every peer. */
    method StopAll()
      requires numtasks >= 1
      modifies this
      ensures files == old(files) && activeClients == old(activeClients)
      ensures sent == old(sent) + Stops(numtasks)
    {
      var i := 1;
      while i < numtasks
        invariant 1 <= i <= numtasks
        invariant files == old(files) && activeClients == old(activeClients)
        invariant sent == old(sent) + Stops(i)
      {
        sent := sent + [Send(i, AllFinishedTag, Blank)];
        i := i + 1;
      }
    }

    /**
     * tracker: builds the catalog from scratch, serves requests with every
     * peer downloading, and sends the shutdown notices once all have finished.
     */
    method Run(received: seq<String>, requests: seq<Request>) returns (consumed: nat)
      requires numtasks >= 1 && |received| == numtasks - 1
      requires forall k :: 0 <= k < |received| ==> DecodeVector(received[k]).Some?
      modifies this
      ensures var (fin, n) := Served(Service(Bootstrap(Decoded(received)), numtasks - 1, old(sent) + [Broadcast(Ack)]), requests);
        consumed == n && files == fin.files && activeClients == fin.active &&
        sent == fin.sent + (if fin.active == 0 then Stops(numtasks) else [])
    {
      files := map[];
      Init(received);
      activeClients := numtasks - 1;
      consumed := Serve(requests);
      if activeClients == 0 {
        StopAll();
      }
    }
  }

  lemma {:induction false} MergeAppend(c: Catalog, rs: seq<Registration>, more: seq<Registration>)
    ensures Merge(c, rs + more) == Merge(Merge(c, rs), more)
  {
    if more == [] {
      assert rs + more == rs;
    } else {
      var init := more[..|more| - 1];
      MergeAppend(c, rs, init);
      assert rs + more == (rs + init) + [more[|more| - 1]];
      MergeSnoc(c, rs + init, more[|more| - 1]);
    }
  }

  /** One more peer's vector registered extends the bootstrap by that peer's records. */
  lemma InitNext(c: Catalog, received: seq<String>, i: nat)
    requires 1 <= i <= |received|
    requires forall k :: 0 <= k < |received| ==> DecodeVector(received[k]).Some?
    ensures Merge(Merge(c, Registrations(Decoded(received[..i - 1]))), Ranked(DecodeVector(received[i - 1]).value, i))
      == Merge(c, Registrations(Decoded(received[..i])))
  {
    DecodedNext(received, i);
    MergeAppend(c, Registrations(Decoded(received[..i - 1])), Ranked(DecodeVector(received[i - 1]).value, i));
  }

  lemma DecodedNext(received: seq<String>, i: nat)
    requires 1 <= i <= |received|
    requires forall k :: 0 <= k < |received| ==> DecodeVector(received[k]).Some?
    ensures Registrations(Decoded(received[..i])) ==
      Registrations(Decoded(received[..i - 1])) + Ranked(DecodeVector(received[i - 1]).value, i)
  {
    assert received[..i][..i - 1] == received[..i - 1];
    assert Decoded(received[..i])[..i - 1] == Decoded(received[..i - 1]);
  }
}
