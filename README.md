# A verified model of a tracker-coordinated peer-to-peer file distributor

The system distributes files among MPI processes BitTorrent-style. Rank 0 is the
**tracker**: it keeps a catalog from file name to record (the chunk hashes and
the swarm, i.e. the peers known to hold the file). Every other rank is a **peer**:
it owns some files, downloads the files it needs chunk by chunk from random
swarm members, and answers other peers' chunk requests. File records travel as
text produced by `serialize` and read back with `>>` by `deserialize`.

This project models that core in Dafny and proves properties of the model:

- `utils.dfy`, module `Utils`: the protocol constants of `src/utils.h`. These are
  the tracker rank, ACK/NACK and the message tags. The shutdown notice reuses the
  chunk-request tag.
- `text.dfy`, module `Text`: the part of the C++ stream library the codec uses.
  - `<<` of strings and integers.
  - `>>` of whitespace-delimited words, unsigned counts and signed ints from an
    input stream, modelled as a buffer plus a read position.
  - Layout lemmas: text written with `<<` is read back by `>>`.
- `file.dfy`, module `FileCodec`: the `File` record of `src/file.h` and the codec
  of `src/file.cpp`.
  - The C++ functions become imperative methods (`Serialize`, `SerializeVector`,
    `Deserialize`, `DeserializeVector`, each with its loops). Each is proved equal
    to a specification function.
  - Round trips are proved about those specification functions. One concerns the
    framing of `deserialize_vector`: the window it reads after a length starts at
    the newline left behind by `>>` and stops one character short of the record.
    That window still decodes to the record.
- `tracker.dfy`, module `Tracker`: the tracker of `src/tracker.cpp`.
  - Pure specification:
    - bootstrap registration (`Register`, `Merge`, `Bootstrap`);
    - one pass of the request loop (`Step`) and the whole loop (`Served`);
    - the shutdown fan-out (`Stops`).
  - A characterisation of the bootstrapped catalog that does not depend on the
    order of map updates (`MergeEntry`), and lemmas about the replies.
  - Class `TrackerNode`: its methods follow `init`, `swarm_request`,
    `swarm_update`, the loop of `tracker` and the shutdown loop.
- `peer.dfy`, module `Peer`: the peer of `src/peer.cpp`.
  - The network and `rand()` become oracle inputs. One `Attempt` per pass of the
    download loop carries the swarm the tracker would return, the number `rand()`
    would return, and the chosen peer's reply.
  - `Try` is one pass and `Acquire` is the loop. Lemmas about them give:
    - the ACK-only advance;
    - the refresh rule;
    - the owned set gaining exactly the fetched chunks;
    - no request to the peer itself;
    - file ordering and the finished notice;
    - the uploader's ACK-iff-owned reply and stop rule;
    - the seeding of the owned set.
  - Class `PeerNode`: its methods follow `read_input`'s seeding, `request_swarm`,
    `update_swarm`, `download_file`, `download_thread_func` and
    `upload_thread_func`.

Three behaviours of the code worth knowing, all modelled as written:

- The swarm refresh tests `chunks_downloaded % 10 == 0` (src/peer.cpp:87), so
  it happens on every pass, retries included, while the count is 0, and not
  only after every tenth chunk. `Refresh` and `RetryRefreshesAgain` state this.
- A newly registered record keeps the swarm it arrived with, and the sending
  rank is appended to it (src/tracker.cpp:32). `Register` does the same.
- A request for a name nobody registered goes through `files[file_name]`, which
  inserts an empty record under that name (src/tracker.cpp:50, 56, 64).
  `Entry`, `Step` and `UnknownName` model that insertion.

## Model

| member | source | states |
|---|---|---|
| Text.IntDecimalToken | src/file.cpp:20-23 | an int written with `<<` is one non-empty, whitespace-free token, so `>>` reads it back whole |
| Text.ReadWordToken | src/file.cpp:52 | `>>` into a string fails exactly when only whitespace is left; a word it yields is a whitespace-free token ending at whitespace or at the end |
| Text.ReadUnsignedAt | src/file.cpp:54 | after whitespace, extracting an unsigned count yields exactly the number `<<` wrote there and stops just after its digits |
| Text.ReadIntAt | src/file.cpp:63 | after whitespace, extracting an int yields exactly the (possibly negative) value `<<` wrote there and stops at the following whitespace |
| Text.ReadLaidOutWords | src/file.cpp:56-58 | hashes written one per line are read back by the loop of word extractions as exactly those hashes, in order |
| Text.ReadLaidOutInts | src/file.cpp:62-64 | peer ids written one per line are read back by the loop of int extractions as exactly those ids, in order |
| FileCodec.Serialize | src/file.cpp:9-26 | the output is the record's encoding: name, hash count, each hash, swarm size, each peer id, one per line |
| FileCodec.SerializeVector | src/file.cpp:29-41 | the output is the vector's encoding: the record count, then each record's length line followed by the record |
| FileCodec.ReadHashes | src/file.cpp:55-58 | the loop filling the resized hash vector yields exactly the `n` successive word extractions, or fails where one fails |
| FileCodec.ReadIds | src/file.cpp:61-64 | the loop filling the resized swarm yields exactly the `n` successive int extractions, or fails where one fails |
| FileCodec.Deserialize | src/file.cpp:44-67 | reconstructs the record the text encodes: name, counted hashes, counted peer ids; no record when an extraction fails |
| FileCodec.DecodeTransmittable | src/file.cpp:52-58 | every decoded record has a whitespace-free, non-empty name and hashes |
| FileCodec.RoundTrip | src/file.cpp:9-67 | decoding the encoding of any record whose name and hashes are tokens gives back that record |
| FileCodec.ReadFrame | src/file.cpp:79-83 | reads a length, then exactly that many characters starting right after the digits; fails if fewer remain |
| FileCodec.RecordWindow | src/file.cpp:79-84 | the window read for an encoded record (starting at the leftover newline, one character short) still decodes to the record |
| FileCodec.NextFrameAt | src/file.cpp:79-83 | at a length line written by `serialize_vector`, one frame read yields the record's window and stops at its final newline |
| FileCodec.ReadFramesAt | src/file.cpp:78-85 | reading the frames of an encoded vector yields every record's window, in order |
| FileCodec.DecodeWindows | src/file.cpp:84 | decoding the windows of an encoded vector gives back every record, in order |
| FileCodec.ReadFiles | src/file.cpp:76-85 | the loop of frame reads and record decodes yields exactly the counted records, or fails where a frame or record fails |
| FileCodec.DeserializeVector | src/file.cpp:70-88 | reconstructs the vector: a count, then that many framed records |
| FileCodec.VectorRoundTrip | src/file.cpp:29-88 | decoding the vector encoding of records whose names and hashes are tokens gives back the same records in the same order |
| FileCodec.DecodeAllTransmittable | src/file.cpp:84 | every record decoded from a vector is one the encoding can carry |
| Tracker.Register | src/tracker.cpp:26-34 | registering a record adds exactly its name to the catalog's names |
| Tracker.MergeEntry | src/tracker.cpp:17-36 | a name is catalogued iff some peer registered it; its entry is the first registered record, with every registering rank appended to its swarm in order |
| Tracker.RegistrationsInRankOrder | src/tracker.cpp:17-26 | peers are registered in increasing rank order, every rank within 1 to numtasks-1 |
| Tracker.MergeGrows | src/tracker.cpp:26-34 | registration keeps each entry under its own name and sendable, never drops a name, never changes hashes, only appends to swarms |
| Tracker.Decoded | src/tracker.cpp:25 | one decoded vector per peer, every record in it one the encoding can carry |
| Tracker.BootstrapCatalog | src/tracker.cpp:15-36 | the catalog built from decoded registrations stores each record under its own name, and every record can be sent on |
| Tracker.TrackerNode.RegisterVector | src/tracker.cpp:26-35 | the inner loop of `init` leaves the catalog as registering each record of one vector in order |
| Tracker.TrackerNode.Init | src/tracker.cpp:15-41 | the catalog is the registration of every peer's decoded vector in rank order, followed by the start broadcast |
| Tracker.Entry | src/tracker.cpp:50 | looking up a registered name gives its record; an unregistered name gives an empty record |
| Tracker.RecordReply | src/tracker.cpp:50-53 | a swarm request's reply goes to the requester: a size message whose count is the length of the record message that follows |
| Tracker.SwarmReply | src/tracker.cpp:67-69 | a swarm update's reply goes to the requester: a size message whose count is the number of ids that follow |
| Tracker.Step | src/tracker.cpp:84-99 | one dispatch: only swarm requests and updates add their name to the catalog, only a finished notice decrements the count, replies are appended and go to the sender |
| Tracker.RequestReply | src/tracker.cpp:45-57 | a swarm request for a known record is answered with its encoding, which decodes to the record before the sender joins; then the sender is appended to the swarm |
| Tracker.UpdateReply | src/tracker.cpp:61-70 | a swarm update for a known name sends exactly that swarm and leaves the catalog unchanged |
| Tracker.UnknownName | src/tracker.cpp:50-56 | a request for an unregistered name stores an empty record under it (with the requester in its swarm for a swarm request) |
| Tracker.EmptyRecordUndecodable | src/tracker.cpp:50-53 | the record sent for an unregistered name encodes as `"\n0\n0\n"`, which the decoder cannot read back (the swarm size is missing) |
| Tracker.StepKeepsCatalog | src/tracker.cpp:84-99 | a dispatch on a known name keeps every entry under its own name and sendable |
| Tracker.ServeCounter | src/tracker.cpp:78-100 | the loop exits only when no peer is still downloading or the messages run out; the count drops by exactly the finished notices consumed and stays non-negative |
| Tracker.ServeGrows | src/tracker.cpp:83-100 | serving never drops a name, changes hashes or shrinks a swarm, and only appends messages |
| Tracker.TrackerNode.SwarmRequest | src/tracker.cpp:45-57 | the tracker's new state is one swarm-request dispatch of the old one |
| Tracker.TrackerNode.SwarmUpdate | src/tracker.cpp:61-70 | the tracker's new state is one swarm-update dispatch of the old one |
| Tracker.TrackerNode.Serve | src/tracker.cpp:83-100 | the loop leaves the tracker in the state, and consumes the number of messages, that the specified request loop gives |
| Tracker.Stops | src/tracker.cpp:104-106 | the fan-out sends one notice per peer, numtasks-1 in all |
| Tracker.StopsReachEachPeerOnce | src/tracker.cpp:103-106 | every peer rank gets exactly one all-finished notice and the tracker none |
| Tracker.TrackerNode.StopAll | src/tracker.cpp:103-106 | the shutdown loop appends exactly the fan-out and changes nothing else |
| Tracker.ShutdownOnlyWhenAllFinished | src/tracker.cpp:78-106 | starting with numtasks-1 peers downloading, the loop ends iff exactly numtasks-1 finished notices were consumed; otherwise every message was consumed |
| Tracker.TrackerNode.Run | src/tracker.cpp:73-107 | the tracker bootstraps from scratch, serves with every peer downloading, and sends the shutdown fan-out exactly when the loop ended with none left |
| Peer.HashesOfExactly | src/peer.cpp:192-199 | a hash is seeded exactly when it is a hash of some owned file |
| Peer.PeerNode.SeedOwnedChunks | src/peer.cpp:192-199 | the nested loops add to the owned set exactly every hash of every owned file |
| Peer.PeerNode.RequestSwarm | src/peer.cpp:23-38 | sends a swarm request for the name and returns the record the reply decodes to |
| Peer.WithSwarm | src/peer.cpp:56 | adopting a swarm replaces only the swarm: name and hashes are unchanged |
| Peer.PeerNode.UpdateSwarm | src/peer.cpp:42-57 | sends a swarm update for the file's name and returns the file with only its swarm replaced |
| Peer.TryAdvancesOnAck | src/peer.cpp:93-113 | a pass moves to the next chunk, owning it and counting it, iff the chosen peer is not this one and answered ACK; otherwise index, count and owned set are unchanged |
| Peer.TryRefreshes | src/peer.cpp:87-90 | a pass asks for the swarm iff it is empty or the count is a multiple of ten, and then adopts the returned swarm |
| Peer.RetryRefreshesAgain | src/peer.cpp:87-106 | a pass that gets no chunk while the count is a multiple of ten (including 0) leaves the next pass to refresh again |
| Peer.AcquireKeeps | src/peer.cpp:84-114 | the loop keeps name and hashes, count equals chunks fetched, the owned set gains exactly the fetched chunks, and it stops only when all are owned or the answers run out |
| Peer.AcquirePolite | src/peer.cpp:94-100 | the loop only appends messages, each a swarm update for the file or a chunk request to a peer other than itself |
| Peer.OwnsEveryChunk | src/peer.cpp:86-114 | a download from chunk 0 that stops with answers left over has reached the last chunk; whenever the loop exits at the last chunk (retries included), every hash of the file is owned and the count equals the number of chunks |
| Peer.PeerNode.DownloadFile | src/peer.cpp:80-117 | the loop leaves the file, owned set and messages as the specified download loop does, and reports whether every chunk was fetched |
| Peer.FetchInOrder | src/peer.cpp:129-137 | files are requested in list order, each only after the previous is complete; the finished notice is sent iff all complete, and then last |
| Peer.PeerNode.FetchFile | src/peer.cpp:130-132 | one iteration requests the record and runs the download loop on it from the first chunk |
| Peer.PeerNode.DownloadAll | src/peer.cpp:120-140 | the thread leaves the owned set and messages as the specified file-by-file download does, and reports how many files completed |
| Peer.AnswersExactly | src/peer.cpp:153-168 | one reply per chunk request before the shutdown notice, in order, to its sender, ACK exactly when the hash is owned; none to the tracker |
| Peer.AnswersStop | src/peer.cpp:155-160 | the upload loop stops iff a chunk-request-tagged message from the tracker arrives |
| Peer.ShutdownReachesUploader | src/utils.h:19-22 | the all-finished tag equals the chunk-request tag, and the upload loop stops on a tracker notice wherever it sits among the incoming messages |
| Peer.PeerNode.Upload | src/peer.cpp:143-171 | the loop appends exactly the specified replies and reports whether the shutdown notice arrived; the owned set is unchanged |

## Left out

- MPI transport: sends are appended to a log of messages and receives come from oracle sequences. Blocking, tag matching between threads and cross-process ordering are not modelled. The tracker's incoming messages are one sequence in arrival order.
- Threads and the mutex (src/peer.cpp:108-110, 163-165, 212-242): the owned set is single-threaded. `Upload` runs against a fixed owned set, so downloads that happen while it runs are not modelled.
- `rand()` (src/peer.cpp:93) is an oracle number per pass; a swarm returned by an update must be non-empty (`Answered`), because `rand() % 0` is undefined.
- Unbounded retries: the download loop runs on a finite sequence of answers and stops when they run out. The C++ would keep retrying, and the tracker loop would block for more messages. Termination of the real loops is not claimed.
- `save_file` (src/peer.cpp:61-76), the `ifstream` parsing in `read_input` (src/peer.cpp:177-190, 202-208), `run_threads` and `peer` (src/peer.cpp:212-276): file I/O, thread start-up, the peer's registration send and the start broadcast it waits on. Only `read_input`'s seeding of the owned set is modelled.
- Fixed-size C buffers: names are limited to `MAX_FILENAME` (15) and hashes to `HASH_SIZE` (32) characters.
  - The `strcpy`/`sprintf` truncation is not modelled.
  - `request_swarm` sends 15 bytes from `file_name.c_str()` instead of the copied buffer, reading past a short name (src/peer.cpp:28). This is not modelled.
  - Chunk hashes are assumed to arrive intact (exactly 32 characters), so the uploader's lookup compares whole hashes.
- 32-bit integers: counts, sizes and peer ids are unbounded in the model; overflow and wrap-around are not modelled.
- Text.ReadUnsigned: `>>` into an `unsigned` also accepts a sign and wraps a negative value. The model rejects a sign; the encoder never writes one for a count.
- FileCodec.Deserialize: when an extraction fails, the C++ stream keeps the default or partially read values and `deserialize_vector` carries on. The model returns no record and no vector instead.
- Tracker.TrackerNode.Init: requires every peer's registration to decode. Malformed registrations are not modelled (see the previous line); well-formed ones are what `serialize_vector` produces (`FileCodec.VectorRoundTrip`).
- Peer.PeerNode.RequestSwarm: requires the tracker's reply to decode. `Tracker.RequestReply` shows that it does for a registered name. The empty record sent for an unregistered name does not decode (`Tracker.EmptyRecordUndecodable`). What the C++ then reconstructs is not modelled.
- Peer.PeerNode.DownloadAll: requires every reply to decode, for the same reason.
- Peer.PeerNode.FetchFile: requires the tracker's reply to decode, for the same reason.
