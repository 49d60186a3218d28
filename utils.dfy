// Protocol constants shared by the tracker and the peers (src/utils.h).
module Utils {
  /** The tracker is always endpoint 0. */
  const TrackerRank: int := 0

  /** Reply codes of a chunk request. */
  const Ack: int := 1
  const Nack: int := 0

  /** Message tags. */
  const SizeTag: int := 0
  const SwarmRequestTag: int := 1
  const SwarmUpdateTag: int := 2
  const ChunkRequestTag: int := 3
  const ChunkReplyTag: int := 4
  const ClientFinishedTag: int := 5
  /** The stop notification reuses the chunk-request tag, which is what lets it reach the uploader. */
  const AllFinishedTag: int := 3
}
