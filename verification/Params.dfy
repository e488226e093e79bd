/** The sizes that param.h gives the file system. */
module Params {

  /** Blocks that one file system operation may write. */
  const MAXOPBLOCKS: nat := 10

  /** Blocks that the log header can list. */
  const LOGSIZE: nat := MAXOPBLOCKS * 3

  /** Buffers of the cache. */
  const NBUF: nat := MAXOPBLOCKS * 3
}
