/** param.h: the kernel's compile-time limits. */
module Params {
  const MAXOPBLOCKS: nat := 10             // blocks one file-system operation may write
  const LOGSIZE: nat := MAXOPBLOCKS * 3    // data blocks in the on-disk log
  const NBUF: nat := MAXOPBLOCKS * 3       // buffers in the block cache
  const NPROC: nat := 64
  const ROOTDEV: int := 1
}
