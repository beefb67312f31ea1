/** Sizes that several components share (param.h, fs.h). */
module Params {
  const MAXOPBLOCKS: nat := 10              // most blocks an operation is meant to write
  const LOGSIZE: nat := 3 * MAXOPBLOCKS     // blocks of the log, its header included
  const NBUF: nat := 3 * MAXOPBLOCKS        // buffers of the block cache
  const BSIZE: int := 512                   // bytes in a block
  const BPB: int := 4096                    // bits in a bitmap block
  const UINT: int := 0x1_0000_0000          // one more than the largest 32-bit unsigned value
}
