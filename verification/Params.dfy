/** Constants of kernel/param.h, and the range of an unsigned int. */
module Params {
  const MAXOPBLOCKS := 10
  const LOGSIZE := MAXOPBLOCKS * 3
  const NBUF := MAXOPBLOCKS * 3
  const UINT_RANGE := 0x1_0000_0000
}
