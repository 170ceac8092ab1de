/** param.h: the sizes that several parts of the kernel reckon with. */
module Params {
  /** The blocks one file-system operation is taken to write. */
  const MAXOPBLOCKS := 10
  /** The data blocks of the log, as begin_op reckons: MAXOPBLOCKS * 3. */
  const LOGSIZE := 30
}
