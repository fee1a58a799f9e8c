/** What several modules share. */
module Common {

  datatype Option<+T> = None | Some(value: T)

  type Byte = b: int | 0 <= b < 256

  /** Unsigned machine words are numbers below this one. */
  const UINT := 0x1_0000_0000

  /** Blocks that one file system operation may log (param.h). */
  const MAXOPBLOCKS := 10
}
