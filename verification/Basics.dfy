/** What several parts of the kernel share: optional values, bytes, and the constants of param.h,
    fs.h and mmu.h. */
module Basics {

  datatype Option<+T> = None | Some(value: T)

  type byte = x: int | 0 <= x < 256

  const MAXOPBLOCKS := 10
  const LOGSIZE := 30
  const ROOTINO := 1
  const PGSIZE := 4096
}
