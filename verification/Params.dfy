/** The kernel's limits (param.h) and the types that several of its files use. */
module Params {

  const INT32 := 0x8000_0000
  const UINT32 := 0x1_0000_0000
  const UINT64 := 0x1_0000_0000_0000_0000

  const NPROC := 64
  const NRES := 16
  const MAXOPBLOCKS := 10
  const LOGBLOCKS := 30  // MAXOPBLOCKS * 3

  datatype ProcState = Unused | Used | Sleeping | Runnable | Running | Zombie

  /** A block of a device. */
  datatype Key = Key(dev: int, bn: int)
}
