/** What the modules of the kernel model share. */
module Kernel {

  /** The outcome of a call that may end in `Cpu::Panic`, which never returns. */
  datatype Outcome<+T> = Returns(value: T) | Panics

  type Byte = b: int | 0 <= b < 256

  datatype Option<+T> = None | Some(value: T)
}
