/** Stock definitions shared by the modules of this project: optional
    values and bytes. */
module Wrappers {
  datatype Option<T> = None | Some(value: T)

  /** One byte of a file or a stream. */
  newtype Byte = x: int | 0 <= x < 256
}
