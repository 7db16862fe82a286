/** The optional value used wherever the source returns an `Option`, and the byte. */
module Wrappers {
  datatype Option<+T> = None | Some(value: T)

  type byte = b: int | 0 <= b < 256
}
