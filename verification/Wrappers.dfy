/** Types shared by every component of the model. */
module Wrappers {
  datatype Option<+T> = None | Some(value: T)

  /** One octet of wristband memory, of a radio payload or of a serial line. */
  type byte = b: int | 0 <= b < 256

  function Min(a: int, b: int): int {
    if a < b then a else b
  }
}
