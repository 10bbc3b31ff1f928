/** Option and Result values used for the source's nil returns and error returns. */
module Wrappers {

  datatype Option<+T> = None | Some(value: T)

  datatype Result<+T, +E> = Ok(value: T) | Err(error: E)

  /** A byte, as Go's `byte`. */
  type byte = x: int | 0 <= x < 256
}
