/** Failure and absence, as the Go code's `(value, error)` and `(value, ok)` pairs. */
module Wrappers {
  datatype Option<+T> = None | Some(value: T)

  datatype Result<+T, +E> = Ok(value: T) | Err(error: E)
}
