/** Failure-carrying return values, standing in for Go's `(value, error)` pairs. */
module Wrappers {

  /** Either a value or the error that prevented computing it. */
  datatype Result<+T, +E> = Ok(value: T) | Err(error: E)

  /** An optional value. */
  datatype Option<+T> = None | Some(value: T)
}
