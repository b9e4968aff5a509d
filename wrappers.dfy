/** Failure-compatible result types used throughout the model. */
module Wrappers {

  datatype Option<+T> = None | Some(value: T)

  /** A value or an error, in place of Go's `(T, error)` return pairs. */
  datatype Result<+T, +E> = Ok(value: T) | Err(error: E)

  /** An error-or-nothing outcome, in place of Go's bare `error` return. */
  datatype Outcome<+E> = Pass | Fail(error: E)
}
