/** Optional values and results with an error, as the Go code's nil pointers and error returns. */
module Wrappers {

  /** A value that may be absent (a Go nil pointer, an SQL NULL). */
  datatype Option<+T> = None | Some(value: T)

  /** The outcome of an operation that can fail with an error of type E. */
  datatype Result<+R, +E> = Ok(value: R) | Err(error: E)
}
