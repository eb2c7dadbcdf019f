/** Failure-compatible value types shared by the other modules. */
module Wrappers {

  /** A value that may be absent (Go's nil pointer, a missing match). */
  datatype Option<+T> = None | Some(value: T)

  /** The outcome of an operation that may fail with an error value. */
  datatype Result<+R, +E> = Success(value: R) | Failure(error: E)
}
