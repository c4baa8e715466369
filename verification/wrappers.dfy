/** Failure-carrying datatypes shared by the relay model. */
module Wrappers {

  /** A value that may be absent: a Go `nil` pointer or error, or a missing result. */
  datatype Option<+T> = None | Some(value: T)

  /** The outcome of an operation that either yields a value or fails with an error. */
  datatype Result<+R, +E> = Success(value: R) | Failure(error: E)
}
