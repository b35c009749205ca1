/** Option and Result, the failure-carrying wrappers the rest of the model uses. */
module Wrappers {

  /** A value that may be absent: an undefined property of a parsed payload. */
  datatype Option<+T> = None | Some(value: T)

  /** The outcome of an operation that either produces a value or fails with an error. */
  datatype Result<+R, +E> = Success(value: R) | Failure(error: E)
}
