/** Failure-carrying results shared by every module of the model. */
module Wrappers {

  /** A value that may be absent (C#'s null). */
  datatype Option<+T> = None | Some(value: T)

  /** A value or the message of the exception thrown instead. */
  datatype Result<+T, +E> = Success(value: T) | Failure(error: E)

  /** An operation that returns nothing, or throws. */
  datatype Outcome<+E> = Pass | Fail(error: E)
}
