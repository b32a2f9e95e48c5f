/** Failure-compatible result types shared by the marshaler and the cache client. */
module Wrappers {

  /** A value that may be absent: C#'s null. */
  datatype Option<+T> = None | Some(value: T)

  /** The outcome of a call that either returns a value or throws an exception. */
  datatype Result<+T, +E> = Ok(value: T) | Err(error: E)

  /** The outcome of a call that returns nothing or throws an exception. */
  datatype Outcome<+E> = Pass | Fail(error: E)
}
