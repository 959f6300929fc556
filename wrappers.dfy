/** Failure-compatible wrappers shared by the model: absent values and error returns. */
module Wrappers {

  /** A value that may be absent (`undefined` in TypeScript, `null` in Java). */
  datatype Option<+T> = None | Some(value: T)

  /** Either a value or the error that replaced it (a thrown exception in Java). */
  datatype Result<+T, +E> = Success(value: T) | Failure(error: E)

  /** Completion of an operation that returns nothing: normal return or an exception. */
  datatype Outcome<+E> = Pass | Fail(error: E)
}
