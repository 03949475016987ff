/** Failure-carrying values used in place of C# null references and exceptions. */
module Wrappers {

  /** A value that may be absent (a C# null reference). */
  datatype Option<+T> = None | Some(value: T)

  /** The outcome of an operation that either returns a value or throws. */
  datatype Result<+R, +E> = Success(value: R) | Failure(error: E)

  /** The outcome of a guard that either passes or throws. */
  datatype Outcome<+E> = Pass | Fail(error: E)
}
