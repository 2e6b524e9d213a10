/** Failure-carrying values used where the modelled C# code throws or returns null. */
module Wrappers {

  datatype Option<+T> = None | Some(value: T)

  /** Completion of an operation that returns a value or throws. */
  datatype Result<+R, +E> = Success(value: R) | Failure(error: E)

  /** Completion of an operation that returns nothing or throws. */
  datatype Outcome<+E> = Pass | Fail(error: E)
}
