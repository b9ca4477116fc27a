/** Failure-carrying values used for the error paths of the loan views and serializers. */
module Wrappers {

  datatype Option<+T> = None | Some(value: T)

  /** A value, or the error the operation reports instead. */
  datatype Result<+T, +E> = Success(value: T) | Failure(error: E)

  /** The outcome of an operation that returns nothing but may fail. */
  datatype Outcome<+E> = Pass | Fail(error: E)
}
