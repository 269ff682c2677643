/** Failure-carrying results for operations that throw in JavaScript. */
module Wrappers {

  datatype Option<+T> = None | Some(value: T)

  /** A value, or the error the source would throw. */
  datatype Result<+T, +E> = Ok(value: T) | Err(error: E)

  /** Completion of an operation that returns nothing but may throw. */
  datatype Outcome<+E> = Pass | Fail(error: E)
}
