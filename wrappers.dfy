/** Failure-carrying values for the Java exceptions the modelled code can raise. */
module Wrappers {

  /** The unchecked exceptions the core throws (or would throw) at run time. */
  datatype Exception =
    | IllegalArgument   // IllegalArgumentException: a size check or a non-positive bound
    | IndexOutOfBounds  // ArrayIndexOutOfBoundsException
    | StackOverflow     // StackOverflowError: unbounded recursion

  /** A value, or the exception raised instead of returning it. */
  datatype Result<T> = Ok(value: T) | Err(error: Exception)

  /** Normal completion of a void method, or the exception it raised. */
  datatype Outcome = Done | Fail(error: Exception)

  /** A Java reference that may be null. */
  datatype Option<T> = None | Some(value: T)
}
