/** Failure-carrying return values, standing in for the exceptions the Java code throws. */
module Wrappers {

  datatype Option<+T> = None | Some(value: T)

  /** The value a Java method returns, or the exception it throws instead. */
  datatype Result<+R, +E> = Ok(value: R) | Err(error: E)

  /** The outcome of a `void` Java method: it returns normally or throws. */
  datatype Outcome<+E> = Pass | Fail(error: E)
}
