/** Option and Result, the error-carrying values used in place of Python's
    None and raised exceptions. */
module Wrappers {

  datatype Option<+T> = None | Some(value: T)

  /** Ok(value) for a normal return, Err(error) for a raised exception. */
  datatype Result<+T, +E> = Ok(value: T) | Err(error: E)

  /** Err(error) for a raised exception, Pass for a call that returns None. */
  datatype Outcome<+E> = Pass | Fail(error: E)
}
