/** Failure-compatible wrappers shared by the whole model.
    `Error` names the Python exception a failing operation raises. */
module Wrappers {

  datatype Option<+T> = None | Some(value: T)

  /** The Python exception classes the modelled code can raise. */
  datatype Error = ValueError | KeyError | IndexError | ZeroDivisionError

  datatype Result<+T> = Ok(value: T) | Err(error: Error)

  datatype Outcome = Pass | Fail(error: Error)
}
