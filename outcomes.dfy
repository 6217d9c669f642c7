/** Python's "returns a value or raises an exception", as values. */
module Outcomes {

  datatype Option<+T> = None | Some(value: T)

  /** The exception classes the modelled code raises, catches or lets through. */
  datatype Error = ValueError | TypeError | RuntimeError | IOError | OtherError

  /** The outcome of calling a Python callable: it returned a value or raised. */
  datatype Outcome<+T> = Returned(value: T) | Raised(error: Error)
}
