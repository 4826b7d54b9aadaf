/** Failure-carrying values: the model's stand-in for Python's `None` and raised exceptions. */
module Outcomes {

  /** An optional value (Python `None` vs. a value). */
  datatype Option<+T> = None | Some(value: T)

  /** A value, or the error the program reports or raises instead. */
  datatype Result<+T, +E> = Ok(value: T) | Err(error: E)
}
