/** Option and Result, the datatypes the model uses for absent values and
    for the exceptions the Python code raises. */
module Outcomes {

  datatype Option<+T> = None | Some(value: T)

  /** A computation that either returns a value or raises an error. */
  datatype Result<+T, +E> = Success(value: T) | Failure(error: E)
}
