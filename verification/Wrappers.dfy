/** The two failure-carrying results the model uses in place of Python's exceptions and `None`. */
module Wrappers {
  datatype Option<+T> = None | Some(value: T)

  datatype Result<+T, +E> = Ok(value: T) | Err(error: E)
}
