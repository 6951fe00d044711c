/** Option and Result, the failure-carrying values used throughout the model. */
module Wrappers {

  datatype Option<+T> = None | Some(value: T)

  /** A computation that either produces a value or stops with an error,
      as a Python function either returns or raises. */
  datatype Result<+T, +E> = Ok(value: T) | Err(error: E)
}
