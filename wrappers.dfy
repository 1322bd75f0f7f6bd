/** Failure-carrying values used where the Python code raises or returns None. */
module Wrappers {

  datatype Option<+T> = None | Some(value: T)

  /** `Err` stands for a Python exception that the caller does not catch. */
  datatype Result<+T, +E> = Ok(value: T) | Err(error: E)
}
