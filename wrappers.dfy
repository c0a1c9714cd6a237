/** Option and Result values used across the model in place of Python's
    `None` returns and raised exceptions. */
module Wrappers {

  datatype Option<+T> = None | Some(value: T)

  /** `Err` stands for an exception the Python code raises; its payload says which. */
  datatype Result<+T, +E> = Ok(value: T) | Err(error: E)
}
