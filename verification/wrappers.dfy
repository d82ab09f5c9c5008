/** Failure-compatible wrappers shared by the rest of the model. */
module Wrappers {

  /** An optional value: the model's rendering of Python's `None`. */
  datatype Option<+T> = None | Some(value: T)

  /** A value or an error: the model's rendering of a raised exception. */
  datatype Result<+T, +E> = Ok(value: T) | Err(error: E)
}
