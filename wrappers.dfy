/** Option and Result values used across the model. */
module Wrappers {

  datatype Option<+T> = None | Some(value: T)

  /** The outcome of a step that can fail: a value, or the reason it failed. */
  datatype Result<+T, +E> = Ok(value: T) | Err(error: E)
}
