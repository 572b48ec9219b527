/** Option and Result values used across the model. */
module Wrappers {

  /** `None` stands for JavaScript's `null` / `undefined`. */
  datatype Option<+T> = None | Some(value: T)

  /** An operation that either produces a value or refuses with an error. */
  datatype Result<+T, +E> = Ok(value: T) | Err(error: E)
}
