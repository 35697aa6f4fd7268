/** The optional value and the error-or-value results used throughout. */
module Wrappers {

  datatype Option<+T> = None | Some(value: T)

  /** A computation that either returns a value or raises. */
  datatype Result<+T, +E> = Ok(value: T) | Err(error: E)
}
