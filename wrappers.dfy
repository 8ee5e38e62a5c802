/** Option and Result values shared by every module of the model. */
module Wrappers {

  /** A value that may be absent (a nil pointer or an unset field in the program). */
  datatype Option<+T> = None | Some(value: T)

  /** Either a value or an error, as the program's `(value, error)` return pairs. */
  datatype Result<+T, +E> = Ok(value: T) | Err(error: E)
}
