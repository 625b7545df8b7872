/** Failure-carrying values shared by every module of the model. */
module Wrappers {

  /** A value that may be absent (Python's `Optional[...]`, `None`). */
  datatype Option<+T> = None | Some(value: T)

  /** A value or the error that stopped its computation (a raised exception). */
  datatype Result<+T, +E> = Ok(value: T) | Err(error: E)
}
