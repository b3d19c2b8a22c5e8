/** Failure-carrying values shared by every module of the model. */
module Wrappers {

  /** A value that may be absent: Go's `(v, ok)` pairs and nil references. */
  datatype Option<+T> = None | Some(value: T)

  /** A value or an error: Go's `(v, err)` pairs. */
  datatype Result<+T, +E> = Ok(value: T) | Err(error: E)
}
