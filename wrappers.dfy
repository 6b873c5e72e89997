/** Failure-compatible helper datatypes shared by the other modules. */
module Wrappers {

  /** A value that may be absent: an expression that is not well formed has no value. */
  datatype Option<+T> = None | Some(value: T)

  /** The result of an operation that can fail with an error of type E. */
  datatype Result<+R, +E> = Ok(value: R) | Err(error: E)
}
