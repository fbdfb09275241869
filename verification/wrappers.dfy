/** Failure-compatible wrappers shared by the whole model. */
module Wrappers {

  /** A value that may be absent; stands in for a null pointer. */
  datatype Option<+T> = None | Some(value: T)

  /** Either a value or the error the source would have thrown. */
  datatype Result<+T, +E> = Ok(value: T) | Err(error: E)
}
