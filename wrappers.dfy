/** Failure-compatible value types shared by the whole model. */
module Wrappers {

  /** A value that may be absent: Java's `null` for references the source may leave unset. */
  datatype Option<+T> = None | Some(value: T)

  /** The result of an operation that the source can end with an exception. */
  datatype Result<+T, +E> = Ok(value: T) | Err(error: E)
}
