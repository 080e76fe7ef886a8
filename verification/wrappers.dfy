/** Failure-carrying datatypes shared by the model. */
module Wrappers {

  /** A value that may be absent (a regex that did not match, a substring that was not found). */
  datatype Option<+T> = None | Some(value: T)

  /** Either a value or the error that the Python code would raise instead. */
  datatype Result<+T, +E> = Success(value: T) | Failure(error: E)
}
