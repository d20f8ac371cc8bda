/** Failure-carrying wrappers used throughout the model. */
module Wrappers {

  /** A value that may be absent; stands for a Go pointer or error that may be nil. */
  datatype Option<+T> = None | Some(value: T)

  /** The outcome of a fallible step: its value, or the error it reported. */
  datatype Result<+T, +E> = Ok(value: T) | Err(error: E)
}
