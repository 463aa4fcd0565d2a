/** Option and Result: the absent values and raised errors of the client. */
module Wrappers {

  /** A value that may be missing (Python's None). */
  datatype Option<+T> = None | Some(value: T)

  /** The outcome of an operation that the client can raise an exception from. */
  datatype Result<+T, +E> = Ok(value: T) | Err(error: E)
}
