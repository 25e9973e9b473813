/** Failure-carrying values shared by the brewing modules. */
module Wrappers {

  /** A value that may be absent: an optional command-line argument. */
  datatype Option<+T> = None | Some(value: T)

  /** The outcome of an operation that can fail with an error value. */
  datatype Result<+T, +E> = Ok(value: T) | Err(error: E)
}
