/** Failure-compatible result types shared by the other modules. */
module Wrappers {

  /** A value that may be absent; stands for Python's `None`. */
  datatype Option<+T> = None | Some(value: T)

  /** Either a value or an error, for operations that raise in the source. */
  datatype Result<+T, +E> = Ok(value: T) | Err(error: E)
}
