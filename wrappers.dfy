/** Values that may be missing (pandas NaN, Python `None`) and operations that may fail. */
module Wrappers {

  /** A value that may be absent: `None` stands for Python's `None` and pandas' NaN. */
  datatype Option<+T> = None | Some(value: T)

  /** The outcome of an operation that raises in the source. */
  datatype Result<+T, +E> = Ok(value: T) | Err(error: E)
}
