/** The wrappers shared by the model: an optional value and the outcome of an operation that may fail. */
module Wrappers {

  /** A value that may be absent: Python's `None`, or SQL's NULL in a table column. */
  datatype Option<+T> = None | Some(value: T)

  /** The outcome of an operation that may raise: `Err` carries the exception. */
  datatype Result<+T, +E> = Ok(value: T) | Err(error: E)
}
