/** The result shapes and the unit of time shared by all modules. */
module Wrappers {

  /** A Go pointer, or a value with an `ok` flag. */
  datatype Option<+T> = None | Some(value: T)

  /** A Go value with an `error`. */
  datatype Result<+T, +E> = Ok(value: T) | Err(error: E)

  /** A day in seconds, the unit of every clock here. */
  const DAY: int := 86400
}
