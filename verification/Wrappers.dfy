/** Stock result types shared by the other modules. */
module Wrappers {

  /** A value that may be absent: Python's None, or a call that raised without further detail. */
  datatype Option<+T> = None | Some(value: T)

  /** A value, or the error a call raised. */
  datatype Result<+T, +E> = Success(value: T) | Failure(error: E)
}
