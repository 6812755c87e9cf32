/** Wrappers for the optional values and error returns of the executor. */
module Wrappers {

  /** An optional value; `None` stands for Go's nil error. */
  datatype Option<+T> = None | Some(value: T)

  /** Either a value or an error, as a Go `(value, error)` pair where exactly one side is meaningful. */
  datatype Result<+R, +E> = Success(value: R) | Failure(error: E)
}
