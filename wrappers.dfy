/** Failure-compatible result types shared by the registry and the engine. */
module Wrappers {

  /** A value that may be absent: Go's nil pointer, nil slice or "no error". */
  datatype Option<+T> = None | Some(value: T)

  /** Either a value or an error message, for Go's (value, error) returns. */
  datatype Result<+R, +E> = Success(value: R) | Failure(error: E)
}
