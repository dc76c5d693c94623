/** Values shared by the modules: Option and Result, and the Go `byte`. */
module Wrappers {

  /** A value that may be absent (a nil pointer or a missing map entry in the Go code). */
  datatype Option<+T> = None | Some(value: T)

  /** The outcome of a Go function that returns `(value, error)`. */
  datatype Result<+T> = Ok(value: T) | Err(error: string)

  /** A Go `byte`. */
  newtype byte = x: int | 0 <= x < 256
}
