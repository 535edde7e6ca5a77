/** Option and Result, the shapes in which the model returns Go's `(T, error)` pairs. */
module Wrappers {

  /** Go's `error` value: `None` is `nil`. */
  datatype Option<+T> = None | Some(value: T)

  /** A Go `(T, error)` pair where exactly one side is meaningful. */
  datatype Result<+T, +E> = Ok(value: T) | Err(error: E)
}
