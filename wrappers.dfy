/** Option and Result: the model's stand-ins for Go's nil and its (value, error) pairs. */
module Wrappers {

  datatype Option<+T> = None | Some(value: T)

  /** A Go call that returns `(T, error)`: either a value, or the error (the
      zero value that Go returns beside the error is not carried). */
  datatype Result<+T, +E> = Ok(value: T) | Err(error: E)
}
