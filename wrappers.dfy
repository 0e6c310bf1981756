/** Option and Result values standing for Go's `error` returns and `(value, error)` pairs. */
module Wrappers {

  /** `None` is Go's nil error; `Some(e)` a non-nil error `e`. */
  datatype Option<+T> = None | Some(value: T)

  /** Exactly one of a value and an error, as a Go `(*T, error)` pair is used. */
  datatype Result<+T, +E> = Ok(value: T) | Err(error: E)
}
