/** Small value types shared by every module of the model. */
module Common {

  /** Stands for Go's "zero value means unset" convention (a zero time.Time, a nil reference). */
  datatype Option<+T> = None | Some(value: T)

  /** A value or an error, for Go's `(T, error)` returns. */
  datatype Result<+T, +E> = Ok(value: T) | Err(error: E)
}
