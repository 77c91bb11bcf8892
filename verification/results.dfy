/** Failure-carrying values shared by every module of the model. */
module Results {

  /** A value that may be absent, as a nil reference is in Go. */
  datatype Option<+T> = None | Some(value: T)

  /** The outcome of a Go call that returns `(value, error)`. */
  datatype Result<+T, +E> = Ok(value: T) | Err(error: E)
}
