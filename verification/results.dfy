/** Failure-carrying values shared by the other modules. */
module Results {

  /** A value or the absence of one (Python's `None` sentinel). */
  datatype Option<+T> = None | Some(value: T)

  /** A computed value or the error that a Python `raise` would have propagated. */
  datatype Result<+T, +E> = Ok(value: T) | Err(error: E)
}
