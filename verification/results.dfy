/** Optional values and error-carrying results, used wherever the Python code
    returns None or raises. */
module Results {

  /** A value that may be absent (Python's `None`). */
  datatype Option<+T> = None | Some(value: T)

  /** A computed value, or the error the Python code would raise instead. */
  datatype Result<+T, +E> = Ok(value: T) | Err(error: E)
}
