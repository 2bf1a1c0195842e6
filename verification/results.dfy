/** Success-or-error results and optional values.

    `Result` stands in for Python's exceptions: a Python call that raises
    becomes an `Err` carrying what the exception would report. */
module Results {

  /** A value that may be absent. */
  datatype Option<+T> = None | Some(value: T)

  /** Either the value a call produced or the error it raised. */
  datatype Result<+T, +E> = Ok(value: T) | Err(error: E)
}
