/** An optional value, and a result that may be an error instead: Python's None and its exceptions. */
module Options {
  datatype Option<+T> = None | Some(value: T)

  datatype Result<+T, +E> = Ok(value: T) | Err(error: E)
}
