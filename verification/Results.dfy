// A computed value, or the error that the source throws in its place.

module Results {
  datatype Result<+T, +E> = Ok(value: T) | Err(error: E)
  datatype Option<+T> = None | Some(value: T)
}
