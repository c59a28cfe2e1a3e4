/** Optional values and error returns: Go's `(value, error)` pairs and nil-able
    inputs become these two datatypes. */
module Results {

  datatype Option<+T> = None | Some(value: T)

  datatype Result<+T, +E> = Ok(value: T) | Err(error: E)
}
