/** Optional values. */
module Options {
  datatype Option<+T> = None | Some(value: T)
}

/** Results that carry an error. */
module Results {
  datatype Result<+T, +E> = Ok(value: T) | Err(error: E)
}
