/** Results of code that may raise, and values that may be missing. */
module Results {
  datatype Result<+T> = Ok(value: T) | Err(error: string)
  datatype Option<+T> = None | Some(value: T)
}
