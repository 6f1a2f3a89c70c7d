/** What an operation that may fail, or may have nothing to say, returns. */
module Results {

  datatype Option<+T> = Some(value: T) | None

  /** Error texts are not modelled. */
  datatype Result<+T> = Ok(value: T) | Err
}
