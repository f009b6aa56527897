/** Optional values and the outcome of an operation that may raise, as Python does. */
module Results {

  /** A value that may be absent. */
  datatype Option<+T> = None | Some(value: T)

  /** Either a value or the message of the exception raised instead of returning one. */
  datatype Result<+T> = Ok(value: T) | Raised(message: string)
}
