/** Optional values and fallible results used throughout the model. */
module Results {

  /** A value that may be absent, such as the entry of a key an array lacks. */
  datatype Option<+T> = None | Some(value: T)

  /** The outcome of an operation that can throw: a value, or the error it raises. */
  datatype Result<+T, +E> = Success(value: T) | Failure(error: E)
}
