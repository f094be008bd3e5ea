/** Option and Result values for the operations that can fail or find nothing. */
module Results {

  datatype Option<+T> = None | Some(value: T)

  /** The outcome of an operation that either produces a value or raises one of the errors it names. */
  datatype Result<+T, +E> = Success(value: T) | Failure(error: E)
}
