/** The outcome of an operation the app can refuse with a warning. */
module Results {

  datatype Result<T, E> = Success(value: T) | Failure(error: E)
}
