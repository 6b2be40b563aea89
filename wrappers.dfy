/** Optional values and results carrying an error, as used throughout the model. */
module Wrappers {
  datatype Option<T> = None | Some(value: T)

  /** A Python call that returns a value or raises one of the exceptions named by `E`. */
  datatype Result<T, E> = Success(value: T) | Failure(error: E)
  {
    predicate IsFailure() { Failure? }
  }
}
