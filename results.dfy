/** The one failure the core can raise, and a result type that carries it. */
module Results {

  /** `std::logic_error("Invalid argument")`, thrown by `random` on an empty interval. */
  datatype Error = InvalidArgument

  datatype Result<T> = Success(value: T) | Failure(error: Error)
}
