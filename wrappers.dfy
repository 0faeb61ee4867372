/** Optional values and failure-carrying results, standing in for std::optional and for the
    parser's `std::exit(1)` paths, which the model returns as errors instead. */
module Wrappers {

  datatype Option<+T> = None | Some(value: T)

  datatype Outcome<+E> = Pass | Fail(error: E)

  datatype Result<+T, +E> = Success(value: T) | Failure(error: E) {

    /** Forgets the success value. */
    function ToOutcome(): Outcome<E> {
      match this
      case Success(_) => Pass
      case Failure(e) => Fail(e)
    }
  }
}
