/** Optional values and success/failure results, standing in for JavaScript's
    `null` and for exceptions caught by the caller. */
module Wrappers {

  datatype Option<+T> = None | Some(value: T)

  datatype Result<+T, +E> = Success(value: T) | Failure(error: E)
}
