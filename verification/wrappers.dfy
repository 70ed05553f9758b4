/** Optional values and success/failure results, standing in for JavaScript's
    `null`/`undefined` and for thrown exceptions. */
module Wrappers {

  /** A value that may be absent (`null`, `undefined` or a missing key). */
  datatype Option<+T> = None | Some(value: T)

  /** The outcome of an operation that either returns a value or throws. */
  datatype Result<+T, +E> = Success(value: T) | Failure(error: E)
}
