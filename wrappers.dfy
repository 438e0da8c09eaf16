/** Optional values and error-or-value results, used where the Go code returns a
    nil reference, a `(value, error)` pair or an `error`. */
module Wrappers {

  datatype Option<+T> = None | Some(value: T)

  datatype Result<+R, +E> = Success(value: R) | Failure(error: E)
}
