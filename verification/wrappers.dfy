/** Optional values and results with an error, used wherever the JavaScript code
    works with `null`/`undefined` or with a call that may throw. */
module Wrappers {

  datatype Option<+T> = None | Some(value: T)

  datatype Result<+R, +E> = Success(value: R) | Failure(error: E)
}
