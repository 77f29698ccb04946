/** Optional values and results with an error, used for NA cells and the conversion's failure path. */
module Wrappers {

  datatype Option<+T> = None | Some(value: T)

  datatype Result<+T, +E> = Success(value: T) | Failure(error: E)
}
