/** Optional values and results with an error, for Python's `None` and raised exceptions. */
module Options {

  datatype Option<+T> = None | Some(value: T)

  datatype Result<+R, +E> = Success(value: R) | Failure(error: E)
}
