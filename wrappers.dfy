/** Optional values and results that stand for Python's None and raised exceptions. */
module Wrappers {

  /** A value that may be absent (Python's None / pandas null). */
  datatype Option<+T> = None | Some(value: T)

  /** Either a value, or the exception the Python code would raise instead. */
  datatype Result<+T, +E> = Success(value: T) | Failure(error: E)
}
