/** Optional values and results, standing in for Python's `None` and raised errors. */
module Wrappers {

  /** A value that may be absent (`None` in Python, `null`/`undefined` in TypeScript). */
  datatype Option<+T> = None | Some(value: T)

  /** A value or the error that replaced it. */
  datatype Result<+T, +E> = Success(value: T) | Failure(error: E)
}
