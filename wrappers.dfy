/** Option and Result, used for Python's `Optional[...]` values and for
    calls that either return a value or raise an exception. */
module Wrappers {

  datatype Option<+T> = None | Some(value: T)

  datatype Result<+T, +E> = Success(value: T) | Failure(error: E)
}
