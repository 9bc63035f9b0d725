/** Python's `None`-or-value, used for optional arguments and lookups, and the outcome of a call
    that may raise, carrying the exception's `str()`. */
module Wrappers {
  datatype Option<+T> = None | Some(value: T)

  datatype Result<+T> = Success(value: T) | Failure(error: string)
}
