/** Option and Result: `Option` for PHP's nullable values and lookups that
    may miss, `Result` for lookups that abort with an HTTP status. */
module Wrappers {

  datatype Option<+T> = None | Some(value: T)

  datatype Result<+R, +E> = Success(value: R) | Failure(error: E)
}
