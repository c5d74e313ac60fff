/** Option and Result: Go's `(value, error)` returns, with the error
    represented by its message text (what `err.Error()` yields). */
module Wrappers {

  datatype Option<+T> = None | Some(value: T)

  datatype Result<+T> = Success(value: T) | Failure(error: string)
}
