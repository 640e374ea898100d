/** Option and Result, the two wrappers the model uses for Go's nil
    pointers and `(value, error)` returns. */
module Wrappers {

  /** A value that may be absent; stands for a Go pointer that may be nil. */
  datatype Option<+T> = None | Some(value: T)

  /** A value or an error; stands for Go's `(T, error)` return pair. */
  datatype Result<+R, +E> = Success(value: R) | Failure(error: E)
}
