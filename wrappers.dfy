/** Option and Result, used for Go's `(value, error)` returns. */
module Wrappers {

  datatype Option<+T> = None | Some(value: T)

  /** `Failure` stands for a non-nil Go error; the zero-valued response Go returns beside it is not kept. */
  datatype Result<+R, +E> = Success(value: R) | Failure(error: E)
}
