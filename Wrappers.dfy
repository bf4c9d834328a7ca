/** Option and Result wrappers used for the values JavaScript expresses as NaN and as thrown errors. */
module Wrappers {
  datatype Option<+T> = None | Some(value: T)

  datatype Result<+T, +E> = Success(value: T) | Failure(error: E)
}
