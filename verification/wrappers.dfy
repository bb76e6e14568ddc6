/** Failure-compatible wrappers used throughout the model: an optional value and
    a value-or-error result, standing in for Swift optionals and `throws`. */
module Wrappers {

  datatype Option<+T> = None | Some(value: T)

  datatype Result<+R, +E> = Success(value: R) | Failure(error: E)
}
