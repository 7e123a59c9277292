/** Failure-carrying wrappers used across the model: an optional value, and a
    value-or-error result for lookups that can fail for more than one reason. */
module Wrappers {

  datatype Option<+T> = None | Some(value: T)

  datatype Result<+R, +E> = Success(value: R) | Failure(error: E)
}
