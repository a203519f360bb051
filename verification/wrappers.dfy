/** The two failure-carrying shapes the model needs: an optional value
    (Python's `None`) and a result that is either a value or a raised error. */
module Wrappers {

  datatype Option<+T> = None | Some(value: T)

  datatype Result<+T, +E> = Success(value: T) | Failure(error: E)
}
