/** The two failure-carrying datatypes the rest of the model uses. */
module Wrappers {

  datatype Option<+T> = None | Some(value: T)

  /** A Node-style callback outcome: `callback(err)` or `callback(null, value)`. */
  datatype Result<+T, +E> = Success(value: T) | Failure(error: E)
}
