/** Optional values and results of operations that can throw. */
module Wrappers {

  datatype Option<+T> = None | Some(value: T)

  /** The outcome of a Swift call that returns a value or throws an error. */
  datatype Result<+R, +E> = Success(value: R) | Failure(error: E)

  /** The outcome of a Swift call that returns nothing or throws an error. */
  datatype Outcome<+E> = Pass | Fail(error: E)
}
