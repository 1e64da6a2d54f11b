/** The two shapes a value of the source takes when it may be missing or when
    producing it may throw. */
module Wrappers {

  /** A value that may be `null` or `undefined` in the source. */
  datatype Option<+T> = None | Some(value: T)

  /** The outcome of a computation that either returns `value` or throws `error`. */
  datatype Result<+R, +E> = Success(value: R) | Failure(error: E)
}
