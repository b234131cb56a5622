/** Failure-compatible wrappers shared by the service and the screens. */
module Wrappers {

  /** An optional value: Swift's `T?`. */
  datatype Option<+T> = None | Some(value: T)

  /** The outcome of a throwing Swift call: a value or the error it threw. */
  datatype Result<+R, +E> = Success(value: R) | Failure(error: E)
}
