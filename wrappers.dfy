/** Optional values and success-or-error results. */
module Wrappers {

  /** A value that may be absent: the Go SDK's nil-able `*string` fields and nil maps. */
  datatype Option<+T> = None | Some(value: T)

  /** The outcome of a call that returns a value or an error. */
  datatype Result<+R, +E> = Success(value: R) | Failure(error: E)
}
