/** Wrappers for the PHP `null` value, for results that may fail and for thrown exceptions. */
module Wrappers {

  /** A value that may be absent: PHP `null`, an unset field or a missing array key. */
  datatype Option<+T> = None | Some(value: T)

  /** The outcome of a call that either returns a value or throws. */
  datatype Result<+R, +E> = Success(value: R) | Failure(error: E)

  /** The outcome of a call whose only interesting result is whether it threw. */
  datatype Outcome<+E> = Pass | Fail(error: E)
}
