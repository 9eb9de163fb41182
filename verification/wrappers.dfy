/** Failure-carrying values used throughout the model: an optional value, a
    value-or-error result and a pass-or-fail outcome (Go's `error` return). */
module Wrappers {

  datatype Option<+T> = None | Some(value: T)

  datatype Result<+R, +E> = Success(value: R) | Failure(error: E)

  /** The outcome of a Go call that returns only an `error`: nil is `Pass`. */
  datatype Outcome<+E> = Pass | Fail(error: E)
}
