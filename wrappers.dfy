/** Outcome carriers for Go's (value, error) and error-only returns. */
module Wrappers {

  datatype Option<+T> = None | Some(value: T)

  /** A Go `(T, error)` pair, split into the two cases the callers distinguish. */
  datatype Result<+T, +E> = Success(value: T) | Failure(error: E)

  /** A Go function returning only `error`. */
  datatype Outcome<+E> = Pass | Fail(error: E)
}
