/** Failure-carrying results. Errors are Go `error` values, modelled by their message text. */
module Wrappers {

  /** A Go pointer that may be nil. */
  datatype Option<+T> = None | Some(value: T)

  /** A Go `(T, error)` pair where exactly one side is meaningful. */
  datatype Result<+T> = Ok(value: T) | Err(error: string)

  /** A Go `error` return: nil or an error with its message. */
  datatype Outcome = Pass | Fail(error: string)
}
