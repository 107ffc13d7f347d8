/**
 * Error values of the modelled Go code.  A Go function that returns an
 * `error` returns either nil or a non-nil value; a function that returns
 * `(T, error)` is modelled with two out-parameters where the source uses both
 * halves, and with `Result<T>` where the value is meaningless on error.
 */
module Errors {

  /** A non-nil Go error; only its identity matters to the model. */
  datatype Error = Error(reason: string)

  /** The `error` result of a Go call: nil (`Ok`) or a non-nil error. */
  datatype Status = Ok | Failed(error: Error)

  /** The `(value, error)` result of a foreign call whose value is unused on error. */
  datatype Result<T> = Success(value: T) | Failure(error: Error)

  datatype Option<T> = None | Some(value: T)
}
