/** Error and result values shared by the answer parser and the review loop.
    A Go `error` is modelled as a `Failure` carrying its message; a Go pair
    `(value, error)` as a `Result`. */
module Wrappers {

  /** A Go error value, identified by its message. */
  datatype Failure = Failure(message: string)

  datatype Option<+T> = None | Some(value: T)

  /** `Ok(v)` is a call that returned `v` with a nil error; `Err(f)` one that
      returned the non-nil error `f`. */
  datatype Result<+T> = Ok(value: T) | Err(error: Failure)
}
