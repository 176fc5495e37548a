/** The two failure-aware wrappers the model uses in place of Python's `None`
    and of caught exceptions. */
module Outcomes {

  /** A value that may be absent (Python's `None`, TypeScript's `undefined`). */
  datatype Option<+T> = None | Some(value: T)

  /** The outcome of a call that may raise: either its value, or the text
      `str(e)` of the exception it raised. */
  datatype Result<+T> = Ok(value: T) | Err(message: string)
}
