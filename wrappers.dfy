/** Option and Result, the failure-carrying values used across the model. */
module Wrappers {

  /** A value that may be absent: an ORM lookup that found nothing, a JSON member that is missing. */
  datatype Option<+T> = None | Some(value: T)

  /** A computation that either yields a value or fails with an error value
      (the model of a raised exception). */
  datatype Result<+T, +E> = Ok(value: T) | Fail(error: E)
}
