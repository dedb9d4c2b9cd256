/** Failure-carrying values used for the services' exceptions and for Java `null`. */
module Wrappers {

  /** A Java reference that may be `null` (or an absent JSON field). */
  datatype Option<+T> = None | Some(value: T)

  /** The value a service method returns, or the exception it throws. */
  datatype Result<+R, +E> = Ok(value: R) | Err(error: E)

  /** A check that either passes or throws. */
  datatype Outcome<+E> = Pass | Fail(error: E)
}
