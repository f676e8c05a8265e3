/** Failure-carrying values used for the error returns of the modelled Go and
    TypeScript code. */
module Wrappers {

  /** A value that may be absent (a TypeScript `null`, an unset Go value). */
  datatype Option<+T> = None | Some(value: T)

  /** The `(value, error)` pair of a Go function: exactly one side is present. */
  datatype Result<+T, +E> = Ok(value: T) | Err(error: E)
}
