/** Plain wrapper datatypes standing for JavaScript's `undefined` and for
    the `throw new Error(message)` paths of the viewer's helpers. */
module Wrappers {

  /** `undefined` (None) or a value (Some). */
  datatype Option<+T> = None | Some(value: T)

  /** The result of a helper that may throw: a value, or the thrown message. */
  datatype Result<+T> = Ok(value: T) | Err(message: string)

  /** The result of an assertion helper that returns nothing or throws. */
  datatype Outcome = Pass | Fail(message: string)
}
