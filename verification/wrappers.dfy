/** Optional values and outcomes shared by the model's modules. */
module Wrappers {

  /** A value that may be absent (JavaScript `null`, `undefined` or NaN, depending on context). */
  datatype Option<+T> = None | Some(value: T)

  /** The result of an operation that either completes or throws. */
  datatype Outcome<+E> = Pass | Fail(error: E)

  /** A value or a thrown error. */
  datatype Result<+R, +E> = Success(value: R) | Failure(error: E)
}
