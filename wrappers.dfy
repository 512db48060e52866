/** Option and Result values, and the values a JavaScript `throw` can carry. */
module Wrappers {

  /** A value that may be absent (`null` or `undefined` on the JavaScript side). */
  datatype Option<+T> = None | Some(value: T)

  /** The outcome of an operation that either succeeds or fails with an error value. */
  datatype Result<+T, +E> = Ok(value: T) | Err(error: E)

  /**
   * What a rejected promise or a `throw` carries: an `Error` object with its
   * `message`, or any other value (a `ProgressEvent`, a string, ...), which
   * `instanceof Error` tells apart.
   */
  datatype Thrown = Error(message: string) | NonError
}
