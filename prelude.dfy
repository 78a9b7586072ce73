/** Shared value types: optional values, results with an error, bytes. */
module Prelude {

  /** A value that may be absent (the source's `null`). */
  datatype Option<+T> = None | Some(value: T)

  /** The outcome of an operation that can throw: a value, or the error it raised. */
  datatype Result<+T, +E> = Ok(value: T) | Err(error: E)

  /** One octet of an `ArrayBuffer` or `Uint8Array`. */
  type Byte = b: int | 0 <= b < 256
}
