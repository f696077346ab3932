/** Small value types shared by the forms: an optional value and a byte. */
module Wrappers {

  /** A value that may be absent (JavaScript `null` / `undefined`). */
  datatype Option<+T> = None | Some(value: T)

  /** One octet, as held in a `Uint8Array`. */
  newtype byte = x: int | 0 <= x < 256
}
