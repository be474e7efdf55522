/** Rust's fixed-width byte and the two sum types the daemon returns. */
module Basics {

  /** Rust `u8`. */
  newtype u8 = x: int | 0 <= x < 0x100

  /** Rust `Option<T>`. */
  datatype Option<+T> = None | Some(value: T)

  /** Rust `Result<T, E>`. */
  datatype Result<+T, +E> = Ok(value: T) | Err(error: E)
}
