/** Machine integer ranges and the optional value used across the model. */
module Primitives {

  /** Rust's `u8`. */
  type u8 = x: int | 0 <= x < 0x100

  /** Rust's `u16`. */
  type u16 = x: int | 0 <= x < 0x1_0000

  /** Rust's `Option<T>`. */
  datatype Option<+T> = None | Some(value: T)
}
