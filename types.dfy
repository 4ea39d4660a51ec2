/** Shared vocabulary: Rust's `u16`, the `MAX` port constant, and an Option type. */
module Types {

  /** Rust's `u16`: arithmetic on this newtype is checked by Dafny, so every
      `+`/`-` that type-checks is one that cannot overflow or underflow. */
  newtype u16 = x: int | 0 <= x < 0x1_0000

  /** `const MAX: u16 = 65535`, the largest port number (src/main.rs:9). */
  const MAX: u16 := 65535

  datatype Option<T> = None | Some(value: T)
}
