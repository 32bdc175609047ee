/** Failure-carrying wrappers and the fixed-width integer ranges the
    repository's Rust code uses. */
module Basics {

  /** Rust's `Option<T>`. */
  datatype Option<+T> = None | Some(value: T)

  /** Rust's `Result<T, E>`. */
  datatype Result<+T, +E> = Ok(value: T) | Err(error: E)

  const U16_MAX: int := 0xFFFF
  const U32_MAX: int := 0xFFFF_FFFF

  /** Values of Rust's `u16`. */
  type U16 = x: int | 0 <= x <= U16_MAX

  /** Values of Rust's `u32`. */
  type U32 = x: int | 0 <= x <= U32_MAX

  /** One byte of a UTF-8 encoded string. */
  type Byte = x: int | 0 <= x < 0x100

  /** Clamps `x` into `[lo, hi]`. */
  function Clamp(x: int, lo: int, hi: int): (r: int)
    requires lo <= hi
    ensures lo <= r <= hi
    ensures lo <= x <= hi ==> r == x
    ensures x < lo ==> r == lo
    ensures hi < x ==> r == hi
  {
    if x < lo then lo else if hi < x then hi else x
  }
}
