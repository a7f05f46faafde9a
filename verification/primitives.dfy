/** Optional values, the model's stand-in for Rust's `Option`. */
module Wrappers {

  datatype Option<+T> = None | Some(value: T)
}

/** Fixed-width integer and string types of the strict-encoding type system,
    stated as subset types of Dafny's unbounded `int` and `string`. */
module StrictTypes {

  const U8_MAX: int := 0xFF
  const U16_MAX: int := 0xFFFF
  const U64_MAX: int := 0xFFFF_FFFF_FFFF_FFFF
  const I64_MIN: int := -0x8000_0000_0000_0000
  const I64_MAX: int := 0x7FFF_FFFF_FFFF_FFFF

  type u8 = x: int | 0 <= x <= U8_MAX
  type u16 = x: int | 0 <= x <= U16_MAX
  type u64 = x: int | 0 <= x <= U64_MAX
  type i64 = x: int | I64_MIN <= x <= I64_MAX

  /** A string all of whose characters are 7-bit ASCII. */
  predicate IsAscii(s: string) {
    forall i :: 0 <= i < |s| ==> s[i] < 128 as char
  }

  type AsciiString = s: string | IsAscii(s)
}
