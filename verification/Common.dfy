/**
 Vocabulary shared by the models: optional values, fallible results, the
 fixed-width integer ranges the program computes in and the sensor's lanes.
 */
module Common {
  datatype Option<+T> = None | Some(value: T)

  datatype Outcome<+T, +E> = Ok(value: T) | Err(error: E)

  const U64_MAX: nat := 0xFFFF_FFFF_FFFF_FFFF

  /** Values of the program's `u64` (and of `usize` on a 64-bit host). */
  type U64 = x: nat | x <= U64_MAX

  /** Values of the program's `u16`. */
  type U16 = x: nat | x <= 0xFFFF

  /** Word lanes of the CCD. */
  const LANES: nat := 12

  function Max(a: int, b: int): int {
    if a >= b then a else b
  }

  function Min(a: int, b: int): int {
    if a <= b then a else b
  }

  function Clamp(x: int, low: int, high: int): int {
    if x < low then low else if x > high then high else x
  }

  function Abs(x: int): nat {
    if x < 0 then -x else x
  }
}
