/** Clock values, comparisons and the limit of a 32-bit int. */
module Arithmetic {
  /** Nanoseconds of the steady clock; 0 is the default time point. */
  type Time = int

  const INT_MAX: nat := 0x7FFF_FFFF

  function Min(a: int, b: int): int { if a < b then a else b }

  function Max(a: int, b: int): int { if a < b then b else a }

  function Clamp(x: int, low: int, high: int): int
  {
    if x < low then low else if x > high then high else x
  }

  function MaxReal(a: real, b: real): real { if a < b then b else a }

  function ClampReal(x: real, low: real, high: real): real
  {
    if x < low then low else if x > high then high else x
  }
}
