/** Arithmetic on unsigned numbers. */
module Naturals {
  /** `max`. */
  function Max(a: nat, b: nat): nat {
    if a >= b then a else b
  }

  /** `saturating_sub`. */
  function SaturatingSub(a: nat, b: nat): nat {
    if a >= b then a - b else 0
  }
}
