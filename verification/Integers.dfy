/** Machine integers. */
module Integers {
  const U64_MAX: nat := 0xFFFF_FFFF_FFFF_FFFF

  type u64 = n: nat | n <= U64_MAX

  function SaturatingAdd(a: nat, b: nat): (r: u64) { if a + b > U64_MAX then U64_MAX else a + b }

  function SaturatingMul(a: nat, b: nat): (r: u64) { if a * b > U64_MAX then U64_MAX else a * b }

  /** Unchecked `+` on `u64`: it wraps. */
  function WrappingAdd(a: nat, b: nat): (r: u64) { (a + b) % (U64_MAX + 1) }
}
