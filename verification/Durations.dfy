/** Doubling ramps over durations in whole nanoseconds. */
module Durations {
  const U64_MAX: nat := 0xFFFF_FFFF_FFFF_FFFF

  type U64 = n: nat | n <= U64_MAX

  function Pow2(n: nat): (r: nat)
    ensures r >= 1
  {
    if n == 0 then 1 else 2 * Pow2(n - 1)
  }

  lemma GrowsByAFactor(n: nat, factor: nat)
    requires factor >= 1
    ensures n * factor >= n
  {
    assert n * factor == n + n * (factor - 1);
  }
}
