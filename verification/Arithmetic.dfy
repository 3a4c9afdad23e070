/** Facts about products that the solver does not find by itself. */
module Arithmetic {

  function Pow2(k: nat): nat {
    if k == 0 then 1 else 2 * Pow2(k - 1)
  }

  /** Multiples of n lie at least n apart. */
  lemma {:induction false} NextMultiple(a: nat, b: nat, n: nat)
    requires a < b
    ensures a * n + n <= b * n
    decreases b
  {
    assert b * n == (b - 1) * n + n;
    if a < b - 1 {
      NextMultiple(a, b - 1, n);
    }
  }

  lemma {:induction false} ScaleMonotone(x: nat, y: nat, n: nat)
    requires x <= y
    ensures x * n <= y * n
  {
    if x < y {
      NextMultiple(x, y, n);
    }
  }

  lemma ProductNonNegative(x: nat, y: nat)
    ensures x * y >= 0
  {
  }
}
