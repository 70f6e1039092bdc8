/** Powers of two, products and quotients. */
module Arithmetic {

  function Pow2(k: nat): (r: nat)
    ensures r >= 1
  {
    if k == 0 then 1 else 2 * Pow2(k - 1)
  }

  lemma MulMonotone(x: nat, a: nat, b: nat)
    requires a <= b
    ensures x * a <= x * b
  {
  }

  lemma DivUnique(v: nat, m: nat, q: nat)
    requires m > 0 && 0 <= v - m * q < m
    ensures v / m == q
  {
    if v / m > q {
      MulMonotone(m, q + 1, v / m);
    } else if v / m < q {
      MulMonotone(m, v / m + 1, q);
    }
  }
}
