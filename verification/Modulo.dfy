/** Small facts of arithmetic that several modules use. */
module Modulo {
  /** There is one way to write x as a multiple of d and a remainder. */
  lemma Unique(x: nat, d: nat, q: int, r: nat)
    requires d > 0 && x == d * q + r && r < d
    ensures x % d == r
  {
    var p := x / d;
    assert x == d * p + x % d;
    if p > q {
      Scaled(d, q + 1, p);
    } else if p < q {
      Scaled(d, p + 1, q);
    }
  }

  lemma Scaled(d: nat, a: int, b: int)
    requires a <= b
    ensures d * (a - 1) + d <= d * b
  {
  }

  /** 10^k */
  function Tens(k: nat): nat { if k == 0 then 1 else 10 * Tens(k - 1) }
}
