/** Products and remainders. */
module Arithmetic {
  lemma Scaled(k: nat, a: nat, b: nat)
    requires a <= b
    ensures a * k <= b * k
  {
    assert b * k == a * k + (b - a) * k;
  }

  /** A number has one quotient and one remainder. */
  lemma Digits(k: nat, q: nat, r: nat, q2: nat, r2: nat)
    requires r < k && r2 < k && q * k + r == q2 * k + r2
    ensures q == q2 && r == r2
  {
    assert (q + 1) * k == q * k + k && (q2 + 1) * k == q2 * k + k;
    if q < q2 { Scaled(k, q + 1, q2); }
    if q2 < q { Scaled(k, q2 + 1, q); }
  }

  lemma ModOf(q: nat, k: nat, r: nat)
    requires r < k
    ensures (q * k + r) % k == r && (q * k + r) / k == q
  {
    var x := q * k + r;
    Digits(k, q, r, x / k, x % k);
  }
}
