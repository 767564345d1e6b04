/** Euclidean division pinned down by its defining equation, and powers of two. */
module Arithmetic {
  lemma Quotient(x: int, k: int, q: int, r: int)
    requires k > 0 && x == k * q + r && 0 <= r < k
    ensures x / k == q && x % k == r
  {
    var d := x / k - q;
    assert k * d == r - x % k;
    assert d > 0 ==> k * d >= k;
    assert d < 0 ==> k * d <= -k;
  }

  function Pow2(n: nat): (p: nat)
    ensures p >= 1
  {
    if n == 0 then 1 else 2 * Pow2(n - 1)
  }

  /** One more bit of a remainder. */
  lemma RemainderBit(b: nat, p: nat)
    requires p >= 1
    ensures b % (2 * p) == b % p + if b / p % 2 == 1 then p else 0
  {
    var q, r := b / p, b % p;
    assert b == p * q + r;
    var h, l := q / 2, q % 2;
    assert q == 2 * h + l;
    assert p * q == 2 * p * h + p * l;
    if l == 1 {
      Quotient(b, 2 * p, h, p + r);
    } else {
      Quotient(b, 2 * p, h, r);
    }
  }
}
