/** Facts about division that the solver does not find on its own. */
module Arithmetic {

  lemma AtLeastOneMultiple(k: int, m: int)
    requires k >= 1 && m > 0
    ensures k * m >= m
  {
    assert (k - 1) * m >= 0;
    assert k * m == (k - 1) * m + m;
  }

  /** Quotient and remainder are unique. */
  lemma QuotientRemainder(a: int, q: int, r: int, m: int)
    requires m > 0 && a == q * m + r && 0 <= r < m
    ensures a / m == q && a % m == r
  {
    var q', r' := a / m, a % m;
    assert a == q' * m + r';
    assert (q' - q) * m == q' * m - q * m;
    assert (q - q') * m == q * m - q' * m;
    if q' > q {
      AtLeastOneMultiple(q' - q, m);
    } else if q' < q {
      AtLeastOneMultiple(q - q', m);
    }
  }

  lemma QuotientBounds(x: nat, p: nat)
    requires p > 0
    ensures x == x / p * p + x % p
    ensures x / p >= 1 <==> x >= p
    ensures x / p >= 2 <==> x >= 2 * p
    ensures x / p >= 1 ==> (x / p - 1) * p == x - x % p - p
  {
    var q := x / p;
    if q >= 2 {
      AtLeastOneMultiple(q - 1, p);
    }
    assert (q - 1) * p == q * p - p;
    assert q == 0 ==> q * p == 0;
    assert q == 1 ==> q * p == p;
  }
}
