/** Facts about products and remainders that the solver is asked for one at a time. */
module Arithmetic {

  lemma MulAssoc(x: int, y: int, z: int)
    ensures (x * y) * z == x * (y * z)
  {
  }

  lemma TimesCommutes(x: int, y: int)
    ensures x * y == y * x
  {
  }

  lemma TimesAtLeast(x: nat, y: nat)
    requires x > 0
    ensures x * y >= y
  {
  }

  lemma MonotoneTimes(x: nat, y: nat, p: nat)
    requires x <= y
    ensures x * p <= y * p
  {
  }

  lemma NextMultiple(x: nat, y: nat, p: nat)
    requires x < y
    ensures x * p + p <= y * p
  {
    assert y * p == (x + 1) * p + (y - x - 1) * p;
  }

  lemma StrictTimes(x: nat, y: nat, p: nat)
    requires x < y && p > 0
    ensures x * p < y * p
  {
    NextMultiple(x, y, p);
  }

  /** Quotient and remainder are unique. */
  lemma Euclid(v: int, p: int, q: int, q': int, r: int, r': int)
    requires v == p * q + r == p * q' + r' && 0 <= r < p && 0 <= r' < p
    ensures r == r'
  {
    assert p * (q - q') == r' - r && p * (q' - q) == r - r';
    if q - q' >= 1 { TimesAtLeast(q - q', p); }
    if q' - q >= 1 { TimesAtLeast(q' - q, p); }
  }
}
