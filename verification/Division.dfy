/**
 Quotients by a divisor that is not a constant.
 */
module Division {
  lemma DivMod(x: nat, d: nat)
    requires d > 0
    ensures x == d * (x / d) + x % d && x % d < d
  {
  }

  lemma DivUnique(x: nat, d: nat, q: nat, r: nat)
    requires d > 0 && x == q * d + r && r < d
    ensures x / d == q && x % d == r
  {
    DivMod(x, d);
    QuotientUnique(d, q, r, x / d, x % d);
  }

  lemma QuotientUnique(d: nat, q: nat, r: nat, q': nat, r': nat)
    requires d > 0 && q * d + r == d * q' + r' && r < d && r' < d
    ensures q == q' && r == r'
  {
    if q < q' { Grow(d, q, q'); }
    if q' < q { Grow(d, q', q); }
  }

  lemma {:induction false} Grow(d: nat, a: nat, b: nat)
    requires a < b
    ensures b * d >= a * d + d
    decreases b
  {
    assert b * d == (b - 1) * d + d;
    if a + 1 < b { Grow(d, a, b - 1); }
  }
}
