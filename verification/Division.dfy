/** The few facts about products and integer quotients that the money modules need. */
module Division {

  lemma MulMonotone(r: nat, x: nat, y: nat)
    requires x <= y
    ensures x * r <= y * r
  {}

  lemma DivBounds(r: nat, x: nat)
    requires r > 0
    ensures (x / r) * r <= x < (x / r) * r + r
    ensures (x / r) * r == x - x % r
  {}

  // The quotient is the largest whole multiple within x.
  lemma QuotientIsLargest(r: nat, x: nat, e: nat)
    requires r > 0
    ensures e * r <= x ==> e <= x / r
    ensures x < e * r ==> x / r < e
  {
    DivBounds(r, x);
    if x / r < e {
      MulMonotone(r, x / r + 1, e);
      assert (x / r + 1) * r == (x / r) * r + r;
    } else {
      MulMonotone(r, e, x / r);
    }
  }

  lemma QuotientIs(d: nat, q: nat, r: nat)
    requires r < d
    ensures (q * d + r) / d == q
  {
    QuotientIsLargest(d, q * d + r, q);
    assert (q + 1) * d == q * d + d;
    QuotientIsLargest(d, q * d + r, q + 1);
  }
}
