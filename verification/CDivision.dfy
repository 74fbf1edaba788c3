/** Integer division as C performs it on signed operands: the quotient is
    truncated toward zero, so it differs from Dafny's `/` when the dividend is negative. */
module CDivision {

  type pos = n: int | 0 < n witness 1

  function Quot(a: int, d: pos): int {
    if a >= 0 then a / d else -((-a) / d)
  }

  lemma DivisionBounds(a: nat, d: pos)
    ensures (a / d) * d <= a < (a / d) * d + d
  {
  }

  /** The quotient is the one whose product is nearest to the dividend towards zero. */
  lemma QuotTruncates(a: int, d: pos)
    ensures a >= 0 ==> 0 <= Quot(a, d) * d <= a < Quot(a, d) * d + d
    ensures a <= 0 ==> Quot(a, d) * d - d < a <= Quot(a, d) * d <= 0
  {
    if a >= 0 {
      DivisionBounds(a, d);
    } else {
      var q := (-a) / d;
      DivisionBounds(-a, d);
      assert (-q) * d == -(q * d);
    }
  }

  lemma FloorMonotone(a: int, b: int, d: pos)
    requires 0 <= a <= b
    ensures 0 <= a / d <= b / d
  {
    if a / d > b / d {
      assert d * (a / d) >= d * (b / d + 1) by { MulOrder(d, b / d + 1, a / d); }
    }
  }

  lemma MulOrder(k: nat, x: int, y: int)
    requires x <= y
    ensures k * x <= k * y
  {
    assert k * y - k * x == k * (y - x);
  }

  lemma QuotMonotone(a: int, b: int, d: pos)
    requires a <= b
    ensures Quot(a, d) <= Quot(b, d)
  {
    if a >= 0 {
      FloorMonotone(a, b, d);
    } else if b < 0 {
      FloorMonotone(-b, -a, d);
    } else {
      FloorMonotone(0, -a, d);
      FloorMonotone(0, b, d);
    }
  }

  lemma FloorSum(a: nat, b: nat, d: pos)
    ensures a / d + b / d <= (a + b) / d <= a / d + b / d + 1
  {
    var qa, qb, q := a / d, b / d, (a + b) / d;
    var ra, rb, r := a % d, b % d, (a + b) % d;
    assert a == d * qa + ra && b == d * qb + rb && a + b == d * q + r;
    assert d * (q - qa - qb) == ra + rb - r;
    if q - qa - qb < 0 {
      MulOrder(d, q - qa - qb, -1);
    } else if q - qa - qb > 1 {
      MulOrder(d, 2, q - qa - qb);
    }
  }

  /** Rounding a difference and taking the difference of two rounded values agree up to one unit. */
  lemma QuotDifference(a: int, b: int, d: pos)
    requires a <= b
    ensures -1 <= (Quot(b, d) - Quot(a, d)) - Quot(b - a, d) <= 1
    ensures a >= 0 ==> 0 <= (Quot(b, d) - Quot(a, d)) - Quot(b - a, d)
  {
    if a >= 0 {
      FloorSum(a, b - a, d);
    } else if b < 0 {
      FloorSum(-b, b - a, d);
    } else {
      FloorSum(-a, b, d);
    }
  }
}
