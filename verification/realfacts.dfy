/** Small facts about products and quotients of reals that the solver does not find unaided. */
module RealFacts {

  lemma MulNonNegative(a: real, b: real)
    requires a >= 0.0 && b >= 0.0
    ensures a * b >= 0.0
  {
  }

  /** The product is passed in as p, which lets the solver match it against squares written elsewhere. */
  lemma MulPositive(a: real, b: real, p: real)
    requires a > 0.0 && b > 0.0 && p == a * b
    ensures p > 0.0
  {
  }

  lemma QuotientNonNegative(a: real, b: real, q: real)
    requires a >= 0.0 && b > 0.0 && q == a / b
    ensures q >= 0.0 && q * b == a
  {
    assert q * b == a;
    if q < 0.0 {
      MulPositive(-q, b, (-q) * b);
    }
  }

  lemma SignOfProduct(a: real, p: real)
    requires p > 0.0
    ensures a > 0.0 ==> a * p > 0.0
    ensures a == 0.0 ==> a * p == 0.0
    ensures a < 0.0 ==> a * p < 0.0
  {
    if a > 0.0 {
      MulPositive(a, p, a * p);
    } else if a < 0.0 {
      MulPositive(-a, p, (-a) * p);
    }
  }

  lemma Distribute(k: real, x: real)
    ensures (k + 1.0) * x == k * x + x
  {
  }

  lemma QuotientPositive(a: real, b: real)
    requires a > 0.0 && b > 0.0
    ensures a / b > 0.0
  {
    var q := a / b;
    assert q * b == a;
    if q <= 0.0 {
      MulNonNegative(-q, b);
    }
  }

  lemma SquareZero(d: real)
    ensures d * d >= 0.0
    ensures d * d == 0.0 <==> d == 0.0
  {
    if d > 0.0 {
      MulPositive(d, d, d * d);
    } else if d < 0.0 {
      MulPositive(-d, -d, d * d);
    }
  }

  lemma RatioAtLeastOne(a: real, b: real)
    requires a >= b > 0.0
    ensures a / b >= 1.0
    ensures a > b ==> a / b > 1.0
  {
    var q := a / b;
    assert q * b == a;
    if q < 1.0 {
      MulPositive(1.0 - q, b, (1.0 - q) * b);
    }
    if a > b && q <= 1.0 {
      MulNonNegative(1.0 - q, b);
    }
  }

  /** x added to itself n times: multiplication by a count, without a product. */
  function Repeat(n: nat, x: real): real
  {
    if n == 0 then 0.0 else Repeat(n - 1, x) + x
  }

  lemma {:induction false} RepeatIsProduct(n: nat, x: real)
    ensures Repeat(n, x) == n as real * x
  {
    if n > 0 {
      RepeatIsProduct(n - 1, x);
      Distribute((n - 1) as real, x);
    }
  }

  /** A total between n copies of lo and n copies of hi has its n-th part between lo and hi. */
  lemma QuotientBetween(total: real, n: nat, lo: real, hi: real)
    requires n >= 1 && Repeat(n, lo) <= total <= Repeat(n, hi)
    ensures lo <= total / n as real <= hi
  {
    var k := n as real;
    RepeatIsProduct(n, lo);
    RepeatIsProduct(n, hi);
    assert k * lo <= total <= k * hi;
    var m := total / k;
    assert k * m == total;
    BetweenByFactor(lo, m, hi, k);
  }

  /** Bounds on a positive multiple are bounds on the value. */
  lemma BetweenByFactor(lo: real, m: real, hi: real, n: real)
    requires n > 0.0 && n * lo <= n * m <= n * hi
    ensures lo <= m <= hi
  {
    assert n * (lo - m) == n * lo - n * m;
    assert n * (m - hi) == n * m - n * hi;
    if m < lo {
      MulPositive(n, lo - m, n * (lo - m));
    }
    if m > hi {
      MulPositive(n, m - hi, n * (m - hi));
    }
  }
}
