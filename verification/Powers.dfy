/** Powers of a positive real and the sums of discount factors built from them. */
module Powers {

  function Pow(b: real, n: nat): (p: real)
    ensures b > 0.0 ==> p > 0.0
  {
    if n == 0 then 1.0 else b * Pow(b, n - 1)
  }

  lemma {:induction false} PowNotZero(b: real, n: nat)
    requires b != 0.0
    ensures Pow(b, n) != 0.0
  {
    if n > 0 {
      PowNotZero(b, n - 1);
      assert b * Pow(b, n - 1) / b == Pow(b, n - 1);
    }
  }

  lemma ProductMonotone(a: real, b: real, p: real, q: real)
    requires 0.0 < a < b && 0.0 < p <= q
    ensures a * p < b * q
  {
    assert a * p < b * p;
    assert b * p <= b * q;
  }

  lemma {:induction false} PowMonotone(a: real, b: real, n: nat)
    requires 0.0 < a < b
    ensures Pow(a, n) <= Pow(b, n)
    ensures n > 0 ==> Pow(a, n) < Pow(b, n)
  {
    if n > 0 {
      PowMonotone(a, b, n - 1);
      ProductMonotone(a, b, Pow(a, n - 1), Pow(b, n - 1));
    }
  }

  /** The sign of a negative number's power is that of the parity. */
  lemma {:induction false} PowNegated(b: real, n: nat)
    ensures Pow(-b, n) == if n % 2 == 0 then Pow(b, n) else -Pow(b, n)
  {
    if n > 0 {
      PowNegated(b, n - 1);
      assert Pow(-b, n) == -b * Pow(-b, n - 1);
      if n % 2 == 0 {
        assert -b * -Pow(b, n - 1) == b * Pow(b, n - 1);
      } else {
        assert -b * Pow(b, n - 1) == -(b * Pow(b, n - 1));
      }
    }
  }

  lemma PowIsOneExactly(b: real, n: nat)
    requires b < 0.0 && n > 0
    ensures Pow(b, n) == 1.0 <==> b == -1.0 && n % 2 == 0
  {
    PowNegated(-b, n);
    PowOfOne(n);
    if -b < 1.0 { PowMonotone(-b, 1.0, n); }
    if -b > 1.0 { PowMonotone(1.0, -b, n); }
  }

  lemma ProductAssociates(x: real, y: real, z: real)
    ensures x * (y * z) == (x * y) * z
  {}

  lemma {:induction false} PowAdd(b: real, m: nat, n: nat)
    ensures Pow(b, m + n) == Pow(b, m) * Pow(b, n)
  {
    if m > 0 {
      PowAdd(b, m - 1, n);
      ProductAssociates(b, Pow(b, m - 1), Pow(b, n));
    }
  }

  /** What one unit due after `n` periods is worth now. */
  function Discount(rate: real, n: nat): (d: real)
    requires rate > -1.0
    ensures d > 0.0
  {
    1.0 / Pow(1.0 + rate, n)
  }

  /** What one unit due at the end of each of `n` periods is worth now. */
  function Annuity(rate: real, n: nat): real
    requires rate > -1.0
  {
    if n == 0 then 0.0 else Annuity(rate, n - 1) + Discount(rate, n)
  }

  lemma ReciprocalDecreases(a: real, b: real)
    requires 0.0 < a < b
    ensures 1.0 / a > 1.0 / b
  {
    assert 1.0 / a - 1.0 / b == (b - a) / (a * b);
  }

  lemma {:induction false} DiscountStep(rate: real, n: nat)
    requires rate > -1.0
    ensures Discount(rate, n) == (1.0 + rate) * Discount(rate, n + 1)
  {
    var p := Pow(1.0 + rate, n);
    assert Pow(1.0 + rate, n + 1) == (1.0 + rate) * p;
  }

  lemma {:induction false} AnnuityPositive(rate: real, n: nat)
    requires rate > -1.0
    ensures Annuity(rate, n) >= 0.0 && (n > 0 ==> Annuity(rate, n) > 0.0)
  {
    if n > 0 { AnnuityPositive(rate, n - 1); }
  }

  /** A dearer rate makes every later payment worth less. */
  lemma {:induction false} AnnuityDecreases(r: real, s: real, n: nat)
    requires -1.0 < r < s && n > 0
    ensures Annuity(r, n) > Annuity(s, n)
  {
    PowMonotone(1.0 + r, 1.0 + s, n);
    ReciprocalDecreases(Pow(1.0 + r, n), Pow(1.0 + s, n));
    if n > 1 { AnnuityDecreases(r, s, n - 1); }
  }

  /** The geometric series: rate * (d + d^2 + ... + d^n) = 1 - d^n, where d = 1 / (1 + rate). */
  lemma {:induction false} GeometricSeries(rate: real, n: nat)
    requires rate > -1.0
    ensures rate * Annuity(rate, n) == 1.0 - Discount(rate, n)
  {
    if n > 0 {
      GeometricSeries(rate, n - 1);
      DiscountStep(rate, n - 1);
      assert rate * Annuity(rate, n) == rate * Annuity(rate, n - 1) + rate * Discount(rate, n);
    }
  }

  lemma {:induction false} AnnuityAtZero(n: nat)
    ensures Annuity(0.0, n) == n as real
  {
    if n > 0 {
      AnnuityAtZero(n - 1);
      PowOfOne(n);
    }
  }

  lemma {:induction false} PowOfOne(n: nat)
    ensures Pow(1.0, n) == 1.0
  {
    if n > 0 { PowOfOne(n - 1); }
  }

  /** Later discount factors are no larger, so the last is at most the average. */
  lemma {:induction false} AverageAboveLast(rate: real, n: nat)
    requires rate >= 0.0
    ensures AtLeastTimes(Annuity(rate, n), n as real, Discount(rate, n), rate > 0.0 && n > 1)
  {
    if n > 0 {
      AverageAboveLast(rate, n - 1);
      DiscountStep(rate, n - 1);
    }
  }

  predicate AtLeastTimes(total: real, k: real, d: real, strictly: bool) {
    total >= k * d && (strictly ==> total > k * d)
  }

  /** Spreading one unit over more periods lowers its value now, at any rate from zero up. */
  lemma {:induction false} AverageFalls(rate: real, m: nat, n: nat)
    requires rate >= 0.0 && 1 <= m <= n
    ensures Annuity(rate, n) / n as real <= Annuity(rate, m) / m as real
    ensures rate > 0.0 && m < n ==> Annuity(rate, n) / n as real < Annuity(rate, m) / m as real
    decreases n - m
  {
    if m < n {
      AverageFalls(rate, m, n - 1);
      AverageFallsStep(rate, n - 1);
    }
  }

  lemma AverageFallsStep(rate: real, n: nat)
    requires rate >= 0.0 && n >= 1
    ensures Annuity(rate, n + 1) / (n + 1) as real <= Annuity(rate, n) / n as real
    ensures rate > 0.0 ==> Annuity(rate, n + 1) / (n + 1) as real < Annuity(rate, n) / n as real
  {
    NextDiscountIsBelow(rate, n);
    CrossDivide(Annuity(rate, n), Annuity(rate, n + 1), Discount(rate, n + 1), n as real, (n + 1) as real, rate > 0.0);
  }

  lemma NextDiscountIsBelow(rate: real, n: nat)
    requires rate >= 0.0 && n >= 1
    ensures AtLeastTimes(Annuity(rate, n), n as real, Discount(rate, n + 1), rate > 0.0)
  {
    AverageAboveLast(rate, n);
    DiscountStep(rate, n);
  }

  lemma CrossDivide(a: real, a': real, e: real, k: real, k': real, strictly: bool)
    requires k >= 1.0 && k' == k + 1.0 && a' == a + e && AtLeastTimes(a, k, e, strictly)
    ensures a' / k' <= a / k && (strictly ==> a' / k' < a / k)
  {
    var x, y := a' / k', a / k;
    assert x * k' == a' && y * k == a;
    assert (y - x) * (k * k') == a * k' - k * a' == a - k * e;
    var w := k * k';
    assert w > 0.0;
  }

  /** Bernoulli: compounding is never below rate times periods. */
  lemma {:induction false} Bernoulli(rate: real, n: nat)
    requires rate > -1.0
    ensures Pow(1.0 + rate, n) >= 1.0 + n as real * rate
    ensures rate != 0.0 && n >= 2 ==> Pow(1.0 + rate, n) > 1.0 + n as real * rate
  {
    if n > 0 {
      Bernoulli(rate, n - 1);
      BernoulliStep(rate, Pow(1.0 + rate, n - 1), (n - 1) as real);
    }
  }

  lemma PositiveProduct(x: real, y: real)
    requires x > 0.0 && y > 0.0
    ensures x * y > 0.0
  {}

  lemma PositiveSquare(x: real)
    requires x != 0.0
    ensures x * x > 0.0
  {
    var y := if x > 0.0 then x else -x;
    PositiveProduct(y, y);
    assert y * y == x * x;
  }

  lemma BernoulliStep(rate: real, p: real, m: real)
    requires rate > -1.0 && m >= 0.0 && p >= 1.0 + m * rate
    ensures (1.0 + rate) * p >= 1.0 + (m + 1.0) * rate
    ensures rate != 0.0 && m > 0.0 ==> (1.0 + rate) * p > 1.0 + (m + 1.0) * rate
  {
    if rate != 0.0 { PositiveSquare(rate); }
    var square :| square == rate * rate && square >= 0.0 && (rate != 0.0 ==> square > 0.0);
    if square > 0.0 && m > 0.0 { PositiveProduct(m, square); }
    var gain :| gain == m * square && gain >= 0.0 && (square > 0.0 && m > 0.0 ==> gain > 0.0);
    var excess := p - (1.0 + m * rate);
    assert (1.0 + rate) * excess >= 0.0;
    assert m * rate * rate == m * (rate * rate) == gain;
    assert (1.0 + rate) * (1.0 + m * rate) == 1.0 + (m + 1.0) * rate + gain;
    assert (1.0 + rate) * p == (1.0 + rate) * (1.0 + m * rate) + (1.0 + rate) * excess;
  }
}
