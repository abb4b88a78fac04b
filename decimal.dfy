/**
 * Exact fixed-point arithmetic on integers, standing in for the arbitrary
 * precision decimals of the fine calculation. A decimal with `scale` places
 * is held as its unscaled integer value (units of 10^-scale).
 */
module Decimal {

  /** 10^k. */
  function Pow10(k: nat): (p: nat)
    ensures p >= 1
    ensures k >= 1 ==> p >= 10 && p % 10 == 0
  {
    if k == 0 then 1 else 10 * Pow10(k - 1)
  }

  lemma Pow10Small()
    ensures Pow10(2) == 100 && Pow10(4) == 10000 && Pow10(6) == 1000000
  {
    assert Pow10(1) == 10;
    assert Pow10(3) == 1000;
    assert Pow10(5) == 100000;
  }

  function Abs(x: int): (a: nat)
    ensures a == x || a == -x
  {
    if x < 0 then -x else x
  }

  function Min(a: int, b: int): (m: int)
    ensures m <= a && m <= b && (m == a || m == b)
  {
    if a <= b then a else b
  }

  /**
   * The quotient n / d rounded to an integer away from zero: any non-zero
   * remainder moves the result one unit further from zero. This is the
   * rounding mode UP of the decimal library.
   */
  function DivUp(n: int, d: nat): (q: int)
    requires d > 0
    // n/d <= q < n/d + 1 for a non-negative dividend
    ensures n >= 0 ==> q >= 0 && n <= q * d < n + d
    // n/d - 1 < q <= n/d for a non-positive dividend
    ensures n <= 0 ==> q <= 0 && n - d < q * d <= n
  {
    var c: int := CeilDiv(Abs(n), d);
    if n >= 0 then c else -c
  }

  /** Ceiling of n / d for non-negative n. */
  function CeilDiv(n: nat, d: nat): (q: nat)
    requires d > 0
    ensures n <= q * d < n + d
  {
    var q := (n + d - 1) / d;
    var r := (n + d - 1) % d;
    assert q * d + r == n + d - 1 && 0 <= r < d;
    q
  }

  /** Rounding away from zero is symmetric: negating the dividend negates the result. */
  lemma DivUpOdd(n: int, d: nat)
    requires d > 0
    ensures DivUp(-n, d) == -DivUp(n, d)
  {
  }

  /** No rounding happens when d divides n exactly. */
  lemma DivUpExact(k: int, d: nat)
    requires d > 0
    ensures DivUp(k * d, d) == k
  {
    var q := DivUp(k * d, d);
    MulLessCancel(q, k, d);
    if k >= 0 {
      MulNonNegative(k, d);
      MulLessCancel(q, k + 1, d);
    } else {
      MulNonNegative(-k, d);
      MulLessCancel(k - 1, q, d);
    }
  }

  /** Rounding away from zero is monotone in the dividend. */
  lemma DivUpMonotone(n1: int, n2: int, d: nat)
    requires d > 0 && n1 <= n2
    ensures DivUp(n1, d) <= DivUp(n2, d)
  {
    var q1, q2 := DivUp(n1, d), DivUp(n2, d);
    if n1 >= 0 {
      assert (q1 - 1) * d == q1 * d - d < n1;
      assert n2 <= q2 * d;
      MulLessCancel(q1 - 1, q2, d);
    } else if n2 <= 0 {
      assert q1 * d <= n1;
      assert n2 < q2 * d + d == (q2 + 1) * d;
      MulLessCancel(q1, q2 + 1, d);
    } else {
      assert q1 <= 0 <= q2;
    }
  }

  /** Multiplying by a positive factor preserves strict order, both ways. */
  lemma MulLessCancel(a: int, b: int, d: int)
    requires d > 0
    ensures a * d < b * d <==> a < b
  {
    if a < b {
      MulMonotone(a + 1, b, d);
    } else {
      MulMonotone(b, a, d);
    }
  }

  lemma MulNonNegative(a: int, b: int)
    requires a >= 0 && b >= 0
    ensures a * b >= 0
  {
  }

  lemma MulMonotone(a: int, b: int, c: int)
    requires a <= b && c >= 0
    ensures a * c <= b * c
  {
    MulNonNegative(b - a, c);
  }
}
