/** Facts about Euclidean division and remainder that the solver does not find alone. */
module Arith {
  lemma MulSign(d: int, k: int)
    requires k > 0
    ensures d >= 1 ==> d * k >= k
    ensures d <= -1 ==> d * k <= -k
  {
    if d >= 1 {
      MulMono(1, d, k);
    } else if d <= -1 {
      MulMono(d, -1, k);
    }
  }

  lemma MulMono(a: int, b: int, k: int)
    requires a <= b && k >= 0
    ensures a * k <= b * k
  {
    assert (b - a) * k >= 0;
  }

  lemma DivModUnique(a: int, k: int, q: int, r: int)
    requires 0 <= r < k && a == q * k + r
    ensures a / k == q && a % k == r
  {
    var d := a / k - q;
    assert d * k == r - a % k;
    MulSign(d, k);
  }

  lemma ModPlusMultiple(a: int, k: int, m: int)
    requires k > 0
    ensures (a + m * k) % k == a % k
    ensures (a + m * k) / k == a / k + m
  {
    assert a + m * k == (a / k + m) * k + a % k;
    DivModUnique(a + m * k, k, a / k + m, a % k);
  }

  lemma ModOfMod(a: int, k: int, n: int)
    requires k > 0 && n > 0 && n * k > 0
    ensures a % (n * k) % k == a % k
  {
    var m := n * k;
    var q := a / m;
    assert a == q * m + a % m;
    assert q * m == (q * n) * k;
    ModPlusMultiple(a % m, k, q * n);
  }

  lemma ModSum(a: int, b: int, k: int)
    requires k > 0
    ensures (a % k + b % k) % k == (a + b) % k
  {
    var q := a / k + b / k;
    assert a + b == (a % k + b % k) + q * k;
    ModPlusMultiple(a % k + b % k, k, q);
  }

  lemma ModDifference(a: int, b: int, k: int)
    requires k > 0
    ensures (a % k - b % k) % k == (a - b) % k
  {
    var q := a / k - b / k;
    assert a - b == (a % k - b % k) + q * k;
    ModPlusMultiple(a % k - b % k, k, q);
  }

  lemma MulAssociative(a: int, b: int, c: int)
    ensures a * (b * c) == (a * b) * c
  {
  }

  /** A digit in the middle of `q * m + r`, read from either side. */
  lemma MiddleDigit(q: int, r: int, a: int, b: int, m: int)
    requires a > 0 && b > 0 && m == a * b && 0 <= r < m
    ensures (q * m + r) / a % b == r / a
  {
    MulAssociative(q, b, a);
    ModPlusMultiple(r, a, q * b);
    DigitBound(r, a, b);
    DivModUnique(q * b + r / a, b, q, r / a);
  }

  lemma DigitBound(r: int, a: int, b: int)
    requires a > 0 && 0 <= r < a * b
    ensures 0 <= r / a < b
  {
    var d := r / a - b;
    assert d * a == r / a * a - b * a;
    MulSign(d, a);
  }
}
