/** Facts about products and quotients, kept apart from everything else. */
module Arithmetic {

  lemma DivMod(epoch: nat, position: nat, n: nat)
    requires position < n
    ensures (epoch * n + position) / n == epoch && (epoch * n + position) % n == position
  {
    var x := epoch * n + position;
    var q, r := x / n, x % n;
    QuotientUnique(epoch, position, q, r, n);
  }

  /** Counting on by one, in quotient and remainder. */
  lemma Successor(n: nat, m: nat)
    requires m > 0
    ensures if n % m + 1 < m then (n + 1) / m == n / m && (n + 1) % m == n % m + 1
            else (n + 1) / m == n / m + 1 && (n + 1) % m == 0
  {
    SuccessorOf(n / m, n % m, m, n);
  }

  lemma SuccessorOf(q: nat, r: nat, m: nat, n: nat)
    requires r < m && n == q * m + r
    ensures if r + 1 < m then (n + 1) / m == q && (n + 1) % m == r + 1
            else (n + 1) / m == q + 1 && (n + 1) % m == 0
  {
    if r + 1 < m {
      DivMod(q, r + 1, m);
    } else {
      assert (q + 1) * m == q * m + m;
      DivMod(q + 1, 0, m);
    }
  }

  lemma QuotientUnique(q: int, r: int, q': int, r': int, n: int)
    requires 0 <= r < n && 0 <= r' < n && q * n + r == q' * n + r'
    ensures q == q' && r == r'
  {
    NotLarger(q, r, q', r', n);
    NotLarger(q', r', q, r, n);
  }

  lemma NotLarger(q: int, r: int, q': int, r': int, n: int)
    requires 0 <= r < n && 0 <= r' < n && q * n + r == q' * n + r'
    ensures q <= q'
  {
    assert (q - q') * n == q * n - q' * n;
    if q > q' {
      AtLeastOne(q - q', n);
    }
  }

  lemma AtLeastOne(k: int, n: int)
    requires k >= 1 && n > 0
    ensures k * n >= n
  {}

  lemma LastPlace(n: nat, rows: nat, row: nat, position: nat)
    requires position < n && row < rows
    ensures row * n + position + 1 <= rows * n
    ensures row * n + position + 1 == rows * n <==> row + 1 == rows && position + 1 == n
  {
    assert rows * n == row * n + (rows - row) * n;
    if rows - row >= 2 {
      assert (rows - row) * n == 2 * n + (rows - row - 2) * n;
    }
  }

  lemma Multiply(n: nat, g: nat)
    requires n > 0
    ensures n * g == (n - 1) * g + g
  {}

  lemma Cancel(k: nat, n: nat, g: nat)
    requires k * g >= n * g && g > 0
    ensures k >= n
  {
    if k < n { TimesLess(k, n, g); }
  }

  lemma TimesLess(k: nat, n: nat, g: nat)
    requires k < n && g > 0
    ensures k * g < n * g
  {}

  lemma Distribute(a: real, b: real, t: real)
    ensures (a - b) * t == a * t - b * t
  {}

  lemma ProductSign(d: real, t: real)
    requires t > 0.0
    ensures d * t > 0.0 <==> d > 0.0
  {}

  lemma SmallerProduct(a: real, b: real, t: real)
    requires a < b && t > 0.0
    ensures a * t < b * t
  {
    ProductSign(b - a, t);
    Distribute(b, a, t);
  }

  lemma QuotientSum(a: real, b: real, t: real)
    requires t > 0.0
    ensures a / t + b / t == (a + b) / t
  {}

  lemma QuotientAtLeastOne(a: real, b: real)
    requires a >= b > 0.0
    ensures a / b >= 1.0
  {}

  lemma QuotientAtLeast(total: real, n: real, low: real)
    requires n > 0.0 && low * n <= total
    ensures low <= total / n
  {
    var q := total / n;
    assert q * n == total;
    if q < low {
      SmallerProduct(q, low, n);
      assert false;
    }
  }

  lemma QuotientAtMost(total: real, n: real, high: real)
    requires n > 0.0 && total <= high * n
    ensures total / n <= high
  {
    var q := total / n;
    assert q * n == total;
    if q > high {
      SmallerProduct(high, q, n);
      assert false;
    }
  }
}
