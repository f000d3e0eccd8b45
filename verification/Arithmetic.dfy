/** Quotients, remainders and products that the solver does not find by itself. */
module Arithmetic {

  /** Quotient and remainder are determined by the division equation. */
  lemma ModUnique(x: int, a: nat, q: int, r: int)
    requires a > 0 && x == q * a + r && 0 <= r < a
    ensures x % a == r && x / a == q
  {
    var q' := x / a;
    assert x == q' * a + x % a;
    assert (q - q') * a == x % a - r;
    if q > q' {
      MulAtLeast(q - q', a);
    } else if q < q' {
      MulAtLeast(q' - q, a);
    }
  }

  lemma MulAtLeast(k: int, a: nat)
    requires k >= 1
    ensures k * a >= a
  {
    if k > 1 { MulAtLeast(k - 1, a); }
  }

  lemma MultipleMod(q: nat, a: nat)
    requires a > 0
    ensures (q * a) % a == 0
  {
    if q > 0 {
      MultipleMod(q - 1, a);
      assert q * a == (q - 1) * a + a;
      ModAddSelf((q - 1) * a, a);
    }
  }

  lemma ModAddSelf(x: int, a: nat)
    requires a > 0
    ensures (x + a) % a == x % a
  {
    ModUnique(x + a, a, x / a + 1, x % a);
  }

  /** A divisor of a divisor divides. */
  lemma ModTransitive(x: nat, a: nat, b: nat)
    requires a > 0 && b > 0 && b % a == 0 && x % b == 0
    ensures x % a == 0
  {
    var q, p := x / b, b / a;
    assert x == q * b && b == p * a;
    assert x == (q * p) * a;
    MultipleMod(q * p, a);
  }

  lemma ModAdd(x: int, y: int, a: nat)
    requires a > 0 && x % a == 0 && y % a == 0
    ensures (x + y) % a == 0 && (x - y) % a == 0
  {
    var p, q := x / a, y / a;
    assert x == p * a && y == q * a;
    assert x + y == (p + q) * a && x - y == (p - q) * a;
    ModUnique(x + y, a, p + q, 0);
    ModUnique(x - y, a, p - q, 0);
  }

  lemma MulMonotone(a: nat, b: nat, n: nat)
    requires a <= b
    ensures a * n <= b * n
  {
  }

  lemma ZeroFactor(m: nat, n: nat)
    ensures m == 0 || n == 0 ==> m * n == 0
  {
  }

  lemma QuotientInRange(k: nat, m: nat, n: nat)
    requires k < m * n
    ensures n > 0 && m > 0 && k / n < m && k % n < n && k == (k / n) * n + k % n
  {
    ZeroFactor(m, n);
    if k / n >= m { MulMonotone(m, k / n, n); }
  }

  lemma CombineInRange(q: nat, r: nat, m: nat, n: nat)
    requires q < m && r < n
    ensures q * n + r < m * n
  {
    MulMonotone(q + 1, m, n);
    assert (q + 1) * n == q * n + n;
  }

  lemma RegroupProduct(q: nat, n: nat, r: nat, m: nat)
    ensures (q * n + r) * m == q * (n * m) + r * m
  {
    assert q * (n * m) == (q * n) * m;
  }

  lemma DivModUnique(q: nat, r: nat, n: nat)
    requires r < n
    ensures (q * n + r) / n == q && (q * n + r) % n == r
  {
    ModUnique(q * n + r, n, q, r);
  }

  lemma SkipMultiple(a: nat, n: nat, k: nat)
    requires n > 0
    ensures (a * n + k) % n == k % n
  {
    var q, r := k / n, k % n;
    assert (a + q) * n == a * n + q * n;
    ModUnique(a * n + k, n, a + q, r);
  }

  /** The remainder of a two-digit number. */
  lemma SplitMod(a: nat, k: nat, m: nat, n: nat)
    requires m > 0 && k < n
    ensures m * n > 0 && (a * n + k) % (m * n) == (a % m) * n + k
  {
    CombineInRange(a % m, k, m, n);
    var r := (a % m) * n + k;
    assert a * n == (a / m * m + a % m) * n == (a / m) * (m * n) + (a % m) * n;
    DivModUnique(a / m, r, m * n);
  }

  lemma ModOfMod(k: nat, m: nat, n: nat)
    requires m > 0 && n > 0
    ensures m * n > 0 && k % (m * n) % n == k % n
    ensures k % (m * n) < n ==> k % (m * n) == k % n
  {
    CombineInRange(0, 0, m, n);
    SkipMultiple(k / (m * n) * m, n, k % (m * n));
    RegroupProduct(k / (m * n), m, 0, n);
    if k % (m * n) < n { DivModUnique(0, k % (m * n), n); }
  }
}
