/** Division facts used where the driver works modulo a symbolic size. */
module Arith {

  lemma MulAtLeast(n: nat, d: int)
    requires d >= 1
    ensures n * d >= n
  {
    if d > 1 { MulAtLeast(n, d - 1); assert n * d == n * (d - 1) + n; }
  }

  /** Quotient and remainder are unique. */
  lemma DivModUnique(x: int, n: nat, q: int, r: nat)
    requires n > 0 && r < n && x == n * q + r
    ensures x / n == q && x % n == r
  {
    var e := x / n;
    assert x == n * e + x % n;
    assert n * (q - e) == x % n - r by { assert n * (q - e) == n * q - n * e; }
    if q - e >= 1 { MulAtLeast(n, q - e); }
    if e - q >= 1 { MulAtLeast(n, e - q); }
  }

  lemma ModAddSelf(k: int, n: nat)
    requires n > 0
    ensures (k + n) % n == k % n && (k + n) / n == k / n + 1
  {
    var q := k / n;
    assert k + n == n * (q + 1) + k % n by { assert n * (q + 1) == n * q + n; }
    DivModUnique(k + n, n, q + 1, k % n);
  }

  /** Reducing one summand does not change the remainder of the sum. */
  lemma ModAddLeft(a: int, b: int, n: nat)
    requires n > 0
    ensures (a % n + b) % n == (a + b) % n
  {
    var q, s := a / n, (a % n + b) / n;
    assert a + b == n * (q + s) + (a % n + b) % n by { assert n * (q + s) == n * q + n * s; }
    DivModUnique(a + b, n, q + s, (a % n + b) % n);
  }

  lemma ModSmall(k: nat, n: nat)
    requires k < n
    ensures k % n == k && k / n == 0
  {
    DivModUnique(k, n, 0, k);
  }

  /** Two numbers less than `n` apart with the same remainder are equal. */
  lemma ModInjective(a: int, b: int, n: nat)
    requires n > 0 && a % n == b % n && a <= b < a + n
    ensures a == b
  {
    var d := b / n - a / n;
    assert b - a == n * d by { assert n * d == n * (b / n) - n * (a / n); }
    if d >= 1 { MulAtLeast(n, d); }
    if d <= -1 { MulAtLeast(n, -d); }
  }
}
