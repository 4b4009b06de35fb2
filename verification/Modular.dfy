/** Remainders with a positive modulus, and the smaller of two numbers. */
module Modular {
  function Min(a: nat, b: nat): nat { if a < b then a else b }

  lemma MulMono(a: int, b: int, m: nat)
    requires a <= b
    ensures a * m <= b * m
  {
    assert (b - a) * m >= 0;
  }

  lemma MulCancel(a: int, b: int, m: nat)
    requires a * m < b * m
    ensures a < b
  {
    if b <= a {
      MulMono(b, a, m);
    }
  }

  /** Quotient and remainder are unique. */
  lemma DivModUnique(x: int, q: int, r: int, m: nat)
    requires 0 <= r < m && x == q * m + r
    ensures x / m == q && x % m == r
  {
    var k := x / m;
    assert x == k * m + x % m;
    assert (k + 1) * m == k * m + m && (q + 1) * m == q * m + m;
    MulCancel(k, q + 1, m);
    MulCancel(q, k + 1, m);
  }

  lemma ModShift(x: int, y: int, m: nat)
    requires m > 0 && x == y + m
    ensures x % m == y % m
  {
    var k := x / m;
    assert x == k * m + x % m;
    assert (k - 1) * m == k * m - m;
    DivModUnique(y, k - 1, x % m, m);
  }

  lemma ModSum(x: int, y: int, m: nat)
    requires m > 0
    ensures (x % m + y % m) % m == (x + y) % m
  {
    var a, b := x / m, y / m;
    var s := x % m + y % m;
    var c := s / m;
    assert x == a * m + x % m && y == b * m + y % m && s == c * m + s % m;
    assert (a + b + c) * m == a * m + b * m + c * m;
    DivModUnique(x + y, a + b + c, s % m, m);
  }

  lemma ModDifference(x: int, y: int, m: nat)
    requires m > 0
    ensures (x % m - y % m) % m == (x - y) % m
  {
    var a, b := x / m, y / m;
    var s := x % m - y % m;
    var c := s / m;
    assert x == a * m + x % m && y == b * m + y % m && s == c * m + s % m;
    assert (a - b + c) * m == a * m - b * m + c * m;
    DivModUnique(x - y, a - b + c, s % m, m);
  }

  lemma ModOfDouble(h: nat, n: nat)
    requires n > 0
    ensures h % (2 * n) < 2 * n && (h % (2 * n)) % n == h % n
  {
    var q, x := h / (2 * n), h % (2 * n);
    var y := x / n;
    assert h == q * (2 * n) + x && x == y * n + x % n;
    assert q * (2 * n) == (2 * q) * n;
    assert (2 * q + y) * n == (2 * q) * n + y * n;
    DivModUnique(h, 2 * q + y, x % n, n);
  }

  /** Adding one for a remainder rounds the quotient up. */
  lemma CeilDiv(x: nat, n: nat)
    requires n > 0
    ensures var i := x / n + (if x % n != 0 then 1 else 0);
      x <= i * n && (x > 0 ==> i > 0 && (i - 1) * n < x)
  {
    var q := x / n;
    assert x == q * n + x % n;
    assert (q + 1) * n == q * n + n && (q - 1) * n == q * n - n;
  }

  lemma HalfMod(j: nat, n: nat)
    requires n > 0
    ensures j < 2 * n ==> j % n == j || j % n + n == j
  {
    if j < n {
      DivModUnique(j, 0, j, n);
    } else if j < 2 * n {
      DivModUnique(j, 1, j - n, n);
    }
  }

  lemma QuotientNat(x: nat, m: nat)
    requires m > 0
    ensures x / m >= 0
  {
  }
}
