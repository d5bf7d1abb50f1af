/** Facts about products, quotients and remainders that the solver does not find
    by itself. */
module Arithmetic {
  lemma MulMono(a: nat, b: nat, c: nat)
    requires a <= b
    ensures a * c <= b * c
  {
    assert (b - a) * c >= 0;
    assert b * c == a * c + (b - a) * c;
  }

  /** Products compare like their first factors. */
  lemma MulCancel(a: nat, b: nat, c: nat)
    requires a * c < b * c + c
    ensures a <= b
  {
    assert (b + 1) * c == b * c + c;
    if a >= b + 1 {
      MulMono(b + 1, a, c);
    }
  }

  lemma DivBounds(n: nat, d: nat)
    requires 1 <= d
    ensures 0 <= n / d <= n
    ensures n / d * d <= n < n / d * d + d
  {
    assert n == n / d * d + n % d;
    MulMono(1, d, n / d);
    assert 1 * (n / d) == n / d && d * (n / d) == n / d * d;
  }

  lemma DivUnique(n: nat, d: nat, q: nat)
    requires 1 <= d && q * d <= n < q * d + d
    ensures n / d == q
  {
    DivBounds(n, d);
    MulCancel(n / d, q, d);
    MulCancel(q, n / d, d);
  }

  lemma DivAntitone(n: nat, a: nat, b: nat)
    requires 1 <= a <= b
    ensures n / b <= n / a
  {
    DivBounds(n, a);
    DivBounds(n, b);
    MulMono(a, b, n / b);
    assert a * (n / b) == n / b * a && b * (n / b) == n / b * b;
    MulCancel(n / b, n / a, a);
  }

  lemma QuotientPositive(n: nat, d: nat)
    requires 1 <= d <= n
    ensures n / d >= 1
  {
    DivBounds(n, d);
    assert 1 * d == d;
    MulCancel(1, n / d, d);
  }

  lemma ModUnique(n: nat, d: nat, q: nat, r: nat)
    requires n == q * d + r && r < d
    ensures n / d == q && n % d == r
  {
    DivUnique(n, d, q);
    assert n == n / d * d + n % d;
  }

  /** Halving a number and its divisor. */
  lemma HalfMod(a: nat, m: nat)
    requires m > 0
    ensures a % (2 * m) == 2 * ((a / 2) % m) + a % 2
  {
    var q, r := (a / 2) / m, (a / 2) % m;
    assert a / 2 == q * m + r;
    assert q * (2 * m) == 2 * (q * m);
    ModUnique(a, 2 * m, q, 2 * r + a % 2);
  }
}
