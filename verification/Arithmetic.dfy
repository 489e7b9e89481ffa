/** Division facts that the solver does not find by itself. */
module Arithmetic {
  lemma {:induction false} Multiple(n: nat, d: int)
    ensures d >= 1 ==> n * d >= n
    ensures d <= -1 ==> n * d + n <= 0
  {
  }

  lemma {:induction false} QuotientIs(x: int, n: nat, q: int, r: nat)
    requires r < n && x == q * n + r
    ensures x / n == q && x % n == r
  {
    var d: int := x / n - q;
    var rest: int := x % n;
    assert n * d == r - rest;
    Multiple(n, d);
  }

  /** The two low bytes of a number, as division gives them. */
  lemma {:induction false} LowBytes(i: int)
    ensures i % 65536 % 256 == i % 256 && i % 65536 / 256 < 256
    ensures i % 65536 / 256 * 256 + i % 256 == i % 65536
  {
    var q, m := i / 65536, i % 65536;
    var a: nat, b: nat := m / 256, m % 256;
    assert m == 256 * a + b;
    assert i == (256 * q + a) * 256 + b;
    QuotientIs(i, 256, 256 * q + a, b);
  }
}
