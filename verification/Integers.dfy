/** Integer helpers shared by the models. */
module Integers {
  function Max(a: int, b: int): (r: int) { if a < b then b else a }

  function Min(a: int, b: int): (r: int) { if a < b then a else b }

  lemma Multiples(n: nat, d: nat)
    requires d >= 1
    ensures n * d >= n
  {
    assert n * d == n * (d - 1) + n;
  }

  lemma Apart(d: nat, q: int, more: int, r: nat, s: nat)
    requires q < more && r < d
    ensures d * q + r < d * more + s
  {
    assert d * more == d * q + d * (more - q);
    Multiples(d, more - q);
  }

  /** A number is divided in one way only. */
  lemma Quotient(n: nat, d: nat, q: int, r: nat)
    requires n == d * q + r && r < d
    ensures n / d == q && n % d == r
  {
    var a, b := n / d, n % d;
    assert n == d * a + b;
    if a < q {
      Apart(d, a, q, b, r);
      assert false;
    } else if a > q {
      Apart(d, q, a, r, b);
      assert false;
    }
  }

  lemma NestedQuotient(n: nat, a: nat, b: nat)
    requires a > 0 && b > 0
    ensures a * b > 0 && n / a / b == n / (a * b)
  {
    var m, r := n / a, n % a;
    var q, s := m / b, m % b;
    assert n == a * m + r && m == b * q + s;
    assert a * m == a * (b * q) + a * s == (a * b) * q + a * s;
    assert a * b == a * s + a * (b - s);
    Multiples(a, b - s);
    assert a * s >= 0;
    Quotient(n, a * b, q, a * s + r);
  }
}
