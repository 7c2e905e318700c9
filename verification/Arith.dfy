/** Facts about products and quotients of integers that the solver needs one at a time. */
module Arith {

  /** Multiplication by a number that is not negative keeps order. */
  lemma {:induction false} MulOrder(c: int, x: int, y: int)
    requires 0 <= c && x <= y
    ensures c * x <= c * y
  {
    assert c * (y - x) >= 0;
  }

  lemma {:induction false} MulBounds(a: int, b: int, c: int, d: int)
    requires 0 <= a <= b && 0 <= c <= d
    ensures 0 <= a * c <= b * d
  {
    MulOrder(a, 0, c);
    MulOrder(a, c, d);
    MulOrder(d, a, b);
  }

  lemma {:induction false} MulCancel(c: int, x: int, y: int)
    requires 0 < c && c * x < c * y
    ensures x < y
  {
    if y <= x {
      MulOrder(c, y, x);
    }
  }

  lemma {:induction false} RemainderUnique(d: int, q: int, r: int, q': int, r': int)
    requires q * d + r == q' * d + r' && 0 <= r < d && 0 <= r' < d
    ensures q == q' && r == r'
  {
    assert d * (q + 1) == q * d + d && d * (q' + 1) == q' * d + d;
    if q < q' {
      MulOrder(d, q + 1, q');
    } else if q' < q {
      MulOrder(d, q' + 1, q);
    }
  }

  lemma {:induction false} DivUnique(n: int, d: int, q: int, r: int)
    requires n == q * d + r && 0 <= r < d
    ensures n / d == q && n % d == r
  {
    var q', r' := n / d, n % d;
    assert n == q' * d + r';
    RemainderUnique(d, q, r, q', r');
  }

  lemma {:induction false} DivWeighted(n: int, d: int, q: int, r: int)
    requires n == r + d * q && 0 <= r < d
    ensures n / d == q && n % d == r
  {
    DivUnique(n, d, q, r);
  }

  lemma {:induction false} DivBelow(n: int, d: int, k: int)
    requires 0 < d && n < d * k
    ensures n / d < k
  {
    var q, r := n / d, n % d;
    assert n == d * q + r;
    MulCancel(d, q, k);
  }

  lemma {:induction false} DivAtLeast(n: int, d: int, k: int)
    requires 0 < d && d * k <= n
    ensures k <= n / d
  {
    var q, r := n / d, n % d;
    assert n == d * q + r;
    assert d * (q + 1) == d * q + d;
    MulCancel(d, k, q + 1);
  }

  lemma {:induction false} DivDiv(n: int, a: int, b: int)
    requires 0 <= n && 0 < a && 0 < b
    ensures 0 < a * b && (n / a) / b == n / (a * b)
  {
    MulBounds(1, a, 1, b);
    var q, r := n / a, n % a;
    var q', r' := q / b, q % b;
    assert n == q * a + r && q == q' * b + r';
    assert (q' * b + r') * a + r == q' * (a * b) + (r' * a + r);
    MulOrder(a, r' + 1, b);
    assert a * (r' + 1) == r' * a + a;
    MulBounds(0, r', 0, a);
    DivUnique(n, a * b, q', r' * a + r);
  }

  /** A product depends only on the remainders of its factors. */
  lemma {:induction false} ModMul(x: int, y: int, x': int, y': int, m: int)
    requires 0 < m && x % m == x' % m && y % m == y' % m
    ensures (x * y) % m == (x' * y') % m
  {
    ModFactor(x, y, m);
    ModFactor(x', y', m);
  }

  lemma {:induction false} ModFactor(x: int, y: int, m: int)
    requires 0 < m
    ensures (x * y) % m == ((x % m) * (y % m)) % m
  {
    var a, r, b, t := x / m, x % m, y / m, y % m;
    ModShift(r * t, m, a * y + r * b);
    FactorParts(m, a, r, b, t, x, y);
  }

  lemma {:induction false} FactorParts(m: int, a: int, r: int, b: int, t: int, x: int, y: int)
    requires x == m * a + r && y == m * b + t
    ensures x * y == r * t + m * (a * y + r * b)
  {
    assert x * y == (m * a) * y + r * y;
    assert r * y == r * (m * b) + r * t;
  }

  lemma {:induction false} ModShift(x: int, m: int, k: int)
    requires 0 < m
    ensures (x + m * k) % m == x % m
  {
    var q, r := x / m, x % m;
    assert x == m * q + r;
    assert x + m * k == (q + k) * m + r;
    DivUnique(x + m * k, m, q + k, r);
  }
}
