/** Numbers modulo 2^255 - 19 as ten signed limbs, alternately 26 and 25 bits wide. */
module FieldLimbs {
  import opened Arith
  import opened SignedDigits
  import Limbs

  type Int64 = Limbs.Int64

  /** 2^255 - 19. */
  const PRIME: nat := 0x7fffffffffffffffffffffffffffffffffffffffffffffffffffffffffffffed

  /** What limb i counts up to before the next one starts. */
  function Size(i: nat): (n: nat)
    ensures 0 < n
  {
    if i % 2 == 0 then 0x400_0000 else 0x200_0000
  }

  /** 2 to the power of 25.5 * i, rounded up. */
  function Weight(i: nat): (w: nat)
    ensures 0 < w
  {
    if i == 0 then 1 else Size(i - 1) * Weight(i - 1)
  }

  /** The number the first n limbs stand for. */
  function Sum(s: seq<int>, n: nat): int
    requires n <= |s|
  {
    if n == 0 then 0 else Sum(s, n - 1) + s[n - 1] * Weight(n - 1)
  }

  ghost predicate Congruent(x: int, y: int)
  {
    exists k :: Apart(x, y, k)
  }

  ghost predicate Apart(x: int, y: int, k: int)
  {
    x == y + PRIME * k
  }

  lemma Reflexive(x: int)
    ensures Congruent(x, x)
  {
    assert Apart(x, x, 0);
  }

  lemma {:induction false} Symmetric(x: int, y: int)
    requires Congruent(x, y)
    ensures Congruent(y, x)
  {
    var k :| Apart(x, y, k);
    assert Apart(y, x, -k);
  }

  lemma {:induction false} Transitive(x: int, y: int, z: int)
    requires Congruent(x, y) && Congruent(y, z)
    ensures Congruent(x, z)
  {
    var k :| Apart(x, y, k);
    var l :| Apart(y, z, l);
    assert Apart(x, z, k + l);
  }

  /** Congruent numbers have the same remainder. */
  lemma {:induction false} SameRemainder(x: int, y: int)
    requires Congruent(x, y)
    ensures x % PRIME == y % PRIME
  {
    var k :| Apart(x, y, k);
    ModShift(y, PRIME, k);
  }

  ghost predicate Below(s: seq<int>, n: nat, b: int)
    requires n <= |s|
  {
    forall i :: 0 <= i < n ==> -b < s[i] < b
  }

  lemma {:induction false} SumSame(s: seq<int>, t: seq<int>, n: nat)
    requires n <= |s| && n <= |t| && forall i :: 0 <= i < n ==> s[i] == t[i]
    ensures Sum(s, n) == Sum(t, n)
  {
    if n > 0 {
      SumSame(s, t, n - 1);
    }
  }

  lemma {:induction false} SumAdded(s: seq<int>, i: nat, x: int, n: nat)
    requires i < |s| && n <= |s|
    ensures Sum(Added(s, i, x), n) == Sum(s, n) + if i < n then x * Weight(i) else 0
  {
    if n > 0 {
      SumAdded(s, i, x, n - 1);
    }
  }

  /** Moving c units of limb i + 1 out of limb i. */
  function Carried(s: seq<int>, i: nat, c: int): (r: seq<int>)
    requires i + 1 < |s|
    ensures |r| == |s|
  {
    Added(Added(s, i, -(c * Size(i))), i + 1, c)
  }

  lemma {:induction false} CarriedSum(s: seq<int>, i: nat, c: int, n: nat)
    requires i + 1 < n <= |s|
    ensures Sum(Carried(s, i, c), n) == Sum(s, n)
  {
    hide Weight, Sum, Size;
    SumAdded(s, i, -(c * Size(i)), n);
    SumAdded(Added(s, i, -(c * Size(i))), i + 1, c, n);
    NextWeight(i);
    CarryCancels(c, Size(i), Weight(i));
  }

  lemma NextWeight(i: nat)
    ensures Weight(i + 1) == Size(i) * Weight(i)
  {
  }

  lemma CarryCancels(c: int, z: int, w: int)
    ensures -(c * z) * w + c * (z * w) == 0
  {
  }

  /** Moving c units of 2^255 out of limb 9: each of them is 19. */
  function Wrapped(s: seq<int>, c: int): (r: seq<int>)
    requires 10 <= |s|
    ensures |r| == |s|
  {
    Added(Added(s, 9, -(c * 0x200_0000)), 0, 19 * c)
  }

  lemma {:induction false} WrappedSum(s: seq<int>, c: int)
    requires 10 <= |s|
    ensures Sum(Wrapped(s, c), 10) == Sum(s, 10) - PRIME * c
    ensures Congruent(Sum(Wrapped(s, c), 10), Sum(s, 10))
  {
    hide Weight, Sum;
    SumAdded(s, 9, -(c * 0x200_0000), 10);
    SumAdded(Added(s, 9, -(c * 0x200_0000)), 0, 19 * c, 10);
    Weights();
    NextWeight(9);
    assert Apart(Sum(Wrapped(s, c), 10), Sum(s, 10), -c);
  }

  lemma Weights()
    ensures Weight(0) == 1
    ensures Weight(1) == 0x400_0000 && Weight(2) == 0x8_0000_0000_0000
    ensures Weight(9) == 0x4000000000000000000000000000000000000000000000000000000000
    ensures Weight(10) == PRIME + 19
  {
    assert Weight(4) == Size(3) * (Size(2) * Weight(2));
    assert Weight(6) == Size(5) * (Size(4) * Weight(4));
    assert Weight(8) == Size(7) * (Size(6) * Weight(6));
  }

  /** Both of two odd limbs were rounded up, so that their product counts double. */
  function Coefficient(i: nat, j: nat): (c: nat)
    ensures 1 <= c <= 2
  {
    if i % 2 == 1 && j % 2 == 1 then 2 else 1
  }

  lemma {:induction false} WeightProduct(i: nat, j: nat)
    ensures Weight(i) * Weight(j) == Coefficient(i, j) * Weight(i + j)
  {
    if j == 0 {
      assert Weight(j) == 1 && Coefficient(i, j) == 1;
    } else {
      WeightProduct(i, j - 1);
      NextWeight(j - 1);
      NextWeight(i + j - 1);
      Coefficients(i, j - 1);
      WeightStep(Weight(i), Weight(j - 1), Weight(i + j - 1), Size(j - 1), Size(i + j - 1),
        Coefficient(i, j - 1), Coefficient(i, j));
    }
  }

  lemma Coefficients(i: nat, j: nat)
    ensures Coefficient(i, j + 1) * Size(i + j) == Size(j) * Coefficient(i, j)
  {
  }

  lemma WeightStep(x: int, v: int, w: int, s: int, z: int, c: int, d: int)
    requires x * v == c * w && d * z == s * c
    ensures x * (s * v) == d * (z * w)
  {
    assert x * (s * v) == s * (c * w) by {
      Swap3(x, s, v);
    }
    assert s * (c * w) == (d * z) * w;
  }

  lemma Swap3(a: int, b: int, c: int)
    ensures a * (b * c) == b * (a * c)
  {
  }

  lemma {:induction false} CongruentMul(x: int, y: int, x': int, y': int)
    requires Congruent(x, x') && Congruent(y, y')
    ensures Congruent(x * y, x' * y')
  {
    var k :| Apart(x, x', k);
    var l :| Apart(y, y', l);
    ApartMul(x, y, x', y', k, l);
  }

  lemma ApartMul(x: int, y: int, x': int, y': int, k: int, l: int)
    requires x == x' + PRIME * k && y == y' + PRIME * l
    ensures Apart(x * y, x' * y', k * y + l * x')
  {
    assert x * y == x' * y + PRIME * (k * y);
    assert x' * y == x' * y' + PRIME * (l * x');
  }

  lemma {:induction false} CongruentAdd(x: int, y: int, x': int, y': int)
    requires Congruent(x, x') && Congruent(y, y')
    ensures Congruent(x + y, x' + y') && Congruent(x - y, x' - y')
  {
    var k :| Apart(x, x', k);
    var l :| Apart(y, y', l);
    assert Apart(x + y, x' + y', k + l);
    assert Apart(x - y, x' - y', k - l);
  }

  /** Limbs that fit. */
  ghost predicate Fits(s: seq<int>, n: nat)
    requires n <= |s|
  {
    forall i :: 0 <= i < n ==> 0 <= s[i] < Size(i)
  }

  lemma FitsStep(v: int, d: int, w: int, z: int)
    requires 0 <= v < w && 0 <= d < z
    ensures 0 <= v + d * w < z * w
  {
    MulOrder(w, d + 1, z);
    MulOrder(w, 0, d);
    assert w * (d + 1) == d * w + w;
  }

  lemma {:induction false} FitsBound(s: seq<int>, n: nat)
    requires n <= |s| && Fits(s, n)
    ensures 0 <= Sum(s, n) < Weight(n)
  {
    if n > 0 {
      FitsBound(s, n - 1);
      FitsStep(Sum(s, n - 1), s[n - 1], Weight(n - 1), Size(n - 1));
    }
  }
}
