/** `fproduct` and `fsquare_inner`: the product of two field elements as nineteen limbs. */
module FieldProducts {
  import opened Arith
  import opened FieldLimbs

  /** The product of two limbs of at most 32 bits, as 64 bits. */
  function Mul(x: int, y: int): int
  {
    x * y
  }

  /** The product of limb i of one factor with the limb of the other that makes limb k of the result. */
  function Term(a: seq<int>, b: seq<int>, i: nat, k: nat): int
    requires |a| == |b| == 10 && i < 10
  {
    if i <= k < i + 10 then Coefficient(i, k - i) * Mul(a[i], b[k - i]) else 0
  }

  /** Limb k of the product of the first n limbs of a with b. */
  function Limb(a: seq<int>, b: seq<int>, k: nat, n: nat): int
    requires |a| == |b| == 10 && n <= 10
  {
    if n == 0 then 0 else Limb(a, b, k, n - 1) + Term(a, b, n - 1, k)
  }

  /** The first m limbs of that product. */
  function LimbSum(a: seq<int>, b: seq<int>, n: nat, m: nat): int
    requires |a| == |b| == 10 && n <= 10
  {
    if m == 0 then 0 else LimbSum(a, b, n, m - 1) + Limb(a, b, m - 1, n) * Weight(m - 1)
  }

  function TermSum(a: seq<int>, b: seq<int>, i: nat, m: nat): int
    requires |a| == |b| == 10 && i < 10
  {
    if m == 0 then 0 else TermSum(a, b, i, m - 1) + Term(a, b, i, m - 1) * Weight(m - 1)
  }

  lemma {:induction false} OneRow(a: seq<int>, b: seq<int>, i: nat, m: nat)
    requires |a| == |b| == 10 && i < 10
    ensures TermSum(a, b, i, m) == (a[i] * Weight(i)) * Sum(b, if m < i then 0 else if m < i + 10 then m - i else 10)
  {
    if m > 0 {
      OneRow(a, b, i, m - 1);
      if i < m <= i + 10 {
        var j := m - 1 - i;
        WeightProduct(i, j);
        RowStep(Coefficient(i, j), a[i], b[j], Weight(i), Weight(j), Weight(m - 1), Sum(b, j));
      }
    }
  }

  lemma {:induction false} RowStep(c: int, x: int, y: int, w: int, v: int, u: int, t: int)
    requires w * v == c * u
    ensures (x * w) * t + (c * (x * y)) * u == (x * w) * (t + y * v)
  {
    assert (c * (x * y)) * u == (x * y) * (c * u);
    assert (x * y) * (w * v) == (x * w) * (y * v);
  }

  lemma {:induction false} NextRow(a: seq<int>, b: seq<int>, n: nat, m: nat)
    requires |a| == |b| == 10 && n < 10
    ensures LimbSum(a, b, n + 1, m) == LimbSum(a, b, n, m) + TermSum(a, b, n, m)
  {
    if m > 0 {
      NextRow(a, b, n, m - 1);
      Spread(Limb(a, b, m - 1, n), Term(a, b, n, m - 1), Weight(m - 1));
    }
  }

  lemma {:induction false} NoRows(a: seq<int>, b: seq<int>, m: nat)
    requires |a| == |b| == 10
    ensures LimbSum(a, b, 0, m) == 0
  {
    if m > 0 {
      NoRows(a, b, m - 1);
    }
  }

  /** The nineteen limbs stand for the product. */
  lemma {:induction false} LimbSumIsProduct(a: seq<int>, b: seq<int>, n: nat)
    requires |a| == |b| == 10 && n <= 10
    ensures LimbSum(a, b, n, 19) == Sum(a, n) * Sum(b, 10)
  {
    hide LimbSum, TermSum;
    if n == 0 {
      NoRows(a, b, 19);
    } else {
      LimbSumIsProduct(a, b, n - 1);
      NextRow(a, b, n - 1, 19);
      OneRow(a, b, n - 1, 19);
      Spread(Sum(a, n - 1), a[n - 1] * Weight(n - 1), Sum(b, 10));
    }
  }

  lemma Spread(x: int, y: int, z: int)
    ensures (x + y) * z == x * z + y * z
  {
  }

  lemma {:induction false} SumOfLimbs(s: seq<int>, a: seq<int>, b: seq<int>, m: nat)
    requires |a| == |b| == 10 && m <= |s| && forall k :: 0 <= k < m ==> s[k] == Limb(a, b, k, 10)
    ensures Sum(s, m) == LimbSum(a, b, 10, m)
  {
    if m > 0 {
      SumOfLimbs(s, a, b, m - 1);
    }
  }

  // ----- bounds

  /** How many products limb k has among the first n rows. */
  function Count(k: nat, n: nat): nat
  {
    if n == 0 then 0 else Count(k, n - 1) + if n - 1 <= k < n + 9 then Coefficient(n - 1, k - n + 1) else 0
  }

  lemma {:induction false} LimbBound(a: seq<int>, b: seq<int>, k: nat, n: nat, x: int)
    requires |a| == |b| == 10 && n <= 10 && 0 < x && Below(a, 10, x) && Below(b, 10, x)
    ensures -(Count(k, n) * (x * x)) <= Limb(a, b, k, n) <= Count(k, n) * (x * x)
  {
    if n > 0 {
      LimbBound(a, b, k, n - 1, x);
      var i := n - 1;
      if i <= k < i + 10 {
        ProductBound(a[i], b[k - i], x);
        CountStep(Limb(a, b, k, i), Mul(a[i], b[k - i]), Count(k, i), Coefficient(i, k - i), x * x);
      }
    }
  }

  lemma CountStep(l: int, y: int, m: int, c: int, p: int)
    requires -(m * p) <= l <= m * p && -p <= y <= p && 1 <= c <= 2
    ensures -((m + c) * p) <= l + c * y <= (m + c) * p
  {
    assert (m + c) * p == m * p + c * p;
  }

  lemma {:induction false} ProductBound(y: int, z: int, x: int)
    requires -x < y < x && -x < z < x
    ensures -(x * x) < Mul(y, z) < x * x
  {
    var p, q := if y < 0 then -y else y, if z < 0 then -z else z;
    MulBounds(p, x - 1, q, x - 1);
    assert p * q == y * z || p * q == -(y * z);
    SquareBelow(x);
  }

  lemma SquareBelow(x: int)
    requires 0 < x
    ensures (x - 1) * (x - 1) < x * x
  {
  }

  /** Only odd rows count double, and only in even limbs; from limb 10 on the first row is missing. */
  lemma {:induction false} CountBound(k: nat, n: nat)
    ensures Count(k, n) <= n + (if k % 2 == 0 then n / 2 else 0) - (if k >= 10 && n > 0 then 1 else 0)
  {
    if n > 0 {
      CountBound(k, n - 1);
    }
  }

  /** At most fourteen products meet in one limb. */
  lemma {:induction false} Fourteen(k: nat)
    requires k < 19
    ensures Count(k, 10) <= 14
  {
    CountBound(k, 9);
    CountBound(k, 10);
    assert k < 9 ==> Count(k, 10) == Count(k, 9);
  }

  // ----- the method

  /** The bound on the limbs that are multiplied, and on those of the product. */
  const TWO_27: int := 0x800_0000
  const FOURTEEN: int := 14 * 0x40_0000_0000_0000

  lemma MulCommutes(a: seq<int>)
    requires |a| == 10
    ensures forall i, j :: 0 <= i < 10 && 0 <= j < 10 ==> Mul(a[i], a[j]) == Mul(a[j], a[i])
  {
  }

  lemma {:induction false} LimbIs(a: seq<int>, b: seq<int>, k: nat)
    requires |a| == |b| == 10 && k < 19 && Below(a, 10, TWO_27) && Below(b, 10, TWO_27)
    ensures -FOURTEEN <= Limb(a, b, k, 10) <= FOURTEEN
    ensures Limb(a, b, k, 10) == Term(a, b, 0, k) + Term(a, b, 1, k) + Term(a, b, 2, k) + Term(a, b, 3, k) + Term(a, b, 4, k)
                                 + Term(a, b, 5, k) + Term(a, b, 6, k) + Term(a, b, 7, k) + Term(a, b, 8, k) + Term(a, b, 9, k)
  {
    hide Term, Count, Mul;
    LimbBound(a, b, k, 10, TWO_27);
    Fourteen(k);
    assert Limb(a, b, k, 1) == Term(a, b, 0, k);
    assert Limb(a, b, k, 2) == Term(a, b, 0, k) + Term(a, b, 1, k);
    assert Limb(a, b, k, 4) == Limb(a, b, k, 2) + Term(a, b, 2, k) + Term(a, b, 3, k);
    assert Limb(a, b, k, 6) == Limb(a, b, k, 4) + Term(a, b, 4, k) + Term(a, b, 5, k);
    assert Limb(a, b, k, 8) == Limb(a, b, k, 6) + Term(a, b, 6, k) + Term(a, b, 7, k);
  }

  /** The limbs of the product from the lowest on, in three parts. */
  method ProductLow(t: array<Int64>, a: array<Int64>, b: array<Int64>)
    requires t.Length == 19 && a.Length >= 10 && b.Length >= 10 && t != a && t != b
    requires Below(a[..], 10, TWO_27) && Below(b[..], 10, TWO_27)
    modifies t
    ensures forall k :: 0 <= k < 7 ==> t[k] == Limb(a[..10], b[..10], k, 10)
    ensures forall k :: 0 <= k < 19 && !(0 <= k < 7) ==> t[k] == old(t[k])
  {
    hide Limb, Mul;
    ghost var x, y := a[..10], b[..10];
    LimbIs(x, y, 0);
    t[0] := Mul(a[0], b[0]);
    LimbIs(x, y, 1);
    t[1] := Mul(a[0], b[1]) + Mul(a[1], b[0]);
    LimbIs(x, y, 2);
    t[2] := 2 * Mul(a[1], b[1]) + Mul(a[0], b[2]) + Mul(a[2], b[0]);
    LimbIs(x, y, 3);
    t[3] := Mul(a[1], b[2]) + Mul(a[2], b[1]) + Mul(a[0], b[3]) + Mul(a[3], b[0]);
    LimbIs(x, y, 4);
    t[4] := Mul(a[2], b[2]) + 2 * (Mul(a[1], b[3]) + Mul(a[3], b[1])) + Mul(a[0], b[4]) + Mul(a[4], b[0]);
    LimbIs(x, y, 5);
    t[5] := Mul(a[2], b[3]) + Mul(a[3], b[2]) + Mul(a[1], b[4]) + Mul(a[4], b[1]) + Mul(a[0], b[5])
      + Mul(a[5], b[0]);
    LimbIs(x, y, 6);
    t[6] := 2 * (Mul(a[3], b[3]) + Mul(a[1], b[5]) + Mul(a[5], b[1])) + Mul(a[2], b[4]) + Mul(a[4], b[2])
      + Mul(a[0], b[6]) + Mul(a[6], b[0]);
  }

  method ProductMiddle(t: array<Int64>, a: array<Int64>, b: array<Int64>)
    requires t.Length == 19 && a.Length >= 10 && b.Length >= 10 && t != a && t != b
    requires Below(a[..], 10, TWO_27) && Below(b[..], 10, TWO_27)
    modifies t
    ensures forall k :: 7 <= k < 12 ==> t[k] == Limb(a[..10], b[..10], k, 10)
    ensures forall k :: 0 <= k < 19 && !(7 <= k < 12) ==> t[k] == old(t[k])
  {
    hide Limb, Mul;
    ghost var x, y := a[..10], b[..10];
    LimbIs(x, y, 7);
    t[7] := Mul(a[3], b[4]) + Mul(a[4], b[3]) + Mul(a[2], b[5]) + Mul(a[5], b[2]) + Mul(a[1], b[6])
      + Mul(a[6], b[1])
      + Mul(a[0], b[7]) + Mul(a[7], b[0]);
    LimbIs(x, y, 8);
    t[8] := Mul(a[4], b[4]) + 2 * (Mul(a[3], b[5]) + Mul(a[5], b[3]) + Mul(a[1], b[7]) + Mul(a[7], b[1]))
      + Mul(a[2], b[6])
      + Mul(a[6], b[2]) + Mul(a[0], b[8]) + Mul(a[8], b[0]);
    LimbIs(x, y, 9);
    t[9] := Mul(a[4], b[5]) + Mul(a[5], b[4]) + Mul(a[3], b[6]) + Mul(a[6], b[3]) + Mul(a[2], b[7])
      + Mul(a[7], b[2])
      + Mul(a[1], b[8]) + Mul(a[8], b[1]) + Mul(a[0], b[9]) + Mul(a[9], b[0]);
    LimbIs(x, y, 10);
    t[10] := 2 * (Mul(a[5], b[5]) + Mul(a[3], b[7]) + Mul(a[7], b[3]) + Mul(a[1], b[9])
      + Mul(a[9], b[1])) + Mul(a[4], b[6])
      + Mul(a[6], b[4]) + Mul(a[2], b[8]) + Mul(a[8], b[2]);
    LimbIs(x, y, 11);
    t[11] := Mul(a[5], b[6]) + Mul(a[6], b[5]) + Mul(a[4], b[7]) + Mul(a[7], b[4]) + Mul(a[3], b[8])
      + Mul(a[8], b[3])
      + Mul(a[2], b[9]) + Mul(a[9], b[2]);
  }

  method ProductHigh(t: array<Int64>, a: array<Int64>, b: array<Int64>)
    requires t.Length == 19 && a.Length >= 10 && b.Length >= 10 && t != a && t != b
    requires Below(a[..], 10, TWO_27) && Below(b[..], 10, TWO_27)
    modifies t
    ensures forall k :: 12 <= k < 19 ==> t[k] == Limb(a[..10], b[..10], k, 10)
    ensures forall k :: 0 <= k < 19 && !(12 <= k < 19) ==> t[k] == old(t[k])
  {
    hide Limb, Mul;
    ghost var x, y := a[..10], b[..10];
    LimbIs(x, y, 12);
    t[12] := Mul(a[6], b[6]) + 2 * (Mul(a[5], b[7]) + Mul(a[7], b[5]) + Mul(a[3], b[9])
      + Mul(a[9], b[3])) + Mul(a[4], b[8])
      + Mul(a[8], b[4]);
    LimbIs(x, y, 13);
    t[13] := Mul(a[6], b[7]) + Mul(a[7], b[6]) + Mul(a[5], b[8]) + Mul(a[8], b[5]) + Mul(a[4], b[9])
      + Mul(a[9], b[4]);
    LimbIs(x, y, 14);
    t[14] := 2 * (Mul(a[7], b[7]) + Mul(a[5], b[9]) + Mul(a[9], b[5])) + Mul(a[6], b[8]) + Mul(a[8], b[6]);
    LimbIs(x, y, 15);
    t[15] := Mul(a[7], b[8]) + Mul(a[8], b[7]) + Mul(a[6], b[9]) + Mul(a[9], b[6]);
    LimbIs(x, y, 16);
    t[16] := Mul(a[8], b[8]) + 2 * (Mul(a[7], b[9]) + Mul(a[9], b[7]));
    LimbIs(x, y, 17);
    t[17] := Mul(a[8], b[9]) + Mul(a[9], b[8]);
    LimbIs(x, y, 18);
    t[18] := 2 * Mul(a[9], b[9]);
  }

  /** The limbs of the square: equal products are taken once and doubled. */
  method SquareLow(t: array<Int64>, a: array<Int64>)
    requires t.Length == 19 && a.Length >= 10 && t != a
    requires Below(a[..], 10, TWO_27)
    modifies t
    ensures forall k :: 0 <= k < 8 ==> t[k] == Limb(a[..10], a[..10], k, 10)
    ensures forall k :: 0 <= k < 19 && !(0 <= k < 8) ==> t[k] == old(t[k])
  {
    hide Limb, Mul;
    ghost var x := a[..10];
    MulCommutes(x);
    LimbIs(x, x, 0);
    t[0] := Mul(a[0], a[0]);
    LimbIs(x, x, 1);
    t[1] := 2 * Mul(a[0], a[1]);
    LimbIs(x, x, 2);
    t[2] := 2 * (Mul(a[1], a[1]) + Mul(a[0], a[2]));
    LimbIs(x, x, 3);
    t[3] := 2 * (Mul(a[1], a[2]) + Mul(a[0], a[3]));
    LimbIs(x, x, 4);
    t[4] := Mul(a[2], a[2]) + 4 * Mul(a[1], a[3]) + 2 * Mul(a[0], a[4]);
    LimbIs(x, x, 5);
    t[5] := 2 * (Mul(a[2], a[3]) + Mul(a[1], a[4]) + Mul(a[0], a[5]));
    LimbIs(x, x, 6);
    t[6] := 2 * (Mul(a[3], a[3]) + Mul(a[2], a[4]) + Mul(a[0], a[6]) + 2 * Mul(a[1], a[5]));
    LimbIs(x, x, 7);
    t[7] := 2 * (Mul(a[3], a[4]) + Mul(a[2], a[5]) + Mul(a[1], a[6]) + Mul(a[0], a[7]));
  }

  method SquareMiddle(t: array<Int64>, a: array<Int64>)
    requires t.Length == 19 && a.Length >= 10 && t != a
    requires Below(a[..], 10, TWO_27)
    modifies t
    ensures forall k :: 8 <= k < 14 ==> t[k] == Limb(a[..10], a[..10], k, 10)
    ensures forall k :: 0 <= k < 19 && !(8 <= k < 14) ==> t[k] == old(t[k])
  {
    hide Limb, Mul;
    ghost var x := a[..10];
    MulCommutes(x);
    LimbIs(x, x, 8);
    t[8] := Mul(a[4], a[4]) + 2 * (Mul(a[2], a[6]) + Mul(a[0], a[8]) + 2 * (Mul(a[1], a[7]) + Mul(a[3], a[5])));
    LimbIs(x, x, 9);
    t[9] := 2 * (Mul(a[4], a[5]) + Mul(a[3], a[6]) + Mul(a[2], a[7]) + Mul(a[1], a[8]) + Mul(a[0], a[9]));
    LimbIs(x, x, 10);
    t[10] := 2 * (Mul(a[5], a[5]) + Mul(a[4], a[6]) + Mul(a[2], a[8]) + 2 * (Mul(a[3], a[7])
      + Mul(a[1], a[9])));
    LimbIs(x, x, 11);
    t[11] := 2 * (Mul(a[5], a[6]) + Mul(a[4], a[7]) + Mul(a[3], a[8]) + Mul(a[2], a[9]));
    LimbIs(x, x, 12);
    t[12] := Mul(a[6], a[6]) + 2 * (Mul(a[4], a[8]) + 2 * (Mul(a[5], a[7]) + Mul(a[3], a[9])));
    LimbIs(x, x, 13);
    t[13] := 2 * (Mul(a[6], a[7]) + Mul(a[5], a[8]) + Mul(a[4], a[9]));
  }

  method SquareHigh(t: array<Int64>, a: array<Int64>)
    requires t.Length == 19 && a.Length >= 10 && t != a
    requires Below(a[..], 10, TWO_27)
    modifies t
    ensures forall k :: 14 <= k < 19 ==> t[k] == Limb(a[..10], a[..10], k, 10)
    ensures forall k :: 0 <= k < 19 && !(14 <= k < 19) ==> t[k] == old(t[k])
  {
    hide Limb, Mul;
    ghost var x := a[..10];
    MulCommutes(x);
    LimbIs(x, x, 14);
    t[14] := 2 * (Mul(a[7], a[7]) + Mul(a[6], a[8]) + 2 * Mul(a[5], a[9]));
    LimbIs(x, x, 15);
    t[15] := 2 * (Mul(a[7], a[8]) + Mul(a[6], a[9]));
    LimbIs(x, x, 16);
    t[16] := Mul(a[8], a[8]) + 4 * Mul(a[7], a[9]);
    LimbIs(x, x, 17);
    t[17] := 2 * Mul(a[8], a[9]);
    LimbIs(x, x, 18);
    t[18] := 2 * Mul(a[9], a[9]);
  }

  /** The product of two field elements; every limb is at most fourteen products. */
  method FProduct(t: array<Int64>, a: array<Int64>, b: array<Int64>)
    requires t.Length == 19 && a.Length >= 10 && b.Length >= 10 && t != a && t != b
    requires Below(a[..], 10, TWO_27) && Below(b[..], 10, TWO_27)
    modifies t
    ensures Sum(t[..], 19) == Sum(a[..], 10) * Sum(b[..], 10)
    ensures Below(t[..], 19, FOURTEEN + 1)
  {
    hide Limb, Sum;
    ProductLow(t, a, b);
    ProductMiddle(t, a, b);
    ProductHigh(t, a, b);
    ProductIs(t[..], a[..10], b[..10]);
    SumSame(a[..], a[..10], 10);
    SumSame(b[..], b[..10], 10);
  }

  /** The square of a field element. */
  method FSquareInner(t: array<Int64>, a: array<Int64>)
    requires t.Length == 19 && a.Length >= 10 && t != a && Below(a[..], 10, TWO_27)
    modifies t
    ensures Sum(t[..], 19) == Sum(a[..], 10) * Sum(a[..], 10)
    ensures Below(t[..], 19, FOURTEEN + 1)
  {
    hide Limb, Sum;
    SquareLow(t, a);
    SquareMiddle(t, a);
    SquareHigh(t, a);
    ProductIs(t[..], a[..10], a[..10]);
    SumSame(a[..], a[..10], 10);
  }

  lemma {:induction false} ProductIs(t: seq<int>, a: seq<int>, b: seq<int>)
    requires |t| == 19 && |a| == |b| == 10 && Below(a, 10, TWO_27) && Below(b, 10, TWO_27)
    requires forall k :: 0 <= k < 19 ==> t[k] == Limb(a, b, k, 10)
    ensures Sum(t, 19) == Sum(a, 10) * Sum(b, 10)
    ensures Below(t, 19, FOURTEEN + 1)
  {
    hide Limb, Sum, LimbSum;
    SumOfLimbs(t, a, b, 19);
    LimbSumIsProduct(a, b, 10);
    forall k | 0 <= k < 19 ensures -FOURTEEN <= t[k] <= FOURTEEN {
      LimbIs(a, b, k);
    }
  }
}
