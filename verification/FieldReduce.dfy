/** Reducing a product of field elements: first its degree, then the size of its limbs. */
module FieldReduce {
  import opened SignedDigits
  import opened FieldLimbs
  import opened FieldProducts

  /** 280 * 2^54. */
  const DEGREE: int := 20 * FOURTEEN

  /** Nineteen times each of the nine upper limbs is added ten limbs down. */
  ghost predicate FoldedDown(s: seq<int>, t: seq<int>)
  {
    FoldedFrom(s, t, 0)
  }

  ghost predicate FoldedFrom(s: seq<int>, t: seq<int>, m: nat)
  {
    && |s| == |t| == 19
    && (forall i :: m <= i < 9 ==> t[i] == s[i] + 19 * s[i + 10])
    && (forall i :: 0 <= i < 19 && !(m <= i < 9) ==> t[i] == s[i])
  }

  lemma {:induction false} UpperSum(s: seq<int>, n: nat)
    requires |s| == 19 && n <= 9
    ensures Sum(s, 10 + n) == Sum(s, 10) + Weight(10) * Sum(s[10..], n)
  {
    hide Weight;
    if n > 0 {
      UpperSum(s, n - 1);
      WeightProduct(10, n - 1);
      UpperStep(Weight(10), Sum(s[10..], n - 1), s[9 + n], Weight(n - 1));
    }
  }

  lemma UpperStep(w: int, v: int, x: int, u: int)
    ensures w * (v + x * u) == w * v + x * (w * u)
  {
  }

  lemma {:induction false} FoldedSum(s: seq<int>, t: seq<int>, n: nat)
    requires |s| == |t| == 19 && FoldedDown(s, t) && n <= 9
    ensures Sum(t, n) == Sum(s, n) + 19 * Sum(s[10..], n)
  {
    if n > 0 {
      FoldedSum(s, t, n - 1);
      Nineteen(s[n - 1], s[n + 9], Weight(n - 1));
    }
  }

  lemma Nineteen(x: int, y: int, w: int)
    ensures (x + 19 * y) * w == x * w + 19 * (y * w)
  {
  }

  lemma {:induction false} FoldedCongruent(s: seq<int>, t: seq<int>)
    requires |s| == |t| == 19 && FoldedDown(s, t)
    ensures Congruent(Sum(t, 10), Sum(s, 19))
  {
    hide Weight;
    FoldedSum(s, t, 9);
    UpperSum(s, 9);
    assert Sum(t, 10) == Sum(s, 10) + 19 * Sum(s[10..], 9);
    Weights();
    assert Apart(Sum(t, 10), Sum(s, 19), -Sum(s[10..], 9));
  }

  /** Three shifts and sums that add nineteen times limb i + 10 to limb i. */
  method FoldLimb(t: array<Int64>, i: nat, ghost s: seq<int>)
    requires t.Length == 19 && i < 9 && FoldedFrom(s, t[..], i + 1) && Below(s, 19, FOURTEEN + 1)
    modifies t
    ensures FoldedFrom(s, t[..], i)
  {
    assert t[..][i] == s[i] && t[..][i + 10] == s[i + 10];
    t[i] := t[i] + t[i + 10] * 16;
    t[i] := t[i] + t[i + 10] * 2;
    t[i] := t[i] + t[i + 10];
  }

  lemma NoneFolded(s: seq<int>)
    requires |s| == 19
    ensures FoldedFrom(s, s, 9)
  {
  }

  lemma FoldedBound(s: seq<int>, t: seq<int>)
    requires FoldedDown(s, t) && Below(s, 19, FOURTEEN + 1)
    ensures |t| == 19 && forall i :: 0 <= i < 10 ==> -DEGREE <= t[i] <= DEGREE
  {
    forall i | 0 <= i < 10 ensures -DEGREE <= t[i] <= DEGREE {
      assert -FOURTEEN <= s[i] <= FOURTEEN;
      assert -FOURTEEN <= s[if i < 9 then i + 10 else i] <= FOURTEEN;
    }
  }

  /** From nineteen limbs to ten. */
  method FReduceDegree(t: array<Int64>)
    requires t.Length == 19 && Below(t[..], 19, FOURTEEN + 1)
    modifies t
    ensures Congruent(Sum(t[..], 10), old(Sum(t[..], 19)))
    ensures forall i :: 0 <= i < 10 ==> -DEGREE <= t[i] <= DEGREE
  {
    hide Sum, FoldedFrom;
    ghost var s := t[..];
    NoneFolded(s);
    FoldLimb(t, 8, s);
    FoldLimb(t, 7, s);
    FoldLimb(t, 6, s);
    FoldLimb(t, 5, s);
    FoldLimb(t, 4, s);
    FoldLimb(t, 3, s);
    FoldLimb(t, 2, s);
    FoldLimb(t, 1, s);
    FoldLimb(t, 0, s);
    FoldedCongruent(s, t[..]);
    FoldedBound(s, t[..]);
  }

  // ----- the size of the limbs

  /** Division by 2^26 towards zero: what a shift to the right would round down is first moved up. */
  function DivBy26(v: Int64): (q: int)
    ensures -0x400_0000 < v - q * 0x400_0000 < 0x400_0000
    ensures 0 <= v ==> 0 <= q * 0x400_0000 <= v
    ensures v <= 0 ==> v <= q * 0x400_0000 <= 0
  {
    var highWord := v % 0x1_0000_0000_0000_0000 / 0x1_0000_0000;
    var sign := if highWord >= 0x8000_0000 then 0xffff_ffff else 0;
    (v + sign / 64) / 0x400_0000
  }

  function DivBy25(v: Int64): (q: int)
    ensures -0x200_0000 < v - q * 0x200_0000 < 0x200_0000
    ensures 0 <= v ==> 0 <= q * 0x200_0000 <= v
    ensures v <= 0 ==> v <= q * 0x200_0000 <= 0
  {
    var highWord := v % 0x1_0000_0000_0000_0000 / 0x1_0000_0000;
    var sign := if highWord >= 0x8000_0000 then 0xffff_ffff else 0;
    (v + sign / 128) / 0x200_0000
  }

  /** Reduced limbs. */
  ghost predicate Small(s: seq<int>, lo: nat, hi: nat)
    requires hi <= |s|
  {
    forall i :: lo <= i < hi ==> -(Size(i) as int) < s[i] < Size(i)
  }

  /** The carry that moves on after the limbs below i. */
  const CARRY: int := 281 * 0x2000_0000

  /** The limbs below i are reduced and carry into limb i. */
  ghost predicate CarriedTo(t: seq<int>, i: nat)
  {
    var c, d := if i > 0 then CARRY else 0, if i < 10 then DEGREE else 0;
    && |t| >= 11 && i <= 10 && Small(t, 0, i) && -d - c <= t[i] <= d + c
    && (forall k :: i < k < 10 ==> -DEGREE <= t[k] <= DEGREE)
    && (i < 10 ==> t[10] == 0)
  }

  /** Limb i gives up all that is more than its size. */
  method CarryEven(t: array<Int64>, i: nat)
    requires i % 2 == 0 && i < 10 && CarriedTo(t[..], i)
    modifies t
    ensures forall k :: 0 <= k < t.Length && k != i && k != i + 1 ==> t[k] == old(t[k])
    ensures CarriedTo(t[..], i + 1)
    ensures Sum(t[..], 11) == old(Sum(t[..], 11))
  {
    hide Sum, Weight;
    ghost var s := t[..];
    var over := DivBy26(t[i]);
    t[i] := t[i] - over * 0x400_0000;
    t[i + 1] := t[i + 1] + over;
    assert t[..] == Carried(s, i, over);
    CarriedSum(s, i, over, 11);
  }

  /** The same for the limbs of 25 bits. */
  method CarryOdd(t: array<Int64>, i: nat)
    requires i % 2 == 1 && i < 10 && CarriedTo(t[..], i)
    modifies t
    ensures forall k :: 0 <= k < t.Length && k != i && k != i + 1 ==> t[k] == old(t[k])
    ensures CarriedTo(t[..], i + 1)
    ensures Sum(t[..], 11) == old(Sum(t[..], 11))
  {
    hide Sum, Weight;
    ghost var s := t[..];
    var over := DivBy25(t[i]);
    t[i] := t[i] - over * 0x200_0000;
    t[i + 1] := t[i + 1] + over;
    assert t[..] == Carried(s, i, over);
    CarriedSum(s, i, over, 11);
  }

  /** From ten limbs of any size the product can leave to ten below 2^26. */
  method FReduceCoefficients(t: array<Int64>)
    requires t.Length >= 11
    requires forall i :: 0 <= i < 10 ==> -DEGREE <= t[i] <= DEGREE
    modifies t
    ensures Congruent(Sum(t[..], 10), old(Sum(t[..], 10)))
    ensures Below(t[..], 10, 0x400_0000) && Small(t[..], 2, 10) && t[10] == 0
    ensures t[11..] == old(t[11..])
  {
    hide Sum, Weight;
    ghost var s := t[..];
    t[10] := 0;
    TenOfEleven(s, t[..]);
    ghost var v := Sum(t[..], 11);
    for i := 0 to 5
      invariant CarriedTo(t[..], 2 * i)
      invariant Sum(t[..], 11) == v
      invariant t[11..] == s[11..]
    {
      CarryEven(t, 2 * i);
      CarryOdd(t, 2 * i + 1);
    }
    LastCarries(t);
  }

  /** What is left above 2^255 comes back nineteenfold, and limb 0 carries once more. */
  method LastCarries(t: array<Int64>)
    requires CarriedTo(t[..], 10)
    modifies t
    ensures Congruent(Sum(t[..], 10), old(Sum(t[..], 11)))
    ensures Below(t[..], 10, 0x400_0000) && Small(t[..], 2, 10) && t[10] == 0
    ensures t[11..] == old(t[11..])
  {
    hide Sum, Weight;
    ghost var full := t[..];
    t[0] := t[0] + t[10] * 16;
    t[0] := t[0] + t[10] * 2;
    t[0] := t[0] + t[10];
    t[10] := 0;
    TenthFolded(full, t[..]);
    ghost var before := t[..];
    var over := DivBy26(t[0]);
    t[0] := t[0] - over * 0x400_0000;
    t[1] := t[1] + over;
    assert t[..] == Carried(before, 0, over);
    CarriedSum(before, 0, over, 10);
  }

  lemma {:induction false} TenOfEleven(s: seq<int>, t: seq<int>)
    requires |s| == |t| >= 11 && t == s[10 := 0]
    ensures Sum(t, 11) == Sum(s, 10)
  {
    hide Weight;
    SumSame(s, t, 10);
  }

  lemma {:induction false} TenthFolded(s: seq<int>, t: seq<int>)
    requires |s| == |t| >= 11 && t == s[0 := s[0] + 19 * s[10]][10 := 0]
    ensures Congruent(Sum(t, 10), Sum(s, 11))
  {
    hide Weight;
    SumAdded(s, 0, 19 * s[10], 10);
    SumSame(Added(s, 0, 19 * s[10]), t, 10);
    Weights();
    assert Apart(Sum(t, 10), Sum(s, 11), -s[10]);
  }

  /** Reduced field elements. */
  ghost predicate Reduced(s: seq<int>)
    requires |s| >= 10
  {
    Below(s, 10, 0x400_0000)
  }

  /** The product of two field elements, reduced where it was computed. */
  method Product(t: array<Int64>, a: array<Int64>, b: array<Int64>)
    requires t.Length == 19 && a.Length >= 10 && b.Length >= 10 && t != a && t != b
    requires Below(a[..], 10, TWO_27) && Below(b[..], 10, TWO_27)
    modifies t
    ensures Congruent(Sum(t[..], 10), Sum(a[..], 10) * Sum(b[..], 10)) && Reduced(t[..])
  {
    hide Sum, Congruent;
    FProduct(t, a, b);
    ghost var product := Sum(t[..], 19);
    FReduceDegree(t);
    ghost var v := Sum(t[..], 10);
    FReduceCoefficients(t);
    Transitive(Sum(t[..], 10), v, product);
  }

  /** The product of two field elements. */
  method FMul(output: array<Int64>, a: array<Int64>, b: array<Int64>)
    requires output.Length >= 10 && a.Length >= 10 && b.Length >= 10
    requires Below(a[..], 10, TWO_27) && Below(b[..], 10, TWO_27)
    modifies output
    ensures Congruent(Sum(output[..], 10), old(Sum(a[..], 10)) * old(Sum(b[..], 10)))
    ensures Reduced(output[..]) && output[10..] == old(output[10..])
  {
    hide Sum;
    var t := new Int64[19];
    Product(t, a, b);
    CopyLimbs(output, t);
  }

  /** The square of a field element. */
  method FSquare(output: array<Int64>, a: array<Int64>)
    requires output.Length >= 10 && a.Length >= 10 && Below(a[..], 10, TWO_27)
    modifies output
    ensures Congruent(Sum(output[..], 10), old(Sum(a[..], 10)) * old(Sum(a[..], 10)))
    ensures Reduced(output[..]) && output[10..] == old(output[10..])
  {
    hide Sum;
    var t := new Int64[19];
    FSquareInner(t, a);
    ghost var square := Sum(t[..], 19);
    FReduceDegree(t);
    ghost var v := Sum(t[..], 10);
    FReduceCoefficients(t);
    Transitive(Sum(t[..], 10), v, square);
    CopyLimbs(output, t);
  }

  /** Ten limbs copied. */
  method CopyLimbs(output: array<Int64>, from: array<Int64>)
    requires output.Length >= 10 && from.Length >= 10
    modifies output
    ensures output[..10] == old(from[..10]) && output[10..] == old(output[10..])
    ensures Sum(output[..], 10) == old(Sum(from[..], 10))
    ensures old(Reduced(from[..])) ==> Reduced(output[..])
  {
    hide Sum;
    ghost var s := from[..];
    var i := 0;
    while i < 10
      invariant 0 <= i <= 10
      invariant forall k :: 0 <= k < i ==> output[k] == s[k]
      invariant from == output || from[..] == s
      invariant from == output ==> forall k :: i <= k < 10 ==> output[k] == s[k]
      invariant output[10..] == old(output[10..])
    {
      output[i] := from[i];
      i := i + 1;
    }
    SumSame(s, output[..], 10);
  }
}
