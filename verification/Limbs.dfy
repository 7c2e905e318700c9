/** Numbers as signed limbs of 21 bits, and the two steps that change them: folding and carrying. */
module Limbs {
  import opened Positional
  import opened SignedDigits

  type Int64 = x: int | -0x8000_0000_0000_0000 <= x < 0x8000_0000_0000_0000

  const LIMB: nat := 0x20_0000
  /** Half a limb, added before a rounding carry. */
  const HALF: nat := 0x10_0000

  /** The order of the base point: 2^252 + 27742317777372353535851937790883648493. */
  const ORDER: nat := 0x1000000000000000000000000000000014def9dea2f79cd65812631a5cf5d3ed

  function LimbValue(s: seq<int>): int
  {
    SignedValue(LIMB, s)
  }

  lemma AddedValue(s: seq<int>, i: nat, x: int)
    requires i < |s|
    ensures LimbValue(Added(s, i, x)) == LimbValue(s) + x * Pow(LIMB, i)
  {
    AddedSigned(LIMB, s, i, x);
  }

  lemma LimbValueConcat(a: seq<int>, b: seq<int>)
    ensures LimbValue(a + b) == LimbValue(a) + Pow(LIMB, |a|) * LimbValue(b)
  {
    SignedConcat(LIMB, a, b);
  }

  lemma ZeroLimbs(s: seq<int>)
    requires forall i :: 0 <= i < |s| ==> s[i] == 0
    ensures LimbValue(s) == 0
  {
    SignedZeros(LIMB, s);
  }

  ghost predicate Within(s: seq<int>, lo: nat, hi: nat, b: int)
    requires hi <= |s|
  {
    forall i :: lo <= i < hi ==> -b <= s[i] <= b
  }

  /** A bound on the value, from a bound on the limbs. */
  lemma {:induction false} Magnitude(s: seq<int>, b: int)
    requires 0 <= b && Within(s, 0, |s|, b)
    ensures -b * (Pow(LIMB, |s|) - 1) <= (LIMB - 1) * LimbValue(s) <= b * (Pow(LIMB, |s|) - 1)
  {
    if s != [] {
      Magnitude(s[1..], b);
      MagnitudeStep(s[0], b, LimbValue(s[1..]), Pow(LIMB, |s| - 1));
    }
  }

  lemma MagnitudeStep(d: int, b: int, v: int, p: nat)
    requires 0 <= b && -b <= d <= b && -b * (p - 1) <= (LIMB - 1) * v <= b * (p - 1)
    ensures -b * (LIMB * p - 1) <= (LIMB - 1) * (d + LIMB * v) <= b * (LIMB * p - 1)
  {
    assert b * (LIMB * p - 1) == b * (LIMB - 1) + LIMB * (b * (p - 1));
  }

  /** Limbs that are all in range are digits. */
  lemma {:induction false} DigitsBound(s: seq<int>)
    requires forall i :: 0 <= i < |s| ==> 0 <= s[i] < LIMB
    ensures 0 <= LimbValue(s) < Pow(LIMB, |s|)
  {
    if s != [] {
      DigitsBound(s[1..]);
      DigitBelow(LIMB, s[0], LimbValue(s[1..]), Pow(LIMB, |s| - 1));
    }
  }

  lemma LimbPowers()
    ensures Pow(LIMB, 5) == 0x200000000000000000000000000
    ensures Pow(LIMB, 6) == 0x40000000000000000000000000000000
    ensures Pow(LIMB, 11) == 0x8000000000000000000000000000000000000000000000000000000000
    ensures Pow(LIMB, 12) == 0x1000000000000000000000000000000000000000000000000000000000000000
  {
    hide Pow;
    PowOne();
    PowAdd(LIMB, 1, 1);
    PowAdd(LIMB, 2, 1);
    PowAdd(LIMB, 3, 2);
    PowAdd(LIMB, 5, 1);
    PowAdd(LIMB, 6, 5);
    PowAdd(LIMB, 11, 1);
  }

  lemma PowOne()
    ensures Pow(LIMB, 1) == LIMB
  {
    assert Pow(LIMB, 1) == LIMB * Pow(LIMB, 0);
  }

  // ----- folding

  /** Limb k, which counts multiples of 2^252 and more, folded into the six limbs twelve places down. */
  function Folded(s: seq<int>, k: nat): (r: seq<int>)
    requires 12 <= k < |s|
    ensures |r| == |s|
  {
    var x := s[k];
    Added(Added(Added(Added(Added(Added(Added(s, k - 12, x * 666643), k - 11, x * 470296), k - 10, x * 654183),
      k - 9, -(x * 997805)), k - 8, x * 136657), k - 7, -(x * 683901)), k, -x)
  }

  lemma FoldedLimbs(s: seq<int>, k: nat)
    requires 12 <= k < |s|
    ensures var r, x := Folded(s, k), s[k];
            && r[k - 12] == s[k - 12] + x * 666643 && r[k - 11] == s[k - 11] + x * 470296
            && r[k - 10] == s[k - 10] + x * 654183 && r[k - 9] == s[k - 9] - x * 997805
            && r[k - 8] == s[k - 8] + x * 136657 && r[k - 7] == s[k - 7] - x * 683901 && r[k] == 0
            && forall i :: 0 <= i < |s| && !(k - 12 <= i <= k - 7) && i != k ==> r[i] == s[i]
  {
  }

  /** Folding subtracts a multiple of the order. */
  lemma {:induction false} FoldedValue(s: seq<int>, k: nat)
    requires 12 <= k < |s|
    ensures LimbValue(Folded(s, k)) == LimbValue(s) - ORDER * (s[k] * Pow(LIMB, k - 12))
  {
    hide Pow, LimbValue;
    var x, p := s[k], Pow(LIMB, k - 12);
    var s1 := Added(s, k - 12, x * 666643);
    var s2 := Added(s1, k - 11, x * 470296);
    var s3 := Added(s2, k - 10, x * 654183);
    var s4 := Added(s3, k - 9, -(x * 997805));
    var s5 := Added(s4, k - 8, x * 136657);
    var s6 := Added(s5, k - 7, -(x * 683901));
    AddedValue(s, k - 12, x * 666643);
    AddedValue(s1, k - 11, x * 470296);
    AddedValue(s2, k - 10, x * 654183);
    AddedValue(s3, k - 9, -(x * 997805));
    AddedValue(s4, k - 8, x * 136657);
    AddedValue(s5, k - 7, -(x * 683901));
    AddedValue(s6, k, -x);
    PowersFrom(k - 12);
    FoldSum(x, p);
  }

  lemma PowersFrom(i: nat)
    ensures var p := Pow(LIMB, i);
            && Pow(LIMB, i + 1) == LIMB * p && Pow(LIMB, i + 2) == LIMB * LIMB * p
            && Pow(LIMB, i + 3) == LIMB * LIMB * LIMB * p && Pow(LIMB, i + 4) == LIMB * LIMB * LIMB * LIMB * p
            && Pow(LIMB, i + 5) == LIMB * LIMB * LIMB * LIMB * LIMB * p
            && Pow(LIMB, i + 12) == 0x1000000000000000000000000000000000000000000000000000000000000000 * p
  {
    LimbPowers();
    PowAdd(LIMB, 12, i);
    assert Pow(LIMB, i + 2) == LIMB * Pow(LIMB, i + 1);
    assert Pow(LIMB, i + 3) == LIMB * Pow(LIMB, i + 2);
    assert Pow(LIMB, i + 4) == LIMB * Pow(LIMB, i + 3);
    assert Pow(LIMB, i + 5) == LIMB * Pow(LIMB, i + 4);
  }

  lemma {:induction false} FoldSum(x: int, p: int)
    ensures (x * 666643) * p + (x * 470296) * (LIMB * p) + (x * 654183) * (LIMB * LIMB * p)
            + (-(x * 997805)) * (LIMB * LIMB * LIMB * p) + (x * 136657) * (LIMB * LIMB * LIMB * LIMB * p)
            + (-(x * 683901)) * (LIMB * LIMB * LIMB * LIMB * LIMB * p)
            + (-x) * (0x1000000000000000000000000000000000000000000000000000000000000000 * p)
            == -(ORDER * (x * p))
  {
    var y := x * p;
    Gather(x, 666643, 1, p);
    Gather(x, 470296, LIMB, p);
    Gather(x, 654183, LIMB * LIMB, p);
    Gather(x, -997805, LIMB * LIMB * LIMB, p);
    Gather(x, 136657, LIMB * LIMB * LIMB * LIMB, p);
    Gather(x, -683901, LIMB * LIMB * LIMB * LIMB * LIMB, p);
    Gather(x, -1, 0x1000000000000000000000000000000000000000000000000000000000000000, p);
  }

  lemma Gather(x: int, c: int, w: int, p: int)
    ensures (x * c) * (w * p) == (c * w) * (x * p)
  {
  }

  // ----- carrying

  /** What limb k has above 21 bits goes to the next limb; with `half`, to the nearest. */
  function Carried(s: seq<int>, k: nat, half: int): (r: seq<int>)
    requires k + 1 < |s|
    ensures |r| == |s|
  {
    var c := (s[k] + half) / LIMB;
    Added(Added(s, k + 1, c), k, -(c * LIMB))
  }

  lemma {:induction false} CarriedValue(s: seq<int>, k: nat, half: int)
    requires k + 1 < |s|
    ensures LimbValue(Carried(s, k, half)) == LimbValue(s)
  {
    hide LimbValue;
    var c := (s[k] + half) / LIMB;
    AddedValue(s, k + 1, c);
    AddedValue(Added(s, k + 1, c), k, -(c * LIMB));
    CarryCancels(c, Pow(LIMB, k));
  }

  lemma CarryCancels(c: int, p: int)
    ensures c * (LIMB * p) + (-(c * LIMB)) * p == 0
  {
  }

  lemma CarriedLimbs(s: seq<int>, k: nat, half: int, b: int, c: int)
    requires k + 1 < |s| && 0 <= half < LIMB && -b <= s[k] <= b && b + half + LIMB <= c * LIMB
    ensures var r := Carried(s, k, half);
            && -half <= r[k] < LIMB - half && s[k + 1] - c <= r[k + 1] <= s[k + 1] + c
            && forall i :: 0 <= i < |s| && i != k && i != k + 1 ==> r[i] == s[i]
  {
    var q := (s[k] + half) / LIMB;
    assert Carried(s, k, half)[k] == (s[k] + half) % LIMB - half;
  }

  /** Carries from every `step`-th limb below `to`. */
  function CarriedUp(s: seq<int>, from: nat, to: nat, step: nat, half: int): (r: seq<int>)
    requires to < |s| && step > 0
    ensures |r| == |s|
    decreases if from < to then to - from else 0
  {
    if from >= to then s else CarriedUp(Carried(s, from, half), from + step, to, step, half)
  }

  lemma {:induction false} CarriedUpValue(s: seq<int>, from: nat, to: nat, step: nat, half: int)
    requires to < |s| && step > 0
    ensures LimbValue(CarriedUp(s, from, to, step, half)) == LimbValue(s)
    decreases if from < to then to - from else 0
  {
    hide LimbValue;
    if from < to {
      CarriedValue(s, from, half);
      CarriedUpValue(Carried(s, from, half), from + step, to, step, half);
    }
  }

  /** A pass over every other limb, when limbs are at most b and no carry is more than c. */
  lemma {:induction false} EveryOther(s: seq<int>, from: nat, to: nat, half: int, b: int, c: int)
    requires to < |s| && 0 <= half < LIMB && 0 <= b && b + half + LIMB <= c * LIMB
    requires forall i :: from <= i < to ==> -b <= s[i] <= b
    ensures var r := CarriedUp(s, from, to, 2, half);
            && (forall i :: 0 <= i < from && i < |s| ==> r[i] == s[i])
            && (forall i :: from <= i < to && (i - from) % 2 == 0 ==> -half <= r[i] < LIMB - half)
            && (forall i :: from < i <= to && (i - from) % 2 == 1 ==> s[i] - c <= r[i] <= s[i] + c)
            && (from <= to && (to - from) % 2 == 0 ==> r[to] == s[to])
            && (forall i :: to < i < |s| ==> r[i] == s[i])
    decreases if from < to then to - from else 0
  {
    hide Carried;
    if from < to {
      CarriedLimbs(s, from, half, b, c);
      var t := Carried(s, from, half);
      EveryOther(t, from + 2, to, half, b, c);
      var r := CarriedUp(s, from, to, 2, half);
      assert forall i :: 0 <= i <= from + 1 && i < |s| && i < from + 2 ==> r[i] == t[i] || i > to;
      forall i | from < i <= to && (i - from) % 2 == 1
        ensures s[i] - c <= r[i] <= s[i] + c
      {
        if i > from + 1 {
          assert (i - (from + 2)) % 2 == 1;
        }
      }
      forall i | from <= i < to && (i - from) % 2 == 0
        ensures -half <= r[i] < LIMB - half
      {
        if i > from {
          assert (i - (from + 2)) % 2 == 0;
        }
      }
    }
  }

  /** A pass over all limbs in turn. */
  lemma {:induction false} InTurn(s: seq<int>, from: nat, to: nat, b: int, c: int)
    requires to < |s| && 0 <= b && 0 <= c && b + c + LIMB <= c * LIMB
    requires from <= to
    requires forall i :: from < i < to ==> -b <= s[i] <= b
    requires from < to ==> -(b + c) <= s[from] <= b + c
    ensures forall i :: 0 <= i < from ==> CarriedUp(s, from, to, 1, 0)[i] == s[i]
    ensures forall i :: from <= i < to ==> 0 <= CarriedUp(s, from, to, 1, 0)[i] < LIMB
    ensures from < to ==> s[to] - c <= CarriedUp(s, from, to, 1, 0)[to] <= s[to] + c
    ensures from == to ==> CarriedUp(s, from, to, 1, 0) == s
    ensures forall i :: to < i < |s| ==> CarriedUp(s, from, to, 1, 0)[i] == s[i]
    decreases |s| - from
  {
    hide Carried;
    if from < to {
      CarriedLimbs(s, from, 0, b + c, c);
      InTurn(Carried(s, from, 0), from + 1, to, b, c);
    }
  }
}
