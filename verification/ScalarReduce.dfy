/** Reduction of 24 limbs modulo the group order, as `sc_reduce` and `sc_muladd` end. */
module ScalarReduce {
  import opened Arith
  import opened Positional
  import opened Limbs

  /** Limbs hi down to lo folded. */
  function FoldedDown(s: seq<int>, hi: nat, lo: nat): (r: seq<int>)
    requires 12 <= lo && hi < |s|
    ensures |r| == |s|
    decreases hi
  {
    if hi < lo then s else FoldedDown(Folded(s, hi), hi - 1, lo)
  }

  lemma {:induction false} FoldedDownValue(s: seq<int>, hi: nat, lo: nat) returns (q: int)
    requires 12 <= lo && hi < |s|
    ensures LimbValue(FoldedDown(s, hi, lo)) == LimbValue(s) - ORDER * q
    decreases hi
  {
    hide LimbValue, Folded, Pow;
    q := 0;
    if lo <= hi {
      FoldedValue(s, hi);
      q := FoldedDownValue(Folded(s, hi), hi - 1, lo);
      FoldMore(LimbValue(s), s[hi] * Pow(LIMB, hi - 12), q);
      q := s[hi] * Pow(LIMB, hi - 12) + q;
    }
  }

  lemma FoldMore(v: int, x: int, q: int)
    ensures v - ORDER * x - ORDER * q == v - ORDER * (x + q)
  {
  }

  /** The bound b after n folds of limbs that are at most a. */
  function Grown(a: int, b: int, n: nat): int
    decreases n
  {
    if n == 0 then b else Grown(a, b + 1000000 * a, n - 1)
  }

  lemma {:induction false} GrownMore(a: int, b: int, n: nat)
    requires 0 <= a
    ensures b <= Grown(a, b, n)
    decreases n
  {
    if n > 0 {
      GrownMore(a, b + 1000000 * a, n - 1);
    }
  }

  /** Room for the folds: limbs from lo up are at most a, the others at most b. */
  ghost predicate Room(s: seq<int>, hi: nat, lo: nat, a: int, b: int)
  {
    && 12 <= lo <= hi + 1 <= |s| && hi < lo + 6 && 0 <= a <= 0x100_0000_0000 && 0 <= b
    && Within(s, lo, hi + 1, a) && Within(s, lo - 12, lo, b)
    && Grown(a, b, hi + 1 - lo) <= 0x4000_0000_0000_0000
  }

  lemma {:induction false} RoomAfter(s: seq<int>, hi: nat, lo: nat, a: int, b: int)
    requires Room(s, hi, lo, a, b) && lo <= hi
    ensures Room(Folded(s, hi), hi - 1, lo, a, b + 1000000 * a)
    ensures forall i :: 0 <= i < |s| && !(hi - 12 <= i <= hi - 7) && i != hi ==> Folded(s, hi)[i] == s[i]
    ensures Folded(s, hi)[hi] == 0
  {
    hide Folded;
    FoldedLimbs(s, hi);
    var x, r := s[hi], Folded(s, hi);
    forall i | lo - 12 <= i < lo
      ensures -(b + 1000000 * a) <= r[i] <= b + 1000000 * a
    {
      assert -b <= s[i] <= b;
      if !(hi - 12 <= i <= hi - 7) {
        assert r[i] == s[i];
      }
    }
  }

  /** What the folds leave: limbs folded away are 0, and only the limbs they go to change. */
  lemma {:induction false} FoldedDownLimbs(s: seq<int>, hi: nat, lo: nat, a: int, b: int)
    requires Room(s, hi, lo, a, b)
    ensures var r := FoldedDown(s, hi, lo);
            && Within(r, lo - 12, lo, Grown(a, b, hi + 1 - lo))
            && (forall i :: lo <= i <= hi ==> r[i] == 0)
            && (forall i :: (0 <= i < lo - 12 || hi - 7 < i < lo || hi < i) && i < |s| ==> r[i] == s[i])
    decreases hi
  {
    hide Folded;
    if lo <= hi {
      RoomAfter(s, hi, lo, a, b);
      FoldedDownLimbs(Folded(s, hi), hi - 1, lo, a, b + 1000000 * a);
    }
  }

  method FoldDown(s: array<Int64>, hi: nat, lo: nat, ghost a: int, ghost b: int)
    requires s.Length == 24 && hi < 24 && lo <= hi && Room(s[..], hi, lo, a, b)
    modifies s
    ensures s[..] == FoldedDown(old(s[..]), hi, lo)
  {
    hide Folded;
    var k := hi;
    ghost var bk := b;
    while k >= lo
      invariant lo - 1 <= k <= hi && Room(s[..], k, lo, a, bk)
      invariant FoldedDown(s[..], k, lo) == FoldedDown(old(s[..]), hi, lo)
      decreases k
    {
      RoomAfter(s[..], k, lo, a, bk);
      GrownMore(a, bk, k + 1 - lo);
      Fold(s, k);
      bk := bk + 1000000 * a;
      k := k - 1;
    }
  }

  /** One fold, without overflow. */
  method Fold(s: array<Int64>, k: nat)
    requires s.Length == 24 && 12 <= k < 24 && -0x100_0000_0000 <= s[k] <= 0x100_0000_0000
    requires Within(s[..], k - 12, k - 6, 0x4000_0000_0000_0000)
    modifies s
    ensures s[..] == Folded(old(s[..]), k)
  {
    FoldedLimbs(s[..], k);
    var x := s[k];
    var t: Int64 := x * 666643;
    s[k - 12] := s[k - 12] + t;
    t := x * 470296;
    s[k - 11] := s[k - 11] + t;
    t := x * 654183;
    s[k - 10] := s[k - 10] + t;
    t := x * 997805;
    s[k - 9] := s[k - 9] - t;
    t := x * 136657;
    s[k - 8] := s[k - 8] + t;
    t := x * 683901;
    s[k - 7] := s[k - 7] - t;
    s[k] := 0;
    assert s[..] == Folded(old(s[..]), k);
  }

  /** One carry, without overflow. */
  method Carry(s: array<Int64>, k: nat, half: int)
    requires s.Length == 24 && k < 23 && 0 <= half < LIMB
    requires Within(s[..], k, k + 2, 0x4000_0000_0000_0000)
    modifies s
    ensures s[..] == Carried(old(s[..]), k, half)
  {
    var carry: Int64 := (s[k] + half) / LIMB;
    CarriedLimbs(s[..], k, half, 0x4000_0000_0000_0000, 0x400_0000_0000);
    s[k + 1] := s[k + 1] + carry;
    var t: Int64 := carry * LIMB;
    s[k] := s[k] - t;
    assert s[..] == Carried(old(s[..]), k, half);
  }

  method CarryUp(s: array<Int64>, from: nat, limit: nat, step: nat, half: int, ghost b: int, ghost c: int)
    requires s.Length == 24 && limit < 24 && 1 <= step <= 2 && 0 <= half < LIMB
    requires 0 <= b && 0 <= c && b + c + half + LIMB <= c * LIMB && b + c <= 0x4000_0000_0000_0000
    requires from <= limit && Within(s[..], from, limit + 1, b)
    modifies s
    ensures s[..] == CarriedUp(old(s[..]), from, limit, step, half)
  {
    hide Carried;
    var k := from;
    while k < limit
      invariant from <= k <= limit + 1
      invariant CarriedUp(s[..], k, limit, step, half) == CarriedUp(old(s[..]), from, limit, step, half)
      invariant forall i :: k < i <= limit ==> -b <= s[i] <= b
      invariant k <= limit ==> -(b + c) <= s[k] <= b + c
      decreases limit + 2 - k
    {
      CarriedLimbs(s[..], k, half, b + c, c);
      ghost var was := s[..];
      Carry(s, k, half);
      assert forall i :: k + 1 < i < 24 ==> s[i] == was[i];
      k := k + step;
    }
  }

  // ----- the phases

  /** The input: any 24 limbs of at most 31 bits. */
  ghost predicate Loaded(s: seq<int>)
  {
    |s| == 24 && Within(s, 0, 24, 0x8000_0000)
  }

  /** After the first folds and two carry passes. */
  ghost predicate Halfway(s: seq<int>)
  {
    && |s| == 24 && Within(s, 0, 18, 0x8_0000_0000) && Within(s, 11, 12, HALF)
    && forall i :: 18 <= i < 24 ==> s[i] == 0
  }

  /** After the second folds and two carry passes. */
  ghost predicate Nearly(s: seq<int>)
  {
    && |s| == 24 && Within(s, 0, 11, 0x40_0000_0000) && Within(s, 11, 12, HALF) && Within(s, 12, 13, 0x40_0000_0000)
    && forall i :: 13 <= i < 24 ==> s[i] == 0
  }

  lemma {:induction false} FirstPhase(s: seq<int>) returns (q: int)
    requires Loaded(s)
    ensures var f := FoldedDown(s, 23, 18);
            var g := CarriedUp(f, 6, 17, 2, HALF);
            var h := CarriedUp(g, 7, 16, 2, HALF);
            && Room(s, 23, 18, 0x8000_0000, 0x8000_0000)
            && Within(f, 6, 18, 0x40_0000_0000_0000) && Within(g, 6, 18, 0x40_0004_0000_0000)
            && Halfway(h) && LimbValue(h) == LimbValue(s) - ORDER * q
  {
    hide LimbValue, CarriedUp, FoldedDown;
    var f := FoldedDown(s, 23, 18);
    var g := CarriedUp(f, 6, 17, 2, HALF);
    var h := CarriedUp(g, 7, 16, 2, HALF);
    FirstRoom(s);
    FoldedDownLimbs(s, 23, 18, 0x8000_0000, 0x8000_0000);
    EveryOther(f, 6, 17, HALF, 0x40_0000_0000_0000, 0x4_0000_0000);
    EveryOther(g, 7, 16, HALF, 0x40_0004_0000_0000, 0x4_0000_0000);
    q := FoldedDownValue(s, 23, 18);
    CarriedUpValue(f, 6, 17, 2, HALF);
    CarriedUpValue(g, 7, 16, 2, HALF);
  }

  lemma FirstRoom(s: seq<int>)
    requires Loaded(s)
    ensures Room(s, 23, 18, 0x8000_0000, 0x8000_0000)
    ensures Grown(0x8000_0000, 0x8000_0000, 6) <= 0x40_0000_0000_0000
  {
    GrownSix(0x8000_0000, 0x8000_0000);
  }

  lemma GrownSix(a: int, b: int)
    ensures Grown(a, b, 6) == b + 6000000 * a && Grown(a, b, 1) == b + 1000000 * a
  {
    var c := 1000000 * a;
    assert Grown(a, b, 6) == Grown(a, b + c, 5) == Grown(a, b + c + c, 4) == Grown(a, b + c + c + c, 3);
    assert Grown(a, b + 3 * c, 3) == Grown(a, b + 4 * c, 2) == Grown(a, b + 5 * c, 1) == Grown(a, b + 6 * c, 0);
  }

  lemma {:induction false} SecondPhase(s: seq<int>) returns (q: int)
    requires Halfway(s)
    ensures var f := FoldedDown(s, 17, 12);
            var g := CarriedUp(f, 0, 11, 2, HALF);
            var h := CarriedUp(g, 1, 12, 2, HALF);
            && Room(s, 17, 12, 0x8_0000_0000, 0x8_0000_0000)
            && Within(f, 0, 13, 0x400_0000_0000_0000) && Within(g, 0, 13, 0x400_0020_0004_0000)
            && Nearly(h) && LimbValue(h) == LimbValue(s) - ORDER * q
  {
    hide LimbValue, CarriedUp, FoldedDown;
    var f := FoldedDown(s, 17, 12);
    var g := CarriedUp(f, 0, 11, 2, HALF);
    var h := CarriedUp(g, 1, 12, 2, HALF);
    GrownSix(0x8_0000_0000, 0x8_0000_0000);
    FoldedDownLimbs(s, 17, 12, 0x8_0000_0000, 0x8_0000_0000);
    EveryOther(f, 0, 11, HALF, 0x400_0000_0000_0000, 0x20_0004_0000);
    EveryOther(g, 1, 12, HALF, 0x400_0020_0004_0000, 0x20_0004_0000);
    q := FoldedDownValue(s, 17, 12);
    CarriedUpValue(f, 0, 11, 2, HALF);
    CarriedUpValue(g, 1, 12, 2, HALF);
  }

  /** The parts of a number of twelve limbs. */
  lemma {:induction false} TwelveLimbs(s: seq<int>)
    requires |s| == 24 && forall i :: 12 <= i < 24 ==> s[i] == 0
    ensures LimbValue(s) == LimbValue(s[..6]) + Pow(LIMB, 6) * LimbValue(s[6..11]) + Pow(LIMB, 11) * s[11]
  {
    hide Pow;
    var t := s[6..11] + [s[11]];
    ZeroLimbs(s[12..]);
    assert s == s[..12] + s[12..];
    LimbValueConcat(s[..12], s[12..]);
    assert s[..12] == s[..6] + t;
    LimbValueConcat(s[..6], t);
    LimbValueConcat(s[6..11], [s[11]]);
    OneLimb(s[11]);
    PowAdd(LIMB, 6, 5);
    SplitProduct(Pow(LIMB, 6), LimbValue(s[6..11]), Pow(LIMB, 5), s[11]);
  }

  lemma OneLimb(d: int)
    ensures LimbValue([d]) == d
  {
    assert LimbValue([d][1..]) == 0;
  }

  lemma SplitProduct(p: int, v: int, q: int, d: int)
    ensures p * (v + q * d) == p * v + (p * q) * d
  {
  }

  const TWO_252: int := 0x1000000000000000000000000000000000000000000000000000000000000000

  /** Before the last carries the number lies between -2^252 and 2^252. */
  lemma {:induction false} NearlyBound(s: seq<int>)
    requires |s| == 24 && Within(s, 0, 6, 0x800_0000_0000_0000) && Within(s, 6, 11, 0x40_0000_0000) && Within(s, 11, 12, HALF)
    requires forall i :: 12 <= i < 24 ==> s[i] == 0
    ensures -TWO_252 < LimbValue(s) < TWO_252
  {
    hide Pow, LimbValue;
    TwelveLimbs(s);
    Magnitude(s[..6], 0x800_0000_0000_0000);
    Magnitude(s[6..11], 0x40_0000_0000);
    LimbPowers();
  }

  /** Twelve digits and a thirteenth limb: the thirteenth is the number's quotient by 2^252. */
  lemma {:induction false} TopLimb(s: seq<int>)
    requires |s| == 24 && (forall i :: 0 <= i < 12 ==> 0 <= s[i] < LIMB) && forall i :: 13 <= i < 24 ==> s[i] == 0
    ensures s[12] == LimbValue(s) / TWO_252
  {
    hide Pow, LimbValue;
    DigitsBound(s[..12]);
    ZeroLimbs(s[13..]);
    assert s == s[..12] + ([s[12]] + s[13..]);
    LimbValueConcat(s[..12], [s[12]] + s[13..]);
    LimbValueConcat([s[12]], s[13..]);
    OneLimb(s[12]);
    LimbPowers();
    DivWeighted(LimbValue(s), TWO_252, s[12], LimbValue(s[..12]));
  }

  /** Carrying in turn after one more fold leaves a thirteenth limb of 0 or -1. */
  lemma {:induction false} ThirdPhase(s: seq<int>)
    requires Nearly(s)
    ensures var f := FoldedDown(s, 12, 12);
            var g := CarriedUp(f, 0, 12, 1, 0);
            && Room(s, 12, 12, 0x40_0000_0000, 0x40_0000_0000)
            && Within(f, 0, 13, 0x800_0000_0000_0000)
            && (forall i :: 0 <= i < 12 ==> 0 <= g[i] < LIMB) && (forall i :: 13 <= i < 24 ==> g[i] == 0)
            && LimbValue(g) == LimbValue(f) && -TWO_252 < LimbValue(g) < TWO_252
            && g[12] == (if LimbValue(g) < 0 then -1 else 0)
  {
    hide LimbValue, CarriedUp, FoldedDown, Pow;
    var f := FoldedDown(s, 12, 12);
    var g := CarriedUp(f, 0, 12, 1, 0);
    GrownSix(0x40_0000_0000, 0x40_0000_0000);
    FoldedDownLimbs(s, 12, 12, 0x40_0000_0000, 0x40_0000_0000);
    NearlyBound(f);
    InTurn(f, 0, 12, 0x800_0000_0000_0000, 0x80_0000_0000);
    CarriedUpValue(f, 0, 12, 1, 0);
    TopLimb(g);
  }

  /** The twelve limbs of a number below the order, all but the last below 2^21. */
  ghost predicate Canonical(s: seq<int>)
  {
    && |s| == 24 && 0 <= LimbValue(s) < ORDER
    && (forall i :: 0 <= i < 11 ==> 0 <= s[i] < LIMB) && 0 <= s[11] <= LIMB
    && forall i :: 12 <= i < 24 ==> s[i] == 0
  }

  lemma {:induction false} LastPhase(s: seq<int>)
    requires |s| == 24 && (forall i :: 0 <= i < 12 ==> 0 <= s[i] < LIMB) && (forall i :: 13 <= i < 24 ==> s[i] == 0)
    requires -TWO_252 < LimbValue(s) < TWO_252 && s[12] == if LimbValue(s) < 0 then -1 else 0
    ensures var f := FoldedDown(s, 12, 12);
            var g := CarriedUp(f, 0, 11, 1, 0);
            && Room(s, 12, 12, 1, LIMB) && Within(f, 0, 12, 0x40_0000)
            && LimbValue(g) == (if LimbValue(s) < 0 then LimbValue(s) + ORDER else LimbValue(s))
            && Canonical(g)
  {
    hide LimbValue, CarriedUp, Pow, Folded;
    var f := FoldedDown(s, 12, 12);
    var g := CarriedUp(f, 0, 11, 1, 0);
    GrownSix(1, LIMB);
    FoldedDownLimbs(s, 12, 12, 1, LIMB);
    FoldedValue(s, 12);
    assert f == Folded(s, 12);
    PowZero();
    InTurn(f, 0, 11, 0x40_0000, 0x10);
    CarriedUpValue(f, 0, 11, 1, 0);
    LastLimb(g);
  }

  lemma PowZero()
    ensures Pow(LIMB, 0) == 1
  {
  }

  lemma {:induction false} LastLimb(s: seq<int>)
    requires |s| == 24 && (forall i :: 0 <= i < 11 ==> 0 <= s[i] < LIMB) && (forall i :: 12 <= i < 24 ==> s[i] == 0)
    requires 0 <= LimbValue(s) < ORDER
    ensures 0 <= s[11] <= LIMB
  {
    hide Pow, LimbValue;
    DigitsBound(s[..11]);
    ZeroLimbs(s[12..]);
    assert s == s[..11] + ([s[11]] + s[12..]);
    LimbValueConcat(s[..11], [s[11]] + s[12..]);
    LimbValueConcat([s[11]], s[12..]);
    OneLimb(s[11]);
    LimbPowers();
  }

  /** The end of both `sc_reduce` and `sc_muladd`: the limbs of the number's remainder by the order. */
  method ReduceLimbs(s: array<Int64>)
    requires s.Length == 24 && Loaded(s[..])
    modifies s
    ensures Canonical(s[..]) && LimbValue(s[..]) == LimbValue(old(s[..])) % ORDER
  {
    hide LimbValue, CarriedUp, FoldedDown, Canonical, Room;
    ghost var q1 := FirstPhase(s[..]);
    FoldDown(s, 23, 18, 0x8000_0000, 0x8000_0000);
    CarryUp(s, 6, 17, 2, HALF, 0x40_0000_0000_0000, 0x4_0000_0000);
    CarryUp(s, 7, 16, 2, HALF, 0x40_0004_0000_0000, 0x4_0000_0000);
    ghost var q2 := SecondPhase(s[..]);
    FoldDown(s, 17, 12, 0x8_0000_0000, 0x8_0000_0000);
    CarryUp(s, 0, 11, 2, HALF, 0x400_0000_0000_0000, 0x20_0004_0000);
    CarryUp(s, 1, 12, 2, HALF, 0x400_0020_0004_0000, 0x20_0004_0000);
    ThirdPhase(s[..]);
    ghost var q3 := FoldedDownValue(s[..], 12, 12);
    FoldDown(s, 12, 12, 0x40_0000_0000, 0x40_0000_0000);
    CarryUp(s, 0, 12, 1, 0, 0x800_0000_0000_0000, 0x80_0000_0000);
    LastPhase(s[..]);
    ghost var q4 := if LimbValue(s[..]) < 0 then -1 else 0;
    FoldDown(s, 12, 12, 1, LIMB);
    CarryUp(s, 0, 11, 1, 0, 0x40_0000, 0x10);
    CanonicalRange(s[..]);
    RemainderOf(LimbValue(old(s[..])), q1, q2, q3, q4, LimbValue(s[..]));
  }

  lemma CanonicalRange(s: seq<int>)
    requires Canonical(s)
    ensures 0 <= LimbValue(s) < ORDER
  {
  }

  lemma RemainderOf(v: int, q1: int, q2: int, q3: int, q4: int, r: int)
    requires r == v - ORDER * q1 - ORDER * q2 - ORDER * q3 - ORDER * q4 && 0 <= r < ORDER
    ensures r == v % ORDER
  {
    DivUnique(v, ORDER, q1 + q2 + q3 + q4, r);
  }
}
