/**
 Multi-precision integers: component sequences changed in place with carries.
 A component is a 32-bit word; every wrap-around of the machine word is written out.
 */
module BigInts {
  import opened Arith
  import opened Positional

  const RADIX: nat := 0x1_0000_0000
  const COMP_MAX: nat := 0xFFFF_FFFF_FFFF_FFFF

  type Comp = c: nat | c < RADIX

  ghost predicate IsTrimmed(s: seq<Comp>)
  {
    |s| > 0 && (|s| > 1 ==> s[|s| - 1] != 0)
  }

  /** The components after `more_comps`: padded with zeros, or cut off. */
  function Resized(s: seq<Comp>, n: nat): (r: seq<Comp>)
    ensures |r| == n
  {
    if n <= |s| then s[..n] else s + seq(n - |s|, _ => 0)
  }

  lemma {:induction false} ResizedValue(s: seq<Comp>, n: nat)
    requires |s| <= n || Value(RADIX, s) < Pow(RADIX, n)
    ensures Value(RADIX, Resized(s, n)) == Value(RADIX, s)
    ensures |s| < n ==> Resized(s, n)[n - 1] == 0
  {
    hide Pow, Value;
    if |s| < n {
      ValueConcat(RADIX, s, seq(n - |s|, _ => 0));
      ValueZeros(RADIX, n - |s|);
    } else {
      ValueSplit(RADIX, s, n);
      HighZero(s, n);
      assert |s| == n ==> s[..n] == s;
    }
  }

  /** The components at and above position n count for the value divided by the weight of n. */
  lemma {:induction false} HighZero(s: seq<Comp>, n: nat)
    requires n <= |s|
    ensures Value(RADIX, s) < Pow(RADIX, n) <==> Value(RADIX, s[n..]) == 0
  {
    hide Pow, Value;
    ValueSplit(RADIX, s, n);
    ValueBound(RADIX, s[..n]);
    var p, h := Pow(RADIX, n), Value(RADIX, s[n..]);
    if h >= 1 {
      MulOrder(p, 1, h);
    }
  }

  /** A trimmed number with more than one component is at least the weight of its top one. */
  lemma {:induction false} TrimmedAtLeast(s: seq<Comp>)
    requires IsTrimmed(s)
    ensures |s| > 1 ==> Value(RADIX, s) >= Pow(RADIX, |s| - 1)
  {
    hide Pow, Value;
    var k := |s| - 1;
    assert s == s[..k] + [s[k]];
    ValueSnoc(RADIX, s[..k], s[k]);
    if k > 0 {
      MulOrder(Pow(RADIX, k), 1, s[k]);
    }
  }

  /** The size of a trimmed number is fixed by its value. */
  lemma {:induction false} TrimmedSize(s: seq<Comp>, n: nat)
    requires IsTrimmed(s)
    ensures n > 0 && Value(RADIX, s) < Pow(RADIX, n) ==> |s| <= n
    ensures Value(RADIX, s) >= Pow(RADIX, n) ==> |s| > n
  {
    hide Pow, Value;
    TrimmedAtLeast(s);
    ValueBound(RADIX, s);
    if |s| > n && n > 0 {
      PowMonotonic(RADIX, n, |s| - 1);
    }
    if |s| <= n {
      PowMonotonic(RADIX, |s|, n);
    }
  }

  class BigInt {
    var comps: seq<Comp>

    constructor (c: seq<Comp>)
      ensures comps == c
    {
      comps := c;
    }

    ghost function Val(): nat
      reads this
    {
      Value(RADIX, comps)
    }

    method Clone() returns (r: BigInt)
      ensures fresh(r) && r.comps == comps
    {
      r := new BigInt(comps);
    }

    method MoreComps(n: nat)
      modifies this
      ensures comps == Resized(old(comps), n)
    {
      if n > |comps| {
        comps := comps + seq(n - |comps|, _ => 0);
      } else {
        comps := comps[..n];
      }
    }

    method Trim()
      requires |comps| > 0
      modifies this
      ensures IsTrimmed(comps) && Val() == old(Val())
      ensures |comps| <= |old(comps)| && comps == old(comps)[..|comps|]
      ensures old(IsTrimmed(comps)) ==> comps == old(comps)
    {
      hide Pow, Value;
      ghost var start := comps;
      while |comps| > 1 && comps[|comps| - 1] == 0
        invariant 0 < |comps| <= |start| && comps == start[..|comps|]
        invariant Val() == Value(RADIX, start)
        invariant IsTrimmed(start) ==> comps == start
        decreases |comps|
      {
        ghost var k := |comps| - 1;
        assert comps == comps[..k] + [comps[k]];
        ValueSnoc(RADIX, comps[..k], comps[k]);
        comps := comps[..|comps| - 1];
      }
    }

    /** Adds `bib` in place; `bib` is left padded to the larger of the two sizes. */
    method Add(bib: BigInt)
      requires bib != this && |comps| > 0 && |bib.comps| > 0
      modifies this, bib
      ensures Val() == old(Val()) + old(bib.Val())
      ensures IsTrimmed(comps) && |comps| <= |bib.comps| + 1
      ensures bib.comps == Resized(old(bib.comps), if |old(comps)| > |old(bib.comps)| then |old(comps)| else |old(bib.comps)|)
      ensures bib.Val() == old(bib.Val())
    {
      hide Pow, Value, Resized;
      var n := if |comps| > |bib.comps| then |comps| else |bib.comps|;
      ResizedValue(comps, n + 1);
      ResizedValue(bib.comps, n);
      MoreComps(n + 1);
      bib.MoreComps(n);
      ghost var a, b := comps, bib.comps;
      var carry: Comp := 0;
      var k := 0;
      ValueEmpty(RADIX, a);
      ValueEmpty(RADIX, b);
      ValueEmpty(RADIX, comps);
      while k < n
        invariant k <= n && |comps| == n + 1 && carry <= 1
        invariant bib.comps == b && forall x :: k <= x < |comps| ==> comps[x] == a[x]
        invariant Value(RADIX, comps[..k]) + Pow(RADIX, k) * carry == Value(RADIX, a[..k]) + Value(RADIX, b[..k])
      {
        var pa, pb := comps[k], bib.comps[k];
        var sl := (pa + pb) % RADIX;
        var rl := (sl + carry) % RADIX;
        var cy1 := sl < pa;
        ghost var was := carry;
        carry := if cy1 || rl < sl then 1 else 0;
        AddStep(comps, a, b, k, rl, was, carry);
        comps := comps[k := rl];
        k := k + 1;
      }
      assert b[..n] == b;
      AddDone(comps, a, b, carry);
      comps := comps[n := carry];
      Trim();
    }

    /** Subtracts `bib`, cut or padded to the size of this number; a borrow out wraps round. */
    method Subtract(bib: BigInt) returns (isNegative: bool)
      requires bib != this && |comps| > 0 && |bib.comps| > 0
      modifies this, bib
      ensures var n, b := |old(comps)|, Value(RADIX, Resized(old(bib.comps), |old(comps)|));
              isNegative == (old(Val()) < b) &&
              Val() == old(Val()) - b + (if isNegative then Pow(RADIX, n) else 0)
      ensures IsTrimmed(comps) && |comps| <= |old(comps)|
      ensures IsTrimmed(bib.comps) && bib.Val() == Value(RADIX, Resized(old(bib.comps), |old(comps)|))
      ensures old(IsTrimmed(bib.comps)) && |old(bib.comps)| <= |old(comps)| ==> bib.comps == old(bib.comps)
    {
      hide Pow, Value;
      var n := |comps|;
      ghost var bWas := bib.comps;
      bib.MoreComps(n);
      ghost var a, b := comps, bib.comps;
      var carry: Comp := 0;
      var k := 0;
      ValueEmpty(RADIX, a);
      ValueEmpty(RADIX, b);
      ValueEmpty(RADIX, comps);
      while k < n
        invariant k <= n && |comps| == n && carry <= 1
        invariant bib.comps == b && forall x :: k <= x < |comps| ==> comps[x] == a[x]
        invariant Value(RADIX, comps[..k]) + Value(RADIX, b[..k]) == Value(RADIX, a[..k]) + Pow(RADIX, k) * carry
      {
        var pa, pb := comps[k], bib.comps[k];
        var sl := (pa - pb) % RADIX;
        var rl := (sl - carry) % RADIX;
        var cy1 := sl > pa;
        ghost var was := carry;
        carry := if cy1 || rl > sl then 1 else 0;
        SubtractStep(comps, a, b, k, rl, was, carry);
        comps := comps[k := rl];
        k := k + 1;
      }
      assert comps[..n] == comps && a[..n] == a && b[..n] == b;
      ValueBound(RADIX, comps);
      ValueBound(RADIX, a);
      isNegative := carry == 1;
      bib.Trim();
      if IsTrimmed(bWas) && |bWas| <= n {
        ResizedValue(bWas, n);
        TrimmedUnique(bWas, bib.comps);
      }
      Trim();
    }

    /** The product with one component, as a new number. */
    method IntMultiply(b: Comp) returns (r: BigInt)
      requires |comps| > 0
      ensures fresh(r) && IsTrimmed(r.comps) && |r.comps| <= |comps| + 1
      ensures r.Val() == Val() * b
    {
      hide Pow, Value;
      var n := |comps|;
      r := new BigInt(seq(n + 1, _ => 0));
      ValueEmpty(RADIX, r.comps);
      ValueEmpty(RADIX, comps);
      var carry: Comp := 0;
      var j := 0;
      while j < n
        invariant j <= n && |r.comps| == n + 1 && fresh(r)
        invariant forall i :: j <= i <= n ==> r.comps[i] == 0
        invariant Value(RADIX, r.comps[..j]) + Pow(RADIX, j) * carry == Value(RADIX, comps[..j]) * b
      {
        var tmp := r.comps[j] + comps[j] * b + carry;
        assert tmp <= COMP_MAX by { MulBounds(comps[j], RADIX - 1, b, RADIX - 1); }
        ghost var was := carry;
        MultiplyStep(r.comps, comps, b, j, tmp, was);
        r.comps := r.comps[j := tmp % RADIX];
        carry := tmp / RADIX;
        j := j + 1;
      }
      assert r.comps[..n] + [carry] == r.comps[n := carry];
      ValueSnoc(RADIX, r.comps[..n], carry);
      assert comps[..n] == comps;
      r.comps := r.comps[n := carry];
      r.Trim();
    }

    /** Divides in place by one component, from the top component down. */
    method IntDivide(denom: Comp)
      requires |comps| > 0 && denom > 0
      modifies this
      ensures IsTrimmed(comps) && |comps| <= |old(comps)|
      ensures Val() == old(Val()) / denom
    {
      hide Pow, Value;
      ghost var a := comps;
      var r: nat := 0;
      var i := |comps|;
      ValueFrom(RADIX, a, |a|);
      while i > 0
        invariant 0 <= i <= |a| == |comps| && r < denom
        invariant comps[..i] == a[..i]
        invariant Value(RADIX, comps[i..]) * denom + r == Value(RADIX, a[i..])
        invariant 0 <= r
      {
        i := i - 1;
        assert comps[i] == comps[..i + 1][i] == a[..i + 1][i] == a[i];
        ghost var was := comps;
        var q, m := DivideStep(comps, a, i, denom, r);
        r := r * RADIX + comps[i];
        comps := comps[i := r / denom];
        r := r % denom;
        assert comps == was[i := q] && r == m;
      }
      assert comps[0..] == comps && a[0..] == a;
      DivUnique(Value(RADIX, a), denom, Value(RADIX, comps), r);
      Trim();
    }
  }

  /** -1, 0 or 1: sizes first, then the components from the top down. */
  method Compare(bia: BigInt, bib: BigInt) returns (r: int)
    requires IsTrimmed(bia.comps) && IsTrimmed(bib.comps)
    ensures r == if bia.Val() > bib.Val() then 1 else if bia.Val() < bib.Val() then -1 else 0
  {
    hide Pow, Value;
    var a, b := bia.comps, bib.comps;
    if |a| != |b| {
      ValueBound(RADIX, a);
      ValueBound(RADIX, b);
      TrimmedSize(a, |b|);
      TrimmedSize(b, |a|);
      return if |a| > |b| then 1 else -1;
    }
    var i := |a|;
    assert a[i..] == b[i..];
    while i > 0
      invariant 0 <= i <= |a| && a[i..] == b[i..]
    {
      i := i - 1;
      if a[i] != b[i] {
        CompareAt(a, b, i);
        return if a[i] > b[i] then 1 else -1;
      }
      assert a[i..] == [a[i]] + a[i + 1..] && b[i..] == [b[i]] + b[i + 1..];
    }
    assert a[0..] == a && b[0..] == b;
    return 0;
  }

  lemma {:induction false} CompareAt(a: seq<Comp>, b: seq<Comp>, i: nat)
    requires i < |a| == |b| && a[i + 1..] == b[i + 1..] && a[i] != b[i]
    ensures Value(RADIX, a) > Value(RADIX, b) <==> a[i] > b[i]
    ensures Value(RADIX, a) != Value(RADIX, b)
  {
    hide Pow, Value;
    ValueSplit(RADIX, a, i + 1);
    ValueSplit(RADIX, b, i + 1);
    ValueNext(a, i);
    ValueNext(b, i);
    ValueBound(RADIX, a[..i]);
    ValueBound(RADIX, b[..i]);
    if a[i] > b[i] {
      HigherDigit(Pow(RADIX, i), Value(RADIX, b[..i]), b[i], a[i]);
    } else {
      HigherDigit(Pow(RADIX, i), Value(RADIX, a[..i]), a[i], b[i]);
    }
  }

  lemma {:induction false} HigherDigit(p: int, low: int, x: int, y: int)
    requires 0 <= low < p && x < y
    ensures low + p * x < p * y
  {
    MulOrder(p, x + 1, y);
  }

  lemma {:induction false} CarryWeight(p: int, x: int, y: int, z: int, r: int, carry: int)
    requires x + y + z == r + RADIX * carry
    ensures p * x + p * y + p * z == p * r + (p * RADIX) * carry
  {
    assert p * (x + y + z) == p * (r + RADIX * carry);
  }

  lemma {:induction false} MultiplyStepValue(p: int, v: int, a: int, b: int, was: int, r: int, carry: int)
    requires a * b + was == r + RADIX * carry
    ensures v * b + p * (a * b) == (v + p * a) * b
    ensures p * (a * b) + p * was == p * r + (p * RADIX) * carry
  {
    CarryWeight(p, a * b, was, 0, r, carry);
  }

  /** Once the top component holds the last carry, the sum is complete. */
  lemma {:induction false} AddDone(r: seq<Comp>, a: seq<Comp>, b: seq<Comp>, carry: Comp)
    requires |r| == |a| == |b| + 1 && a[|b|] == 0
    requires Value(RADIX, r[..|b|]) + Pow(RADIX, |b|) * carry == Value(RADIX, a[..|b|]) + Value(RADIX, b)
    ensures Value(RADIX, r[|b| := carry]) == Value(RADIX, a) + Value(RADIX, b)
  {
    hide Pow, Value;
    var n := |b|;
    assert r[..n] + [carry] == r[n := carry];
    ValueSnoc(RADIX, r[..n], carry);
    assert a == a[..n] + [0];
    ValueSnoc(RADIX, a[..n], 0);
  }

  lemma {:induction false} AddStep(r: seq<Comp>, a: seq<Comp>, b: seq<Comp>, k: nat, rl: Comp, was: nat, carry: nat)
    requires k < |r| <= |a| && k < |b| && was <= 1
    requires var sl := (a[k] + b[k]) % RADIX;
             rl == (sl + was) % RADIX && carry == if sl < a[k] || rl < sl then 1 else 0
    requires Value(RADIX, r[..k]) + Pow(RADIX, k) * was == Value(RADIX, a[..k]) + Value(RADIX, b[..k])
    ensures Value(RADIX, r[k := rl][..k + 1]) + Pow(RADIX, k + 1) * carry == Value(RADIX, a[..k + 1]) + Value(RADIX, b[..k + 1])
  {
    hide Pow, Value;
    ValueNext(r[k := rl], k);
    ValueNext(a, k);
    ValueNext(b, k);
    assert r[k := rl][..k] == r[..k];
    AddWord(a[k], b[k], was);
    CarryWeight(Pow(RADIX, k), a[k], b[k], was, rl, carry);
  }

  lemma {:induction false} AddWord(x: Comp, y: Comp, was: nat)
    requires was <= 1
    ensures var sl := (x + y) % RADIX;
            var rl := (sl + was) % RADIX;
            x + y + was == rl + RADIX * (if sl < x || rl < sl then 1 else 0)
  {
    var sl := (x + y) % RADIX;
    assert sl == if x + y >= RADIX then x + y - RADIX else x + y;
  }

  lemma {:induction false} SubtractWord(x: Comp, y: Comp, was: nat)
    requires was <= 1
    ensures var sl := (x - y) % RADIX;
            var rl := (sl - was) % RADIX;
            rl + y + was == x + RADIX * (if sl > x || rl > sl then 1 else 0)
  {
    var sl := (x - y) % RADIX;
    assert sl == if x < y then x - y + RADIX else x - y;
  }

  lemma {:induction false} SubtractStep(r: seq<Comp>, a: seq<Comp>, b: seq<Comp>, k: nat, rl: Comp, was: nat, carry: nat)
    requires k < |r| <= |a| && k < |b| && was <= 1
    requires var sl := (a[k] - b[k]) % RADIX;
             rl == (sl - was) % RADIX && carry == if sl > a[k] || rl > sl then 1 else 0
    requires Value(RADIX, r[..k]) + Value(RADIX, b[..k]) == Value(RADIX, a[..k]) + Pow(RADIX, k) * was
    ensures Value(RADIX, r[k := rl][..k + 1]) + Value(RADIX, b[..k + 1]) == Value(RADIX, a[..k + 1]) + Pow(RADIX, k + 1) * carry
  {
    hide Pow, Value;
    ValueNext(r[k := rl], k);
    ValueNext(a, k);
    ValueNext(b, k);
    assert r[k := rl][..k] == r[..k];
    SubtractWord(a[k], b[k], was);
    CarryWeight(Pow(RADIX, k), rl, b[k], was, a[k], carry);
  }

  lemma {:induction false} MultiplyStep(r: seq<Comp>, a: seq<Comp>, b: Comp, j: nat, tmp: nat, was: nat)
    requires j < |r| && j < |a| && r[j] == 0
    requires tmp == a[j] * b + was
    requires Value(RADIX, r[..j]) + Pow(RADIX, j) * was == Value(RADIX, a[..j]) * b
    ensures Value(RADIX, r[j := tmp % RADIX][..j + 1]) + Pow(RADIX, j + 1) * (tmp / RADIX) == Value(RADIX, a[..j + 1]) * b
  {
    hide Pow, Value;
    var s := r[j := tmp % RADIX];
    ValueNext(s, j);
    ValueNext(a, j);
    assert s[..j] == r[..j];
    MultiplyStepValue(Pow(RADIX, j), Value(RADIX, a[..j]), a[j], b, was, tmp % RADIX, tmp / RADIX);
  }

  /** One step of the division by a single component, from the top down. */
  lemma {:induction false} DivideStep(s: seq<Comp>, a: seq<Comp>, i: nat, d: Comp, r: nat) returns (q: Comp, m: nat)
    requires i < |s| == |a| && r < d && s[i] == a[i]
    requires Value(RADIX, s[i + 1..]) * d + r == Value(RADIX, a[i + 1..])
    ensures q == (r * RADIX + s[i]) / d && m == (r * RADIX + s[i]) % d && m < d
    ensures Value(RADIX, s[i := q][i..]) * d + m == Value(RADIX, a[i..])
  {
    hide Pow, Value;
    var t := r * RADIX + s[i];
    assert t < d * RADIX;
    DivBelow(t, d, RADIX);
    q, m := t / d, t % d;
    var v := Value(RADIX, s[i + 1..]);
    var s' := s[i := q];
    ValueFrom(RADIX, s', i);
    ValueFrom(RADIX, a, i);
    assert s'[i + 1..] == s[i + 1..];
    DivideStepValue(v, d, r, s[i], q, m);
  }

  lemma {:induction false} DivideStepValue(v: int, d: int, r: int, c: int, q: int, m: int)
    requires r * RADIX + c == d * q + m
    ensures (q + RADIX * v) * d + m == c + RADIX * (v * d + r)
  {
    assert (q + RADIX * v) * d == q * d + RADIX * (v * d);
  }

  lemma {:induction false} ValueNext(s: seq<Comp>, k: nat)
    requires k < |s|
    ensures Value(RADIX, s[..k + 1]) == Value(RADIX, s[..k]) + Pow(RADIX, k) * s[k]
    ensures Pow(RADIX, k + 1) == Pow(RADIX, k) * RADIX
  {
    assert s[..k + 1] == s[..k] + [s[k]];
    ValueSnoc(RADIX, s[..k], s[k]);
  }

  lemma {:induction false} TrimmedUnique(s: seq<Comp>, t: seq<Comp>)
    requires IsTrimmed(s) && IsTrimmed(t) && Value(RADIX, s) == Value(RADIX, t)
    ensures s == t
  {
    hide Pow, Value;
    ValueBound(RADIX, s);
    ValueBound(RADIX, t);
    TrimmedSize(s, |t|);
    TrimmedSize(t, |s|);
    ValueInjective(RADIX, s, t);
  }
}
