/** Long division of multi-precision integers: `bi_divide`. */
module BigDivide {
  import opened Arith
  import opened Positional
  import opened BigInts
  import opened QuotientDigit

  /** The top component, and the weight below it, bound a number from both sides. */
  lemma {:induction false} TopOne(s: seq<Comp>)
    requires |s| >= 1
    ensures var k := |s| - 1;
            s[k] * Pow(RADIX, k) <= Value(RADIX, s) < (s[k] + 1) * Pow(RADIX, k)
  {
    hide Pow, Value;
    var k := |s| - 1;
    assert s == s[..k] + [s[k]];
    ValueSnoc(RADIX, s[..k], s[k]);
    ValueBound(RADIX, s[..k]);
    assert (s[k] + 1) * Pow(RADIX, k) == s[k] * Pow(RADIX, k) + Pow(RADIX, k);
  }

  lemma {:induction false} TopTwo(s: seq<Comp>)
    requires |s| >= 2
    ensures var k := |s| - 1;
            (s[k] * R + s[k - 1]) * Pow(RADIX, k - 1) <= Value(RADIX, s) < (s[k] * R + s[k - 1] + 1) * Pow(RADIX, k - 1)
  {
    var k := |s| - 1;
    assert s == s[..k] + [s[k]];
    ValueSnoc(RADIX, s[..k], s[k]);
    TopOne(s[..k]);
    ShiftIn(s[k], s[k - 1], Pow(RADIX, k - 1), Value(RADIX, s[..k]));
  }

  lemma {:induction false} TopThree(s: seq<Comp>)
    requires |s| >= 3
    ensures var k := |s| - 1;
            (s[k] * R * R + (s[k - 1] * R + s[k - 2])) * Pow(RADIX, k - 2) <= Value(RADIX, s)
            < (s[k] * R * R + (s[k - 1] * R + s[k - 2]) + 1) * Pow(RADIX, k - 2)
  {
    var k := |s| - 1;
    assert s == s[..k] + [s[k]];
    ValueSnoc(RADIX, s[..k], s[k]);
    TopTwo(s[..k]);
    ShiftInTwo(s[k], s[k - 1] * R + s[k - 2], Pow(RADIX, k - 2), Pow(RADIX, k), Value(RADIX, s[..k]));
  }

  lemma {:induction false} ShiftInTwo(top: int, next: int, W: int, weight: int, low: int)
    requires weight == R * (R * W) && next * W <= low < (next + 1) * W
    ensures (top * R * R + next) * W <= low + weight * top < (top * R * R + next + 1) * W
  {
    ShiftIn(top * R, next, W, low);
    assert weight * top == (R * W) * (top * R);
  }

  lemma {:induction false} ShiftIn(top: int, next: int, W: int, low: int)
    requires next * W <= low < (next + 1) * W
    ensures (top * R + next) * W <= low + (R * W) * top < (top * R + next + 1) * W
  {
    assert (top * R + next) * W == (R * W) * top + next * W;
    assert (top * R + next + 1) * W == (R * W) * top + (next + 1) * W;
  }

  predicate Normal(v: seq<Comp>)
  {
    |v| >= 1 && 2 * v[|v| - 1] >= RADIX
  }

  /** The digit the code tries for a window of one component more than the divisor. */
  function TriedDigit(w: seq<Comp>, v: seq<Comp>): int
    requires Normal(v) && |w| == |v| + 1
  {
    var n := |v|;
    Estimate(w[n], w[n - 1], if n > 1 then w[n - 2] else 0, v[n - 1], if n > 1 then v[n - 2] else 0, n > 1)
  }

  lemma {:induction false} TriedDigitNear(w: seq<Comp>, v: seq<Comp>, q: nat)
    requires Normal(v) && |w| == |v| + 1
    requires Value(RADIX, w) < RADIX * Value(RADIX, v)
    requires IsQuotient(Value(RADIX, w), Value(RADIX, v), q)
    ensures q <= TriedDigit(w, v) <= q + 1
    ensures 0 <= TriedDigit(w, v) < RADIX
  {
    var n := |v|;
    if n == 1 {
      assert w == [w[0], w[1]] && w[1..] == [w[1]] && w[1..][1..] == [];
      assert v == [v[0]] && v[1..] == [];
      ShortEstimate(w[1], w[0], v[0], q);
    } else {
      TopThree(w);
      TopTwo(v);
      LongEstimate(Value(RADIX, w), Value(RADIX, v), q, w[n], w[n - 1], w[n - 2], v[n - 1], v[n - 2], Pow(RADIX, n - 2));
    }
    EstimateFits(w, v);
  }

  lemma {:induction false} EstimateFits(w: seq<Comp>, v: seq<Comp>)
    requires Normal(v) && |w| == |v| + 1
    ensures TriedDigit(w, v) < RADIX
  {
  }

  /** Multiply and subtract, then add back when the tried digit was one too large: the window becomes
      the remainder. */
  method DivideWindow(tmpU: BigInt, v: BigInt) returns (digit: Comp)
    requires tmpU != v && Normal(v.comps) && |tmpU.comps| == |v.comps| + 1
    requires tmpU.Val() < RADIX * v.Val()
    modifies tmpU, v
    ensures v.comps == old(v.comps) && |tmpU.comps| == |v.comps| + 1
    ensures old(tmpU.Val()) == digit * v.Val() + tmpU.Val() && tmpU.Val() < v.Val()
  {
    hide Pow, Value;
    var n := |v.comps|;
    ghost var w, d := tmpU.comps, v.comps;
    var qDash: Comp, q, rem := TryDigit(tmpU.comps, v.comps);
    if qDash != 0 {
      var product := v.IntMultiply(qDash);
      ResizedValue(product.comps, n + 1);
      var isNegative := tmpU.Subtract(product);
      ResizedValue(tmpU.comps, n + 1);
      tmpU.MoreComps(n + 1);
      digit := qDash;
      if isNegative {
        digit := digit - 1;
        tmpU.Add(v);
        DropCarry(tmpU.comps, n + 1, rem);
        tmpU.comps := tmpU.comps[..|tmpU.comps| - 1];
        v.comps := v.comps[..|v.comps| - 1];
        assert v.comps == d;
      }
      assert tmpU.Val() == rem;
    } else {
      digit := 0;
    }
  }

  /** The tried digit with what it is measured against: the true digit and remainder. */
  method TryDigit(w: seq<Comp>, d: seq<Comp>) returns (tried: Comp, ghost q: nat, ghost rem: nat)
    requires Normal(d) && |w| == |d| + 1
    requires Value(RADIX, w) < RADIX * Value(RADIX, d)
    ensures tried == TriedDigit(w, d)
    ensures Value(RADIX, w) == q * Value(RADIX, d) + rem && rem < Value(RADIX, d)
    ensures tried == q || tried == q + 1
    ensures Value(RADIX, w) - Value(RADIX, d) * tried == if tried == q then rem else rem - Value(RADIX, d)
    ensures Value(RADIX, d) * tried < Pow(RADIX, |w|)
    ensures Value(RADIX, d) < Pow(RADIX, |w|)
  {
    hide Pow, Value;
    TopOne(d);
    MulBounds(1, d[|d| - 1], 1, Pow(RADIX, |d| - 1));
    q, rem := Quotient(Value(RADIX, w), Value(RADIX, d));
    TriedDigitNear(w, d, q);
    tried := TriedDigit(w, d);
    WindowBound(w, d, tried, q, rem);
    TriedProduct(Value(RADIX, w), Value(RADIX, d), q, rem, tried);
  }

  lemma {:induction false} Quotient(u: nat, v: nat) returns (q: nat, rem: nat)
    requires 0 < v
    ensures u == q * v + rem && rem < v && IsQuotient(u, v, q)
  {
    q, rem := u / v, u % v;
    assert u == v * q + rem && (q + 1) * v == q * v + v;
  }

  lemma {:induction false} TriedProduct(u: int, v: int, q: int, rem: int, tried: int)
    requires u == q * v + rem && 0 <= rem < v && q <= tried <= q + 1
    ensures u - v * tried == if tried == q then rem else rem - v
  {
    assert v * (q + 1) == q * v + v;
  }

  /** The product of the divisor and the tried digit fits in the window. */
  lemma {:induction false} WindowBound(w: seq<Comp>, d: seq<Comp>, tried: Comp, q: nat, rem: nat)
    requires |w| == |d| + 1 && Value(RADIX, w) == q * Value(RADIX, d) + rem && rem < Value(RADIX, d)
    ensures Value(RADIX, d) * tried < Pow(RADIX, |w|)
    ensures Value(RADIX, d) < Pow(RADIX, |d|) <= Pow(RADIX, |w|)
  {
    hide Value;
    ValueBound(RADIX, d);
    var v, p := Value(RADIX, d), Pow(RADIX, |d|);
    assert Pow(RADIX, |w|) == RADIX * p;
    MulBounds(v, p - 1, tried, RADIX - 1);
    assert (p - 1) * (RADIX - 1) == p * RADIX - p - RADIX + 1;
  }

  /** After adding back, the carry is the top component: without it the remainder is left. */
  lemma {:induction false} DropCarry(s: seq<Comp>, k: nat, rem: nat)
    requires 1 <= k && IsTrimmed(s) && |s| <= k + 1
    requires Value(RADIX, s) == rem + Pow(RADIX, k) && rem < Pow(RADIX, k)
    ensures |s| == k + 1 && Value(RADIX, s[..k]) == rem
  {
    hide Pow, Value;
    TrimmedSize(s, k);
    assert s == s[..k] + [s[k]];
    ValueSnoc(RADIX, s[..k], s[k]);
    ValueBound(RADIX, s[..k]);
    RemainderUnique(Pow(RADIX, k), s[k], Value(RADIX, s[..k]), 1, rem);
  }

  /** Replacing a window of the dividend changes it by the weight of the window. */
  lemma {:induction false} ReplaceWindow(u: seq<Comp>, lo: nat, t: seq<Comp>)
    requires lo + |t| <= |u|
    ensures var u' := u[..lo] + t + u[lo + |t|..];
            Value(RADIX, u') == Value(RADIX, u) + Pow(RADIX, lo) * (Value(RADIX, t) - Value(RADIX, u[lo..lo + |t|]))
  {
    hide Pow, Value;
    var hi := lo + |t|;
    var old', rest := u[lo..hi], u[hi..];
    var u' := u[..lo] + t + rest;
    assert u' == u[..lo] + (t + rest) && u == u[..lo] + (old' + rest);
    ValueConcat(RADIX, u[..lo], t + rest);
    ValueConcat(RADIX, t, rest);
    ValueConcat(RADIX, u[..lo], old' + rest);
    ValueConcat(RADIX, old', rest);
    WindowDifference(Pow(RADIX, lo), Value(RADIX, t), Value(RADIX, old'), Pow(RADIX, |t|) * Value(RADIX, rest));
  }

  lemma {:induction false} WindowDifference(p: int, t: int, o: int, r: int)
    ensures p * (t + r) == p * (o + r) + p * (t - o)
  {
  }

  /** Where the division stands after j digits: `lo` is the lowest component of the last window. */
  ghost predicate Progress(u: seq<Comp>, quotient: seq<Comp>, v: seq<Comp>, total: nat, lo: nat)
  {
    && |u| == |quotient| + |v| && lo <= |quotient|
    && Value(RADIX, quotient) * Value(RADIX, v) + Value(RADIX, u) == total
    && Value(RADIX, u[lo..lo + |v|]) < Value(RADIX, v)
    && (forall i :: lo + |v| <= i < |u| ==> u[i] == 0)
    && (forall i :: 0 <= i < lo ==> quotient[i] == 0)
  }

  lemma {:induction false} WindowSmall(u: seq<Comp>, v: seq<Comp>, lo: nat)
    requires 0 < lo && lo + |v| <= |u| && Value(RADIX, u[lo..lo + |v|]) < Value(RADIX, v)
    ensures Value(RADIX, u[lo - 1..lo + |v|]) < RADIX * Value(RADIX, v)
  {
    var w := u[lo - 1..lo + |v|];
    assert w[1..] == u[lo..lo + |v|];
    DigitBelow(RADIX, w[0], Value(RADIX, w[1..]), Value(RADIX, v));
  }

  lemma {:induction false} StepKeepsProgress(u: seq<Comp>, quotient: seq<Comp>, v: seq<Comp>, total: nat, lo: nat, t: seq<Comp>, q: Comp)
    requires 0 < lo && Progress(u, quotient, v, total, lo) && |t| == |v| + 1
    requires Value(RADIX, u[lo - 1..lo + |v|]) == q * Value(RADIX, v) + Value(RADIX, t) && Value(RADIX, t) < Value(RADIX, v)
    ensures Progress(u[..lo - 1] + t + u[lo + |v|..], quotient[lo - 1 := q], v, total, lo - 1)
  {
    hide Pow, Value;
    var n, k := |v|, lo - 1;
    var u', quotient' := u[..k] + t + u[lo + n..], quotient[k := q];
    ReplaceWindow(u, k, t);
    ValueUpdate(RADIX, quotient, k, q);
    StepTotal(Pow(RADIX, k), Value(RADIX, quotient), Value(RADIX, v), q, Value(RADIX, u), Value(RADIX, t), Value(RADIX, u[k..lo + n]));
    ValueBound(RADIX, v);
    HighZero(t, n);
    ValueFrom(RADIX, t, n);
    assert t[n] == 0;
    assert t == t[..n] + [0];
    ValueSnoc(RADIX, t[..n], 0);
    assert u'[k..k + n] == t[..n];
  }

  lemma {:induction false} StepTotal(p: int, quotient: int, v: int, q: int, u: int, t: int, w: int)
    requires w == q * v + t
    ensures (quotient + p * q) * v + (u + p * (t - w)) == quotient * v + u
  {
    assert p * (t - w) == -(p * q) * v;
  }

  /** The digits of the quotient from the top down; the dividend becomes the remainder. */
  method DivideLoop(u: BigInt, v: BigInt, quotient: BigInt)
    requires u != v && u != quotient && v != quotient && |quotient.comps| > 0
    requires Normal(v.comps)
    requires Progress(u.comps, quotient.comps, v.comps, u.Val(), |quotient.comps|)
    modifies u, v, quotient
    ensures v.comps == old(v.comps) && |u.comps| == |old(u.comps)| && |quotient.comps| == |old(quotient.comps)|
    ensures old(u.Val()) == quotient.Val() * v.Val() + u.Val() && u.Val() < v.Val()
  {
    hide Pow, Value;
    var n, m := |v.comps|, |quotient.comps| - 1;
    var tmpU := new BigInt([]);
    ghost var total, d := u.Val(), v.comps;
    var j := 0;
    while j <= m
      invariant 0 <= j <= m + 1 && v.comps == d && |quotient.comps| == m + 1
      invariant Progress(u.comps, quotient.comps, d, total, m + 1 - j)
    {
      tmpU.comps := u.comps[m - j..m - j + n + 1];
      ghost var w := tmpU.comps;
      WindowSmall(u.comps, d, m + 1 - j);
      var digit := DivideWindow(tmpU, v);
      StepKeepsProgress(u.comps, quotient.comps, d, total, m + 1 - j, tmpU.comps, digit);
      quotient.comps := quotient.comps[m - j := digit];
      u.comps := u.comps[..m - j] + tmpU.comps + u.comps[m - j + n + 1..];
      j := j + 1;
    }
    AllBelow(u.comps, n);
  }

  lemma {:induction false} AllBelow(u: seq<Comp>, n: nat)
    requires n <= |u| && forall i :: n <= i < |u| ==> u[i] == 0
    ensures Value(RADIX, u) == Value(RADIX, u[0..n])
  {
    ValueSplit(RADIX, u, n);
    assert u[n..] == seq(|u| - n, _ => 0);
    ValueZeros(RADIX, |u| - n);
    assert u[0..n] == u[..n];
  }

  /** The factor that brings the top component of the divisor up to half the radix. */
  function Factor(v: seq<Comp>): (d: Comp)
    requires |v| > 0 && 0 < v[|v| - 1] < RADIX - 1
  {
    RADIX / (v[|v| - 1] + 1)
  }

  /**
   Quotient (`isMod` false) or remainder (`isMod` true) of u by v.  u is used up.  In reduction mode
   the divisor is the stored modulus and `normalisedMod` its stored multiple.
   */
  method Divide(u: BigInt, v: BigInt, isMod: bool, normalisedMod: BigInt) returns (r: BigInt)
    requires u != v && u != normalisedMod && v != normalisedMod
    requires IsTrimmed(u.comps) && IsTrimmed(v.comps) && 0 < v.comps[|v.comps| - 1] < RADIX - 1
    requires !isMod ==> |u.comps| >= |v.comps|
    requires isMod ==> IsTrimmed(normalisedMod.comps) && normalisedMod.Val() == v.Val() * Factor(v.comps)
    modifies u, v, normalisedMod
    ensures v.comps == old(v.comps) && normalisedMod.comps == old(normalisedMod.comps)
    ensures (r == u || fresh(r)) && IsTrimmed(r.comps)
    ensures old(v.Val()) > 0
    ensures r.Val() == if isMod then old(u.Val()) % old(v.Val()) else old(u.Val()) / old(v.Val())
  {
    hide Pow, Value;
    ghost var uVal, vVal := u.Val(), v.Val();
    NormalisedDivisor(v.comps, Factor(v.comps));
    var n, m := |v.comps|, |u.comps| - |v.comps|;
    if isMod {
      var c := Compare(v, u);
      if c > 0 {
        DivUnique(uVal, vVal, 0, uVal);
        return u;
      }
      ValueBound(RADIX, u.comps);
      TrimmedSize(v.comps, |u.comps|);
    }
    var quotient := new BigInt(seq(m + 1, _ => 0));
    v.Trim();
    var un, vn, d := Normalise(u, v, isMod, normalisedMod);
    DivideLoop(un, vn, quotient);
    Denormalise(uVal, vVal, d, quotient.Val(), un.Val());
    if isMod {
      un.Trim();
      un.IntDivide(d);
      r := un;
    } else {
      quotient.Trim();
      r := quotient;
    }
  }

  /** Scales both numbers so that the divisor is normal, and gives the dividend its extra component. */
  method Normalise(u: BigInt, v: BigInt, isMod: bool, normalisedMod: BigInt) returns (un: BigInt, vn: BigInt, d: Comp)
    requires u != v && u != normalisedMod && v != normalisedMod
    requires IsTrimmed(u.comps) && IsTrimmed(v.comps) && 0 < v.comps[|v.comps| - 1] < RADIX - 1
    requires |u.comps| >= |v.comps|
    requires isMod ==> IsTrimmed(normalisedMod.comps) && normalisedMod.Val() == v.Val() * Factor(v.comps)
    modifies u
    ensures un != vn && (un == u || fresh(un)) && (vn == v || vn == normalisedMod || fresh(vn))
    ensures d > 0 && Normal(vn.comps)
    ensures un.Val() == old(u.Val()) * d && vn.Val() == v.Val() * d
    ensures Progress(un.comps, seq(|old(u.comps)| - |v.comps| + 1, _ => 0), vn.comps, un.Val(), |old(u.comps)| - |v.comps| + 1)
  {
    hide Pow, Value;
    ghost var uWas := u.comps;
    d := Factor(v.comps);
    var origSize := |u.comps|;
    un, vn := u, v;
    NormalisedDivisor(v.comps, d);
    if d > 1 {
      un := u.IntMultiply(d);
      if isMod {
        vn := normalisedMod;
      } else {
        vn := v.IntMultiply(d);
      }
    }
    SizeOfMultiple(v.comps, vn.comps, d);
    MultipleSize(uWas, un.comps, d);
    if origSize == |un.comps| {
      ResizedValue(un.comps, origSize + 1);
      un.MoreComps(origSize + 1);
    }
    FirstWindow(uWas, v.comps, d, un.comps, vn.comps);
  }

  lemma {:induction false} NormalisedDivisor(v: seq<Comp>, d: nat)
    requires IsTrimmed(v) && 0 < v[|v| - 1] < RADIX - 1 && d == Factor(v)
    ensures 1 <= d && 2 * (v[|v| - 1] * d) >= RADIX
    ensures (v[|v| - 1] * d) * Pow(RADIX, |v| - 1) <= Value(RADIX, v) * d < Pow(RADIX, |v|)
    ensures Value(RADIX, v) >= Pow(RADIX, |v| - 1)
  {
    TopOne(v);
    Normalised(Value(RADIX, v), v[|v| - 1], Pow(RADIX, |v| - 1), d);
    MulOrder(Pow(RADIX, |v| - 1), 1, v[|v| - 1]);
  }

  lemma {:induction false} SizeOfMultiple(v: seq<Comp>, vn: seq<Comp>, d: nat)
    requires IsTrimmed(v) && 0 < v[|v| - 1] < RADIX - 1 && d == Factor(v)
    requires IsTrimmed(vn) && Value(RADIX, vn) == Value(RADIX, v) * d
    ensures |vn| == |v| && Normal(vn)
  {
    NormalisedDivisor(v, d);
    var top := v[|v| - 1] * d;
    AtLeastWeight(Pow(RADIX, |v| - 1), top, Value(RADIX, vn));
    TrimmedSize(vn, |v| - 1);
    TrimmedSize(vn, |v|);
    TopOne(vn);
    TopAtLeast(Pow(RADIX, |v| - 1), top, Value(RADIX, vn), vn[|v| - 1]);
  }

  lemma {:induction false} AtLeastWeight(p: int, top: int, n: int)
    requires 0 < p && 1 <= top && top * p <= n
    ensures p <= n
  {
    MulOrder(p, 1, top);
  }

  lemma {:induction false} TopAtLeast(p: int, top: int, n: int, t: int)
    requires 0 < p && top * p <= n < (t + 1) * p
    ensures top <= t
  {
    MulCancel(p, top, t + 1);
  }

  lemma {:induction false} MultipleSize(u: seq<Comp>, un: seq<Comp>, d: Comp)
    requires IsTrimmed(u) && IsTrimmed(un) && 1 <= d && |un| <= |u| + 1
    requires Value(RADIX, un) == Value(RADIX, u) * d
    ensures |un| == |u| || |un| == |u| + 1
  {
    TrimmedAtLeast(u);
    MulOrder(Value(RADIX, u), 1, d);
    if |u| > 1 {
      TrimmedSize(un, |u| - 1);
    }
  }

  lemma {:induction false} FirstWindow(u: seq<Comp>, v: seq<Comp>, d: Comp, un: seq<Comp>, vn: seq<Comp>)
    requires |u| >= |v| == |vn| > 0 && |un| == |u| + 1 && 1 <= d
    requires Value(RADIX, v) >= Pow(RADIX, |v| - 1)
    requires Value(RADIX, un) == Value(RADIX, u) * d && Value(RADIX, vn) == Value(RADIX, v) * d
    ensures Progress(un, seq(|u| - |v| + 1, _ => 0), vn, Value(RADIX, un), |u| - |v| + 1)
  {
    var lo := |u| - |v| + 1;
    ValueZeros(RADIX, lo);
    ValueSplit(RADIX, un, lo);
    ValueBound(RADIX, u);
    assert un[lo..] == un[lo..lo + |vn|];
    PowAdd(RADIX, lo, |v| - 1);
    FirstWindowValue(Value(RADIX, u), Value(RADIX, v), d, Value(RADIX, un[..lo]), Value(RADIX, un[lo..]), Pow(RADIX, lo), Pow(RADIX, |v| - 1));
  }

  lemma {:induction false} FirstWindowValue(u: int, v: int, d: int, low: int, high: int, p: int, w: int)
    requires 0 <= low && 0 < p && 0 < d && u < p * w && w <= v
    requires low + p * high == u * d
    ensures high < v * d
  {
    MulOrder(d, u + 1, p * w);
    MulOrder(d, w, v);
    assert d * (p * w) == p * (d * w) && d * (u + 1) == u * d + d;
    MulCancel(p, high, d * w);
  }

  lemma {:induction false} Denormalise(u: nat, v: nat, d: nat, q: nat, rem: nat)
    requires 0 < d && u * d == q * (v * d) + rem && rem < v * d
    ensures 0 < v && u / v == q && rem / d == u % v
  {
    var r := u - q * v;
    assert rem == r * d;
    MulCancel(d, -1, r) by { assert d * r == rem; }
    MulCancel(d, r, v);
    assert v > 0;
    DivUnique(u, v, q, r);
    DivUnique(rem, d, r, 0);
  }
}
