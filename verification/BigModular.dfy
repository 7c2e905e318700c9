/** Barrett reduction and modular powers: `bi_set_mod`, `bi_barrett`, `bi_mod_power`. */
module BigModular {
  import opened Arith
  import opened Positional
  import opened BigInts
  import opened BigDivide
  import opened BigMultiply

  /** Sizes are kept in a 16-bit signed field. */
  const MAX_SIZE: nat := 0x7FFF

  /** What `bi_set_mod` stores for one modulus. */
  class Modulus {
    var biMod: BigInt
    var biNormalisedMod: BigInt
    var biMu: BigInt

    ghost predicate Valid()
      reads this, biMod, biNormalisedMod, biMu
    {
      && biMod != biNormalisedMod && biMod != biMu && biNormalisedMod != biMu
      && Usable(biMod.comps)
      && IsTrimmed(biNormalisedMod.comps) && biNormalisedMod.Val() == biMod.Val() * Factor(biMod.comps)
      && IsTrimmed(biMu.comps) && biMu.Val() == Pow(RADIX, 2 * |biMod.comps|) / M()
    }

    ghost function M(): (m: nat)
      requires Usable(biMod.comps)
      reads this, biMod
      ensures m == biMod.Val() && m > 0
    {
      UsablePositive(biMod.comps);
      biMod.Val()
    }

    /** The stored objects, and what they hold. */
    ghost function Stored(): (seq<Comp>, seq<Comp>, seq<Comp>)
      reads this, biMod, biNormalisedMod, biMu
    {
      (biMod.comps, biNormalisedMod.comps, biMu.comps)
    }

    constructor (bim: BigInt)
      requires Usable(bim.comps)
      modifies bim
      ensures Valid() && biMod == bim && bim.comps == old(bim.comps)
      ensures fresh(biNormalisedMod) && fresh(biMu)
    {
      hide Pow, Value;
      var k := |bim.comps|;
      var d := Factor(bim.comps);
      biMod := bim;
      var normalised := bim.IntMultiply(d);
      biNormalisedMod := normalised;
      var radix := new BigInt([0, 1]);
      RadixValue();
      CompLeftShift(radix, 2 * k - 1);
      PowNext(2 * k - 1);
      LeftShiftTrimmed(radix.comps, 2 * k - 1);
      UsablePositive(bim.comps);
      var mu := Divide(radix, bim, false, normalised);
      biMu := mu;
    }
  }

  ghost predicate Usable(m: seq<Comp>)
  {
    IsTrimmed(m) && |m| <= MAX_SIZE && 0 < m[|m| - 1] < RADIX - 1
  }

  lemma {:induction false} UsablePositive(m: seq<Comp>)
    requires Usable(m)
    ensures 0 < Pow(RADIX, |m| - 1) <= Value(RADIX, m) < Pow(RADIX, |m|)
  {
    TopOne(m);
    ValueBound(RADIX, m);
    MulOrder(Pow(RADIX, |m| - 1), 1, m[|m| - 1]);
  }

  lemma RadixValue()
    ensures Value(RADIX, [0, 1]) == RADIX
  {
    assert [0, 1][1..] == [1] && [1][1..] == [];
  }

  lemma LeftShiftTrimmed(s: seq<Comp>, n: nat)
    requires s == seq(n, _ => 0) + [0, 1]
    ensures IsTrimmed(s) && |s| == n + 2
  {
    assert s[n + 1] == 1;
  }

  /** Keeps the low components. */
  method CompMod(bi: BigInt, mod: nat)
    requires |bi.comps| > 0 && mod > 0
    modifies bi
    ensures bi.comps == if |old(bi.comps)| > mod then old(bi.comps)[..mod] else old(bi.comps)
    ensures bi.Val() == old(bi.Val()) % Pow(RADIX, mod)
  {
    hide Pow, Value;
    ghost var s := bi.comps;
    LowValue(s, mod);
    if |bi.comps| > mod {
      bi.comps := bi.comps[..mod];
    }
  }

  lemma {:induction false} LowValue(s: seq<Comp>, k: nat)
    ensures Value(RADIX, if |s| > k then s[..k] else s) == Value(RADIX, s) % Pow(RADIX, k)
  {
    hide Pow, Value;
    if |s| > k {
      ValueSplit(RADIX, s, k);
      ValueBound(RADIX, s[..k]);
      DivWeighted(Value(RADIX, s), Pow(RADIX, k), Value(RADIX, s[k..]), Value(RADIX, s[..k]));
    } else {
      ValueBound(RADIX, s);
      PowMonotonic(RADIX, |s|, k);
      DivWeighted(Value(RADIX, s), Pow(RADIX, k), 0, Value(RADIX, s));
    }
  }

  /**
   The estimated quotient is never too large, and the remainder it leaves is below four times the
   modulus.  p is the weight below the top component of the modulus, P = p R^2, T = p P, and e what
   the product with mu lost.
   */
  lemma {:induction false} BarrettQuotient(x: nat, m: nat, mu: nat, p: nat, P: nat, q1: nat, q2: nat, e: nat, q3: nat)
    requires 0 < p <= m && 0 < P && x < p * P
    requires mu == (p * P) / m && q1 == x / p && q1 * mu == q2 + e && e <= P && q3 == q2 / P
    ensures q3 * m <= x < q3 * m + 4 * m
  {
    var T := p * P;
    var rm, r1, r3 := T % m, x % p, q2 % P;
    assert T == mu * m + rm && x == q1 * p + r1 && q2 == q3 * P + r3;
    BarrettLower(x, m, mu, p, P, T, q1, q2, e, q3, rm, r1, r3);
    BarrettUpper(x, m, mu, p, P, T, q1, q2, e, q3, rm, r1, r3);
  }

  lemma {:induction false} BarrettLower(x: int, m: int, mu: int, p: int, P: int, T: int, q1: int, q2: int, e: int, q3: int,
                                        rm: int, r1: int, r3: int)
    requires 0 < p <= m && 0 < P && T == p * P && 0 <= mu && 0 <= q1
    requires T == mu * m + rm && x == q1 * p + r1 && q2 == q3 * P + r3
    requires 0 <= rm && 0 <= r1 && 0 <= r3 && 0 <= e && q1 * mu == q2 + e
    ensures q3 * m <= x
  {
    // (q3 m) T = (q3 P) (m p) <= (q1 mu) (m p) = (q1 p) (mu m) <= x T
    MulBounds(0, m, 0, p);
    MulOrder(m * p, q3 * P, q1 * mu);
    assert (m * p) * (q3 * P) == T * (q3 * m) && (m * p) * (q1 * mu) == (q1 * p) * (mu * m);
    MulBounds(0, q1, 0, p);
    MulBounds(0, mu, 0, m);
    MulBounds(q1 * p, x, mu * m, T);
    MulBounds(0, p, 0, P);
    if x < q3 * m {
      assert T * (x + 1) == T * x + T;
      MulBounds(1, p, 1, P);
      MulOrder(T, x + 1, q3 * m);
    }
  }

  lemma {:induction false} BarrettUpper(x: int, m: int, mu: int, p: int, P: int, T: int, q1: int, q2: int, e: int, q3: int,
                                        rm: int, r1: int, r3: int)
    requires 0 < p <= m && 0 < P && T == p * P && 0 <= x < T
    requires T == mu * m + rm && x == q1 * p + r1 && q2 == q3 * P + r3
    requires 0 <= rm < m && 0 <= r1 < p && 0 <= r3 < P && 0 <= e <= P && q1 * mu == q2 + e
    ensures x < q3 * m + 4 * m
  {
    // m p (q3 P + 4 P) > m p (q1 mu + 2 P) = (T - rm) (x - r1) + 2 m T >= T x
    UpperProduct(m, mu, p, P, T, q1, q2, e, q3, r3);
    LowerProduct(x, m, T, q1 * p, mu * m, rm, r1, p);
    MulCancel(T, x, q3 * m + 4 * m);
  }

  lemma {:induction false} UpperProduct(m: int, mu: int, p: int, P: int, T: int, q1: int, q2: int, e: int, q3: int, r3: int)
    requires 0 < p <= m && 0 < P && T == p * P
    requires q2 == q3 * P + r3 && r3 < P && e <= P && q1 * mu == q2 + e
    ensures (q1 * p) * (mu * m) + 2 * (m * T) < T * (q3 * m + 4 * m)
  {
    MulBounds(1, m, 1, p);
    MulOrder(m * p, q1 * mu + 2 * P + 1, q3 * P + 4 * P);
    assert (m * p) * (q1 * mu + 2 * P + 1) == (m * p) * (q1 * mu + 2 * P) + m * p;
    assert (m * p) * (q3 * P + 4 * P) == (m * p * P) * (q3 + 4);
    assert m * p * P == T * m && (T * m) * (q3 + 4) == T * (q3 * m + 4 * m);
    assert (m * p) * (q1 * mu + 2 * P) == (m * p) * (q1 * mu) + 2 * (m * p * P);
    assert (m * p) * (q1 * mu) == (q1 * p) * (mu * m);
  }

  lemma {:induction false} LowerProduct(x: int, m: int, T: int, y: int, z: int, rm: int, r1: int, p: int)
    requires 0 <= x < T && y == x - r1 && z == T - rm && 0 <= rm < m && 0 <= r1 < p <= m
    ensures T * x <= y * z + 2 * (m * T)
  {
    assert y * z == T * x - T * r1 - rm * y;
    MulOrder(T, r1, m);
    BarrettSlack(rm, m, y, T, x);
  }

  lemma {:induction false} BarrettSlack(rm: int, m: int, y: int, T: int, x: int)
    requires 0 <= rm < m && y <= x < T && 0 < T
    ensures rm * y <= m * T
  {
    if y <= 0 {
      MulOrder(rm, y, 0);
      MulBounds(0, m, 0, T);
    } else {
      MulBounds(rm, m, y, T);
    }
  }

  /** The remainder of the estimate, known modulo a weight that exceeds it. */
  lemma {:induction false} ModDifference(x: nat, y: nat, w: nat, r: nat)
    requires 0 < w && y <= x && x - y == r && r < w
    ensures x % w - y % w == if x % w < y % w then r - w else r
  {
    var qx, rx, qy, ry := x / w, x % w, y / w, y % w;
    assert x == qx * w + rx && y == qy * w + ry;
    if rx >= ry {
      RemainderUnique(w, qx - qy, rx - ry, 0, r) by { assert (qx - qy) * w == qx * w - qy * w; }
    } else {
      RemainderUnique(w, qx - qy - 1, rx - ry + w, 0, r) by { assert (qx - qy - 1) * w == qx * w - qy * w - w; }
    }
  }

  /**
   Barrett reduction.  The result has the same remainder as the argument, and is below three times
   the modulus: the code subtracts the modulus at most once.  An argument of more than twice the size
   of the modulus goes through long division and comes out fully reduced.
   */
  method Barrett(ctx: Modulus, bi: BigInt) returns (r: BigInt)
    requires ctx.Valid() && IsTrimmed(bi.comps)
    requires bi != ctx.biMod && bi != ctx.biNormalisedMod && bi != ctx.biMu
    modifies bi, ctx.biMod, ctx.biNormalisedMod
    ensures ctx.Valid() && ctx.Stored() == old(ctx.Stored())
    ensures (r == bi || fresh(r)) && IsTrimmed(r.comps)
    ensures r.Val() % ctx.M() == old(bi.Val()) % ctx.M() && r.Val() < 3 * ctx.M()
    ensures |old(bi.comps)| > 2 * |ctx.biMod.comps| ==> r.Val() < ctx.M()
    ensures |old(bi.comps)| <= 2 * |ctx.biMod.comps| ==>
              var q := BarrettEstimate(old(bi.comps), old(ctx.biMu.comps), |ctx.biMod.comps|);
              var left := old(bi.Val()) - q * ctx.M();
              && r.Val() == left - (if left >= ctx.M() then ctx.M() else 0)
              && (r.Val() < ctx.M() <==> old(bi.Val()) / ctx.M() <= q + 1)
    ensures |old(bi.comps)| > 2 * |ctx.biMod.comps| || Ample(old(bi.comps), ctx.biMod.comps) ==>
              r.Val() == old(bi.Val()) % ctx.M()
  {
    hide Pow, Value, BarrettEstimate, Ample;
    ghost var x := bi.Val();
    var bim := ctx.biMod;
    var k := |bim.comps|;
    UsablePositive(bim.comps);
    ghost var m, stored := ctx.M(), ctx.Stored();
    if |bi.comps| > k * 2 {
      r := Divide(bi, bim, true, ctx.biNormalisedMod);
      ModTwice(x, m);
      return;
    }
    if Ample(bi.comps, bim.comps) {
      AmpleSuffices(bi.comps, ctx.biMu.comps, bim.comps);
    }
    var q3 := EstimateQuotient(bi, ctx.biMu, k, m);
    ghost var q := q3.Val();
    SubtractEstimate(bi, q3, bim, k, m);
    SameRemainder(x, m, q);
    QuotientNear(x, m, q);
    ReduceOnce(bi, bim);
    ResidueIs(bi.Val(), x, m);
    r := bi;
  }

  lemma ResidueIs(r: nat, x: nat, m: nat)
    requires m > 0 && r % m == x % m
    ensures r < m <==> r == x % m
  {
    if r < m {
      DivUnique(r, m, 0, r);
    }
  }

  /** The components from position n on, as a shift leaves them. */
  function Upper(s: seq<Comp>, n: nat): (t: seq<Comp>)
    ensures |t| > 0
  {
    if n >= |s| then [0] else s[n..]
  }

  /** The estimated quotient: the kept products of the top of the argument with the reciprocal. */
  ghost function BarrettEstimate(x: seq<Comp>, mu: seq<Comp>, k: nat): nat
    requires k > 0
  {
    TruncatedProduct(Upper(x, k - 1), mu, k - 1) / Pow(RADIX, k + 1)
  }

  /** An argument of at most 2k - 2 components, or a modulus of at most two, loses nothing in the estimate. */
  lemma {:induction false} EstimateOfShort(x: seq<Comp>, mu: seq<Comp>, k: nat)
    requires k > 0 && |x| > 0 && (k <= 2 || |x| <= 2 * k - 2)
    ensures BarrettEstimate(x, mu, k) == (Value(RADIX, x) / Pow(RADIX, k - 1)) * Value(RADIX, mu) / Pow(RADIX, k + 1)
  {
    hide Pow, Value, TruncatedProduct;
    UpperValue(x, k - 1);
    NothingDropped(Upper(x, k - 1), mu, k - 1);
  }

  lemma {:induction false} UpperValue(s: seq<Comp>, n: nat)
    requires |s| > 0
    ensures Value(RADIX, Upper(s, n)) == Value(RADIX, s) / Pow(RADIX, n)
  {
    hide Pow, Value;
    ShiftedValue(s, n);
  }

  /** What the estimate leaves is below two moduli exactly if it is at most one less than the quotient. */
  lemma {:induction false} QuotientNear(x: nat, m: nat, q: nat)
    requires 0 < m && q * m <= x
    ensures x - q * m < 2 * m <==> x / m <= q + 1
  {
    var d, r := x / m, x % m;
    assert x == d * m + r;
    if d <= q + 1 {
      MulOrder(m, d, q + 1);
      assert m * (q + 1) == q * m + m;
    } else {
      MulOrder(m, q + 2, d);
      assert m * (q + 2) == q * m + 2 * m;
    }
  }

  /** The top component of the argument, of 2k at most, leaves room beside that of the modulus. */
  predicate Ample(x: seq<Comp>, m: seq<Comp>)
    requires |m| > 0 && |x| <= 2 * |m|
  {
    var t: nat, u: nat := m[|m| - 1], if |x| == 2 * |m| then x[|x| - 1] else 0;
    RADIX + t * (u + 2) <= RADIX * t
  }

  /** Then the estimate is the quotient or one less, and the single subtraction reduces. */
  lemma {:induction false} AmpleSuffices(x: seq<Comp>, mu: seq<Comp>, m: seq<Comp>)
    requires IsTrimmed(x) && Usable(m) && |x| <= 2 * |m| && Ample(x, m)
    requires Value(RADIX, m) > 0 && Value(RADIX, mu) == Pow(RADIX, 2 * |m|) / Value(RADIX, m)
    ensures Value(RADIX, x) / Value(RADIX, m) <= BarrettEstimate(x, mu, |m|) + 1
  {
    hide Pow, Value, TruncatedProduct, BarrettEstimate, Ample, Upper, Slack;
    var k, v, w := |m|, Value(RADIX, x), Value(RADIX, m);
    UsablePositive(m);
    SmallLoss(Upper(x, k - 1), mu, k);
    AmpleSlack(x, m, ProductLoss(Upper(x, k - 1), mu, k));
    EstimateNear(x, mu, k, w);
    EstimateFits(x, mu, k, w);
    QuotientNear(v, w, BarrettEstimate(x, mu, k));
  }

  /** The three roundings and the lost partial products of the estimate are worth at most one unit; p is
      the weight below the top component of the modulus and P = p R^2, as in BarrettQuotient. */
  ghost predicate Slack(x: int, m: int, p: int, P: int, e: int)
  {
    (m * p) * e + (p * P) * p + m * x <= m * (p * P)
  }

  ghost function ProductLoss(q1: seq<Comp>, mu: seq<Comp>, k: nat): int
    requires |q1| > 0 && k > 0
  {
    Value(RADIX, q1) * Value(RADIX, mu) - TruncatedProduct(q1, mu, k - 1)
  }

  lemma {:induction false} AmpleSlack(x: seq<Comp>, m: seq<Comp>, e: int)
    requires Usable(m) && |x| <= 2 * |m| && Ample(x, m) && 0 <= RADIX * e <= Pow(RADIX, |m| + 1)
    ensures Slack(Value(RADIX, x), Value(RADIX, m), Pow(RADIX, |m| - 1), Pow(RADIX, |m| + 1), e)
  {
    hide Pow, Value;
    var k := |m|;
    var t: nat, u: nat := m[k - 1], if |x| == 2 * k then x[|x| - 1] else 0;
    UsablePositive(m);
    TopOne(m);
    ArgumentBound(x, k);
    ArgumentTop(x, k, u);
    AmpleSum(Value(RADIX, x), Value(RADIX, m), Pow(RADIX, k - 1), Pow(RADIX, k + 1), t, u, e);
  }

  lemma {:induction false} EstimateNear(x: seq<Comp>, mu: seq<Comp>, k: nat, w: nat)
    requires IsTrimmed(x) && 0 < k && |x| <= 2 * k && 0 < Pow(RADIX, k - 1) <= w
    requires Value(RADIX, mu) == Pow(RADIX, 2 * k) / w && ProductLoss(Upper(x, k - 1), mu, k) >= 0
    requires Slack(Value(RADIX, x), w, Pow(RADIX, k - 1), Pow(RADIX, k + 1), ProductLoss(Upper(x, k - 1), mu, k))
    ensures Value(RADIX, x) < BarrettEstimate(x, mu, k) * w + 2 * w
  {
    hide Pow, Value, TruncatedProduct, Upper, Slack;
    var q1, p, P := Upper(x, k - 1), Pow(RADIX, k - 1), Pow(RADIX, k + 1);
    ArgumentBound(x, k);
    UpperValue(x, k - 1);
    var q2 := TruncatedProduct(q1, mu, k - 1);
    BarrettNear(Value(RADIX, x), w, Value(RADIX, mu), p, P, Value(RADIX, q1), q2, ProductLoss(q1, mu, k), q2 / P);
  }

  lemma {:induction false} ArgumentTop(x: seq<Comp>, k: nat, u: nat)
    requires 0 < k && |x| <= 2 * k && u == if |x| == 2 * k then x[|x| - 1] else 0
    ensures RADIX * Value(RADIX, x) <= (u + 1) * Pow(RADIX, 2 * k)
  {
    hide Pow, Value;
    PowNext(2 * k - 1);
    var half := Pow(RADIX, 2 * k - 1);
    if |x| == 2 * k {
      TopOne(x);
    } else {
      ValueBound(RADIX, x);
      PowMonotonic(RADIX, |x|, 2 * k - 1);
    }
    MulOrder(RADIX, Value(RADIX, x), (u + 1) * half);
    assert RADIX * ((u + 1) * half) == (u + 1) * (RADIX * half);
  }

  /** The lost partial products are worth less than 1 / R of a unit of the estimate. */
  lemma {:induction false} SmallLoss(q1: seq<Comp>, mu: seq<Comp>, k: nat)
    requires |q1| > 0 && 0 < k <= MAX_SIZE
    ensures 0 <= RADIX * ProductLoss(q1, mu, k) <= Pow(RADIX, k + 1)
  {
    hide Pow, Value, TruncatedProduct;
    var p := Pow(RADIX, k - 1);
    TruncatedBounds(q1, mu, k - 1);
    MulOrder(p, MinInt(|mu|, LossyRows(k - 1)), RADIX);
    PowNext(k - 1);
    PowNext(k);
    MulOrder(RADIX, Value(RADIX, q1) * Value(RADIX, mu) - TruncatedProduct(q1, mu, k - 1), RADIX * p);
  }

  lemma {:induction false} AmpleSum(x: int, m: int, p: int, P: int, t: int, u: int, e: int)
    requires 0 < p && 0 < P && 0 <= t && 0 <= u && t * p <= m && RADIX + t * (u + 2) <= RADIX * t
    requires 0 <= e && RADIX * e <= P && 0 <= x && RADIX * x <= (u + 1) * (p * P)
    ensures Slack(x, m, p, P, e)
  {
    var T := p * P;
    MulBounds(0, t, 0, p);
    MulBounds(0, p, 0, P);
    MulBounds(0, m, 0, p);
    MulOrder(m * p, RADIX * e, P);
    MulOrder(m, RADIX * x, (u + 1) * T);
    ModulusRoom(m, p, t, u);
    MulOrder(T, RADIX * p, (RADIX - u - 2) * m);
    Exchange(m * p, RADIX, e);
    Exchange(m, RADIX, x);
    Exchange(m, u + 1, T);
    Exchange(T, RADIX, p);
    Exchange(T, RADIX - u - 2, m);
    assert (m * p) * P == m * T;
    ThreeParts((m * p) * e, T * p, m * x, m * T, u);
  }

  /** m (R - u - 2) is at least t p (R - u - 2), and so at least R p. */
  lemma {:induction false} ModulusRoom(m: int, p: int, t: int, u: int)
    requires 0 < p && 0 <= t && 0 <= u && t * p <= m && RADIX + t * (u + 2) <= RADIX * t
    ensures RADIX * p <= (RADIX - u - 2) * m
  {
    var room := RADIX - u - 2;
    assert t * room == RADIX * t - t * (u + 2);
    if room < 0 {
      MulOrder(t, room, 0);
    }
    MulOrder(room, t * p, m);
    MulOrder(p, RADIX, t * room);
    assert room * (t * p) == p * (t * room);
  }

  lemma {:induction false} Exchange(a: int, b: int, c: int)
    ensures a * (b * c) == b * (a * c)
  {
  }

  lemma {:induction false} ThreeParts(a: int, b: int, c: int, total: int, u: int)
    requires RADIX * a <= total && RADIX * c <= (u + 1) * total && RADIX * b <= (RADIX - u - 2) * total
    ensures a + b + c <= total
  {
    assert (u + 1) * total + (RADIX - u - 2) * total == (RADIX - 1) * total;
  }

  /** The sharper form of the upper bound: the three losses together are at most one unit. */
  lemma {:induction false} BarrettNear(x: nat, m: nat, mu: nat, p: nat, P: nat, q1: nat, q2: nat, e: nat, q3: nat)
    requires 0 < p <= m && 0 < P && x < p * P && Slack(x, m, p, P, e)
    requires mu == (p * P) / m && q1 == x / p && q1 * mu == q2 + e && q3 == q2 / P
    ensures x < q3 * m + 2 * m
  {
    hide Slack;
    var T := p * P;
    var rm, r1, r3 := T % m, x % p, q2 % P;
    assert T == mu * m + rm && x == q1 * p + r1 && q2 == q3 * P + r3;
    NearUpper(x, m, mu, p, P, T, q1, q2, e, q3, rm, r1, r3);
  }

  lemma {:induction false} NearUpper(x: int, m: int, mu: int, p: int, P: int, T: int, q1: int, q2: int, e: int, q3: int,
                                     rm: int, r1: int, r3: int)
    requires 0 < p <= m && 0 < P && T == p * P && 0 <= x < T && 0 <= q1 && Slack(x, m, p, P, e)
    requires T == mu * m + rm && x == q1 * p + r1 && q2 == q3 * P + r3
    requires 0 <= rm < m && 0 <= r1 < p && 0 <= r3 < P && q1 * mu == q2 + e
    ensures x < q3 * m + 2 * m
  {
    NearProduct(m, mu, p, P, T, q1, q2, e, q3, r3);
    MulBounds(0, q1, 0, p);
    NearLoss(x, m, T, q1 * p, mu * m, rm, r1, p);
    NearTotal(T, x, m, q3, (q1 * p) * (mu * m), (m * p) * e, T * p, m * x);
  }

  lemma {:induction false} NearTotal(T: int, x: int, m: int, q3: int, yz: int, l1: int, l2: int, l3: int)
    requires 0 < T && yz < T * (q3 * m + m) + l1 && T * x <= yz + l2 + l3 && l1 + l2 + l3 <= m * T
    ensures x < q3 * m + 2 * m
  {
    assert T * (q3 * m + m) + m * T == T * (q3 * m + 2 * m);
    MulCancel(T, x, q3 * m + 2 * m);
  }

  lemma {:induction false} NearProduct(m: int, mu: int, p: int, P: int, T: int, q1: int, q2: int, e: int, q3: int, r3: int)
    requires 0 < p <= m && 0 < P && T == p * P
    requires q2 == q3 * P + r3 && r3 < P && q1 * mu == q2 + e
    ensures (q1 * p) * (mu * m) < T * (q3 * m + m) + (m * p) * e
  {
    MulBounds(1, m, 1, p);
    assert q3 * P + P == P * (q3 + 1);
    ScaledLess(m * p, q1 * mu, P * (q3 + 1), e);
    NearTerms(m, mu, p, P, q1, q3);
  }

  lemma {:induction false} NearTerms(m: int, mu: int, p: int, P: int, q1: int, q3: int)
    ensures (m * p) * (P * (q3 + 1)) == (p * P) * (q3 * m + m) && (m * p) * (q1 * mu) == (q1 * p) * (mu * m)
  {
    assert (m * p) * (P * (q3 + 1)) == (p * P) * (m * (q3 + 1));
  }

  lemma {:induction false} ScaledLess(c: int, a: int, b: int, e: int)
    requires 0 < c && a < b + e
    ensures c * a < c * b + c * e
  {
    MulOrder(c, a + 1, b + e);
  }

  lemma {:induction false} NearLoss(x: int, m: int, T: int, y: int, z: int, rm: int, r1: int, p: int)
    requires 0 <= x < T && 0 <= y == x - r1 && z == T - rm && 0 <= rm < m && 0 <= r1 < p <= m
    ensures T * x <= y * z + T * p + m * x
  {
    assert y * z == T * x - T * r1 - rm * y;
    MulOrder(T, r1, p);
    MulBounds(rm, m, y, x);
  }

  /** A top component for which all products of two residues are ample: neither 1 nor the last that can
      be divided by. */
  predicate Reducing(m: seq<Comp>)
    requires |m| > 0
  {
    2 <= m[|m| - 1] < RADIX - 2
  }

  lemma OneReduced(m: seq<Comp>)
    requires Usable(m)
    ensures Reducing(m) ==> Value(RADIX, [1]) < Value(RADIX, m)
  {
    hide Pow;
    UsablePositive(m);
    TopOne(m);
    ValueFrom(RADIX, [1], 0);
    ValueFrom(RADIX, [1], 1);
    assert [1][0..] == [1];
    if Reducing(m) {
      MulOrder(m[|m| - 1], 1, Pow(RADIX, |m| - 1));
    }
  }

  /** With such a modulus the product of two reduced numbers reduces completely. */
  lemma {:induction false} ResiduesAmple(x: seq<Comp>, m: seq<Comp>, a: nat, b: nat)
    requires IsTrimmed(x) && Usable(m) && Reducing(m)
    requires a < Value(RADIX, m) && b < Value(RADIX, m) && Value(RADIX, x) == a * b
    ensures |x| <= 2 * |m| && Ample(x, m)
  {
    hide Pow, Value;
    var k, t, v, p := |m|, m[|m| - 1], Value(RADIX, m), Pow(RADIX, |m| - 1);
    UsablePositive(m);
    TopOne(m);
    MulBounds(a, v, b, v);
    ValueBound(RADIX, m);
    MulBounds(v, Pow(RADIX, k), v, Pow(RADIX, k));
    PowAdd(RADIX, k, k);
    ProductBelow(a, b, v);
    TrimmedSize(x, 2 * k);
    if |x| == 2 * k {
      var u := x[|x| - 1];
      TopOne(x);
      PowAdd(RADIX, k - 1, k - 1);
      PowNext(2 * k - 2);
      MulBounds(v, (t + 1) * p, v, (t + 1) * p);
      TopOfProduct(u, t, p, a * b, v * v);
      AmpleTop(t, u);
    } else {
      AmpleNone(t);
    }
  }

  lemma {:induction false} ProductBelow(a: nat, b: nat, v: nat)
    requires a < v && b < v
    ensures a * b < v * v
  {
    MulBounds(a, v - 1, b, v);
    assert (v - 1) * v == v * v - v;
  }

  lemma {:induction false} TopOfProduct(u: nat, t: nat, p: nat, x: nat, square: nat)
    requires p > 0 && u * (RADIX * (p * p)) <= x < square <= ((t + 1) * p) * ((t + 1) * p)
    ensures u * RADIX < (t + 1) * (t + 1)
  {
    MulBounds(1, p, 1, p);
    assert u * (RADIX * (p * p)) == (p * p) * (u * RADIX);
    assert ((t + 1) * p) * ((t + 1) * p) == (p * p) * ((t + 1) * (t + 1));
    MulCancel(p * p, u * RADIX, (t + 1) * (t + 1));
  }

  lemma {:induction false} AmpleTop(t: int, u: int)
    requires 2 <= t < RADIX - 2 && 0 <= u && u * RADIX < (t + 1) * (t + 1)
    ensures RADIX + t * (u + 2) <= RADIX * t
  {
    var s := RADIX - 2 - t;
    assert (t + 1) * (t + 1) == t * t + 2 * t + 1;
    MulOrder(t, u * RADIX, t * t + 2 * t);
    TopRoom(t, s);
    TopCube(t, s);
    var left := t * u;
    assert t * (u * RADIX) == RADIX * left;
    assert t * (u + 2) == left + 2 * t;
  }

  lemma {:induction false} TopRoom(t: int, s: int)
    requires 2 <= t && 1 <= s && t + s == RADIX - 2
    ensures RADIX * RADIX <= (t * s) * (RADIX + t)
  {
    if s == 1 {
      assert t == RADIX - 3;
    } else {
      MulBounds(0, t - 2, 0, s - 2);
      assert (t - 2) * (s - 2) == t * s - 2 * t - 2 * s + 4;
      MulBounds(2 * RADIX - 8, t * s, RADIX, RADIX + t);
    }
  }

  lemma {:induction false} TopCube(t: int, s: int)
    requires s == RADIX - 2 - t
    ensures t * (RADIX * RADIX) == (t * s) * (RADIX + t) + t * (t * t + 2 * t) + 2 * (RADIX * t)
  {
    var square, cube := t * t, (t * t) * t;
    assert t * s == (RADIX - 2) * t - square;
    assert (t * s) * t == (RADIX - 2) * square - cube by {
      assert ((RADIX - 2) * t - square) * t == (RADIX - 2) * (t * t) - square * t;
    }
    assert (t * s) * (RADIX + t) == RADIX * (t * s) + (t * s) * t;
    assert t * (t * t + 2 * t) == cube + 2 * square;
  }

  lemma AmpleNone(t: nat)
    requires 2 <= t
    ensures RADIX + t * (0 + 2) <= RADIX * t
  {
  }

  /** The result need not be reduced: for this modulus of two components the estimate is two too small. */
  lemma {:induction false} BarrettNotReduced()
    ensures var m, x := [0x1c7, 0x1], [0x9a58_6e97, 0x80ed_d507, 0xffff_ffff, 0xffff_ffff];
            var mu := [0xfa62_ad72, 0x3_28b0, 0xffff_fe39];
            && Usable(m) && IsTrimmed(x) && |x| == 4 && IsTrimmed(mu)
            && Value(RADIX, mu) == Pow(RADIX, 4) / Value(RADIX, m)
            && Value(RADIX, x) / Value(RADIX, m) == BarrettEstimate(x, mu, 2) + 2
  {
    hide Value, Pow, TruncatedProduct, KeptRow;
    var m, x := [0x1c7, 0x1], [0x9a58_6e97, 0x80ed_d507, 0xffff_ffff, 0xffff_ffff];
    var mu := [0xfa62_ad72, 0x3_28b0, 0xffff_fe39];
    RadixPowers();
    ValueOfTwo(m);
    ValueOfFour(x);
    ValueOfThree(mu);
    assert Value(RADIX, m) == 0x1_0000_01c7 && Value(RADIX, mu) == 0xffff_fe39_0003_28b0_fa62_ad72;
    assert Value(RADIX, x) == 0xffff_ffff_ffff_ffff_80ed_d507_9a58_6e97;
    DivUnique(0x1_0000_0000_0000_0000_0000_0000_0000_0000, 0x1_0000_01c7, 0xffff_fe39_0003_28b0_fa62_ad72, 0xfa9d_ba62);
    DivUnique(0xffff_ffff_ffff_ffff_80ed_d507_9a58_6e97, 0x1_0000_01c7, 0xffff_fe39_0003_28b0_7b50_835c, 0x6e3e_f613);
    UpperValue(x, 1);
    DivUnique(0xffff_ffff_ffff_ffff_80ed_d507_9a58_6e97, 0x1_0000_0000, 0xffff_ffff_ffff_ffff_80ed_d507, 0x9a58_6e97);
    NothingDropped(Upper(x, 1), mu, 1);
    DivUnique(0xffff_fe39_0003_28b0_7b50_835a_d948_cf25_cf97_d3cc_858c_981e, 0x1_0000_0000_0000_0000_0000_0000, 0xffff_fe39_0003_28b0_7b50_835a, 0xd948_cf25_cf97_d3cc_858c_981e);
  }

  /** The same for a modulus of three components, where the estimate also drops a partial product. */
  lemma {:induction false} BarrettNotReducedEither()
    ensures var m, x := [2, 0, 1], [0xffff_fa42, 0xffff_ffff, 0xffff_fd1c, 0xffff_ffff, 0xffff_ffff, 0xffff_ffff];
            var mu := [3, 0, 0xffff_fffe, 0xffff_ffff];
            && Usable(m) && IsTrimmed(x) && |x| == 6 && IsTrimmed(mu)
            && Value(RADIX, mu) == Pow(RADIX, 6) / Value(RADIX, m)
            && Value(RADIX, x) / Value(RADIX, m) == BarrettEstimate(x, mu, 3) + 2
  {
    hide Value, Pow, TruncatedProduct, KeptRow;
    var m, x := [2, 0, 1], [0xffff_fa42, 0xffff_ffff, 0xffff_fd1c, 0xffff_ffff, 0xffff_ffff, 0xffff_ffff];
    var mu := [3, 0, 0xffff_fffe, 0xffff_ffff];
    RadixPowers();
    ValueOfThree(m);
    ValueOfSix(x);
    ValueOfFour(mu);
    assert Value(RADIX, m) == 0x1_0000_0000_0000_0002 && Value(RADIX, mu) == 0xffff_ffff_ffff_fffe_0000_0000_0000_0003;
    assert Value(RADIX, x) == 0xffff_ffff_ffff_ffff_ffff_ffff_ffff_fd1c_ffff_ffff_ffff_fa42;
    DivUnique(0x1_0000_0000_0000_0000_0000_0000_0000_0000_0000_0000_0000_0000, 0x1_0000_0000_0000_0002, 0xffff_ffff_ffff_fffe_0000_0000_0000_0003, 0xffff_ffff_ffff_fffa);
    DivUnique(0xffff_ffff_ffff_ffff_ffff_ffff_ffff_fd1c_ffff_ffff_ffff_fa42, 0x1_0000_0000_0000_0002, 0xffff_ffff_ffff_fffd_ffff_ffff_ffff_fd21, 0x0);
    UpperValue(x, 2);
    DivUnique(0xffff_ffff_ffff_ffff_ffff_ffff_ffff_fd1c_ffff_ffff_ffff_fa42, 0x1_0000_0000_0000_0000, 0xffff_ffff_ffff_ffff_ffff_ffff_ffff_fd1c, 0xffff_ffff_ffff_fa42);
    assert Upper(x, 2)[0] == 0xffff_fd1c;
    OneDropped(Upper(x, 2), mu);
    DivUnique(0xffff_ffff_ffff_fffd_ffff_ffff_ffff_fd1f_0000_0000_0000_05c7_ffff_fffd_0000_0000, 0x1_0000_0000_0000_0000_0000_0000_0000_0000, 0xffff_ffff_ffff_fffd_ffff_ffff_ffff_fd1f, 0x5c7_ffff_fffd_0000_0000);
  }

  lemma RadixPowers()
    ensures Pow(RADIX, 1) == 0x1_0000_0000 && Pow(RADIX, 2) == 0x1_0000_0000_0000_0000
    ensures Pow(RADIX, 3) == 0x1_0000_0000_0000_0000_0000_0000 && Pow(RADIX, 4) == 0x1_0000_0000_0000_0000_0000_0000_0000_0000
    ensures Pow(RADIX, 6) == 0x1_0000_0000_0000_0000_0000_0000_0000_0000_0000_0000_0000_0000
  {
    hide Pow;
    PowZero();
    PowNext(0);
    PowNext(1);
    PowNext(2);
    PowNext(3);
    PowNext(4);
    PowNext(5);
  }

  lemma PowZero()
    ensures Pow(RADIX, 0) == 1
  {
  }

  lemma ValueOfTwo(s: seq<Comp>)
    requires |s| == 2
    ensures Value(RADIX, s) == s[0] + RADIX * s[1]
  {
    hide Value;
    ValueFrom(RADIX, s, 0);
    ValueFrom(RADIX, s, 1);
    ValueFrom(RADIX, s, 2);
    assert s[0..] == s;
  }

  lemma ValueOfThree(s: seq<Comp>)
    requires |s| == 3
    ensures Value(RADIX, s) == s[0] + RADIX * (s[1] + RADIX * s[2])
  {
    hide Value;
    ValueFrom(RADIX, s, 0);
    assert s[0..] == s;
    ValueOfTwo(s[1..]);
  }

  lemma ValueOfFour(s: seq<Comp>)
    requires |s| == 4
    ensures Value(RADIX, s) == s[0] + RADIX * (s[1] + RADIX * (s[2] + RADIX * s[3]))
  {
    hide Value;
    ValueFrom(RADIX, s, 0);
    assert s[0..] == s;
    ValueOfThree(s[1..]);
  }

  lemma ValueOfSix(s: seq<Comp>)
    requires |s| == 6
    ensures Value(RADIX, s) == s[0] + RADIX * (s[1] + RADIX * (s[2] + RADIX * (s[3] + RADIX * (s[4] + RADIX * s[5]))))
  {
    hide Value;
    ValueFrom(RADIX, s, 0);
    assert s[0..] == s;
    ValueFrom(RADIX, s, 1);
    ValueOfFour(s[2..]);
  }

  /** One subtraction of the modulus, if it fits. */
  method ReduceOnce(r: BigInt, bim: BigInt)
    requires r != bim && IsTrimmed(r.comps) && Usable(bim.comps)
    requires r.Val() < 4 * bim.Val()
    modifies r, bim
    ensures bim.comps == old(bim.comps) && IsTrimmed(r.comps)
    ensures bim.Val() > 0
    ensures r.Val() < 3 * bim.Val() && r.Val() % bim.Val() == old(r.Val()) % bim.Val()
    ensures r.Val() == old(r.Val()) - if old(r.Val()) >= bim.Val() then bim.Val() else 0
  {
    hide Pow, Value;
    UsablePositive(bim.comps);
    var c := Compare(r, bim);
    if c >= 0 {
      ghost var m := bim.Val();
      SameRemainder(r.Val(), m, 1);
      ValueBound(RADIX, r.comps);
      TrimmedSize(bim.comps, |r.comps|);
      ResizedValue(bim.comps, |r.comps|);
      var isNegative := r.Subtract(bim);
    }
  }

  lemma {:induction false} SameRemainder(x: nat, m: nat, q: nat)
    requires m > 0 && q * m <= x
    ensures (x - q * m) % m == x % m
  {
    var d, r := (x - q * m) / m, (x - q * m) % m;
    assert x - q * m == m * d + r;
    assert (d + q) * m == m * d + q * m;
    DivUnique(x, m, d + q, r);
  }

  /** Takes the estimated multiple of the modulus away, working with k + 1 components only. */
  method SubtractEstimate(bi: BigInt, q3: BigInt, bim: BigInt, k: nat, ghost m: nat)
    requires bi != bim && bi != q3 && IsTrimmed(bi.comps) && |q3.comps| > 0 && |bim.comps| == k > 0
    requires m == bim.Val()
    requires q3.Val() * m <= bi.Val() < q3.Val() * m + 4 * m
    modifies bi
    ensures IsTrimmed(bi.comps) && bi.Val() == old(bi.Val()) - old(q3.Val()) * m
  {
    hide Pow, Value;
    ghost var x, y, size := bi.Val(), q3.Val() * m, |bi.comps|;
    ValueBound(RADIX, bi.comps);
    ValueBound(RADIX, bim.comps);
    CompMod(bi, k + 1);
    var r2 := RegularMultiply(q3, bim, k + 1, 0);
    CompMod(r2, k + 1);
    SubtractFits(x, y, m, k, size);
    ResizedValue(r2.comps, |bi.comps|);
    var isNegative := bi.Subtract(r2);
  }

  lemma {:induction false} SubtractFits(x: nat, y: nat, m: nat, k: nat, size: nat)
    requires y <= x < y + 4 * m && m < Pow(RADIX, k) && x < Pow(RADIX, size)
    ensures var w, n := Pow(RADIX, k + 1), if size > k + 1 then k + 1 else size;
            y % w < Pow(RADIX, n) && x % w - y % w + (if x % w < y % w then Pow(RADIX, n) else 0) == x - y
  {
    hide Pow;
    var w := Pow(RADIX, k + 1);
    PowNext(k);
    ModDifference(x, y, w, x - y);
    ModTwice(y, w);
    if size <= k {
      PowMonotonic(RADIX, size, k + 1);
      DivUnique(x, w, 0, x);
      DivUnique(y, w, 0, y);
    }
  }

  lemma {:induction false} ModTwice(x: nat, m: nat)
    requires m > 0
    ensures (x % m) % m == x % m && x % m < m
  {
    DivUnique(x % m, m, 0, x % m);
  }

  /** q3: the quotient estimated from the top of the argument and the stored reciprocal. */
  method EstimateQuotient(bi: BigInt, mu: BigInt, k: nat, ghost m: nat) returns (q3: BigInt)
    requires IsTrimmed(bi.comps) && IsTrimmed(mu.comps) && 0 < k <= MAX_SIZE && |bi.comps| <= 2 * k
    requires Pow(RADIX, k - 1) <= m && m > 0 && mu.Val() == Pow(RADIX, 2 * k) / m
    ensures fresh(q3) && |q3.comps| > 0
    ensures q3.Val() * m <= bi.Val() < q3.Val() * m + 4 * m
    ensures q3.Val() == BarrettEstimate(bi.comps, mu.comps, k)
  {
    hide Pow, Value, TruncatedProduct;
    var q1 := bi.Clone();
    CompRightShift(q1, k - 1);
    q3 := RegularMultiply(q1, mu, 0, k - 1);
    CompRightShift(q3, k + 1);
    EstimateFits(bi.comps, mu.comps, k, m);
  }

  /** The estimate is at most the quotient, and leaves less than four moduli. */
  lemma {:induction false} EstimateFits(x: seq<Comp>, mu: seq<Comp>, k: nat, m: nat)
    requires IsTrimmed(x) && 0 < k <= MAX_SIZE && |x| <= 2 * k
    requires Pow(RADIX, k - 1) <= m && m > 0 && Value(RADIX, mu) == Pow(RADIX, 2 * k) / m
    ensures var q := BarrettEstimate(x, mu, k); q * m <= Value(RADIX, x) < q * m + 4 * m
  {
    hide Pow, Value, TruncatedProduct;
    var v, q1 := Value(RADIX, x), Upper(x, k - 1);
    ArgumentBound(x, k);
    UpperValue(x, k - 1);
    var e := EstimateLoss(q1, mu, k);
    var q2, p, P := TruncatedProduct(q1, mu, k - 1), Pow(RADIX, k - 1), Pow(RADIX, k + 1);
    BarrettQuotient(v, m, Value(RADIX, mu), p, P, Value(RADIX, q1), q2, e, q2 / P);
  }

  lemma {:induction false} ArgumentBound(x: seq<Comp>, k: nat)
    requires 0 < k && |x| <= 2 * k
    ensures Value(RADIX, x) < Pow(RADIX, k - 1) * Pow(RADIX, k + 1) == Pow(RADIX, 2 * k)
  {
    hide Pow, Value;
    ValueBound(RADIX, x);
    PowMonotonic(RADIX, |x|, 2 * k);
    PowAdd(RADIX, k - 1, k + 1);
  }

  /** What the partial products left out are worth. */
  lemma {:induction false} EstimateLoss(q1: seq<Comp>, mu: seq<Comp>, k: nat) returns (e: nat)
    requires |q1| > 0 && 0 < k <= MAX_SIZE
    ensures Value(RADIX, q1) * Value(RADIX, mu) == TruncatedProduct(q1, mu, k - 1) + e && e <= Pow(RADIX, k + 1)
  {
    hide Pow, Value, TruncatedProduct;
    TruncatedBounds(q1, mu, k - 1);
    MulOrder(Pow(RADIX, k - 1), MinInt(|mu|, LossyRows(k - 1)), LossyRows(k - 1));
    LossFits(k);
    e := Value(RADIX, q1) * Value(RADIX, mu) - TruncatedProduct(q1, mu, k - 1);
  }

  /** What the shortened product loses stays below one unit of the estimate. */
  lemma {:induction false} LossFits(k: nat)
    requires 0 < k <= MAX_SIZE
    ensures LossyRows(k - 1) * Pow(RADIX, k - 1) <= Pow(RADIX, k + 1)
  {
    PowNext(k - 1);
    PowNext(k);
    MulOrder(Pow(RADIX, k - 1), LossyRows(k - 1), RADIX * RADIX);
  }
}
