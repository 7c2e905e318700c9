/** Modular powers by repeated squaring: `bi_mod_power` with a window of one bit. */
module BigPower {
  import opened Arith
  import opened Positional
  import opened BigInts
  import opened BigMultiply
  import opened BigModular

  const COMP_BIT_SIZE: nat := 32

  /** Whether the component has the bit of this weight set. */
  predicate HasBit(c: Comp, shift: Comp)
    requires shift > 0
  {
    (c / shift) % 2 == 1
  }

  lemma ThirtyTwoBits()
    ensures Pow(2, 32) == RADIX
  {
    assert Pow(2, 4) == 16;
    PowAdd(2, 4, 4);
    PowAdd(2, 8, 8);
    PowAdd(2, 16, 16);
  }

  lemma {:induction false} RadixPower(n: nat)
    ensures Pow(2, 32 * n) == Pow(RADIX, n)
  {
    if n > 0 {
      ThirtyTwoBits();
      PowAdd(2, 32, 32 * (n - 1));
      RadixPower(n - 1);
    }
  }

  /** A bit of one component is that bit of the whole number. */
  lemma {:induction false} BitOfNumber(s: seq<Comp>, c: nat, b: nat)
    requires c < |s| && b < COMP_BIT_SIZE
    ensures 0 < Pow(2, 32 * c + b)
    ensures (Value(RADIX, s) / Pow(2, 32 * c + b)) % 2 == (s[c] / Pow(2, b)) % 2
  {
    hide Pow, Value;
    PowAdd(2, 32 * c, b);
    RadixPower(c);
    DivDiv(Value(RADIX, s), Pow(RADIX, c), Pow(2, b));
    ShiftedValue(s, c);
    ValueFrom(RADIX, s, c);
    ThirtyTwoBits();
    PowAdd(2, b, COMP_BIT_SIZE - b);
    HalfPower(COMP_BIT_SIZE - b - 1);
    LowBits(s[c], Pow(2, b), Pow(2, COMP_BIT_SIZE - b - 1), Value(RADIX, s[c + 1..]));
  }

  lemma {:induction false} HalfPower(n: nat)
    ensures Pow(2, n + 1) == 2 * Pow(2, n)
  {
  }

  lemma {:induction false} LowBits(d: nat, w: nat, h: nat, rest: nat)
    requires 0 < w && w * (2 * h) == RADIX
    ensures ((d + RADIX * rest) / w) % 2 == (d / w) % 2
  {
    var q, r := d / w, d % w;
    assert d == w * q + r;
    assert RADIX * rest == w * ((2 * h) * rest);
    assert d + RADIX * rest == r + w * (q + (2 * h) * rest);
    DivWeighted(d + RADIX * rest, w, q + (2 * h) * rest, r);
    assert (2 * h) * rest == 2 * (h * rest);
    ModShift(q, 2, h * rest);
  }

  /** Bit `offset` of the exponent; an offset of -1 reads bit 0, as C division and shifting do. */
  method ExpBitIsOne(biexp: BigInt, offset: int) returns (one: bool)
    requires -1 <= offset < |biexp.comps| * COMP_BIT_SIZE && |biexp.comps| > 0
    ensures offset >= 0 ==> one == ((biexp.Val() / Pow(2, offset)) % 2 == 1)
    ensures offset == -1 ==> one == (biexp.comps[0] % 2 == 1)
  {
    hide Value;
    var test := biexp.comps[if offset < 0 then 0 else offset / COMP_BIT_SIZE];
    var numShifts := if offset < 0 then -1 else offset % COMP_BIT_SIZE;
    var shift: Comp := 1;
    var i := 0;
    while i < numShifts
      invariant 0 <= i && (0 <= numShifts ==> i <= numShifts) && (numShifts < 0 ==> i == 0)
      invariant shift == Pow(2, i)
    {
      ThirtyTwoBits();
      PowMonotonic(2, i + 2, 32);
      shift := 2 * shift;
      i := i + 1;
    }
    one := HasBit(test, shift);
    if offset >= 0 {
      BitOfNumber(biexp.comps, offset / COMP_BIT_SIZE, offset % COMP_BIT_SIZE);
    }
  }

  /** The highest set bit of the exponent, or -1 for zero. */
  method FindMaxExpIndex(biexp: BigInt) returns (index: int)
    requires IsTrimmed(biexp.comps)
    ensures -1 <= index < |biexp.comps| * COMP_BIT_SIZE
    ensures index == -1 ==> biexp.comps == [0]
    ensures index >= 0 ==> biexp.Val() < Pow(2, index + 1)
  {
    hide Value, Pow;
    var i := COMP_BIT_SIZE - 1;
    var shift: Comp := RADIX / 2;
    var test := biexp.comps[|biexp.comps| - 1];
    ThirtyTwoBits();
    HalfPower(31);
    while i >= 0
      invariant -1 <= i < COMP_BIT_SIZE
      invariant i >= 0 ==> shift == Pow(2, i)
      invariant test < Pow(2, i + 1)
      decreases i
    {
      if HasBit(test, shift) {
        TopBit(biexp.comps, i);
        return i + (|biexp.comps| - 1) * COMP_BIT_SIZE;
      }
      HalfPower(i);
      NoBit(test, shift, Pow(2, i + 1));
      if i > 0 {
        HalfPower(i - 1);
      }
      shift := shift / 2;
      i := i - 1;
    }
    ZeroPower();
    return -1;
  }

  lemma ZeroPower()
    ensures Pow(2, 0) == 1
  {
  }

  lemma NoBit(test: Comp, shift: Comp, above: nat)
    requires shift > 0 && above == 2 * shift && test < above && !HasBit(test, shift)
    ensures test < shift
  {
    if test >= shift {
      DivUnique(test, shift, 1, test - shift);
    }
  }

  lemma {:induction false} TopBit(s: seq<Comp>, i: nat)
    requires |s| > 0 && s[|s| - 1] < Pow(2, i + 1)
    ensures Value(RADIX, s) < Pow(2, i + (|s| - 1) * COMP_BIT_SIZE + 1)
  {
    hide Value, Pow;
    var k := |s| - 1;
    assert s == s[..k] + [s[k]];
    ValueSnoc(RADIX, s[..k], s[k]);
    ValueBound(RADIX, s[..k]);
    RadixPower(k);
    PowAdd(2, 32 * k, i + 1);
    HigherDigit(Pow(RADIX, k), Value(RADIX, s[..k]), s[k], Pow(2, i + 1));
  }

  /** The part of the exponent above bit i. */
  ghost function Above(e: nat, i: int): nat
    requires i >= -2
  {
    if i < 0 then e else e / Pow(2, i + 1)
  }

  lemma {:induction false} AboveStep(e: nat, i: nat)
    ensures Above(e, i - 1) == 2 * Above(e, i) + (e / Pow(2, i)) % 2
  {
    hide Pow;
    HalfPower(i);
    DivDiv(e, Pow(2, i), 2);
    ZeroPower();
  }

  /** base^e modulo m, as far as bit i has been worked off. */
  ghost predicate PowerOf(x: nat, base: nat, e: nat, m: nat)
    requires m > 0
  {
    x % m == Pow(base, e) % m
  }

  lemma {:induction false} SquareStep(x: nat, y: nat, base: nat, e: nat, m: nat)
    requires m > 0 && PowerOf(x, base, e, m) && y % m == Square(x) % m
    ensures PowerOf(y, base, 2 * e, m)
  {
    ModMul(x, x, Pow(base, e), Pow(base, e), m);
    PowAdd(base, e, e);
  }

  lemma {:induction false} MultiplyByBase(x: nat, y: nat, base: nat, e: nat, m: nat)
    requires m > 0 && PowerOf(x, base, e, m) && y % m == (x * base) % m
    ensures PowerOf(y, base, e + 1, m)
  {
    ModMul(x, base, Pow(base, e), base, m);
    assert base * Pow(base, e) == Pow(base, e) * base;
  }

  /** bi^biexp modulo the stored modulus: up to two multiples of it in general, and exactly for a reduced
      base and a modulus whose top component is not one of the two extremes. */
  method ModPower(ctx: Modulus, bi: BigInt, biexp: BigInt) returns (biR: BigInt)
    requires ctx.Valid() && IsTrimmed(bi.comps) && IsTrimmed(biexp.comps)
    requires biexp != ctx.biMod && biexp != ctx.biNormalisedMod
    modifies ctx.biMod, ctx.biNormalisedMod
    ensures ctx.Valid() && ctx.Stored() == old(ctx.Stored())
    ensures fresh(biR) && IsTrimmed(biR.comps)
    ensures PowerOf(biR.Val(), old(bi.Val()), old(biexp.Val()), ctx.M())
    ensures biR.Val() < 3 * ctx.M()
    ensures Reducing(ctx.biMod.comps) && old(bi.Val()) < ctx.M() ==>
              biR.Val() == Pow(old(bi.Val()), old(biexp.Val())) % ctx.M()
  {
    hide Pow, Value, Square, PowerOf, Above, Reducing;
    ghost var base, e, exponent := bi.Val(), biexp.Val(), biexp.comps;
    ghost var stored := ctx.Stored();
    var i := FindMaxExpIndex(biexp);
    biR := new BigInt([1]);
    var g := bi.Clone();
    StartPower(base, e, i, ctx.M(), exponent);
    OneReduced(ctx.biMod.comps);
    ghost var exact := Reducing(ctx.biMod.comps) && base < ctx.M();
    var started := false;
    while !started || i >= 0
      invariant -2 <= i < |exponent| * COMP_BIT_SIZE && biexp.comps == exponent
      invariant i == -2 ==> started
      invariant i == -1 && !started ==> exponent == [0]
      invariant ctx.Valid() && ctx.Stored() == stored
      invariant fresh(biR) && IsTrimmed(biR.comps)
      invariant fresh(g) && g.Val() == base && IsTrimmed(g.comps)
      invariant g != biR
      invariant PowerOf(biR.Val(), base, Above(e, i), ctx.M())
      invariant started ==> biR.Val() < 3 * ctx.M()
      invariant exact ==> biR.Val() < ctx.M()
      decreases i + 2
    {
      var one := ExpBitIsOne(biexp, i);
      biR := TakeBit(ctx, biR, g, one, base, Above(e, i));
      NextBit(e, i, one, exponent);
      i := i - 1;
      started := true;
    }
    LastBit(e, i);
    PowerIs(biR.Val(), base, e, ctx.M());
  }

  lemma PowerIs(x: nat, base: nat, e: nat, m: nat)
    requires m > 0 && PowerOf(x, base, e, m)
    ensures x < m ==> x == Pow(base, e) % m
  {
    hide Pow;
    ResidueIs(x, Pow(base, e), m);
  }

  lemma StartPower(base: nat, e: nat, i: int, m: nat, exponent: seq<Comp>)
    requires m > 0 && i >= -1 && e == Value(RADIX, exponent)
    requires i == -1 ==> exponent == [0]
    requires i >= 0 ==> e < Pow(2, i + 1)
    ensures PowerOf(Value(RADIX, [1]), base, Above(e, i), m)
  {
    ValueFrom(RADIX, [1], 0);
    ValueFrom(RADIX, [1], 1);
    assert [1][0..] == [1];
    ValueFrom(RADIX, [0], 0);
    ValueFrom(RADIX, [0], 1);
    assert [0][0..] == [0];
    if i >= 0 {
      DivUnique(e, Pow(2, i + 1), 0, e);
    }
  }

  lemma NextBit(e: nat, i: int, one: bool, exponent: seq<Comp>)
    requires i >= -1 && e == Value(RADIX, exponent)
    requires i >= 0 ==> one == ((e / Pow(2, i)) % 2 == 1)
    requires i == -1 ==> exponent == [0] && !one
    ensures Above(e, i - 1) == 2 * Above(e, i) + if one then 1 else 0
  {
    if i >= 0 {
      AboveStep(e, i);
    } else {
      assert exponent[1..] == [];
    }
  }

  lemma LastBit(e: nat, i: int)
    requires -2 <= i < 0
    ensures Above(e, i) == e
  {
  }

  /** One turn: a square, and for a set bit a product with the base. */
  method TakeBit(ctx: Modulus, x: BigInt, g: BigInt, one: bool, ghost base: nat, ghost e: nat) returns (r: BigInt)
    requires ctx.Valid() && IsTrimmed(x.comps) && IsTrimmed(g.comps) && g.Val() == base && PowerOf(x.Val(), base, e, ctx.M())
    requires g != ctx.biMod && g != ctx.biNormalisedMod
    modifies ctx.biMod, ctx.biNormalisedMod
    ensures ctx.Valid() && ctx.Stored() == old(ctx.Stored())
    ensures fresh(r) && IsTrimmed(r.comps) && r.Val() < 3 * ctx.M()
    ensures PowerOf(r.Val(), base, 2 * e + if one then 1 else 0, ctx.M())
    ensures Reducing(ctx.biMod.comps) && old(x.Val()) < ctx.M() && base < ctx.M() ==> r.Val() < ctx.M()
  {
    hide Pow, Value, Square, PowerOf, Reducing, Ample;
    r := SquareResidue(ctx, x, base, e);
    if one {
      r := MultiplyResidue(ctx, r, g, base, 2 * e);
    }
  }

  method SquareResidue(ctx: Modulus, x: BigInt, ghost base: nat, ghost e: nat) returns (r: BigInt)
    requires ctx.Valid() && IsTrimmed(x.comps) && PowerOf(x.Val(), base, e, ctx.M())
    modifies ctx.biMod, ctx.biNormalisedMod
    ensures ctx.Valid() && ctx.Stored() == old(ctx.Stored())
    ensures fresh(r) && IsTrimmed(r.comps) && r.Val() < 3 * ctx.M()
    ensures PowerOf(r.Val(), base, 2 * e, ctx.M())
    ensures Reducing(ctx.biMod.comps) && old(x.Val()) < ctx.M() ==> r.Val() < ctx.M()
  {
    hide Pow, Value, PowerOf, Reducing, Ample;
    ghost var v := x.Val();
    var square := RegularSquare(x);
    if Reducing(ctx.biMod.comps) && v < ctx.M() {
      ResiduesAmple(square.comps, ctx.biMod.comps, v, v);
    }
    r := Barrett(ctx, square);
    SquareStep(v, r.Val(), base, e, ctx.M());
  }

  method MultiplyResidue(ctx: Modulus, x: BigInt, g: BigInt, ghost base: nat, ghost e: nat) returns (r: BigInt)
    requires ctx.Valid() && IsTrimmed(x.comps) && IsTrimmed(g.comps) && g.Val() == base && PowerOf(x.Val(), base, e, ctx.M())
    modifies ctx.biMod, ctx.biNormalisedMod
    ensures ctx.Valid() && ctx.Stored() == old(ctx.Stored())
    ensures fresh(r) && IsTrimmed(r.comps) && r.Val() < 3 * ctx.M()
    ensures PowerOf(r.Val(), base, e + 1, ctx.M())
    ensures Reducing(ctx.biMod.comps) && old(x.Val()) < ctx.M() && base < ctx.M() ==> r.Val() < ctx.M()
  {
    hide Pow, Value, Square, PowerOf, Reducing, Ample;
    ghost var v := x.Val();
    var product := RegularMultiply(x, g, 0, 0);
    if Reducing(ctx.biMod.comps) && v < ctx.M() && base < ctx.M() {
      ResiduesAmple(product.comps, ctx.biMod.comps, v, base);
    }
    r := Barrett(ctx, product);
    MultiplyByBase(v, r.Val(), base, e, ctx.M());
  }
}
