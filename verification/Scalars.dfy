/** `sc_reduce` and `sc_muladd`: arithmetic modulo the order of the base point, on bytes. */
module Scalars {
  import opened Arith
  import opened Positional
  import opened SignedDigits
  import opened Bytes
  import opened Limbs
  import opened ScalarReduce
  import opened ScalarBytes

  /** The 32 bytes of a reduced number. */
  method StoreLimbs(limbs: array<Int64>, s: array<Byte>)
    requires limbs.Length == 24 && s.Length >= 32 && Canonical(limbs[..])
    modifies s
    ensures Value(256, s[..32]) == LimbValue(limbs[..])
    ensures s[32..] == old(s[32..])
  {
    hide Pow, Value, LimbValue, Above, ByteAt;
    ghost var v := LimbValue(limbs[..]);
    var j := 0;
    while j < 32
      invariant j <= 32 && s[32..] == old(s[32..])
      invariant forall i :: 0 <= i < j ==> s[i] == Above(v, 8 * i) % 256
    {
      ByteIsBits(limbs[..], j);
      s[j] := ByteAt(limbs[..], j);
      j := j + 1;
    }
    OrderFits();
    BytesOfBits(s[..32], v, 0);
    AboveZero(v);
    assert s[..32][0..] == s[..32];
  }

  lemma OrderFits()
    ensures ORDER < Two(256)
  {
    hide Pow;
    PowAdd(2, 252, 4);
    PowOfLimbs(12);
    LimbPowers();
    assert Two(4) == 16 by { TwoFour(); }
  }

  lemma TwoFour()
    ensures Two(4) == 16
  {
  }

  /** The remainder of 64 bytes by the order, in the first 32 of them. */
  method ScReduce(s: array<Byte>)
    requires s.Length == 64
    modifies s
    ensures Value(256, s[..32]) == Value(256, old(s[..])) % ORDER
    ensures s[32..] == old(s[32..])
  {
    hide Pow, Value, LimbValue, Canonical;
    var limbs := new Int64[24];
    LoadLimbs(s[..], limbs, 24);
    assert limbs[..24] == limbs[..];
    ReduceLimbs(limbs);
    StoreLimbs(limbs, s);
  }

  // ----- the product

  /** The limbs of a product plus a number, added up row by row. */
  method MultiplyAdd(s: array<Int64>, a: array<Int64>, b: array<Int64>, c: array<Int64>)
    requires s.Length == 24 && a.Length == b.Length == c.Length == 12
    requires s != a && s != b && s != c
    requires Operand(a[..]) && Operand(b[..]) && Operand(c[..])
    modifies s
    ensures LimbValue(s[..]) == LimbValue(a[..]) * LimbValue(b[..]) + LimbValue(c[..])
    ensures forall k :: 0 <= k < 24 ==> 0 <= s[k] <= 0x4_0000_0000_0000
    ensures s[23] == 0
  {
    hide LimbValue, Pow;
    ghost var va, vb, vc := a[..], b[..], c[..];
    var i := 0;
    while i < 24
      invariant i <= 24 && forall k :: 0 <= k < i ==> s[k] == if k < 12 then c[k] else 0
    {
      s[i] := if i < 12 then c[i] else 0;
      i := i + 1;
    }
    Padded(s[..], vc);
    NoLimbs(va);
    i := 0;
    while i < 12
      invariant i <= 12 && RowsBound(s[..], i)
      invariant LimbValue(s[..]) == LimbValue(va[..i]) * LimbValue(vb) + LimbValue(vc)
    {
      var j := 0;
      ghost var before := LimbValue(s[..]);
      NoLimbs(vb);
      while j < 12
        invariant j <= 12 && RowBound(s[..], i, j)
        invariant LimbValue(s[..]) == before + a[i] * Pow(LIMB, i) * LimbValue(vb[..j])
      {
        ProductBound(a[i], b[j], i, j);
        ghost var was := s[..];
        s[i + j] := s[i + j] + a[i] * b[j];
        assert s[..] == Added(was, i + j, a[i] * b[j]);
        AddedValue(was, i + j, a[i] * b[j]);
        OneMoreLimb(vb, j);
        PowAdd(LIMB, i, j);
        ProductTerm(a[i], b[j], Pow(LIMB, i), Pow(LIMB, j), LimbValue(vb[..j]));
        j := j + 1;
      }
      assert vb[..12] == vb;
      OneMoreLimb(va, i);
      RowTerm(LimbValue(va[..i]), va[i], Pow(LIMB, i), LimbValue(vb));
      i := i + 1;
    }
    assert va[..12] == va;
  }

  /** Limbs as they are loaded from 32 bytes. */
  ghost predicate Operand(s: seq<int>)
  {
    |s| == 12 && (forall i :: 0 <= i < 11 ==> 0 <= s[i] < LIMB) && 0 <= s[11] < 0x200_0000
  }

  const PRODUCT: int := 0x4000_0000_0000
  const TOP_PRODUCT: int := 0x4_0000_0000_0000

  /** The sums after i rows and j products of the next. */
  ghost predicate RowBound(s: seq<int>, i: nat, j: nat)
  {
    && |s| == 24 && s[23] == 0 && 0 <= s[22] <= (if i == 11 && j == 12 then TOP_PRODUCT else 0)
    && forall k :: 0 <= k < 22 ==> 0 <= s[k] <= 0x400_0000 + PRODUCT * (if k < i + j then i + 1 else i)
  }

  ghost predicate RowsBound(s: seq<int>, i: nat)
  {
    && |s| == 24 && s[23] == 0 && 0 <= s[22] <= (if i == 12 then TOP_PRODUCT else 0)
    && forall k :: 0 <= k < 22 ==> 0 <= s[k] <= 0x400_0000 + PRODUCT * i
  }

  lemma ProductBound(x: int, y: int, i: nat, j: nat)
    requires 0 <= x < (if i == 11 then 0x200_0000 else LIMB) && 0 <= y < (if j == 11 then 0x200_0000 else LIMB)
    ensures 0 <= x * y <= if i == 11 && j == 11 then TOP_PRODUCT else PRODUCT
  {
    MulBounds(x, if i == 11 then 0x200_0000 else LIMB, y, if j == 11 then 0x200_0000 else LIMB);
  }

  lemma {:induction false} Padded(s: seq<int>, c: seq<int>)
    requires |s| == 24 && |c| == 12 && forall k :: 0 <= k < 24 ==> s[k] == if k < 12 then c[k] else 0
    ensures LimbValue(s) == LimbValue(c)
  {
    ZeroLimbs(s[12..]);
    assert s == c + s[12..];
    LimbValueConcat(c, s[12..]);
  }

  lemma NoLimbs(s: seq<int>)
    ensures LimbValue(s[..0]) == 0
  {
  }

  lemma {:induction false} OneMoreLimb(s: seq<int>, k: nat)
    requires k < |s|
    ensures LimbValue(s[..k + 1]) == LimbValue(s[..k]) + Pow(LIMB, k) * s[k]
  {
    assert s[..k + 1] == s[..k] + [s[k]];
    LimbValueConcat(s[..k], [s[k]]);
    OneLimb(s[k]);
  }

  lemma ProductTerm(x: int, y: int, p: int, q: int, v: int)
    ensures x * p * v + (x * y) * (p * q) == x * p * (v + q * y)
  {
  }

  lemma RowTerm(v: int, x: int, p: int, w: int)
    ensures v * w + x * p * w == (v + p * x) * w
  {
  }

  /** The carries `sc_muladd` makes before the folds. */
  lemma {:induction false} ProductCarries(s: seq<int>)
    requires |s| == 24 && s[23] == 0 && Within(s, 0, 24, TOP_PRODUCT)
    ensures var g := CarriedUp(s, 0, 23, 2, HALF);
            var h := CarriedUp(g, 1, 22, 2, HALF);
            && Within(g, 0, 24, TOP_PRODUCT + 0x2000_0400)
            && Loaded(h) && LimbValue(h) == LimbValue(s)
  {
    hide LimbValue, CarriedUp;
    var g := CarriedUp(s, 0, 23, 2, HALF);
    EveryOther(s, 0, 23, HALF, TOP_PRODUCT, 0x2000_0400);
    EveryOther(g, 1, 22, HALF, TOP_PRODUCT + 0x2000_0400, 0x2000_0400);
    CarriedUpValue(s, 0, 23, 2, HALF);
    CarriedUpValue(g, 1, 22, 2, HALF);
  }

  /** The remainder of a * b + c by the order. */
  method ScMulAdd(s: array<Byte>, a: seq<Byte>, b: seq<Byte>, c: seq<Byte>)
    requires s.Length == 32 && |a| == |b| == |c| == 32
    modifies s
    ensures Value(256, s[..]) == (Value(256, a) * Value(256, b) + Value(256, c)) % ORDER
  {
    hide Pow, Value, LimbValue, Canonical, CarriedUp;
    var la, lb, lc := new Int64[12], new Int64[12], new Int64[12];
    LoadLimbs(a, la, 12);
    LoadLimbs(b, lb, 12);
    LoadLimbs(c, lc, 12);
    assert la[..12] == la[..] && lb[..12] == lb[..] && lc[..12] == lc[..];
    var limbs := new Int64[24];
    MultiplyAdd(limbs, la, lb, lc);
    ProductCarries(limbs[..]);
    CarryUp(limbs, 0, 23, 2, HALF, TOP_PRODUCT, 0x2000_0400);
    CarryUp(limbs, 1, 22, 2, HALF, TOP_PRODUCT + 0x2000_0400, 0x2000_0400);
    ReduceLimbs(limbs);
    StoreLimbs(limbs, s);
    assert s[..32] == s[..];
  }
}
