/** `fe_tobytes` of the Ed25519 field: the least representative by estimating the quotient first. */
module FeBytes {
  import opened Arith
  import opened Positional
  import opened SignedDigits
  import opened Bytes
  import opened ScalarBytes
  import opened FieldLimbs
  import opened FieldBytes

  /** Limbs that are at most a tenth larger than their size. */
  ghost predicate NearlyFits(h: seq<int>)
  {
    |h| == 10 && forall i :: 0 <= i < 10 ==> -11 * (Size(i) as int) <= 10 * h[i] <= 11 * Size(i)
  }

  // ----- the estimate

  /** An arithmetic shift to the right, by the bits of a limb. */
  function ShiftRight(x: int, size: nat): int
    requires 0 < size
  {
    x / size
  }

  /** The limbs below i and a start, in units of limb i, rounded down. */
  ghost function Floor(h: seq<int>, i: nat, start: int): int
    requires i <= |h|
  {
    (Sum(h, i) + start) / Weight(i)
  }

  /** Rounding down after every limb is rounding down once. */
  lemma {:induction false} QuotientStep(h: seq<int>, i: nat, q: int, rounding: int)
    requires i < |h| && q == Floor(h, i, rounding)
    ensures ShiftRight(h[i] + q, Size(i)) == Floor(h, i + 1, rounding)
  {
    hide Size, Weight;
    NextWeight(i);
    FloorTwice(Sum(h, i) + rounding, h[i], Weight(i), Size(i));
  }

  lemma {:induction false} FloorTwice(v: int, d: int, w: int, z: int)
    requires 0 < w && 0 < z
    ensures 0 < z * w && (d + v / w) / z == (v + d * w) / (z * w)
  {
    var p, r := v / w, v % w;
    var a, b := (d + p) / z, (d + p) % z;
    assert v == w * p + r && d + p == z * a + b;
    assert v + d * w == (z * w) * a + (b * w + r) by {
      assert v + d * w == w * (d + p) + r;
      assert w * (z * a + b) == (z * w) * a + b * w;
    }
    FitsStep(r, b, w, z);
    MulOrder(w, 1, z);
    DivUnique(v + d * w, z * w, a, b * w + r);
  }

  /** The limbs below the last contribute little. */
  lemma {:induction false} LowSum(h: seq<int>, n: nat)
    requires NearlyFits(h) && n <= 10
    ensures -12 * (Weight(n) as int) <= 10 * Sum(h, n) <= 12 * Weight(n)
  {
    if n == 0 {
      assert Weight(0) == 1;
    } else {
      LowSum(h, n - 1);
      LowStep(Sum(h, n - 1), h[n - 1], Weight(n - 1), Size(n - 1));
    }
  }

  lemma {:induction false} LowStep(v: int, d: int, w: int, z: int)
    requires 0 < w && z >= 0x200_0000 && -12 * w <= 10 * v <= 12 * w && -11 * z <= 10 * d <= 11 * z
    ensures -12 * (z * w) <= 10 * (v + d * w) <= 12 * (z * w)
  {
    MulOrder(w, -11 * z, 10 * d);
    MulOrder(w, 10 * d, 11 * z);
    MulOrder(w, 0x200_0000, z);
  }

  /** The estimate is the exact quotient by 2^255 - 19: w is 2^230. */
  lemma {:induction false} EstimateIsQuotient(v: int, top: int, rounding: int, q: int, w: int)
    requires w == 0x4000000000000000000000000000000000000000000000000000000000
    requires rounding == (19 * top + 0x100_0000) / 0x200_0000 && -40_000_000 <= top <= 40_000_000
    requires -12 * w <= 10 * (v - top * w) <= 12 * w
    requires q == (v + rounding) / (0x200_0000 * w)
    ensures 0 <= v - q * PRIME < PRIME
  {
    var e, b := v - top * w, (v + rounding) % (0x200_0000 * w);
    var c := (19 * top + 0x100_0000) % 0x200_0000;
    EstimateStep(top, rounding, q, e, b, c, w);
  }

  /** The same with the remainders named: 2^255 times the result is small next to 2^255 times the prime. */
  lemma {:induction false} EstimateStep(top: int, rounding: int, q: int, e: int, b: int, c: int, w: int)
    requires w == 0x4000000000000000000000000000000000000000000000000000000000
    requires 19 * top + 0x100_0000 == 0x200_0000 * rounding + c && 0 <= c < 0x200_0000 && -40_000_000 <= top <= 40_000_000
    requires -12 * w <= 10 * e <= 12 * w
    requires top * w + e + rounding == 0x200_0000 * w * q + b && 0 <= b < 0x200_0000 * w
    ensures 0 <= top * w + e - q * PRIME < PRIME
  {
    assert 0x200_0000 * w * (19 * q - rounding + b) == (c - 0x100_0000) * w + 19 * e + 19 * rounding + PRIME * b;
  }

  method EstimateQuotient(h: seq<Int32>) returns (q: int)
    requires NearlyFits(h)
    ensures 0 <= Sum(h, 10) - q * PRIME < PRIME
  {
    hide Sum, Weight, Floor, ShiftRight;
    q := (19 * h[9] + 0x100_0000) / 0x200_0000;
    ghost var rounding := q;
    NoLimbs(h, rounding);
    QuotientStep(h, 0, q, rounding);
    q := ShiftRight(h[0] + q, 0x400_0000);
    QuotientStep(h, 1, q, rounding);
    q := ShiftRight(h[1] + q, 0x200_0000);
    QuotientStep(h, 2, q, rounding);
    q := ShiftRight(h[2] + q, 0x400_0000);
    QuotientStep(h, 3, q, rounding);
    q := ShiftRight(h[3] + q, 0x200_0000);
    QuotientStep(h, 4, q, rounding);
    q := ShiftRight(h[4] + q, 0x400_0000);
    QuotientStep(h, 5, q, rounding);
    q := ShiftRight(h[5] + q, 0x200_0000);
    QuotientStep(h, 6, q, rounding);
    q := ShiftRight(h[6] + q, 0x400_0000);
    QuotientStep(h, 7, q, rounding);
    q := ShiftRight(h[7] + q, 0x200_0000);
    QuotientStep(h, 8, q, rounding);
    q := ShiftRight(h[8] + q, 0x400_0000);
    QuotientStep(h, 9, q, rounding);
    q := ShiftRight(h[9] + q, 0x200_0000);
    FloorIsQuotient(h, rounding);
  }

  lemma {:induction false} FloorIsQuotient(h: seq<int>, rounding: int)
    requires NearlyFits(h) && rounding == (19 * h[9] + 0x100_0000) / 0x200_0000
    ensures 0 <= Sum(h, 10) - Floor(h, 10, rounding) * PRIME < PRIME
  {
    hide Sum, Weight;
    LowSum(h, 9);
    LastLimb(h);
    Weights();
    NextWeight(9);
    EstimateIsQuotient(Sum(h, 10), h[9], rounding, Floor(h, 10, rounding), Weight(9));
  }

  lemma NoLimbs(h: seq<int>, rounding: int)
    ensures rounding == Floor(h, 0, rounding)
  {
    assert Weight(0) == 1;
  }

  lemma LastLimb(h: seq<int>)
    requires |h| == 10
    ensures Sum(h, 10) == Sum(h, 9) + h[9] * Weight(9)
  {
  }

  // ----- the remainder

  /** What is more than the size of a limb goes to the next, also downwards. */
  ghost predicate CarriedFrom(h: seq<int>, t: seq<int>, i: nat)
  {
    && |h| == |t| == 10 && i < 10
    && Fits(t, i)
    && h[i] - 8 <= t[i] <= h[i] + 8
    && (forall k :: i < k < 10 ==> t[k] == h[k])
    && Sum(t, 10) == Sum(h, 10)
  }

  method CarryFloor(t: array<Int32>, i: nat, ghost h: seq<int>)
    requires t.Length == 10 && i < 9 && CarriedFrom(h, t[..], i) && (forall k :: 0 <= k < 10 ==> -200_000_000 <= h[k] <= 200_000_000)
    modifies t
    ensures CarriedFrom(h, t[..], i + 1)
  {
    hide Sum;
    ghost var s := t[..];
    var size := if i % 2 == 1 then 0x200_0000 else 0x400_0000;
    assert s[i] == t[i];
    var carry: int := t[i] / size;
    t[i + 1] := t[i + 1] + carry;
    t[i] := t[i] - carry * size;
    assert t[..] == Carried(s, i, carry);
    CarriedSum(s, i, carry, 10);
  }

  /** The least representative as limbs that fit. */
  method FeReduce(h: seq<Int32>) returns (t: array<Int32>)
    requires NearlyFits(h)
    ensures fresh(t) && t.Length == 10 && Fits(t[..], 10)
    ensures Sum(t[..], 10) == Sum(h, 10) % PRIME
  {
    hide Sum, Weight, CarriedFrom;
    t := new Int32[10](i requires 0 <= i < 10 => h[i]);
    assert t[..] == h;
    var q := EstimateQuotient(h);
    SmallQuotient(h, q);
    t[0] := t[0] + 19 * q;
    ghost var s := t[..];
    assert s == Added(h, 0, 19 * q);
    SumAdded(h, 0, 19 * q, 10);
    Started(s);
    CarryFloor(t, 0, s);
    CarryFloor(t, 1, s);
    CarryFloor(t, 2, s);
    CarryFloor(t, 3, s);
    CarryFloor(t, 4, s);
    CarryFloor(t, 5, s);
    CarryFloor(t, 6, s);
    CarryFloor(t, 7, s);
    CarryFloor(t, 8, s);
    LastCarry(s, t[..]);
    Weights();
    ghost var before := t[..];
    var carry: int := t[9] / 0x200_0000;
    t[9] := t[9] - carry * 0x200_0000;
    assert t[..] == Added(before, 9, -(carry * 0x200_0000));
    Remainder(h, q, before, carry);
  }

  lemma {:induction false} SmallQuotient(h: seq<int>, q: int)
    requires NearlyFits(h) && 0 <= Sum(h, 10) - q * PRIME < PRIME
    ensures -3 <= q <= 2
  {
    hide Sum, Weight;
    LowSum(h, 10);
    Weights();
  }

  lemma Started(s: seq<int>)
    requires |s| == 10
    ensures CarriedFrom(s, s, 0)
  {
  }

  lemma LastCarry(s: seq<int>, t: seq<int>)
    requires CarriedFrom(s, t, 9)
    ensures |t| == 10 && Fits(t, 9) && Sum(t, 10) == Sum(s, 10)
  {
  }

  /** Dropping what is above 2^255 leaves the remainder. */
  lemma {:induction false} Remainder(h: seq<int>, q: int, t: seq<int>, carry: int)
    requires |h| == |t| == 10 && Fits(t, 9) && carry == t[9] / 0x200_0000
    requires 0 <= Sum(h, 10) - q * PRIME < PRIME && Sum(t, 10) == Sum(h, 10) + 19 * q
    ensures var r := Added(t, 9, -(carry * 0x200_0000)); Fits(r, 10) && Sum(r, 10) == Sum(h, 10) % PRIME
  {
    hide Sum, Weight;
    var r := Added(t, 9, -(carry * 0x200_0000));
    SumAdded(t, 9, -(carry * 0x200_0000), 10);
    FitsBound(r, 10);
    Weights();
    NextWeight(9);
    var v := Sum(h, 10) - q * PRIME;
    assert Sum(r, 10) == v + Weight(10) * (q - carry);
    DivUnique(Sum(r, 10), Weight(10), 0, Sum(r, 10));
    DivWeighted(Sum(r, 10), Weight(10), q - carry, v);
    DivUnique(Sum(h, 10), PRIME, q, v);
  }

  // ----- the bytes

  /** The number the limbs from i on stand for, in units of limb i. */
  function Upper(h: seq<int>, i: nat): int
    requires i <= |h|
    decreases |h| - i
  {
    if i == |h| then 0 else h[i] + Size(i) * Upper(h, i + 1)
  }

  lemma {:induction false} UpperNatural(h: seq<int>, i: nat)
    requires i <= |h| && Fits(h, |h|)
    ensures Upper(h, i) >= 0
    decreases |h| - i
  {
    if i < |h| {
      UpperNatural(h, i + 1);
      MulOrder(Size(i), 0, Upper(h, i + 1));
    }
  }

  lemma {:induction false} SumSplits(h: seq<int>, i: nat)
    requires i <= |h|
    ensures Sum(h, |h|) == Sum(h, i) + Weight(i) * Upper(h, i)
    decreases |h| - i
  {
    if i < |h| {
      SumSplits(h, i + 1);
      NextWeight(i);
      hide Weight, Size;
      Spread3(h[i], Weight(i), Size(i), Upper(h, i + 1));
    }
  }

  lemma Spread3(d: int, w: int, z: int, u: int)
    ensures d * w + (z * w) * u == w * (d + z * u)
  {
  }

  /** Bits of the number that start in limb k. */
  lemma {:induction false} BitsFromLimb(h: seq<int>, k: nat, sh: nat)
    requires |h| == 10 && Fits(h, 10) && k < 10
    ensures Sum(h, 10) >= 0 && Upper(h, k) >= 0
    ensures Above(Sum(h, 10), Bit(k) + sh) == Above(Upper(h, k), sh)
  {
    hide Sum, Weight, Pow;
    UpperNatural(h, k);
    SumSplits(h, k);
    FitsBound(h, k);
    FitsBound(h, 10);
    WeightIs(k);
    DivWeighted(Sum(h, 10), Weight(k), Upper(h, k), Sum(h, k));
    AboveAbove(Sum(h, 10), Bit(k), sh);
  }

  /** Eight bits of one limb. */
  lemma {:induction false} PartIsBits(h: seq<int>, k: nat, sh: nat)
    requires |h| == 10 && Fits(h, 10) && k < 10
    requires sh + 8 <= (if k % 2 == 0 then 26 else 25) || (k == 9 && sh == 18)
    ensures Sum(h, 10) >= 0 && h[k] / Two(sh) % 256 == Above(Sum(h, 10), Bit(k) + sh) % 256
  {
    hide Sum, Weight, Pow, Above;
    BitsFromLimb(h, k, sh);
    AboveIs(h[k], sh);
    if k < 9 || sh != 18 {
      WeightIs(k);
      SmallTwo();
      UpperNatural(h, k + 1);
      BitsBelow(h[k], Upper(h, k + 1), sh, 8, if k % 2 == 0 then 26 else 25);
    } else {
      LastUpper(h);
    }
  }

  lemma LastUpper(h: seq<int>)
    requires |h| == 10
    ensures Upper(h, 9) == h[9]
  {
  }

  lemma SmallTwo()
    ensures Two(8) == 256
  {
    TwoEight();
  }

  /** The last bits of one limb and the first of the next. */
  lemma {:induction false} JoinIsBits(h: seq<int>, k: nat, sh: nat, left: nat)
    requires |h| == 10 && Fits(h, 10) && k < 9 && left <= 8
    requires sh + left == if k % 2 == 0 then 26 else 25
    ensures Sum(h, 10) >= 0
    ensures OrBits(h[k] / Two(sh), h[k + 1] * Two(left) % 256, 8) == Above(Sum(h, 10), Bit(k) + sh) % 256
  {
    hide Sum, Weight, Pow, Above, Two, Size, OrBits, Upper, Bit;
    BitsFromLimb(h, k, sh);
    AboveIs(Upper(h, k), sh);
    UpperJoin(h, k, sh, left);
    LowByteOr(h[k] / Two(sh), h[k + 1], left);
  }

  lemma {:induction false} UpperJoin(h: seq<int>, k: nat, sh: nat, left: nat)
    requires |h| == 10 && Fits(h, 10) && k < 9 && left <= 8
    requires sh + left == if k % 2 == 0 then 26 else 25
    ensures h[k] / Two(sh) < Two(left)
    ensures Upper(h, k) / Two(sh) % 256 == (h[k] / Two(sh) + h[k + 1] * Two(left)) % 256
  {
    hide Pow, Two, Size, Upper, Fits;
    NextTwoLimbs(h, k);
    WeightIs(k);
    TwoAdd(sh, left);
    TwoAdd(left, 8 - left);
    SmallTwo();
    SizeDivides(k + 1, 8 - left);
    TwoLimbs(Upper(h, k), h[k], h[k + 1], Upper(h, k + 2), Size(k), Size(k + 1), Two(sh), Two(left), Two(8 - left));
  }

  lemma NextTwoLimbs(h: seq<int>, k: nat)
    requires k + 1 < |h| && Fits(h, |h|)
    ensures 0 <= h[k] < Size(k) && 0 <= h[k + 1] && Upper(h, k + 2) >= 0
    ensures Upper(h, k) == h[k] + Size(k) * (h[k + 1] + Size(k + 1) * Upper(h, k + 2))
  {
    hide Size;
    UpperNatural(h, k + 2);
  }

  lemma {:induction false} TwoLimbs(u: nat, a: nat, b: nat, w: nat, y: nat, z: nat, t: nat, l: nat, m: nat)
    requires u == a + y * (b + z * w)
    requires a < y && y == t * l && l * m == 256 && 0 < t && 0 < m && z % m == 0
    ensures a / t < l && (u / t) % 256 == (a / t + b * l) % 256
  {
    ShiftTwo(a, b + z * w, t, l);
    LowOfNext(a / t, b, w, z, l, m);
    DivBelow(a, t, l);
  }

  lemma {:induction false} SizeDivides(k: nat, n: nat)
    requires n <= 8
    ensures Size(k) % Two(n) == 0
  {
    hide Pow;
    var width := if k % 2 == 0 then 26 else 25;
    WeightIs(k);
    TwoAdd(n, width - n);
    DivUnique(Size(k), Two(n), Two(width - n), 0);
  }

  lemma {:induction false} ShiftTwo(a: nat, u: nat, t: nat, l: nat)
    requires 0 < t
    ensures (a + (t * l) * u) / t == a / t + l * u
  {
    assert a == t * (a / t) + a % t;
    assert a + (t * l) * u == a % t + t * (a / t + l * u);
    DivWeighted(a + (t * l) * u, t, a / t + l * u, a % t);
  }

  /** Of the next limb only its lowest bits reach the byte. */
  lemma {:induction false} LowOfNext(a: nat, b: nat, w: nat, z: nat, l: nat, m: nat)
    requires l * m == 256 && z % m == 0 && 0 < m
    ensures (a + l * (b + z * w)) % 256 == (a + l * b) % 256
  {
    var k := z / m;
    assert l * (z * w) == 256 * (k * w) by {
      assert z == m * k;
      assert l * ((m * k) * w) == (l * m) * (k * w);
    }
    ModShift(a + l * b, 256, k * w);
  }

  /** The first j bytes of a number. */
  ghost predicate BytesUpTo(s: seq<Byte>, v: int, j: nat)
  {
    |s| == 32 && j <= 32 && v >= 0 && forall i :: 0 <= i < j ==> s[i] == Above(v, 8 * i) % 256
  }

  method StorePart(s: array<Byte>, j: nat, t: array<Int32>, k: nat, sh: nat)
    requires t.Length == 10 && Fits(t[..], 10) && j < 32 && k < 10 && 8 * j == Bit(k) + sh
    requires sh + 8 <= (if k % 2 == 0 then 26 else 25) || (k == 9 && sh == 18)
    requires BytesUpTo(s[..], Sum(t[..], 10), j)
    modifies s
    ensures BytesUpTo(s[..], Sum(t[..], 10), j + 1)
  {
    hide Sum, Pow, Above;
    PartIsBits(t[..], k, sh);
    s[j] := t[k] / Two(sh) % 256;
  }

  method StoreJoin(s: array<Byte>, j: nat, t: array<Int32>, k: nat, sh: nat, left: nat)
    requires t.Length == 10 && Fits(t[..], 10) && j < 32 && k < 9 && 8 * j == Bit(k) + sh
    requires left <= 8 && sh + left == if k % 2 == 0 then 26 else 25
    requires BytesUpTo(s[..], Sum(t[..], 10), j)
    modifies s
    ensures BytesUpTo(s[..], Sum(t[..], 10), j + 1)
  {
    hide Sum, Pow, Above, OrBits;
    JoinIsBits(t[..], k, sh, left);
    s[j] := OrBits(t[k] / Two(sh), t[k + 1] * Two(left) % 256, 8);
  }

  /** The least representative as 32 bytes. */
  method FeToBytes(s: array<Byte>, h: seq<Int32>)
    requires s.Length == 32 && NearlyFits(h)
    modifies s
    ensures Value(256, s[..]) == Sum(h, 10) % PRIME
  {
    hide Sum, Value, Pow, BytesUpTo, Fits;
    var t := FeReduce(h);
    NoBytes(s[..], t[..]);
    StorePart(s, 0, t, 0, 0);
    StorePart(s, 1, t, 0, 8);
    StorePart(s, 2, t, 0, 16);
    StoreJoin(s, 3, t, 0, 24, 2);
    StorePart(s, 4, t, 1, 6);
    StorePart(s, 5, t, 1, 14);
    StoreJoin(s, 6, t, 1, 22, 3);
    StorePart(s, 7, t, 2, 5);
    StorePart(s, 8, t, 2, 13);
    StoreJoin(s, 9, t, 2, 21, 5);
    StorePart(s, 10, t, 3, 3);
    StorePart(s, 11, t, 3, 11);
    StoreJoin(s, 12, t, 3, 19, 6);
    StorePart(s, 13, t, 4, 2);
    StorePart(s, 14, t, 4, 10);
    StorePart(s, 15, t, 4, 18);
    StorePart(s, 16, t, 5, 0);
    StorePart(s, 17, t, 5, 8);
    StorePart(s, 18, t, 5, 16);
    StoreJoin(s, 19, t, 5, 24, 1);
    StorePart(s, 20, t, 6, 7);
    StorePart(s, 21, t, 6, 15);
    StoreJoin(s, 22, t, 6, 23, 3);
    StorePart(s, 23, t, 7, 5);
    StorePart(s, 24, t, 7, 13);
    StoreJoin(s, 25, t, 7, 21, 4);
    StorePart(s, 26, t, 8, 4);
    StorePart(s, 27, t, 8, 12);
    StoreJoin(s, 28, t, 8, 20, 6);
    StorePart(s, 29, t, 9, 2);
    StorePart(s, 30, t, 9, 10);
    StorePart(s, 31, t, 9, 18);
    AllBytes(s[..], t[..]);
  }

  lemma NoBytes(s: seq<Byte>, t: seq<int>)
    requires |s| == 32 && |t| == 10 && Fits(t, 10)
    ensures BytesUpTo(s, Sum(t, 10), 0)
  {
    FitsBound(t, 10);
  }

  lemma {:induction false} AllBytes(s: seq<Byte>, t: seq<int>)
    requires |t| == 10 && Fits(t, 10) && BytesUpTo(s, Sum(t, 10), 32)
    ensures Value(256, s) == Sum(t, 10)
  {
    hide Sum, Value, Pow, Weight;
    FitsBound(t, 10);
    WeightIs(10);
    TwoAdd(255, 1);
    assert Two(1) == 2 by {
      SmallOne();
    }
    BytesOfBits(s, Sum(t, 10), 0);
    AboveZero(Sum(t, 10));
    assert s[0..] == s;
  }

  lemma SmallOne()
    ensures Two(1) == 2
  {
  }
}
