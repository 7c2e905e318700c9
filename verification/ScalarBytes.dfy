/** Scalars as bytes: 21-bit limbs are loaded from bytes and stored to bytes. */
module ScalarBytes {
  import opened Arith
  import opened Positional
  import opened SignedDigits
  import opened Bytes
  import opened Limbs

  /** 2^n. */
  function Two(n: nat): (p: nat)
    ensures 0 < p
  {
    Pow(2, n)
  }

  /** Bits n and up of a number. */
  function Above(v: nat, n: nat): nat
  {
    v / Two(n)
  }

  lemma {:induction false} AboveAbove(v: nat, m: nat, n: nat)
    ensures Above(Above(v, m), n) == Above(v, m + n)
  {
    hide Pow;
    PowAdd(2, m, n);
    DivDiv(v, Two(m), Two(n));
  }

  lemma {:induction false} PowOfBytes(n: nat)
    ensures Pow(256, n) == Two(8 * n)
  {
    if n > 0 {
      PowOfBytes(n - 1);
      PowAdd(2, 8, 8 * (n - 1));
      TwoEight();
    }
  }

  lemma {:induction false} PowOfLimbs(n: nat)
    ensures Pow(LIMB, n) == Two(21 * n)
  {
    if n > 0 {
      PowOfLimbs(n - 1);
      PowAdd(2, 21, 21 * (n - 1));
      TwoEight();
    }
  }

  lemma TwoEight()
    ensures Two(8) == 256 && Two(21) == LIMB
  {
    PowTwos();
    PowAdd(2, 16, 5);
    PowAdd(2, 8, 8);
  }

  lemma PowTwos()
    ensures Pow(2, 5) == 32 && Pow(2, 8) == 256
  {
    assert Pow(2, 2) == 4;
    assert Pow(2, 4) == 16;
    assert Pow(2, 6) == 64;
  }

  /** Adding what lies above the bits looked at does not change them. */
  lemma {:induction false} BitsBelow(v: nat, w: nat, sh: nat, bits: nat, top: nat)
    requires sh + bits <= top
    ensures Above(v + Two(top) * w, sh) % Two(bits) == Above(v, sh) % Two(bits)
  {
    hide Pow;
    PowAdd(2, sh, top - sh);
    PowAdd(2, bits, top - sh - bits);
    BitsMove(v, w, Two(sh), Two(bits), Two(top - sh - bits), Two(top));
  }

  lemma {:induction false} BitsMove(v: nat, w: nat, d: nat, m: nat, e: nat, t: nat)
    requires 0 < d && 0 < m && t == d * (m * e)
    ensures ((v + t * w) / d) % m == (v / d) % m
  {
    var q, r := v / d, v % d;
    assert v + t * w == r + d * (q + m * (e * w)) by {
      assert t * w == d * (m * (e * w));
    }
    DivWeighted(v + t * w, d, q + m * (e * w), r);
    ModShift(q, m, e * w);
  }

  // ----- loading

  function Load3(s: seq<Byte>, i: nat): nat
    requires i + 3 <= |s|
  {
    (s[i] as nat) + (s[i + 1] as nat) * 0x100 + (s[i + 2] as nat) * 0x1_0000
  }

  function Load4(s: seq<Byte>, i: nat): nat
    requires i + 4 <= |s|
  {
    (s[i] as nat) + (s[i + 1] as nat) * 0x100 + (s[i + 2] as nat) * 0x1_0000 + (s[i + 3] as nat) * 0x100_0000
  }

  /** Limb k is 21 bits from bit 21k on. */
  function LimbAt(s: seq<Byte>, k: nat): nat
    requires 21 * k / 8 + 4 <= |s|
  {
    var off, sh := 21 * k / 8, 21 * k % 8;
    (if sh <= 3 then Load3(s, off) else Load4(s, off)) / Two(sh) % LIMB
  }

  /** The last limb is all bits from bit 21k on. */
  function TopLimbAt(s: seq<Byte>, k: nat): nat
    requires 21 * k / 8 + 4 == |s|
  {
    Load4(s, 21 * k / 8) / Two(21 * k % 8)
  }

  lemma {:induction false} LoadsAreValues(s: seq<Byte>, i: nat)
    ensures i + 3 <= |s| ==> Load3(s, i) == Value(256, s[i..i + 3])
    ensures i + 4 <= |s| ==> Load4(s, i) == Value(256, s[i..i + 4])
  {
    if i + 3 <= |s| {
      ThreeDigits(s[i..i + 3]);
    }
    if i + 4 <= |s| {
      ThreeDigits(s[i + 1..i + 4]);
      assert s[i..i + 4][1..] == s[i + 1..i + 4];
    }
  }

  lemma ThreeDigits(t: seq<nat>)
    requires |t| == 3
    ensures Value(256, t) == t[0] + t[1] * 0x100 + t[2] * 0x1_0000
  {
    assert t[1..][1..] == [t[2]];
    assert Value(256, [t[2]]) == t[2] + 256 * Value(256, [t[2]][1..]);
  }

  /** Dropping low bytes of a number. */
  lemma {:induction false} DropBytes(s: seq<Byte>, off: nat)
    requires off <= |s|
    ensures Above(Value(256, s), 8 * off) == Value(256, s[off..])
  {
    ValueSplit(256, s, off);
    ValueBound(256, s[..off]);
    PowOfBytes(off);
    DivWeighted(Value(256, s), Two(8 * off), Value(256, s[off..]), Value(256, s[..off]));
  }

  lemma {:induction false} WindowOf(s: seq<Byte>, off: nat, n: nat)
    requires off + n <= |s|
    ensures Above(Value(256, s), 8 * off) == Value(256, s[off..off + n]) + Two(8 * n) * Value(256, s[off + n..])
  {
    DropBytes(s, off);
    var t := s[off..];
    ValueSplit(256, t, n);
    assert t[..n] == s[off..off + n] && t[n..] == s[off + n..];
    PowOfBytes(n);
  }

  lemma {:induction false} LimbIsBits(s: seq<Byte>, k: nat)
    requires 21 * k / 8 + 4 <= |s|
    ensures LimbAt(s, k) == Above(Value(256, s), 21 * k) % LIMB
  {
    hide Pow, Value, Load3, Load4;
    var off, sh := 21 * k / 8, 21 * k % 8;
    var n := if sh <= 3 then 3 else 4;
    LoadsAreValues(s, off);
    WindowOf(s, off, n);
    AboveAbove(Value(256, s), 8 * off, sh);
    BitsBelow(Value(256, s[off..off + n]), Value(256, s[off + n..]), sh, 21, 8 * n);
    TwoEight();
  }

  lemma {:induction false} TopLimbIsBits(s: seq<Byte>, k: nat)
    requires 21 * k / 8 + 4 == |s|
    ensures TopLimbAt(s, k) == Above(Value(256, s), 21 * k) < Two(32)
  {
    hide Pow, Value, Load4;
    var off, sh := 21 * k / 8, 21 * k % 8;
    LoadsAreValues(s, off);
    DropBytes(s, off);
    assert s[off..off + 4] == s[off..];
    AboveAbove(Value(256, s), 8 * off, sh);
    ValueBound(256, s[off..]);
    PowOfBytes(4);
    Shrinks(Value(256, s[off..]), Two(sh));
  }

  lemma Shrinks(v: nat, d: nat)
    requires 0 < d
    ensures v / d <= v
  {
    MulOrder(v + 1, 1, d);
    DivBelow(v, d, v + 1);
  }

  /** Bits 21k and up of a number are limb k and the bits above it. */
  lemma {:induction false} BitsStep(v: nat, k: nat)
    ensures Above(v, 21 * k) == Above(v, 21 * k) % LIMB + LIMB * Above(v, 21 * (k + 1))
  {
    hide Pow;
    AboveAbove(v, 21 * k, 21);
    TwoEight();
  }

  /** Limbs that are the bits of a number stand for it. */
  lemma {:induction false} LimbsOfBits(s: seq<int>, v: nat, k: nat)
    requires k < |s|
    requires forall i :: 0 <= i < |s| - 1 ==> s[i] == Above(v, 21 * i) % LIMB
    requires s[|s| - 1] == Above(v, 21 * (|s| - 1))
    ensures LimbValue(s[k..]) == Above(v, 21 * k)
    decreases |s| - k
  {
    hide Above;
    assert s[k..][0] == s[k] && s[k..][1..] == s[k + 1..];
    if k == |s| - 1 {
      assert LimbValue(s[k + 1..]) == 0;
    } else {
      LimbsOfBits(s, v, k + 1);
      BitsStep(v, k);
    }
  }

  lemma AboveZero(v: nat)
    ensures Above(v, 0) == v
  {
  }

  /** The limbs of bytes s: the last one takes all that is left. */
  method LoadLimbs(s: seq<Byte>, limbs: array<Int64>, n: nat)
    requires (n == 24 && |s| == 64) || (n == 12 && |s| == 32)
    requires limbs.Length >= n
    modifies limbs
    ensures LimbValue(limbs[..n]) == Value(256, s)
    ensures forall i :: 0 <= i < n - 1 ==> 0 <= limbs[i] < LIMB
    ensures 0 <= limbs[n - 1] < 0x2000_0000
    ensures n == 12 ==> limbs[n - 1] < 0x200_0000
    ensures limbs[n..] == old(limbs[n..])
  {
    hide Pow, Value, LimbValue, Above, Load4, Load3;
    var k := 0;
    while k < n - 1
      invariant k < n && limbs[n..] == old(limbs[n..])
      invariant forall i :: 0 <= i < k ==> limbs[i] == Above(Value(256, s), 21 * i) % LIMB
    {
      LimbIsBits(s, k);
      limbs[k] := LimbAt(s, k);
      k := k + 1;
    }
    TopLimbIsBits(s, k);
    TopSmall(s, k);
    limbs[k] := TopLimbAt(s, k);
    LimbsOfBits(limbs[..n], Value(256, s), 0);
    AboveZero(Value(256, s));
    assert limbs[..n][0..] == limbs[..n];
  }

  lemma {:induction false} TopSmall(s: seq<Byte>, k: nat)
    requires (k == 23 && |s| == 64) || (k == 11 && |s| == 32)
    ensures TopLimbAt(s, k) < 0x2000_0000
    ensures k == 11 ==> TopLimbAt(s, k) < 0x200_0000
  {
    assert Two(7) == 128 && Two(3) == 8 by {
      assert Two(3) == 8;
      assert Two(5) == 32;
    }
    assert Load4(s, 21 * k / 8) < 0x1_0000_0000;
  }

  // ----- storing

  /** The n lowest bits of the bitwise or. */
  function OrBits(a: nat, b: nat, n: nat): nat
  {
    if n == 0 then 0 else (if a % 2 == 1 || b % 2 == 1 then 1 else 0) + 2 * OrBits(a / 2, b / 2, n - 1)
  }

  /** Without a common bit, the bitwise or is the sum. */
  lemma {:induction false} OrApart(a: nat, b: nat, sh: nat, n: nat)
    requires a < Two(sh) && b % Two(sh) == 0 && a < Two(n) && b < Two(n)
    ensures OrBits(a, b, n) == a + b
  {
    if n > 0 {
      if sh == 0 {
        OrApart(0, b / 2, 0, n - 1);
      } else {
        EvenHalf(b, Two(sh - 1));
        OrApart(a / 2, b / 2, sh - 1, n - 1);
      }
    }
  }

  lemma {:induction false} EvenHalf(b: nat, p: nat)
    requires 0 < p && b % (2 * p) == 0
    ensures b % 2 == 0 && (b / 2) % p == 0
  {
    var q := b / (2 * p);
    assert b == 2 * (q * p);
    DivUnique(b / 2, p, q, 0);
  }

  lemma {:induction false} LowByte(low: Byte, u: nat, sh: nat)
    requires sh <= 8 && low < Two(sh) && u % Two(sh) == 0
    ensures low + u % 0x100 < 0x100 && OrBits(low, u % 0x100, 8) == low + u % 0x100
  {
    hide Pow;
    PowTwos();
    PowAdd(2, sh, 8 - sh);
    LowBits(u, Two(sh), Two(8 - sh));
    OrApart(low, u % 0x100, sh, 8);
  }

  lemma {:induction false} LowBits(u: nat, d: nat, e: nat)
    requires 0 < d && d * e == 0x100 && u % d == 0
    ensures u % 0x100 % d == 0 && u % 0x100 + d <= 0x100
  {
    var q, k, b := u / d, u / 0x100, u % 0x100;
    var m := q - e * k;
    assert b == d * m by {
      assert u == d * q && u == (d * e) * k + b;
      assert d * (e * k) == (d * e) * k;
      assert d * (q - e * k) == d * q - d * (e * k);
    }
    MulCancel(d, m, e);
    MulOrder(d, m + 1, e);
    assert d * (m + 1) == d * m + d;
    if m < 0 {
      MulOrder(d, m, -1);
    }
    DivUnique(b, d, m, 0);
  }

  lemma {:induction false} LowByteOr(a: nat, b: nat, left: nat)
    requires left <= 8 && a < Two(left)
    ensures OrBits(a, b * Two(left) % 256, 8) == (a + b * Two(left)) % 256
  {
    hide Pow, OrBits;
    PowMonotonic(2, left, 8);
    TwoEight();
    var u := b * Two(left);
    DivUnique(u, Two(left), b, 0);
    LowByte(a, u, left);
    assert a + u == (a + u % 256) + 256 * (u / 256);
    DivWeighted(a + u, 256, u / 256, a + u % 256);
  }

  /** Byte j of the number the limbs stand for: bits of one limb, or of two. */
  function ByteAt(s: seq<int>, j: nat): Byte
    requires |s| >= 13 && j < 32
    requires forall i :: 0 <= i < 13 ==> 0 <= s[i]
    requires forall i :: 0 <= i < 11 ==> s[i] < LIMB
  {
    var k, sh := 8 * j / 21, 8 * j % 21;
    if sh + 8 <= 21 || j == 31 then s[k] / Two(sh) % 256
    else
      UpperPart(s[k], sh);
      LowByteOr(s[k] / Two(sh), s[k + 1], 21 - sh);
      OrBits(s[k] / Two(sh), s[k + 1] * Two(21 - sh) % 256, 8)
  }

  /** The bits of a limb from sh on. */
  lemma {:induction false} UpperPart(d: nat, sh: nat)
    requires d < LIMB && sh <= 21
    ensures d / Two(sh) < Two(21 - sh)
  {
    hide Pow;
    TwoEight();
    PowAdd(2, sh, 21 - sh);
    DivBelow(d, Two(sh), Two(21 - sh));
  }

  /** The number a limb and those above it stand for. */
  lemma {:induction false} DropLimbs(s: seq<int>, k: nat)
    requires k <= |s| && LimbValue(s) >= 0 && LimbValue(s[k..]) >= 0
    requires forall i :: 0 <= i < k ==> 0 <= s[i] < LIMB
    ensures Above(LimbValue(s), 21 * k) == LimbValue(s[k..])
  {
    assert s == s[..k] + s[k..];
    LimbValueConcat(s[..k], s[k..]);
    DigitsBound(s[..k]);
    PowOfLimbs(k);
    DivWeighted(LimbValue(s), Two(21 * k), LimbValue(s[k..]), LimbValue(s[..k]));
  }

  /** Non-negative limbs that start with limb k. */
  lemma {:induction false} TailValue(s: seq<int>, k: nat)
    requires forall i :: 0 <= i < |s| ==> 0 <= s[i]
    requires k < |s|
    ensures LimbValue(s[k..]) >= 0
    ensures LimbValue(s[k..]) == s[k] + LIMB * LimbValue(s[k + 1..])
    decreases |s| - k
  {
    hide SignedValue;
    SignedFrom(LIMB, s, k);
    if k + 1 < |s| {
      TailValue(s, k + 1);
    } else {
      SignedFrom(LIMB, s, k + 1);
    }
  }

  lemma {:induction false} ByteIsBits(s: seq<int>, j: nat)
    requires |s| >= 14 && j < 32 && (forall i :: 0 <= i < 11 ==> 0 <= s[i] < LIMB) && (forall i :: 0 <= i < |s| ==> 0 <= s[i])
    requires forall i :: 12 <= i < |s| ==> s[i] == 0
    ensures LimbValue(s) >= 0
    ensures ByteAt(s, j) == Above(LimbValue(s), 8 * j) % 256
  {
    hide Pow, LimbValue, Above, OrBits;
    var k, sh := 8 * j / 21, 8 * j % 21;
    TailValue(s, 0);
    assert s[0..] == s;
    TailValue(s, k);
    TailValue(s, k + 1);
    DropLimbs(s, k);
    AboveAbove(LimbValue(s), 21 * k, sh);
    var u, w := LimbValue(s[k + 1..]), LimbValue(s[k + 2..]);
    TailValue(s, k + 2);
    TwoEight();
    if j == 31 {
      ZeroLimbs(s[12..]);
      AboveIs(s[k], sh);
    } else if sh + 8 <= 21 {
      BitsBelow(s[k], u, sh, 8, 21);
      AboveIs(s[k], sh);
    } else {
      UpperPart(s[k], sh);
      LowByteOr(s[k] / Two(sh), s[k + 1], 21 - sh);
      TwoLimbBits(s[k], s[k + 1], w, sh);
    }
  }

  lemma AboveIs(v: nat, n: nat)
    ensures Above(v, n) == v / Two(n)
  {
  }

  lemma {:induction false} TwoLimbBits(a: nat, b: nat, w: nat, sh: nat)
    requires sh <= 21 && 13 < sh
    ensures Above(a + LIMB * (b + LIMB * w), sh) % 256 == (a / Two(sh) + b * Two(21 - sh)) % 256
  {
    hide Pow;
    TwoEight();
    PowAdd(2, 21, 21);
    PowAdd(2, sh, 21 - sh);
    assert a + LIMB * (b + LIMB * w) == (a + LIMB * b) + Two(42) * w;
    BitsBelow(a + LIMB * b, w, sh, 8, 42);
    var q, r := a / Two(sh), a % Two(sh);
    assert LIMB * b == Two(sh) * (b * Two(21 - sh));
    assert a + LIMB * b == r + Two(sh) * (q + b * Two(21 - sh));
    DivWeighted(a + LIMB * b, Two(sh), q + b * Two(21 - sh), r);
  }

  /** Bytes that are the bits of a number stand for it. */
  lemma {:induction false} BytesOfBits(s: seq<Byte>, v: nat, j: nat)
    requires j <= |s| && v < Two(8 * |s|)
    requires forall i :: 0 <= i < |s| ==> s[i] == Above(v, 8 * i) % 256
    ensures Value(256, s[j..]) == Above(v, 8 * j)
    decreases |s| - j
  {
    if j == |s| {
      hide Pow;
    } else {
      BytesOfBits(s, v, j + 1);
      hide Pow;
      AboveAbove(v, 8 * j, 8);
      TwoEight();
      assert s[j..][0] == s[j] && s[j..][1..] == s[j + 1..];
    }
  }
}
