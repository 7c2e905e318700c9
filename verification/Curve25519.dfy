/** `curve25519_donna`: scalar multiplication on the x-coordinates of a Montgomery curve. */
module Curve25519 {
  import opened Arith
  import opened Positional
  import opened Bytes
  import opened AbelianGroups
  import opened ScalarBytes
  import opened FieldLimbs
  import opened FieldReduce
  import opened FieldBytes
  import opened Ladder
  import opened Reciprocals

  /** The points of the curve as an abelian group, with the projective x-coordinates of each point: `on`
      says whether x : z are coordinates of a point. */
  datatype Curve<!P> = Curve(g: Group<P>, on: (int, int, P) -> bool, q: P, x1: int)

  ghost predicate OneApart<P>(c: Curve<P>, p: P, p': P)
  {
    p' == c.g.add(p, c.q) || p == c.g.add(p', c.q)
  }

  // The doubling and the differential addition on y^2 = x^3 + 486662 x^2 + x, for x-coordinates x : z; the addition has
  // both its coordinates times 4, as in section 5 of RFC 7748.

  function TwiceX(x: int, z: int): int { Square(x * x - z * z) }

  function TwiceZ(x: int, z: int): int { 4 * (x * z) * (x * x + 486662 * (x * z) + z * z) }

  function SumX(x: int, z: int, x': int, z': int): int { 4 * Square(x * x' - z * z') }

  function SumZ(x: int, z: int, x': int, z': int, x1: int): int { 4 * (x1 * Square(x * z' - z * x')) }

  function Square(x: int): int { x * x }

  /** The formulas of the curve double points and add points that are one q apart. */
  ghost predicate Montgomery<P(!new)>(c: Curve<P>)
  {
    && IsGroup(c.g)
    && c.on(1, 0, c.g.zero) && c.on(c.x1, 1, c.q)
    && (forall x, z, x', z', p :: c.on(x, z, p) && Congruent(x, x') && Congruent(z, z') ==> c.on(x', z', p))
    && (forall x, z, x', z', p, p' :: c.on(x, z, p) && c.on(x', z', p') && OneApart(c, p, p') ==>
          && c.on(TwiceX(x, z), TwiceZ(x, z), c.g.add(p, p))
          && c.on(SumX(x, z, x', z'), SumZ(x, z, x', z', c.x1), c.g.add(p, p')))
  }

  // ----- the conditional swap

  lemma {:induction false} XorBelow(a: nat, b: nat, n: nat)
    ensures XorBits(a, b, n) < Two(n)
  {
    if n > 0 {
      XorBelow(a / 2, b / 2, n - 1);
    }
  }

  lemma {:induction false} XorNone(a: nat, n: nat)
    requires a < Two(n)
    ensures XorBits(a, 0, n) == a
  {
    if n > 0 {
      XorNone(a / 2, n - 1);
    }
  }

  lemma {:induction false} XorSwaps(a: nat, b: nat, n: nat)
    ensures XorBits(a, b, n) == XorBits(b, a, n)
  {
    if n > 0 {
      XorSwaps(a / 2, b / 2, n - 1);
    }
  }

  function AndBits(a: nat, b: nat, n: nat): nat
  {
    if n == 0 then 0 else (if a % 2 == 1 && b % 2 == 1 then 1 else 0) + 2 * AndBits(a / 2, b / 2, n - 1)
  }

  lemma {:induction false} AndOnes(b: nat, n: nat)
    requires b < Two(n)
    ensures AndBits(Two(n) - 1, b, n) == b && AndBits(0, b, n) == 0
  {
    if n > 0 {
      assert (Two(n) - 1) / 2 == Two(n - 1) - 1;
      AndOnes(b / 2, n - 1);
    }
  }

  /** Both words exclusive or their difference, if the mask lets it through. */
  lemma {:induction false} SwapsWords(a: nat, b: nat, mask: nat)
    requires a < 0x1_0000_0000 && b < 0x1_0000_0000 && (mask == 0 || mask == 0xffff_ffff)
    ensures var x := AndBits(mask, XorBits(a, b, 32), 32);
            && XorBits(a, x, 32) == (if mask == 0 then a else b)
            && XorBits(b, x, 32) == if mask == 0 then b else a
  {
    hide Pow, XorBits, AndBits;
    WideTwos();
    XorBelow(a, b, 32);
    AndOnes(XorBits(a, b, 32), 32);
    XorNone(a, 32);
    XorNone(b, 32);
    XorSwaps(a, b, 32);
    XorBitsTwice(a, b, 32);
    XorBitsTwice(b, a, 32);
    XorSwaps(a, XorBits(a, b, 32), 32);
    XorSwaps(b, XorBits(a, b, 32), 32);
  }

  lemma SignedUnsigned(y: Int32)
    ensures Signed(Unsigned(y)) == y
  {
  }

  /** Swaps the first ten limbs if `iswap` is 1. */
  method SwapConditional(a: array<Int64>, b: array<Int64>, iswap: int)
    requires Element(a) && Element(b) && a != b && 0 <= iswap <= 1
    modifies a, b
    ensures a[..10] == old(if iswap == 1 then b[..10] else a[..10])
    ensures b[..10] == old(if iswap == 1 then a[..10] else b[..10])
    ensures a[10..] == old(a[10..]) && b[10..] == old(b[10..])
  {
    var swap := Unsigned(-iswap);
    ghost var s, t := a[..], b[..];
    var i := 0;
    while i < 10
      invariant 0 <= i <= 10
      invariant forall k :: 0 <= k < i ==> a[k] == if iswap == 1 then t[k] else s[k]
      invariant forall k :: 0 <= k < i ==> b[k] == if iswap == 1 then s[k] else t[k]
      invariant forall k :: i <= k < a.Length ==> a[k] == s[k]
      invariant forall k :: i <= k < b.Length ==> b[k] == t[k]
    {
      var r := SwapLimb(a[i], b[i], swap);
      a[i], b[i] := r.0, r.1;
      i := i + 1;
    }
  }

  function SwapLimb(a: Int32, b: Int32, swap: nat): (r: (Int32, Int32))
    requires swap == 0 || swap == 0xffff_ffff
    ensures r == if swap == 0 then (a, b) else (b, a)
  {
    SwapsWords(Unsigned(a), Unsigned(b), swap);
    SignedUnsigned(a);
    SignedUnsigned(b);
    var x := AndBits(swap, XorBits(Unsigned(a), Unsigned(b), 32), 32);
    (Signed(XorBits(Unsigned(a), x, 32)), Signed(XorBits(Unsigned(b), x, 32)))
  }

  // ----- the ladder

  lemma SameCoordinates<P(!new)>(c: Curve<P>, x: int, z: int, x': int, z': int, p: P)
    requires Montgomery(c) && c.on(x, z, p) && Congruent(x, x') && Congruent(z, z')
    ensures c.on(x', z', p)
  {
  }

  /** The step of the ladder computes the doubling and the differential addition of the curve. */
  lemma {:induction false} StepIsCurve(x: int, z: int, x': int, z': int, x1: int)
    ensures DoubleX(x + z, x - z) == TwiceX(x, z) && DoubleZ(x + z, x - z) == TwiceZ(x, z)
    ensures AddX(x + z, x - z, x' + z', x' - z') == SumX(x, z, x', z')
    ensures AddZ(x + z, x - z, x' + z', x' - z', x1) == SumZ(x, z, x', z', x1)
  {
    SumTimesDifference(x, z);
    DoublesZ(x, z);
    Crossed(x, z, x', z');
    FourTimes(x * x' - z * z');
    FourTimes(x * z' - z * x');
  }

  lemma DoublesZ(x: int, z: int)
    ensures DoubleZ(x + z, x - z) == TwiceZ(x, z)
  {
    var xx, xz, zz := x * x, x * z, z * z;
    assert (x + z) * (x + z) == xx + 2 * xz + zz && (x - z) * (x - z) == xx - 2 * xz + zz;
  }

  lemma {:induction false} SumTimesDifference(x: int, z: int)
    ensures DoubleX(x + z, x - z) == Square(x * x - z * z)
  {
    var p, d := x + z, x - z;
    assert p * d == x * x - z * z;
    assert (p * p) * (d * d) == (p * d) * (p * d);
  }

  lemma Crossed(x: int, z: int, x': int, z': int)
    ensures (x' + z') * (x - z) + (x + z) * (x' - z') == 2 * (x * x' - z * z')
    ensures (x' + z') * (x - z) - (x + z) * (x' - z') == 2 * (x * z' - z * x')
  {
  }

  lemma FourTimes(v: int)
    ensures (2 * v) * (2 * v) == 4 * Square(v)
  {
  }

  lemma {:induction false} Formulas<P(!new)>(c: Curve<P>, x: int, z: int, p: P, x': int, z': int, p': P)
    requires Montgomery(c) && c.on(x, z, p) && c.on(x', z', p') && OneApart(c, p, p')
    ensures c.on(DoubleX(x + z, x - z), DoubleZ(x + z, x - z), c.g.add(p, p))
    ensures c.on(AddX(x + z, x - z, x' + z', x' - z'), AddZ(x + z, x - z, x' + z', x' - z', c.x1), c.g.add(p, p'))
  {
    hide Congruent, DoubleX, DoubleZ, AddX, AddZ, TwiceX, TwiceZ, SumX, SumZ, IsGroup;
    StepIsCurve(x, z, x', z', c.x1);
  }

  /** Coordinates of the n-th multiple of q. */
  ghost predicate At<P(!new)>(c: Curve<P>, x: array<Int64>, z: array<Int64>, n: nat)
    reads x, z
  {
    Element(x) && Element(z) && c.on(F(x), F(z), Times(c.g, n, c.q))
  }

  /** Doubling one of two neighbouring multiples and adding them. */
  lemma {:induction false} Multiples<P(!new)>(c: Curve<P>, n: nat, bit: nat)
    requires Montgomery(c) && bit <= 1
    ensures var p, p' := Times(c.g, n + bit, c.q), Times(c.g, n + 1 - bit, c.q);
            && OneApart(c, p, p')
            && c.g.add(p, p) == Times(c.g, 2 * n + 2 * bit, c.q) && c.g.add(p, p') == Times(c.g, 2 * n + 1, c.q)
  {
    hide IsGroup, Montgomery, Times;
    GroupOf(c);
    NextTimes(c.g, n, c.q);
    if bit == 0 {
      SumOfTimes(c.g, n, n, 2 * n, c.q);
      SumOfTimes(c.g, n, n + 1, 2 * n + 1, c.q);
    } else {
      SumOfTimes(c.g, n + 1, n + 1, 2 * n + 2, c.q);
      SumOfTimes(c.g, n + 1, n, 2 * n + 1, c.q);
    }
  }

  lemma SumOfTimes<P(!new)>(g: Group<P>, m: nat, n: nat, k: nat, x: P)
    requires IsGroup(g) && m + n == k
    ensures g.add(Times(g, m, x), Times(g, n, x)) == Times(g, k, x)
  {
    hide IsGroup, Times;
    TimesPlus(g, m, n, x);
  }

  lemma GroupOf<P(!new)>(c: Curve<P>)
    requires Montgomery(c)
    ensures IsGroup(c.g) && c.on(1, 0, c.g.zero) && c.on(c.x1, 1, c.q)
  {
  }

  lemma NextTimes<P(!new)>(g: Group<P>, n: nat, x: P)
    ensures Times(g, n + 1, x) == g.add(Times(g, n, x), x)
  {
  }

  /** The step on coordinates that are congruent to what the formulas give. */
  lemma {:induction false} StepCoordinates<P(!new)>(c: Curve<P>, n: nat, bit: nat, x: int, z: int, x': int, z': int,
                                                    x2: int, z2: int, x3: int, z3: int)
    requires Montgomery(c) && bit <= 1
    requires c.on(x, z, Times(c.g, n + bit, c.q)) && c.on(x', z', Times(c.g, n + 1 - bit, c.q))
    requires Congruent(x2, DoubleX(x + z, x - z)) && Congruent(z2, DoubleZ(x + z, x - z))
    requires Congruent(x3, AddX(x + z, x - z, x' + z', x' - z'))
    requires Congruent(z3, AddZ(x + z, x - z, x' + z', x' - z', c.x1))
    ensures c.on(x2, z2, Times(c.g, 2 * n + 2 * bit, c.q)) && c.on(x3, z3, Times(c.g, 2 * n + 1, c.q))
  {
    hide Montgomery, Times, OneApart, DoubleX, DoubleZ, AddX, AddZ, Congruent;
    var p, p' := Times(c.g, n + bit, c.q), Times(c.g, n + 1 - bit, c.q);
    Multiples(c, n, bit);
    Formulas(c, x, z, p, x', z', p');
    Symmetric(x2, DoubleX(x + z, x - z));
    Symmetric(z2, DoubleZ(x + z, x - z));
    Symmetric(x3, AddX(x + z, x - z, x' + z', x' - z'));
    Symmetric(z3, AddZ(x + z, x - z, x' + z', x' - z', c.x1));
    SameCoordinates(c, DoubleX(x + z, x - z), DoubleZ(x + z, x - z), x2, z2, c.g.add(p, p));
    SameCoordinates(c, AddX(x + z, x - z, x' + z', x' - z'), AddZ(x + z, x - z, x' + z', x' - z', c.x1), x3, z3,
      c.g.add(p, p'));
  }

  lemma SameLimbs(s: seq<int>, t: seq<int>)
    requires |s| >= 10 && |t| >= 10 && s[..10] == t[..10]
    ensures Sum(s, 10) == Sum(t, 10) && (Reduced(s) <==> Reduced(t))
  {
    forall i | 0 <= i < 10 ensures s[i] == t[i] {
      assert s[..10][i] == t[..10][i];
    }
    SumSame(s, t, 10);
  }

  /** A swap of coordinates moves the multiples they stand for. */
  method SwapPoints<P(!new)>(x: array<Int64>, z: array<Int64>, x': array<Int64>, z': array<Int64>, bit: int,
                             ghost c: Curve<P>, ghost m: nat, ghost m': nat)
    requires At(c, x, z, m) && At(c, x', z', m') && 0 <= bit <= 1 && Distinct([x, z, x', z'])
    modifies x, z, x', z'
    ensures At(c, x, z, if bit == 1 then m' else m) && At(c, x', z', if bit == 1 then m else m')
  {
    hide Sum, Reduced, Times;
    var all := [x, z, x', z'];
    assert all[0] == x && all[1] == z && all[2] == x' && all[3] == z';
    ghost var s, t, s', t' := x[..], z[..], x'[..], z'[..];
    SwapConditional(x, x', bit);
    SwapConditional(z, z', bit);
    SameLimbs(x[..], if bit == 1 then s' else s);
    SameLimbs(x'[..], if bit == 1 then s else s');
    SameLimbs(z[..], if bit == 1 then t' else t);
    SameLimbs(z'[..], if bit == 1 then t else t');
  }

  /** One bit of the scalar: from the multiples n and n + 1 to 2n + bit and 2n + bit + 1. */
  method LadderBit<P(!new)>(nqx: array<Int64>, nqz: array<Int64>, nqpqx: array<Int64>, nqpqz: array<Int64>,
                            nqx2: array<Int64>, nqz2: array<Int64>, nqpqx2: array<Int64>, nqpqz2: array<Int64>,
                            bit: int, q: array<Int64>, ghost c: Curve<P>, ghost n: nat)
    requires Montgomery(c) && Element(q) && F(q) == c.x1 && 0 <= bit <= 1
    requires Distinct([nqx2, nqz2, nqpqx2, nqpqz2, nqx, nqz, nqpqx, nqpqz, q])
    requires nqx2.Length == nqz2.Length == nqpqx2.Length == nqpqz2.Length == 19
    requires At(c, nqx, nqz, n) && At(c, nqpqx, nqpqz, n + 1)
    modifies nqx, nqz, nqpqx, nqpqz, nqx2, nqz2, nqpqx2, nqpqz2
    ensures At(c, nqx2, nqz2, 2 * n + bit) && At(c, nqpqx2, nqpqz2, 2 * n + bit + 1)
  {
    hide Sum, Reduced, Montgomery, Times, Distinct, Congruent, DoubleX, DoubleZ, AddX, AddZ;
    NineApart(nqx2, nqz2, nqpqx2, nqpqz2, nqx, nqz, nqpqx, nqpqz, q);
    FourApart(nqx, nqz, nqpqx, nqpqz);
    FourApart(nqx2, nqz2, nqpqx2, nqpqz2);
    SwapPoints(nqx, nqz, nqpqx, nqpqz, bit, c, n, n + 1);
    ghost var x, z, x', z' := F(nqx), F(nqz), F(nqpqx), F(nqpqz);
    FMonty(nqx2, nqz2, nqpqx2, nqpqz2, nqx, nqz, nqpqx, nqpqz, q);
    StepCoordinates(c, n, bit, x, z, x', z', F(nqx2), F(nqz2), F(nqpqx2), F(nqpqz2));
    SwapPoints(nqx2, nqz2, nqpqx2, nqpqz2, bit, c, 2 * n + 2 * bit, 2 * n + 1);
  }

  lemma FourApart(x: array<Int64>, z: array<Int64>, x': array<Int64>, z': array<Int64>)
    requires x !in {z, x', z'} && z !in {x', z'} && x' != z'
    ensures Distinct([x, z, x', z'])
  {
  }

  /** The bits of a byte from the highest on: `low` are those still to come. */
  lemma {:induction false} NextBitOf(byte: Byte, low: nat, j: nat)
    requires j < 8 && low < Two(8 - j) && byte == low * Two(j)
    ensures byte / 128 == low / Two(7 - j) <= 1
    ensures byte * 2 % 256 == (low % Two(7 - j)) * Two(j + 1)
  {
    hide Pow;
    TwoAdd(j, 7 - j);
    TwoAdd(j + 1, 7 - j);
    TwoAdd(j, 1);
    TwoAdd(7 - j, 1);
    SmallTwos();
    ShiftOut(byte, low, Two(j), Two(7 - j));
  }

  lemma SmallTwos()
    ensures Two(1) == 2 && Two(7) == 128 && Two(8) == 256
  {
    assert Two(2) == 4 && Two(3) == 8;
    assert Two(5) == 32;
  }

  lemma {:induction false} ShiftOut(byte: nat, low: nat, t: nat, u: nat)
    requires 0 < t && 0 < u && t * u == 128 && low < 2 * u && byte == low * t
    ensures byte / 128 == low / u <= 1 && byte * 2 % 256 == (low % u) * (2 * t)
  {
    var bit, rest := low / u, low % u;
    assert low == u * bit + rest;
    DivBelow(low, u, 2);
    assert low * t == (t * u) * bit + rest * t;
    FitsStep(0, rest, t, u);
    assert rest * t < u * t;
    DivUnique(byte, 128, bit, rest * t);
    assert byte * 2 == bit * 256 + (rest * t) * 2;
    DivUnique(byte * 2, 256, bit, (rest * t) * 2);
  }

  /** Limbs that are all zero but the first. */
  method NewElement(first: int) returns (a: array<Int64>)
    requires 0 <= first <= 1
    ensures fresh(a) && a.Length == 19 && Element(a) && F(a) == first
  {
    a := new Int64[19](i => if i == 0 then first else 0);
    FirstOnly(a[..], 10);
  }

  lemma {:induction false} FirstOnly(s: seq<int>, n: nat)
    requires 1 <= n <= |s| && forall i :: 1 <= i < n ==> s[i] == 0
    ensures Sum(s, n) == s[0]
  {
    if n > 1 {
      FirstOnly(s, n - 1);
    } else {
      assert Sum(s, 0) == 0 && Weight(0) == 1;
    }
  }

  /** The multiple of q that the bits read so far make, with the next multiple. */
  ghost predicate OnLadder<P(!new)>(c: Curve<P>, nqx: array<Int64>, nqz: array<Int64>, nqpqx: array<Int64>, nqpqz: array<Int64>, n: nat)
    reads nqx, nqz, nqpqx, nqpqz
  {
    At(c, nqx, nqz, n) && At(c, nqpqx, nqpqz, n + 1)
  }

  /** The next power of two for one bit more. */
  lemma {:induction false} BitRead(m: nat, low: nat, j: nat)
    requires j < 8 && low < Two(8 - j)
    ensures (2 * m + low / Two(7 - j)) * Two(7 - j) + low % Two(7 - j) == m * Two(8 - j) + low
  {
    hide Pow;
    TwoAdd(7 - j, 1);
    SmallTwos();
    OneBit(m, low, Two(7 - j));
  }

  lemma OneBit(m: nat, low: nat, u: nat)
    requires 0 < u
    ensures (2 * m + low / u) * u + low % u == m * (u * 2) + low
  {
    assert low == u * (low / u) + low % u;
  }

  /** The eight bits of a byte; the working arrays trade places after each. */
  method LadderByte<P(!new)>(nqx: array<Int64>, nqz: array<Int64>, nqpqx: array<Int64>, nqpqz: array<Int64>,
                             nqx2: array<Int64>, nqz2: array<Int64>, nqpqx2: array<Int64>, nqpqz2: array<Int64>,
                             scalarByte: Byte, q: array<Int64>, ghost c: Curve<P>, ghost n: nat)
    requires Montgomery(c) && Element(q) && F(q) == c.x1
    requires Distinct([nqx2, nqz2, nqpqx2, nqpqz2, nqx, nqz, nqpqx, nqpqz, q])
    requires Long([nqx2, nqz2, nqpqx2, nqpqz2, nqx, nqz, nqpqx, nqpqz])
    requires OnLadder(c, nqx, nqz, nqpqx, nqpqz, n)
    modifies nqx, nqz, nqpqx, nqpqz, nqx2, nqz2, nqpqx2, nqpqz2
    ensures OnLadder(c, nqx, nqz, nqpqx, nqpqz, 256 * n + scalarByte)
  {
    hide Sum, Reduced, Montgomery, Distinct, Value, Pow, At, Long;
    NineApart(nqx2, nqz2, nqpqx2, nqpqz2, nqx, nqz, nqpqx, nqpqz, q);
    Swapped(nqx2, nqz2, nqpqx2, nqpqz2, nqx, nqz, nqpqx, nqpqz, q);
    AllLong(nqx2, nqz2, nqpqx2, nqpqz2, nqx, nqz, nqpqx, nqpqz);
    var x, z, px, pz, x2, z2, px2, pz2 := nqx, nqz, nqpqx, nqpqz, nqx2, nqz2, nqpqx2, nqpqz2;
    var byte: Byte := scalarByte;
    ghost var low: nat, m: nat := scalarByte, n;
    Ends();
    var j := 0;
    while j < 8
      invariant 0 <= j <= 8
      invariant if j % 2 == 0
                then x == nqx && z == nqz && px == nqpqx && pz == nqpqz && x2 == nqx2 && z2 == nqz2 && px2 == nqpqx2 && pz2 == nqpqz2
                else x2 == nqx && z2 == nqz && px2 == nqpqx && pz2 == nqpqz && x == nqx2 && z == nqz2 && px == nqpqx2 && pz == nqpqz2
      invariant OnLadder(c, x, z, px, pz, m)
      invariant Element(q) && F(q) == c.x1
      invariant low < Two(8 - j) && byte == low * Two(j) && m * Two(8 - j) + low == 256 * n + scalarByte
    {
      NextBitOf(byte, low, j);
      BitRead(m, low, j);
      var bit: nat := byte / 128;
      LadderBit(x, z, px, pz, x2, z2, px2, pz2, bit, q, c, m);
      x, x2 := x2, x;
      z, z2 := z2, z;
      px, px2 := px2, px;
      pz, pz2 := pz2, pz;
      byte := byte * 2 % 256;
      m, low := 2 * m + bit, low % Two(7 - j);
      j := j + 1;
    }
  }

  lemma Ends()
    ensures Two(0) == 1 && Two(8) == 256
  {
    SmallTwos();
  }

  ghost predicate Long(s: seq<array<Int64>>)
  {
    forall i :: 0 <= i < |s| ==> s[i].Length == 19
  }

  lemma AllLong(x2: array<Int64>, z2: array<Int64>, x3: array<Int64>, z3: array<Int64>,
                x: array<Int64>, z: array<Int64>, x': array<Int64>, z': array<Int64>)
    requires Long([x2, z2, x3, z3, x, z, x', z'])
    ensures x2.Length == z2.Length == x3.Length == z3.Length == x.Length == z.Length == x'.Length == z'.Length == 19
  {
    var s := [x2, z2, x3, z3, x, z, x', z'];
    assert s[0] == x2 && s[1] == z2 && s[2] == x3 && s[3] == z3 && s[4] == x && s[5] == z && s[6] == x' && s[7] == z';
  }

  lemma Swapped(x2: array<Int64>, z2: array<Int64>, x3: array<Int64>, z3: array<Int64>,
                x: array<Int64>, z: array<Int64>, x': array<Int64>, z': array<Int64>, q: array<Int64>)
    requires Distinct([x2, z2, x3, z3, x, z, x', z', q])
    ensures Distinct([x, z, x', z', x2, z2, x3, z3, q])
  {
    NineApart(x2, z2, x3, z3, x, z, x', z', q);
  }

  /** All bytes of the scalar, the highest first. */
  method LadderBytes<P(!new)>(nqx: array<Int64>, nqz: array<Int64>, nqpqx: array<Int64>, nqpqz: array<Int64>,
                              nqx2: array<Int64>, nqz2: array<Int64>, nqpqx2: array<Int64>, nqpqz2: array<Int64>,
                              n: seq<Byte>, q: array<Int64>, ghost c: Curve<P>)
    requires Montgomery(c) && |n| == 32 && Element(q) && F(q) == c.x1
    requires Distinct([nqx2, nqz2, nqpqx2, nqpqz2, nqx, nqz, nqpqx, nqpqz, q])
    requires Long([nqx2, nqz2, nqpqx2, nqpqz2, nqx, nqz, nqpqx, nqpqz])
    requires OnLadder(c, nqx, nqz, nqpqx, nqpqz, 0)
    modifies nqx, nqz, nqpqx, nqpqz, nqx2, nqz2, nqpqx2, nqpqz2
    ensures At(c, nqx, nqz, Value(256, n))
  {
    hide Sum, Reduced, Montgomery, Distinct, Value, Pow, At, Long;
    NineApart(nqx2, nqz2, nqpqx2, nqpqz2, nqx, nqz, nqpqx, nqpqz, q);
    ghost var scalar: nat := 0;
    ValueFrom(256, n, 32);
    var i := 0;
    while i < 32
      invariant 0 <= i <= 32 && scalar == Value(256, n[32 - i..])
      invariant Element(q) && F(q) == c.x1
      invariant OnLadder(c, nqx, nqz, nqpqx, nqpqz, scalar)
    {
      LadderByte(nqx, nqz, nqpqx, nqpqz, nqx2, nqz2, nqpqx2, nqpqz2, n[31 - i], q, c, scalar);
      ValueFrom(256, n, 31 - i);
      scalar := 256 * scalar + n[31 - i];
      i := i + 1;
    }
    assert n[0..] == n;
  }

  /** The scalar multiple of the point with coordinate q, for 32 bytes of scalar. */
  method CMult<P(!new)>(resultx: array<Int64>, resultz: array<Int64>, n: seq<Byte>, q: array<Int64>, ghost c: Curve<P>)
    requires Montgomery(c) && |n| == 32 && Element(q) && F(q) == c.x1
    requires resultx.Length >= 10 && resultz.Length >= 10 && resultx != resultz
    modifies resultx, resultz
    ensures At(c, resultx, resultz, Value(256, n))
  {
    hide Sum, Reduced, Montgomery, Distinct, Value, Pow, At, Long;
    var nqpqx := NewElement(0);
    var nqpqz := NewElement(1);
    var nqx := NewElement(1);
    var nqz := NewElement(0);
    var nqpqx2 := NewElement(0);
    var nqpqz2 := NewElement(1);
    var nqx2 := NewElement(0);
    var nqz2 := NewElement(1);
    Apart(nqx2, nqz2, nqpqx2, nqpqz2, nqx, nqz, nqpqx, nqpqz, q);
    CopyLimbs(nqpqx, q);
    StartOfLadder(c, nqx, nqz, nqpqx, nqpqz);
    LadderBytes(nqx, nqz, nqpqx, nqpqz, nqx2, nqz2, nqpqx2, nqpqz2, n, q, c);
    CopyPoint(resultx, resultz, nqx, nqz, c, Value(256, n));
  }

  method CopyPoint<P(!new)>(resultx: array<Int64>, resultz: array<Int64>, x: array<Int64>, z: array<Int64>, ghost c: Curve<P>, ghost n: nat)
    requires At(c, x, z, n) && resultx.Length >= 10 && resultz.Length >= 10 && resultx != resultz
    requires resultx !in {x, z} && resultz !in {x, z}
    modifies resultx, resultz
    ensures At(c, resultx, resultz, n)
  {
    hide Sum, Reduced, Times;
    CopyLimbs(resultx, x);
    CopyLimbs(resultz, z);
  }

  lemma Apart(x2: array<Int64>, z2: array<Int64>, x3: array<Int64>, z3: array<Int64>,
              x: array<Int64>, z: array<Int64>, x': array<Int64>, z': array<Int64>, q: array<Int64>)
    requires x2 !in {z2, x3, z3, x, z, x', z', q} && z2 !in {x3, z3, x, z, x', z', q}
    requires x3 !in {z3, x, z, x', z', q} && z3 !in {x, z, x', z', q}
    requires x !in {z, x', z', q} && z !in {x', z', q} && x' !in {z', q} && z' != q
    requires x2.Length == z2.Length == x3.Length == z3.Length == x.Length == z.Length == x'.Length == z'.Length == 19
    ensures Distinct([x2, z2, x3, z3, x, z, x', z', q]) && Long([x2, z2, x3, z3, x, z, x', z'])
  {
  }

  lemma StartOfLadder<P(!new)>(c: Curve<P>, nqx: array<Int64>, nqz: array<Int64>, nqpqx: array<Int64>, nqpqz: array<Int64>)
    requires Montgomery(c) && Element(nqx) && Element(nqz) && Element(nqpqx) && Element(nqpqz)
    requires F(nqx) == 1 && F(nqz) == 0 && F(nqpqx) == c.x1 && F(nqpqz) == 1
    ensures OnLadder(c, nqx, nqz, nqpqx, nqpqz, 0)
  {
    hide Montgomery, IsGroup, Reduced, Sum;
    GroupOf(c);
    NextTimes(c.g, 0, c.q);
    Zero(c.g, c.q);
  }

  // ----- the whole

  /** A secret as a scalar: a multiple of 8 with bit 254 as its highest. */
  function Clamped(secret: seq<Byte>): (e: seq<Byte>)
    requires |secret| == 32
    ensures |e| == 32
  {
    var low := secret[0] / 8 * 8;
    var high := secret[31] % 128;
    secret[0 := low][31 := if high < 64 then high + 64 else high]
  }

  lemma {:induction false} ClampedScalar(secret: seq<Byte>)
    requires |secret| == 32
    ensures var v := Value(256, Clamped(secret)); v % 8 == 0 && Two(254) <= v < Two(255)
  {
    hide Value, Pow;
    var e := Clamped(secret);
    ValueFrom(256, e, 0);
    assert e[0..] == e;
    Eighths(e[0], Value(256, e[1..]));
    ValueSplit(256, e, 31);
    ValueFrom(256, e, 31);
    ValueFrom(256, e, 32);
    ValueBound(256, e[..31]);
    PowOfBytes(31);
    TwoAdd(248, 6);
    TwoAdd(248, 7);
    SixthTwo();
    TopByteBound(Value(256, e[..31]), Two(248), e[31]);
  }

  lemma Eighths(d: int, v: int)
    requires d % 8 == 0
    ensures (d + 256 * v) % 8 == 0
  {
    DivUnique(d + 256 * v, 8, d / 8 + 32 * v, 0);
  }

  lemma SixthTwo()
    ensures Two(6) == 64 && Two(7) == 128
  {
    SmallTwos();
    assert Two(7) == 2 * Two(6);
  }

  lemma {:induction false} TopByteBound(v: int, w: int, d: int)
    requires 0 <= v < w && 64 <= d < 128
    ensures w * 64 <= v + w * d < w * 128
  {
    MulOrder(w, 64, d);
    MulOrder(w, d + 1, 128);
    assert w * (d + 1) == w * d + w;
  }

  /** Some coordinates of the n-th multiple whose quotient is r. */
  ghost predicate IsQuotient<P(!new)>(c: Curve<P>, n: nat, r: int)
  {
    exists x, z :: c.on(x, z, Times(c.g, n, c.q)) && IsRatio(x, z, r)
  }

  /** The least representative of x times the power of z that is its reciprocal. */
  ghost predicate IsRatio(x: int, z: int, r: int)
  {
    exists w :: IsReciprocal(w, z) && r == (x * w) % PRIME
  }

  /** The coordinate of a multiple of a point, from a secret and the coordinate of the point. */
  method Donna<P(!new)>(mypublic: array<Byte>, secret: seq<Byte>, basepoint: seq<Byte>, ghost c: Curve<P>)
    requires mypublic.Length == 32 && |secret| == |basepoint| == 32
    requires Montgomery(c) && c.x1 == Value(256, basepoint) % Weight(10)
    modifies mypublic
    ensures IsQuotient(c, Value(256, Clamped(secret)), Value(256, mypublic[..]))
  {
    hide Sum, Value, Pow, Weight, Montgomery, Times, IsReciprocal, Clamped, Congruent;
    var bp, x, z, zmone := new Int64[10], new Int64[10], new Int64[11], new Int64[10];
    var e := Clamped(secret);
    FExpand(bp, basepoint);
    CMult(x, z, e, bp, c);
    ghost var vx, vz := F(x), F(z);
    CRecip(zmone, z);
    ghost var w := F(zmone);
    FMul(z, x, zmone);
    FContract(mypublic, z);
    SameRemainder(F(z), vx * w);
    assert IsRatio(vx, vz, Value(256, mypublic[..]));
  }
}
