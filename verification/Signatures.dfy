/** Ed25519 signatures (RFC 8032, sections 5.1.5 to 5.1.7) over an abstract group, hash and encoding. */
module Signatures {
  import opened Arith
  import opened Positional
  import opened Bytes
  import opened Options
  import opened Limbs
  import opened ScalarBytes
  import opened Scalars
  import opened Slides
  import opened AbelianGroups
  import opened GroupElements

  /** The group with its tables for the base point, the encoding of points, and the hash. */
  datatype Scheme<!P> = Scheme(
    g: Group<P>, base: P, baseTable: seq<seq<P>>, oddTable: seq<P>,
    encode: P -> seq<Byte>, decodeNegate: seq<Byte> -> Option<P>, hash: seq<Byte> -> seq<Byte>)

  ghost predicate Proper<P(!new)>(c: Scheme<P>)
  {
    && IsGroup(c.g) && Mul(c.g, ORDER, c.base) == c.g.zero
    && BaseTable(c.g, c.baseTable, c.base) && OddMultiples(c.g, c.oddTable, c.base)
    && (forall p :: |c.encode(p)| == 32)
    && (forall p :: c.decodeNegate(c.encode(p)) == Some(c.g.neg(p)))
    && (forall m :: |c.hash(m)| == 64)
  }

  /** A hash as a scalar. */
  ghost function HashScalar<P>(c: Scheme<P>, m: seq<Byte>): int
  {
    Value(256, c.hash(m)) % ORDER
  }

  /** The signature the standard defines. */
  ghost predicate Signs<P>(c: Scheme<P>, message: seq<Byte>, publicKey: seq<Byte>, privateKey: seq<Byte>, signature: seq<Byte>)
    requires |privateKey| == 64 && |signature| == 64
  {
    var r := HashScalar(c, privateKey[32..] + message);
    var h := HashScalar(c, signature[..32] + publicKey + message);
    && signature[..32] == c.encode(Mul(c.g, r, c.base))
    && Value(256, signature[32..]) == (h * Value(256, privateKey[..32]) + r) % ORDER
  }

  /** What verification checks. */
  ghost predicate Accepts<P>(c: Scheme<P>, message: seq<Byte>, publicKey: seq<Byte>, signature: seq<Byte>)
    requires |signature| == 64
  {
    && signature[63] < 32
    && c.decodeNegate(publicKey).Some?
    && var h := HashScalar(c, signature[..32] + publicKey + message);
       c.encode(Combined(c.g, h, c.decodeNegate(publicKey).value, Value(256, signature[32..]), c.base)) == signature[..32]
  }

  /** A hash reduced to a scalar of 32 bytes. */
  method ReducedHash<P(!new)>(c: Scheme<P>, m: seq<Byte>) returns (scalar: seq<Byte>)
    requires Proper(c)
    ensures |scalar| == 32 && Value(256, scalar) == HashScalar(c, m) < ORDER
    ensures scalar[31] <= 31
  {
    hide Value, Pow;
    var h := c.hash(m);
    var s := new Byte[64](i requires 0 <= i < 64 => h[i]);
    assert s[..] == h;
    ScReduce(s);
    scalar := s[..32];
    TopByte(scalar);
  }

  lemma OrderBelow()
    ensures ORDER < TWO_253
  {
  }

  /** A number below the order leaves the top three bits of its last byte clear. */
  lemma {:induction false} TopByte(s: seq<Byte>)
    requires |s| == 32 && Value(256, s) < TWO_253
    ensures s[31] < 32
  {
    hide Value, Pow;
    ValueSplit(256, s, 31);
    OneByte(s[31..]);
    PowOfBytes(31);
    Two248();
  }

  /** And the other way round. */
  lemma {:induction false} TopByteBound(s: seq<Byte>)
    requires |s| == 32 && s[31] < 32
    ensures Value(256, s) < TWO_253
  {
    hide Value, Pow;
    ValueSplit(256, s, 31);
    ValueBound(256, s[..31]);
    OneByte(s[31..]);
    PowOfBytes(31);
    Two248();
  }

  lemma Two248()
    ensures 32 * Two(248) == TWO_253
  {
    hide Pow;
    Two255();
    PowAdd(2, 248, 7);
    assert Two(7) == 128 by { TwoSeven(); }
  }

  lemma TwoSeven()
    ensures Two(7) == 128
  {
    assert Pow(2, 3) == 8;
  }

  /** `ed25519_sign`. */
  method Sign<P(!new)>(c: Scheme<P>, message: seq<Byte>, publicKey: seq<Byte>, privateKey: seq<Byte>) returns (signature: seq<Byte>)
    requires Proper(c) && |privateKey| == 64
    ensures |signature| == 64 && Signs(c, message, publicKey, privateKey, signature)
  {
    hide Value, Pow, Mul, IsGroup, BaseTable, OddMultiples;
    var r := ReducedHash(c, privateKey[32..] + message);
    var point := ScalarMultBase(c.g, r, c.baseTable, c.base);
    var first := c.encode(point);
    var hram := ReducedHash(c, first + publicKey + message);
    var s := new Byte[32](_ => 0);
    ScMulAdd(s, hram, privateKey[..32], r);
    signature := first + s[..];
    assert signature[..32] == first && signature[32..] == s[..];
  }

  /** Different points have different encodings. */
  ghost predicate Injective<P(!new)>(c: Scheme<P>)
  {
    forall p, q :: c.encode(p) == c.encode(q) ==> p == q
  }

  /** The equation of the standard: s B = R + h A, for a number s that leaves the top three bits clear. */
  ghost predicate EquationHolds<P>(c: Scheme<P>, message: seq<Byte>, publicKey: seq<Byte>, a: P, r: P, s: nat)
  {
    var h := Value(256, c.hash(c.encode(r) + publicKey + message)) % ORDER;
    s < Pow(2, 253) && Mul(c.g, s, c.base) == c.g.add(r, Mul(c.g, h, a))
  }

  lemma Two253()
    ensures Pow(2, 253) == TWO_253
  {
    hide Pow;
    Two248();
    PowAdd(2, 248, 5);
    assert Pow(2, 5) == 32 by { TwoFive(); }
  }

  lemma TwoFive()
    ensures Pow(2, 5) == 32
  {
    assert Pow(2, 3) == 8;
  }

  /** What is accepted satisfies the equation in the group, and nothing else is accepted. */
  lemma {:induction false} AcceptedIff<P(!new)>(c: Scheme<P>, message: seq<Byte>, publicKey: seq<Byte>, signature: seq<Byte>, a: P, r: P)
    requires Proper(c) && Injective(c) && |signature| == 64
    requires publicKey == c.encode(a) && signature[..32] == c.encode(r)
    ensures Accepts(c, message, publicKey, signature) <==> EquationHolds(c, message, publicKey, a, r, Value(256, signature[32..]))
  {
    hide Value, Pow, Mul, IsGroup, BaseTable, OddMultiples, Combined;
    var s := Value(256, signature[32..]);
    var h := HashScalar(c, signature[..32] + publicKey + message);
    Two253();
    assert signature[32..][31] == signature[63];
    if signature[63] < 32 {
      TopByteBound(signature[32..]);
    }
    if s < TWO_253 {
      TopByte(signature[32..]);
    }
    assert c.decodeNegate(publicKey) == Some(c.g.neg(a));
    Moved(c.g, h, a, s, c.base, r);
  }

  /** Taking h times a to the other side. */
  lemma {:induction false} Moved<P(!new)>(g: Group<P>, h: int, a: P, s: int, b: P, r: P)
    requires IsGroup(g)
    ensures Combined(g, h, g.neg(a), s, b) == r <==> Mul(g, s, b) == g.add(r, Mul(g, h, a))
  {
    hide IsGroup, Mul;
    var x, y := Mul(g, h, a), Mul(g, s, b);
    MulOfNeg(g, h, a);
    MulNeg(g, h, a);
    Commutes(g, g.neg(x), y);
    Associates(g, y, g.neg(x), x);
    Commutes(g, g.neg(x), x);
    Inverse(g, x);
    Zero(g, y);
    Associates(g, r, x, g.neg(x));
    Zero(g, r);
  }

  /** The base point has no smaller order. */
  ghost predicate ExactOrder<P>(c: Scheme<P>)
  {
    forall k: int :: Mul(c.g, k, c.base) == c.g.zero ==> k % ORDER == 0
  }

  /** The second half of an accepted signature is determined by the first, if it is a reduced scalar. */
  lemma {:induction false} SecondHalfUnique<P(!new)>(c: Scheme<P>, message: seq<Byte>, publicKey: seq<Byte>, x: seq<Byte>, y: seq<Byte>)
    requires Proper(c) && Injective(c) && ExactOrder(c) && |x| == |y| == 64 && x[..32] == y[..32]
    requires Accepts(c, message, publicKey, x) && Accepts(c, message, publicKey, y)
    requires Value(256, x[32..]) < ORDER && Value(256, y[32..]) < ORDER
    ensures x == y
  {
    hide Value, Pow, Mul, IsGroup, BaseTable, OddMultiples, Combined;
    var h := HashScalar(c, x[..32] + publicKey + message);
    var a, s, t := c.decodeNegate(publicKey).value, Value(256, x[32..]), Value(256, y[32..]);
    SameSummand(c.g, h, a, s, t, c.base);
    assert Mul(c.g, s - t, c.base) == c.g.zero;
    SameRemainderBelow(s, t, ORDER);
    DigitsUnique(x[32..], y[32..]);
    assert x == x[..32] + x[32..] && y == y[..32] + y[32..];
  }

  lemma SameRemainderBelow(s: nat, t: nat, l: nat)
    requires 0 < l && s < l && t < l && (s - t) % l == 0
    ensures s == t
  {
    RemainderUnique(l, if s < t then -1 else 0, if s < t then s - t + l else s - t, (s - t) / l, 0);
  }

  lemma {:induction false} SameSummand<P(!new)>(g: Group<P>, h: int, a: P, s: int, t: int, b: P)
    requires IsGroup(g) && Combined(g, h, a, s, b) == Combined(g, h, a, t, b)
    ensures Mul(g, s - t, b) == g.zero
  {
    hide IsGroup, Mul;
    CombinedWith(g, h, s, -t, a, b);
    CombinedWith(g, h, t, -t, a, b);
    var x, y := Mul(g, h, a), Mul(g, s - t, b);
    MulOne(g, b);
    Zero(g, x);
    Associates(g, g.neg(x), x, y);
    Commutes(g, g.neg(x), x);
    Inverse(g, x);
    Zero(g, y);
  }

  /** Little-endian bytes are determined by the number they stand for. */
  lemma {:induction false} DigitsUnique(x: seq<Byte>, y: seq<Byte>)
    requires |x| == |y| && Value(256, x) == Value(256, y)
    ensures x == y
  {
    if x != [] {
      DivUnique(Value(256, x), 256, Value(256, x[1..]), x[0]);
      DivUnique(Value(256, y), 256, Value(256, y[1..]), y[0]);
      DigitsUnique(x[1..], y[1..]);
      assert x == [x[0]] + x[1..] && y == [y[0]] + y[1..];
    }
  }

  /** `ed25519_verify`. */
  method Verify<P(!new)>(c: Scheme<P>, message: seq<Byte>, publicKey: seq<Byte>, signature: seq<Byte>) returns (ok: bool)
    requires Proper(c) && |signature| == 64
    ensures ok <==> Accepts(c, message, publicKey, signature)
    ensures forall a: P, r: P :: Injective(c) && publicKey == c.encode(a) && signature[..32] == c.encode(r) ==>
              (ok <==> EquationHolds(c, message, publicKey, a, r, Value(256, signature[32..])))
    ensures ok && Injective(c) ==> exists r: P :: signature[..32] == c.encode(r)
  {
    hide Value, Pow, Mul, IsGroup, BaseTable, OddMultiples, Combined, Injective, EquationHolds;
    forall a: P, r: P | Injective(c) && publicKey == c.encode(a) && signature[..32] == c.encode(r)
      ensures Accepts(c, message, publicKey, signature) <==> EquationHolds(c, message, publicKey, a, r, Value(256, signature[32..]))
    {
      AcceptedIff(c, message, publicKey, signature, a, r);
    }
    if signature[63] >= 32 {
      return false;
    }
    var a := c.decodeNegate(publicKey);
    if a.None? {
      return false;
    }
    var h := ReducedHash(c, signature[..32] + publicKey + message);
    OrderBelow();
    assert signature[32..][31] == signature[63];
    TopByteBound(signature[32..]);
    var r := DoubleScalarMult(c.g, h, a.value, signature[32..], c.oddTable, c.base);
    ok := c.encode(r) == signature[..32];
  }

  /** `ed25519_create_keypair`. */
  method CreateKeypair<P(!new)>(c: Scheme<P>, seed: seq<Byte>) returns (publicKey: seq<Byte>, privateKey: seq<Byte>)
    requires Proper(c)
    ensures |privateKey| == 64 && KeyOf(c, publicKey, privateKey)
    ensures var h := c.hash(seed); privateKey == h[0 := h[0] as int / 8 * 8][31 := h[31] as int % 64 + 64]
  {
    hide Value, Pow, Mul, IsGroup, BaseTable, OddMultiples;
    privateKey := c.hash(seed);
    privateKey := privateKey[0 := privateKey[0] as int / 8 * 8];
    privateKey := privateKey[31 := privateKey[31] as int % 64 + 64];
    var point := ScalarMultBase(c.g, privateKey[..32], c.baseTable, c.base);
    publicKey := c.encode(point);
  }

  /** The public key that belongs to a private key. */
  ghost predicate KeyOf<P>(c: Scheme<P>, publicKey: seq<Byte>, privateKey: seq<Byte>)
    requires |privateKey| == 64
  {
    publicKey == c.encode(Mul(c.g, Value(256, privateKey[..32]), c.base))
  }

  /** Every signature made with a key pair is accepted. */
  lemma {:induction false} SignaturesVerify<P(!new)>(c: Scheme<P>, message: seq<Byte>, publicKey: seq<Byte>, privateKey: seq<Byte>, signature: seq<Byte>)
    requires Proper(c) && |privateKey| == 64 && |signature| == 64
    requires KeyOf(c, publicKey, privateKey) && Signs(c, message, publicKey, privateKey, signature)
    ensures Accepts(c, message, publicKey, signature)
  {
    hide Value, Pow, Mul, IsGroup, BaseTable, OddMultiples, Combined;
    var a, s := Value(256, privateKey[..32]), Value(256, signature[32..]);
    var r := HashScalar(c, privateKey[32..] + message);
    var h := HashScalar(c, signature[..32] + publicKey + message);
    OrderBelow();
    TopByte(signature[32..]);
    assert signature[32..][31] == signature[63];
    Cancellation(c.g, h, a, r, s, c.base);
  }

  /** From a seed: what is signed with its key pair is accepted, and the signature is the one the standard
      derives from the two halves of the seed's hash. */
  method SignWithSeed<P(!new)>(c: Scheme<P>, seed: seq<Byte>, message: seq<Byte>)
      returns (publicKey: seq<Byte>, signature: seq<Byte>, ok: bool)
    requires Proper(c)
    ensures ok && |signature| == 64
    ensures var d := c.hash(seed);
            var a := Value(256, [d[0] as int / 8 * 8] + d[1..31] + [d[31] as int % 64 + 64]);
            var r := Value(256, c.hash(d[32..64] + message)) % ORDER;
            var h := Value(256, c.hash(signature[..32] + publicKey + message)) % ORDER;
            && publicKey == c.encode(Mul(c.g, a, c.base)) && signature[..32] == c.encode(Mul(c.g, r, c.base))
            && Value(256, signature[32..]) == (h * a + r) % ORDER
  {
    hide Value, Pow, Mul, IsGroup, BaseTable, OddMultiples, Combined, Injective, EquationHolds, Accepts;
    var privateKey;
    publicKey, privateKey := CreateKeypair(c, seed);
    signature := Sign(c, message, publicKey, privateKey);
    SignaturesVerify(c, message, publicKey, privateKey, signature);
    ok := Verify(c, message, publicKey, signature);
    ghost var d := c.hash(seed);
    assert privateKey[..32] == [d[0] as int / 8 * 8] + d[1..31] + [d[31] as int % 64 + 64];
    assert privateKey[32..] == d[32..64];
  }

  /** h times -(a times b), plus (ha + r) times b, is r times b. */
  lemma {:induction false} Cancellation<P(!new)>(g: Group<P>, h: int, a: int, r: int, s: int, b: P)
    requires IsGroup(g) && Mul(g, ORDER, b) == g.zero && s == (h * a + r) % ORDER
    ensures Combined(g, h, g.neg(Mul(g, a, b)), s, b) == Mul(g, r, b)
  {
    hide IsGroup, Mul;
    MulModOrder(g, ORDER, h * a + r, b);
    MulOfNeg(g, h, Mul(g, a, b));
    MulMul(g, -h, a, b);
    MulPlus(g, -h * a, h * a + r, b);
    assert -h * a + (h * a + r) == r;
  }
}
