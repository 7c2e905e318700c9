/** The column transformations of AES on packed words, as crypto/aes.c makes them. */
module AesWords {

  // ----- addition of bytes

  /** Addition in GF(2^8). */
  function Plus(x: bv8, y: bv8): bv8 { x ^ y }

  lemma PlusIs(x: bv8, y: bv8)
    ensures Plus(x, y) == x ^ y
  {
  }

  lemma Xor3(x: bv8, y: bv8, z: bv8, p: bv8, q: bv8)
    requires p == y ^ z && q == x ^ p
    ensures q == x ^ y ^ z
  {
  }

  lemma Xor4(a: bv8, b: bv8, c: bv8, d: bv8, s: bv8, t: bv8, m: bv8)
    requires s == a ^ b && t == c ^ d && m == s ^ t
    ensures m == a ^ b ^ c ^ d
  {
  }

  lemma PlusIs3(x: bv8, y: bv8, z: bv8)
    ensures Plus(x, Plus(y, z)) == x ^ y ^ z
  {
    hide Plus;
    PlusIs(y, z);
    PlusIs(x, Plus(y, z));
    Xor3(x, y, z, Plus(y, z), Plus(x, Plus(y, z)));
  }

  lemma PlusIs4(a: bv8, b: bv8, c: bv8, d: bv8)
    ensures Plus(Plus(a, b), Plus(c, d)) == a ^ b ^ c ^ d
  {
    hide Plus;
    PlusIs(a, b);
    PlusIs(c, d);
    PlusIs(Plus(a, b), Plus(c, d));
    Xor4(a, b, c, d, Plus(a, b), Plus(c, d), Plus(Plus(a, b), Plus(c, d)));
  }

  lemma XorOrder(a: bv8, b: bv8, c: bv8, d: bv8)
    ensures a ^ b ^ c ^ d == a ^ c ^ b ^ d == d ^ a ^ b ^ c == c ^ d ^ a ^ b
  {
  }

  lemma PlusSwap(a: bv8, b: bv8, c: bv8, d: bv8)
    ensures Plus(Plus(a, b), Plus(c, d)) == Plus(Plus(a, c), Plus(b, d))
  {
    hide Plus;
    PlusIs4(a, b, c, d);
    PlusIs4(a, c, b, d);
    XorOrder(a, b, c, d);
  }

  lemma PlusTurn(a: bv8, b: bv8, c: bv8, d: bv8)
    ensures Plus(Plus(a, b), Plus(c, d)) == Plus(Plus(d, a), Plus(b, c))
    ensures Plus(Plus(a, b), Plus(c, d)) == Plus(Plus(c, d), Plus(a, b))
  {
    hide Plus;
    PlusIs4(a, b, c, d);
    PlusIs4(d, a, b, c);
    PlusIs4(c, d, a, b);
    XorOrder(a, b, c, d);
  }

  lemma PlusZero(x: bv8)
    ensures Plus(x, 0) == x && Plus(0, 0) == 0
  {
  }

  // ----- doubling

  /** `AES_xtime`: doubling modulo x^8 + x^4 + x^3 + x + 1. */
  function Xtime(x: bv8): bv8
  {
    if x & 0x80 != 0 then (x << 1) ^ 0x1b else x << 1
  }

  function Carry(x: bv8): bv8
  {
    if x & 0x80 != 0 then 0x1b else 0
  }

  lemma XtimeParts(x: bv8)
    ensures Xtime(x) == (x << 1) ^ Carry(x)
  {
  }

  lemma CarryXor(x: bv8, y: bv8)
    ensures Carry(x ^ y) == Carry(x) ^ Carry(y)
  {
  }

  lemma ShiftedXor(x: bv8, y: bv8, r: bv8, s: bv8, t: bv8, p: bv8, q: bv8, m: bv8)
    requires p == (x << 1) ^ r && q == (y << 1) ^ s && m == ((x ^ y) << 1) ^ t && t == r ^ s
    ensures m == p ^ q
  {
  }

  lemma XtimeXor(x: bv8, y: bv8)
    ensures Xtime(x ^ y) == Xtime(x) ^ Xtime(y)
  {
    hide Xtime, Carry;
    XtimeParts(x);
    XtimeParts(y);
    XtimeParts(x ^ y);
    CarryXor(x, y);
    ShiftedXor(x, y, Carry(x), Carry(y), Carry(x ^ y), Xtime(x), Xtime(y), Xtime(x ^ y));
  }

  lemma XtimePlus(x: bv8, y: bv8)
    ensures Xtime(Plus(x, y)) == Plus(Xtime(x), Xtime(y))
  {
    hide Plus, Xtime;
    PlusIs(x, y);
    XtimeXor(x, y);
    PlusIs(Xtime(x), Xtime(y));
  }

  function Times4(x: bv8): bv8 { Xtime(Xtime(x)) }

  function Times8(x: bv8): bv8 { Xtime(Xtime(Xtime(x))) }

  // ----- the multipliers of MixColumns and InvMixColumns (FIPS 197, sections 5.1.3 and 5.3.3)

  function Times3(x: bv8): bv8 { Plus(Xtime(x), x) }

  function Times9(x: bv8): bv8 { Plus(Times8(x), x) }

  function Times11(x: bv8): bv8 { Plus(Times8(x), Plus(Xtime(x), x)) }

  function Times13(x: bv8): bv8 { Plus(Times8(x), Plus(Times4(x), x)) }

  function Times14(x: bv8): bv8 { Plus(Times8(x), Plus(Times4(x), Xtime(x))) }

  /** One byte of MixColumns: 2a + 3b + c + d. */
  function Mixed(a: bv8, b: bv8, c: bv8, d: bv8): bv8
  {
    Plus(Plus(Xtime(a), Times3(b)), Plus(c, d))
  }

  /** One byte of InvMixColumns: 14a + 11b + 13c + 9d. */
  function Unmixed(a: bv8, b: bv8, c: bv8, d: bv8): bv8
  {
    Plus(Plus(Times14(a), Times11(b)), Plus(Times13(c), Times9(d)))
  }

  lemma TimesPlus(x: bv8, y: bv8)
    ensures Times4(Plus(x, y)) == Plus(Times4(x), Times4(y))
    ensures Times8(Plus(x, y)) == Plus(Times8(x), Times8(y))
    ensures Times9(Plus(x, y)) == Plus(Times9(x), Times9(y))
    ensures Times11(Plus(x, y)) == Plus(Times11(x), Times11(y))
    ensures Times13(Plus(x, y)) == Plus(Times13(x), Times13(y))
    ensures Times14(Plus(x, y)) == Plus(Times14(x), Times14(y))
  {
    hide Plus, Xtime;
    XtimePlus(x, y);
    XtimePlus(Xtime(x), Xtime(y));
    XtimePlus(Times4(x), Times4(y));
    PlusSwap(Times8(x), Times8(y), x, y);
    PlusSwap(Xtime(x), Xtime(y), x, y);
    PlusSwap(Times8(x), Times8(y), Plus(Xtime(x), x), Plus(Xtime(y), y));
    PlusSwap(Times4(x), Times4(y), x, y);
    PlusSwap(Times8(x), Times8(y), Plus(Times4(x), x), Plus(Times4(y), y));
    PlusSwap(Times4(x), Times4(y), Xtime(x), Xtime(y));
    PlusSwap(Times8(x), Times8(y), Plus(Times4(x), Xtime(x)), Plus(Times4(y), Xtime(y)));
  }

  lemma UnmixedPlus(a: bv8, b: bv8, c: bv8, d: bv8, a': bv8, b': bv8, c': bv8, d': bv8)
    ensures Unmixed(Plus(a, a'), Plus(b, b'), Plus(c, c'), Plus(d, d')) == Plus(Unmixed(a, b, c, d), Unmixed(a', b', c', d'))
  {
    hide Plus, Times9, Times11, Times13, Times14;
    TimesPlus(a, a');
    TimesPlus(b, b');
    TimesPlus(c, c');
    TimesPlus(d, d');
    PlusSwap(Times14(a), Times14(a'), Times11(b), Times11(b'));
    PlusSwap(Times13(c), Times13(c'), Times9(d), Times9(d'));
    PlusSwap(Plus(Times14(a), Times11(b)), Plus(Times14(a'), Times11(b')), Plus(Times13(c), Times9(d)), Plus(Times13(c'), Times9(d')));
  }

  // ----- InvMixColumns undoes MixColumns

  /** The coefficients of one byte through both: 1 for the byte itself, 0 for the others. */
  lemma OwnCoefficient(t1: bv8, t2: bv8, t4: bv8, t8: bv8, t16: bv8, e: bv8, b: bv8, d: bv8, n1: bv8, n2: bv8, n: bv8)
    requires e == t16 ^ t8 ^ t4 && b == t8 ^ t2 ^ t1 && d == t8 ^ t4 ^ t1
    requires n1 == t16 ^ t2 && n2 == t8 ^ t1 && n == n1 ^ n2
    ensures e ^ b ^ d ^ n == t1
  {
  }

  lemma NextCoefficient(t1: bv8, t2: bv8, t4: bv8, t8: bv8, t16: bv8, e1: bv8, e2: bv8, e: bv8, b: bv8, d: bv8, n: bv8)
    requires e1 == t16 ^ t8 ^ t4 && e2 == t8 ^ t4 ^ t2 && e == e1 ^ e2
    requires b == t16 ^ t4 ^ t2 && d == t8 ^ t4 ^ t1 && n == t8 ^ t1
    ensures e ^ b ^ d ^ n == 0
  {
  }

  lemma ThirdCoefficient(t1: bv8, t2: bv8, t4: bv8, t8: bv8, t16: bv8, e: bv8, b1: bv8, b2: bv8, b: bv8, d: bv8, n: bv8)
    requires e == t8 ^ t4 ^ t2 && b1 == t16 ^ t4 ^ t2 && b2 == t8 ^ t2 ^ t1 && b == b1 ^ b2
    requires d == t16 ^ t8 ^ t2 && n == t8 ^ t1
    ensures e ^ b ^ d ^ n == 0
  {
  }

  lemma LastCoefficient(t1: bv8, t2: bv8, t4: bv8, t8: bv8, t16: bv8, e: bv8, b: bv8, d1: bv8, d2: bv8, d: bv8, n: bv8)
    requires e == t8 ^ t4 ^ t2 && b == t8 ^ t2 ^ t1
    requires d1 == t16 ^ t8 ^ t2 && d2 == t8 ^ t4 ^ t1 && d == d1 ^ d2 && n == t16 ^ t2
    ensures e ^ b ^ d ^ n == 0
  {
  }

  lemma OwnSum(t1: bv8, t2: bv8, t4: bv8, t8: bv8, t16: bv8)
    ensures Plus(Plus(Plus(t16, Plus(t8, t4)), Plus(t8, Plus(t2, t1))),
                 Plus(Plus(t8, Plus(t4, t1)), Plus(Plus(t16, t2), Plus(t8, t1)))) == t1
  {
    hide Plus;
    var e, b, d, n1, n2 := Plus(t16, Plus(t8, t4)), Plus(t8, Plus(t2, t1)), Plus(t8, Plus(t4, t1)), Plus(t16, t2), Plus(t8, t1);
    PlusIs3(t16, t8, t4);
    PlusIs3(t8, t2, t1);
    PlusIs3(t8, t4, t1);
    PlusIs(t16, t2);
    PlusIs(t8, t1);
    PlusIs(n1, n2);
    PlusIs4(e, b, d, Plus(n1, n2));
    OwnCoefficient(t1, t2, t4, t8, t16, e, b, d, n1, n2, Plus(n1, n2));
  }

  lemma NextSum(t1: bv8, t2: bv8, t4: bv8, t8: bv8, t16: bv8)
    ensures Plus(Plus(Plus(Plus(t16, Plus(t8, t4)), Plus(t8, Plus(t4, t2))), Plus(t16, Plus(t4, t2))),
                 Plus(Plus(t8, Plus(t4, t1)), Plus(t8, t1))) == 0
  {
    hide Plus;
    var e1, e2, b, d, n := Plus(t16, Plus(t8, t4)), Plus(t8, Plus(t4, t2)), Plus(t16, Plus(t4, t2)), Plus(t8, Plus(t4, t1)), Plus(t8, t1);
    PlusIs3(t16, t8, t4);
    PlusIs3(t8, t4, t2);
    PlusIs3(t16, t4, t2);
    PlusIs3(t8, t4, t1);
    PlusIs(t8, t1);
    PlusIs(e1, e2);
    PlusIs4(Plus(e1, e2), b, d, n);
    NextCoefficient(t1, t2, t4, t8, t16, e1, e2, Plus(e1, e2), b, d, n);
  }

  lemma ThirdSum(t1: bv8, t2: bv8, t4: bv8, t8: bv8, t16: bv8)
    ensures Plus(Plus(Plus(t8, Plus(t4, t2)), Plus(Plus(t16, Plus(t4, t2)), Plus(t8, Plus(t2, t1)))),
                 Plus(Plus(t16, Plus(t8, t2)), Plus(t8, t1))) == 0
  {
    hide Plus;
    var e, b1, b2, d, n := Plus(t8, Plus(t4, t2)), Plus(t16, Plus(t4, t2)), Plus(t8, Plus(t2, t1)), Plus(t16, Plus(t8, t2)), Plus(t8, t1);
    PlusIs3(t8, t4, t2);
    PlusIs3(t16, t4, t2);
    PlusIs3(t8, t2, t1);
    PlusIs3(t16, t8, t2);
    PlusIs(t8, t1);
    PlusIs(b1, b2);
    PlusIs4(e, Plus(b1, b2), d, n);
    ThirdCoefficient(t1, t2, t4, t8, t16, e, b1, b2, Plus(b1, b2), d, n);
  }

  lemma LastSum(t1: bv8, t2: bv8, t4: bv8, t8: bv8, t16: bv8)
    ensures Plus(Plus(Plus(t8, Plus(t4, t2)), Plus(t8, Plus(t2, t1))),
                 Plus(Plus(Plus(t16, Plus(t8, t2)), Plus(t8, Plus(t4, t1))), Plus(t16, t2))) == 0
  {
    hide Plus;
    var e, b, d1, d2, n := Plus(t8, Plus(t4, t2)), Plus(t8, Plus(t2, t1)), Plus(t16, Plus(t8, t2)), Plus(t8, Plus(t4, t1)), Plus(t16, t2);
    PlusIs3(t8, t4, t2);
    PlusIs3(t8, t2, t1);
    PlusIs3(t16, t8, t2);
    PlusIs3(t8, t4, t1);
    PlusIs(t16, t2);
    PlusIs(d1, d2);
    PlusIs4(e, b, Plus(d1, d2), n);
    LastCoefficient(t1, t2, t4, t8, t16, e, b, d1, d2, Plus(d1, d2), n);
  }

  lemma UnmixOwn(x: bv8)
    ensures Unmixed(Xtime(x), x, x, Times3(x)) == x
  {
    hide Plus, Xtime;
    TimesPlus(Xtime(x), x);
    OwnSum(x, Xtime(x), Times4(x), Times8(x), Xtime(Times8(x)));
  }

  lemma UnmixNext(x: bv8)
    ensures Unmixed(Times3(x), Xtime(x), x, x) == 0
  {
    hide Plus, Xtime;
    TimesPlus(Xtime(x), x);
    NextSum(x, Xtime(x), Times4(x), Times8(x), Xtime(Times8(x)));
  }

  lemma UnmixThird(x: bv8)
    ensures Unmixed(x, Times3(x), Xtime(x), x) == 0
  {
    hide Plus, Xtime;
    TimesPlus(Xtime(x), x);
    ThirdSum(x, Xtime(x), Times4(x), Times8(x), Xtime(Times8(x)));
  }

  lemma UnmixLast(x: bv8)
    ensures Unmixed(x, x, Times3(x), Xtime(x)) == 0
  {
    hide Plus, Xtime;
    TimesPlus(Xtime(x), x);
    LastSum(x, Xtime(x), Times4(x), Times8(x), Xtime(Times8(x)));
  }

  /** InvMixColumns undoes MixColumns, byte by byte. */
  lemma UnmixMixed(a: bv8, b: bv8, c: bv8, d: bv8)
    ensures Unmixed(Mixed(a, b, c, d), Mixed(b, c, d, a), Mixed(c, d, a, b), Mixed(d, a, b, c)) == a
  {
    hide Plus, Xtime, Times3, Unmixed;
    PlusTurn(Xtime(b), Times3(c), d, a);
    PlusTurn(Xtime(c), Times3(d), a, b);
    PlusTurn(Xtime(d), Times3(a), b, c);
    PlusTurn(c, Xtime(d), Times3(a), b);
    UnmixedPlus(Plus(Xtime(a), Times3(b)), Plus(a, Xtime(b)), Plus(a, b), Plus(Times3(a), b),
                Plus(c, d), Plus(Times3(c), d), Plus(Xtime(c), Times3(d)), Plus(c, Xtime(d)));
    UnmixedPlus(Xtime(a), a, a, Times3(a), Times3(b), Xtime(b), b, b);
    UnmixedPlus(c, Times3(c), Xtime(c), c, d, d, Times3(d), Xtime(d));
    UnmixOwn(a);
    UnmixNext(b);
    UnmixThird(c);
    UnmixLast(d);
    PlusZero(a);
  }

  // ----- words

  function Byte0(w: bv32): bv8 { (w >> 24) as bv8 }

  function Byte1(w: bv32): bv8 { ((w >> 16) & 0xFF) as bv8 }

  function Byte2(w: bv32): bv8 { ((w >> 8) & 0xFF) as bv8 }

  function Byte3(w: bv32): bv8 { (w & 0xFF) as bv8 }

  function Word(b0: bv8, b1: bv8, b2: bv8, b3: bv8): bv32
  {
    ((b0 as bv32) << 24) | ((b1 as bv32) << 16) | ((b2 as bv32) << 8) | (b3 as bv32)
  }

  lemma WordOfBytes(w: bv32)
    ensures Word(Byte0(w), Byte1(w), Byte2(w), Byte3(w)) == w
  {
  }

  lemma BytesOfWord(a: bv8, b: bv8, c: bv8, d: bv8)
    ensures Byte0(Word(a, b, c, d)) == a && Byte1(Word(a, b, c, d)) == b
    ensures Byte2(Word(a, b, c, d)) == c && Byte3(Word(a, b, c, d)) == d
  {
  }

  /** Words with equal bytes are equal. */
  lemma SameBytes(x: bv32, y: bv32)
    requires Byte0(x) == Byte0(y) && Byte1(x) == Byte1(y) && Byte2(x) == Byte2(y) && Byte3(x) == Byte3(y)
    ensures x == y
  {
    hide Byte0, Byte1, Byte2, Byte3, Word;
    WordOfBytes(x);
    WordOfBytes(y);
  }

  /** The addition of a round key to a word. */
  function PlusW(x: bv32, y: bv32): bv32 { x ^ y }

  lemma XorBytes(x: bv32, y: bv32)
    ensures Byte0(x ^ y) == Byte0(x) ^ Byte0(y) && Byte1(x ^ y) == Byte1(x) ^ Byte1(y)
    ensures Byte2(x ^ y) == Byte2(x) ^ Byte2(y) && Byte3(x ^ y) == Byte3(x) ^ Byte3(y)
  {
  }

  lemma PlusWIs(x: bv32, y: bv32)
    ensures PlusW(x, y) == x ^ y
  {
  }

  lemma BytesPlus(x: bv32, y: bv32)
    ensures Byte0(PlusW(x, y)) == Plus(Byte0(x), Byte0(y)) && Byte1(PlusW(x, y)) == Plus(Byte1(x), Byte1(y))
    ensures Byte2(PlusW(x, y)) == Plus(Byte2(x), Byte2(y)) && Byte3(PlusW(x, y)) == Plus(Byte3(x), Byte3(y))
  {
    hide Byte0, Byte1, Byte2, Byte3, Plus, PlusW;
    PlusWIs(x, y);
    XorBytes(x, y);
    PlusIs(Byte0(x), Byte0(y));
    PlusIs(Byte1(x), Byte1(y));
    PlusIs(Byte2(x), Byte2(y));
    PlusIs(Byte3(x), Byte3(y));
  }

  lemma XorTwice(x: bv32, y: bv32, z: bv32)
    requires z == x ^ y
    ensures z ^ y == x
  {
  }

  lemma PlusWCancels(x: bv32, y: bv32)
    ensures PlusW(PlusW(x, y), y) == x
  {
    hide PlusW;
    PlusWIs(x, y);
    PlusWIs(PlusW(x, y), y);
    XorTwice(x, y, PlusW(x, y));
  }

  function Mix(w: bv32): bv32
  {
    var a0, a1, a2, a3 := Byte0(w), Byte1(w), Byte2(w), Byte3(w);
    Word(Mixed(a0, a1, a2, a3), Mixed(a1, a2, a3, a0), Mixed(a2, a3, a0, a1), Mixed(a3, a0, a1, a2))
  }

  function InvMix(w: bv32): bv32
  {
    var a0, a1, a2, a3 := Byte0(w), Byte1(w), Byte2(w), Byte3(w);
    Word(Unmixed(a0, a1, a2, a3), Unmixed(a1, a2, a3, a0), Unmixed(a2, a3, a0, a1), Unmixed(a3, a0, a1, a2))
  }

  lemma MixBytes(w: bv32)
    ensures Byte0(Mix(w)) == Mixed(Byte0(w), Byte1(w), Byte2(w), Byte3(w))
    ensures Byte1(Mix(w)) == Mixed(Byte1(w), Byte2(w), Byte3(w), Byte0(w))
    ensures Byte2(Mix(w)) == Mixed(Byte2(w), Byte3(w), Byte0(w), Byte1(w))
    ensures Byte3(Mix(w)) == Mixed(Byte3(w), Byte0(w), Byte1(w), Byte2(w))
  {
    hide Byte0, Byte1, Byte2, Byte3, Word, Mixed;
    var a0, a1, a2, a3 := Byte0(w), Byte1(w), Byte2(w), Byte3(w);
    BytesOfWord(Mixed(a0, a1, a2, a3), Mixed(a1, a2, a3, a0), Mixed(a2, a3, a0, a1), Mixed(a3, a0, a1, a2));
  }

  lemma InvMixBytes(w: bv32)
    ensures Byte0(InvMix(w)) == Unmixed(Byte0(w), Byte1(w), Byte2(w), Byte3(w))
    ensures Byte1(InvMix(w)) == Unmixed(Byte1(w), Byte2(w), Byte3(w), Byte0(w))
    ensures Byte2(InvMix(w)) == Unmixed(Byte2(w), Byte3(w), Byte0(w), Byte1(w))
    ensures Byte3(InvMix(w)) == Unmixed(Byte3(w), Byte0(w), Byte1(w), Byte2(w))
  {
    hide Byte0, Byte1, Byte2, Byte3, Word, Unmixed;
    var a0, a1, a2, a3 := Byte0(w), Byte1(w), Byte2(w), Byte3(w);
    BytesOfWord(Unmixed(a0, a1, a2, a3), Unmixed(a1, a2, a3, a0), Unmixed(a2, a3, a0, a1), Unmixed(a3, a0, a1, a2));
  }

  /** InvMixColumns distributes over the addition of a round key. */
  lemma InvMixPlus(w: bv32, v: bv32)
    ensures InvMix(PlusW(w, v)) == PlusW(InvMix(w), InvMix(v))
  {
    hide Byte0, Byte1, Byte2, Byte3, InvMix, Unmixed, Plus, PlusW;
    InvMixBytes(PlusW(w, v));
    InvMixBytes(w);
    InvMixBytes(v);
    BytesPlus(w, v);
    BytesPlus(InvMix(w), InvMix(v));
    var a0, a1, a2, a3 := Byte0(w), Byte1(w), Byte2(w), Byte3(w);
    var b0, b1, b2, b3 := Byte0(v), Byte1(v), Byte2(v), Byte3(v);
    UnmixedPlus(a0, a1, a2, a3, b0, b1, b2, b3);
    UnmixedPlus(a1, a2, a3, a0, b1, b2, b3, b0);
    UnmixedPlus(a2, a3, a0, a1, b2, b3, b0, b1);
    UnmixedPlus(a3, a0, a1, a2, b3, b0, b1, b2);
    SameBytes(InvMix(PlusW(w, v)), PlusW(InvMix(w), InvMix(v)));
  }

  /** InvMixColumns undoes MixColumns. */
  lemma InvMixMix(w: bv32)
    ensures InvMix(Mix(w)) == w
  {
    hide Byte0, Byte1, Byte2, Byte3, InvMix, Mix, Unmixed, Mixed;
    InvMixBytes(Mix(w));
    MixBytes(w);
    var a0, a1, a2, a3 := Byte0(w), Byte1(w), Byte2(w), Byte3(w);
    UnmixMixed(a0, a1, a2, a3);
    UnmixMixed(a1, a2, a3, a0);
    UnmixMixed(a2, a3, a0, a1);
    UnmixMixed(a3, a0, a1, a2);
    SameBytes(InvMix(Mix(w)), w);
  }

  // ----- the packed form

  /** `mul2`: four bytes doubled at once. */
  function Mul2(x: bv32): bv32
  {
    var t := x & 0x80808080;
    ((x + x) & 0xfefefefe) ^ ((t - (t >> 7)) & 0x1b1b1b1b)
  }

  lemma Mul2Bytes(x: bv32)
    ensures Byte0(Mul2(x)) == Xtime(Byte0(x)) && Byte1(Mul2(x)) == Xtime(Byte1(x))
    ensures Byte2(Mul2(x)) == Xtime(Byte2(x)) && Byte3(Mul2(x)) == Xtime(Byte3(x))
  {
    hide Byte0, Byte1, Byte2, Byte3, Xtime, Mul2;
    Mul2Byte0(x);
    Mul2Byte1(x);
    Mul2Byte2(x);
    Mul2Byte3(x);
  }

  lemma Mul2Byte0(x: bv32)
    ensures Byte0(Mul2(x)) == Xtime(Byte0(x))
  {
  }

  lemma Mul2Byte1(x: bv32)
    ensures Byte1(Mul2(x)) == Xtime(Byte1(x))
  {
  }

  lemma Mul2Byte2(x: bv32)
    ensures Byte2(Mul2(x)) == Xtime(Byte2(x))
  {
  }

  lemma Mul2Byte3(x: bv32)
    ensures Byte3(Mul2(x)) == Xtime(Byte3(x))
  {
  }

  function Rot1(x: bv32): bv32 { (x << 24) | (x >> 8) }

  function Rot2(x: bv32): bv32 { (x << 16) | (x >> 16) }

  function Rot3(x: bv32): bv32 { (x << 8) | (x >> 24) }

  lemma RotBytes(x: bv32)
    ensures Byte0(Rot1(x)) == Byte3(x) && Byte1(Rot1(x)) == Byte0(x) && Byte2(Rot1(x)) == Byte1(x) && Byte3(Rot1(x)) == Byte2(x)
    ensures Byte0(Rot2(x)) == Byte2(x) && Byte1(Rot2(x)) == Byte3(x) && Byte2(Rot2(x)) == Byte0(x) && Byte3(Rot2(x)) == Byte1(x)
    ensures Byte0(Rot3(x)) == Byte1(x) && Byte1(Rot3(x)) == Byte2(x) && Byte2(Rot3(x)) == Byte3(x) && Byte3(Rot3(x)) == Byte0(x)
  {
  }

  /** `inv_mix_col`. */
  function PackedInvMix(x: bv32): bv32
  {
    var f2 := Mul2(x);
    var f4 := Mul2(f2);
    var f8 := Mul2(f4);
    var f9 := PlusW(x, f8);
    PlusW(PlusW(PlusW(PlusW(f2, f4), f8), Rot3(PlusW(f2, f9))), PlusW(Rot2(PlusW(f4, f9)), Rot1(f9)))
  }

  lemma PackedByte(a: bv8, b: bv8, c: bv8, d: bv8)
    ensures Plus(Plus(Plus(Plus(Xtime(a), Times4(a)), Times8(a)), Plus(Xtime(b), Plus(b, Times8(b)))),
                 Plus(Plus(Times4(c), Plus(c, Times8(c))), Plus(d, Times8(d))))
            == Unmixed(a, b, c, d)
  {
    hide Plus, Xtime, Times4, Times8;
    PlusReverse(Xtime(a), Times4(a), Times8(a));
    PlusReverse(Xtime(b), b, Times8(b));
    PlusReverse(Times4(c), c, Times8(c));
    PlusReverse(d, d, Times8(d));
  }

  lemma PlusReverse(x: bv8, y: bv8, z: bv8)
    ensures Plus(Plus(x, y), z) == Plus(z, Plus(y, x))
    ensures Plus(x, Plus(y, z)) == Plus(z, Plus(x, y))
    ensures Plus(x, z) == Plus(z, x) && Plus(y, x) == Plus(x, y)
  {
    hide Plus;
    PlusIs(x, y);
    PlusIs(y, x);
    PlusIs(x, z);
    PlusIs(z, x);
    PlusIs(Plus(x, y), z);
    PlusIs3(z, y, x);
    PlusIs3(x, y, z);
    PlusIs3(z, x, y);
    Xor3(z, x, y, Plus(x, y), z ^ Plus(x, y));
  }

  /** The packed form computes InvMixColumns of each byte. */
  lemma PackedIsInvMix(x: bv32)
    ensures PackedInvMix(x) == InvMix(x)
  {
    hide Byte0, Byte1, Byte2, Byte3, Xtime, Mul2, Rot1, Rot2, Rot3, InvMix, Plus, PlusW, Unmixed;
    var f2 := Mul2(x);
    var f4 := Mul2(f2);
    var f8 := Mul2(f4);
    var f9 := PlusW(x, f8);
    Mul2Bytes(x);
    Mul2Bytes(f2);
    Mul2Bytes(f4);
    BytesPlus(x, f8);
    BytesPlus(f2, f4);
    BytesPlus(PlusW(f2, f4), f8);
    BytesPlus(f2, f9);
    BytesPlus(f4, f9);
    RotBytes(PlusW(f2, f9));
    RotBytes(PlusW(f4, f9));
    RotBytes(f9);
    BytesPlus(PlusW(PlusW(f2, f4), f8), Rot3(PlusW(f2, f9)));
    BytesPlus(Rot2(PlusW(f4, f9)), Rot1(f9));
    BytesPlus(PlusW(PlusW(PlusW(f2, f4), f8), Rot3(PlusW(f2, f9))), PlusW(Rot2(PlusW(f4, f9)), Rot1(f9)));
    InvMixBytes(x);
    var a0, a1, a2, a3 := Byte0(x), Byte1(x), Byte2(x), Byte3(x);
    PackedByte(a0, a1, a2, a3);
    PackedByte(a1, a2, a3, a0);
    PackedByte(a2, a3, a0, a1);
    PackedByte(a3, a0, a1, a2);
    SameBytes(PackedInvMix(x), InvMix(x));
  }

  // ----- the forms used by the block functions

  lemma MixedXor(a: bv8, b: bv8, c: bv8, d: bv8, xa: bv8, xb: bv8, sum: bv8, x: bv8, s: bv8, l: bv8, p: bv8, m: bv8)
    requires sum == a ^ b ^ c ^ d && x == xa ^ xb && s == sum ^ x && l == a ^ s && p == xb ^ b && m == xa ^ p ^ c ^ d
    ensures l == m
  {
  }

  /** A byte as it is mixed with the help of the sum of all four. */
  lemma MixedForm(a: bv8, b: bv8, c: bv8, d: bv8, sum: bv8)
    requires sum == Plus(Plus(a, b), Plus(c, d))
    ensures Plus(a, Plus(sum, Xtime(Plus(a, b)))) == Mixed(a, b, c, d)
  {
    hide Plus, Xtime;
    XtimePlus(a, b);
    MixedSum(a, b, c, d, Xtime(a), Xtime(b), sum, Xtime(Plus(a, b)));
  }

  lemma MixedSum(a: bv8, b: bv8, c: bv8, d: bv8, xa: bv8, xb: bv8, sum: bv8, x: bv8)
    requires sum == Plus(Plus(a, b), Plus(c, d)) && x == Plus(xa, xb)
    ensures Plus(a, Plus(sum, x)) == Plus(Plus(xa, Plus(xb, b)), Plus(c, d))
  {
    hide Plus;
    PlusIs4(a, b, c, d);
    PlusIs(xa, xb);
    PlusIs(sum, x);
    PlusIs(a, Plus(sum, x));
    PlusIs(xb, b);
    PlusIs4(xa, Plus(xb, b), c, d);
    MixedXor(a, b, c, d, xa, xb, sum, x, Plus(sum, x), Plus(a, Plus(sum, x)), Plus(xb, b), Plus(Plus(xa, Plus(xb, b)), Plus(c, d)));
  }

  /** The sum of all four bytes, from whichever it starts. */
  lemma SumTurns(a: bv8, b: bv8, c: bv8, d: bv8)
    ensures var sum := Plus(Plus(Plus(a, b), c), d);
            sum == Plus(Plus(a, b), Plus(c, d)) == Plus(Plus(b, c), Plus(d, a)) == Plus(Plus(c, d), Plus(a, b)) == Plus(Plus(d, a), Plus(b, c))
  {
    hide Plus;
    PlusAssociates(Plus(a, b), c, d);
    PlusTurn(a, b, c, d);
    PlusTurn(b, c, d, a);
  }

  lemma PlusAssociates(x: bv8, y: bv8, z: bv8)
    ensures Plus(Plus(x, y), z) == Plus(x, Plus(y, z))
  {
    hide Plus;
    PlusReverse(z, x, y);
    PlusReverse(x, y, z);
    PlusReverse(Plus(x, y), x, z);
  }

  lemma SevenXor(b: bv8, c: bv8, d: bv8, a2: bv8, b2: bv8, a4: bv8, c4: bv8,
                 x0: bv8, x4: bv8, s: bv8, t: bv8, l: bv8, e: bv8, f: bv8, g: bv8, m: bv8)
    requires x0 == a2 ^ b2 && x4 == a4 ^ c4 && s == b ^ c && t == s ^ d ^ x4 && l == x0 ^ t
    requires e == a4 ^ a2 && f == b2 ^ b && g == c4 ^ c && m == e ^ f ^ g ^ d
    ensures l == m
  {
  }

  lemma SevenSum(b: bv8, c: bv8, d: bv8, a2: bv8, b2: bv8, a4: bv8, c4: bv8)
    ensures Plus(Plus(a2, b2), Plus(Plus(b, c), Plus(d, Plus(a4, c4)))) == Plus(Plus(Plus(a4, a2), Plus(b2, b)), Plus(Plus(c4, c), d))
  {
    hide Plus;
    var x0, x4, s := Plus(a2, b2), Plus(a4, c4), Plus(b, c);
    var t := Plus(s, Plus(d, x4));
    PlusIs(a2, b2);
    PlusIs(a4, c4);
    PlusIs(b, c);
    PlusIs3(s, d, x4);
    PlusIs(x0, t);
    PlusIs(a4, a2);
    PlusIs(b2, b);
    PlusIs(c4, c);
    PlusIs4(Plus(a4, a2), Plus(b2, b), Plus(c4, c), d);
    SevenXor(b, c, d, a2, b2, a4, c4, x0, x4, s, t, Plus(x0, t), Plus(a4, a2), Plus(b2, b), Plus(c4, c),
             Plus(Plus(Plus(a4, a2), Plus(b2, b)), Plus(Plus(c4, c), d)));
  }

  /** A byte as `AES_decrypt` makes it, from products that bytes share: x0 is 2(a + b), x4 is 4(a + c)
      and x6 is 8(a + b + c + d). */
  lemma SharedForm(a: bv8, b: bv8, c: bv8, d: bv8, x0: bv8, x4: bv8, x6: bv8)
    requires x0 == Plus(Xtime(a), Xtime(b)) && x4 == Plus(Times4(a), Times4(c))
    requires x6 == Plus(Plus(Times8(a), Times8(b)), Plus(Times8(c), Times8(d)))
    ensures Plus(x0, Plus(Plus(Plus(Plus(b, c), d), x4), x6)) == Unmixed(a, b, c, d)
  {
    hide Plus, Xtime, Times4, Times8;
    PlusSwap(Times8(a), Plus(Times4(a), Xtime(a)), Times8(b), Plus(Xtime(b), b));
    PlusSwap(Times8(c), Plus(Times4(c), c), Times8(d), d);
    PlusSwap(Plus(Times8(a), Times8(b)), Plus(Plus(Times4(a), Xtime(a)), Plus(Xtime(b), b)),
             Plus(Times8(c), Times8(d)), Plus(Plus(Times4(c), c), d));
    SevenSum(b, c, d, Xtime(a), Xtime(b), Times4(a), Times4(c));
    PlusAssociates(Plus(b, c), d, x4);
    PlusReverse(x0, Plus(Plus(Plus(b, c), d), x4), x6);
  }

  /** The products `AES_decrypt` shares between the bytes of a column. */
  lemma SharedProducts(a: bv8, b: bv8, c: bv8, d: bv8)
    ensures var p, q, r := Xtime(Plus(a, b)), Xtime(Plus(b, c)), Xtime(Plus(c, d));
            var x4, x5 := Xtime(Plus(p, q)), Xtime(Plus(q, r));
            && p == Plus(Xtime(a), Xtime(b))
            && x4 == Plus(Times4(a), Times4(c))
            && Xtime(Plus(x4, x5)) == Plus(Plus(Times8(a), Times8(b)), Plus(Times8(c), Times8(d)))
  {
    hide Plus, Xtime;
    XtimePlus(a, b);
    XtimePlus(b, c);
    XtimePlus(c, d);
    SumOverlap(Xtime(a), Xtime(b), Xtime(c));
    SumOverlap(Xtime(b), Xtime(c), Xtime(d));
    XtimePlus(Xtime(a), Xtime(c));
    XtimePlus(Xtime(b), Xtime(d));
    XtimePlus(Plus(Times4(a), Times4(c)), Plus(Times4(b), Times4(d)));
    XtimePlus(Times4(a), Times4(c));
    XtimePlus(Times4(b), Times4(d));
    PlusSwap(Times8(a), Times8(c), Times8(b), Times8(d));
  }

  lemma SumOverlap(a: bv8, b: bv8, c: bv8)
    ensures Plus(Plus(a, b), Plus(b, c)) == Plus(a, c)
  {
    hide Plus;
    PlusIs4(a, b, b, c);
    PlusIs(a, c);
    OverlapXor(a, b, c);
  }

  lemma OverlapXor(a: bv8, b: bv8, c: bv8)
    ensures a ^ b ^ b ^ c == a ^ c
  {
  }
}
