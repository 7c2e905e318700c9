/** Multiplication in GF(2^8) (FIPS 197, section 4.2), and what the tables and multipliers are in it. */
module AesField {
  import opened AesTables
  import opened AesWords
  import opened AesBlock
  import opened AesContexts
  import opened AesMatrix

  // ----- products modulo x^8 + x^4 + x^3 + x + 1

  /** A polynomial times x, reduced by the modulus. */
  function Doubled(x: bv8): bv8
  {
    var d := (x as bv16) << 1;
    (if d & 0x100 != 0 then d ^ 0x11b else d) as bv8
  }

  /** The multiple of the first factor by one bit of the second. */
  function Part(x: bv8, y: bv8): bv8
  {
    if y & 1 == 1 then x else 0
  }

  /** The sum of the multiples of x by the n lowest coefficients of y. */
  function Sums(x: bv8, y: bv8, n: nat): bv8
    decreases n
  {
    if n == 0 then 0 else Plus(Part(x, y), Sums(Doubled(x), y >> 1, n - 1))
  }

  function Product(x: bv8, y: bv8): bv8
  {
    Sums(x, y, 8)
  }

  // ----- inverses are unique

  /** `AES_xtime` doubles. */
  lemma XtimeDoubles(x: bv8)
    ensures Xtime(x) == Doubled(x)
  {
  }

  lemma DoubledPlus(a: bv8, b: bv8)
    ensures Doubled(Plus(a, b)) == Plus(Doubled(a), Doubled(b))
  {
    hide Plus, Doubled, Xtime;
    XtimeDoubles(a);
    XtimeDoubles(b);
    XtimeDoubles(Plus(a, b));
    XtimePlus(a, b);
  }

  lemma DoubledZero()
    ensures Doubled(0) == 0
  {
  }

  lemma PartPlus(a: bv8, b: bv8, y: bv8)
    ensures Part(Plus(a, b), y) == Plus(Part(a, y), Part(b, y))
    ensures Part(0, y) == 0
  {
    hide Plus;
    PlusZero(0);
  }

  lemma {:induction false} SumsPlus(a: bv8, b: bv8, y: bv8, n: nat)
    ensures Sums(Plus(a, b), y, n) == Plus(Sums(a, y, n), Sums(b, y, n))
    decreases n
  {
    hide Doubled, Plus, Part;
    PlusZero(0);
    if n > 0 {
      DoubledPlus(a, b);
      SumsPlus(Doubled(a), Doubled(b), y >> 1, n - 1);
      PartPlus(a, b, y);
      PlusSwap(Part(a, y), Part(b, y), Sums(Doubled(a), y >> 1, n - 1), Sums(Doubled(b), y >> 1, n - 1));
    }
  }

  lemma DoubledPart(a: bv8, y: bv8)
    ensures Doubled(Part(a, y)) == Part(Doubled(a), y)
  {
    hide Doubled;
    DoubledZero();
  }

  lemma {:induction false} SumsDoubled(a: bv8, y: bv8, n: nat)
    ensures Sums(Doubled(a), y, n) == Doubled(Sums(a, y, n))
    decreases n
  {
    hide Doubled, Plus, Part;
    DoubledZero();
    if n > 0 {
      SumsDoubled(Doubled(a), y >> 1, n - 1);
      DoubledPlus(Part(a, y), Sums(Doubled(a), y >> 1, n - 1));
      DoubledPart(a, y);
    }
  }

  lemma {:induction false} SumsOfZero(y: bv8, n: nat)
    ensures Sums(0, y, n) == 0
    decreases n
  {
    hide Doubled, Plus, Part;
    DoubledZero();
    PlusZero(0);
    PartPlus(0, 0, y);
    if n > 0 {
      SumsOfZero(y >> 1, n - 1);
    }
  }

  /** Two factors can be taken in either order. */
  lemma {:induction false} SumsTwice(x: bv8, z: bv8, r: bv8, n: nat)
    ensures Product(Sums(x, z, n), r) == Sums(Product(x, r), z, n)
    decreases n
  {
    hide Doubled, Plus, Product, Part;
    ProductOfZero(r);
    if n > 0 {
      var s := Sums(Doubled(x), z >> 1, n - 1);
      SumsTwice(Doubled(x), z >> 1, r, n - 1);
      ProductPlus(Part(x, z), s, r);
      ProductOfPart(x, z, r);
      ProductDoubled(x, r);
    }
  }

  lemma ProductOfPart(x: bv8, z: bv8, r: bv8)
    ensures Product(Part(x, z), r) == Part(Product(x, r), z)
  {
    hide Product;
    ProductOfZero(r);
  }

  lemma ProductOfZero(r: bv8)
    ensures Product(0, r) == 0
  {
    SumsOfZero(r, 8);
  }

  lemma ProductPlus(a: bv8, b: bv8, r: bv8)
    ensures Product(Plus(a, b), r) == Plus(Product(a, r), Product(b, r))
  {
    hide Plus, Sums;
    SumsPlus(a, b, r, 8);
  }

  lemma ProductDoubled(x: bv8, r: bv8)
    ensures Product(Doubled(x), r) == Doubled(Product(x, r))
  {
    hide Sums, Doubled;
    SumsDoubled(x, r, 8);
  }

  lemma HighPart(z: bv8)
    ensures Sums(16, z >> 4, 4) == z & 0xf0
  {
  }

  lemma LowPart(z: bv8)
    ensures Plus(Part(1, z), Plus(Part(2, z >> 1), Plus(Part(4, z >> 1 >> 1), Plus(Part(8, z >> 1 >> 1 >> 1), z & 0xf0)))) == z
    ensures z >> 1 >> 1 >> 1 >> 1 == z >> 4
  {
  }

  lemma PowersOfX()
    ensures Doubled(1) == 2 && Doubled(2) == 4 && Doubled(4) == 8 && Doubled(8) == 16
  {
  }

  lemma ProductOfOne(z: bv8)
    ensures Product(1, z) == z
  {
    hide Plus, Part, Doubled;
    PowersOfX();
    HighPart(z);
    LowPart(z);
  }

  lemma {:induction false} InverseUnique(x: bv8, y: bv8, z: bv8)
    requires Product(x, y) == 1 && Product(x, z) == 1
    ensures y == z
  {
    hide Product;
    ProductTwice(x, z, y);
    ProductOfOne(y);
    ProductOfOne(z);
  }

  lemma ProductTwice(x: bv8, z: bv8, r: bv8)
    ensures Product(Product(x, z), r) == Product(Product(x, r), z)
  {
    hide Sums;
    SumsTwice(x, z, r, 8);
  }

  // ----- the substitution (FIPS 197, section 5.1.1)

  function Rotated(y: bv8, n: bv8): bv8
    requires n < 8
  {
    (y << n) | (y >> (8 - n))
  }

  /** The affine transformation over GF(2). */
  function Affine(y: bv8): bv8
  {
    y ^ Rotated(y, 1) ^ Rotated(y, 2) ^ Rotated(y, 3) ^ Rotated(y, 4) ^ 0x63
  }

  function Unaffine(s: bv8): bv8
  {
    Rotated(s, 1) ^ Rotated(s, 3) ^ Rotated(s, 6) ^ 0x05
  }

  lemma AffineBack(s: bv8)
    ensures Affine(Unaffine(s)) == s
  {
  }


  lemma Inverse0(x: bv8)
    requires x & 0xE0 == 0x00 && x != 0
    ensures Product(x, Unaffine(Sbox(x))) == 1
  {
  }

  lemma Inverse1(x: bv8)
    requires x & 0xE0 == 0x20 && x != 0
    ensures Product(x, Unaffine(Sbox(x))) == 1
  {
  }

  lemma Inverse2(x: bv8)
    requires x & 0xE0 == 0x40 && x != 0
    ensures Product(x, Unaffine(Sbox(x))) == 1
  {
  }

  lemma Inverse3(x: bv8)
    requires x & 0xE0 == 0x60 && x != 0
    ensures Product(x, Unaffine(Sbox(x))) == 1
  {
  }

  lemma Inverse4(x: bv8)
    requires x & 0xE0 == 0x80 && x != 0
    ensures Product(x, Unaffine(Sbox(x))) == 1
  {
  }

  lemma Inverse5(x: bv8)
    requires x & 0xE0 == 0xA0 && x != 0
    ensures Product(x, Unaffine(Sbox(x))) == 1
  {
  }

  lemma Inverse6(x: bv8)
    requires x & 0xE0 == 0xC0 && x != 0
    ensures Product(x, Unaffine(Sbox(x))) == 1
  {
  }

  lemma Inverse7(x: bv8)
    requires x & 0xE0 == 0xE0 && x != 0
    ensures Product(x, Unaffine(Sbox(x))) == 1
  {
  }

  /** Every byte but zero has an inverse, and the table holds its affine image. */
  lemma HasInverse(x: bv8)
    requires x != 0
    ensures Product(x, Unaffine(Sbox(x))) == 1
  {
    hide Nibble, Sbox, Unaffine, Product;
    EighthOf(x);
    if x & 0xE0 == 0x00 {
      Inverse0(x);
    } else if x & 0xE0 == 0x20 {
      Inverse1(x);
    } else if x & 0xE0 == 0x40 {
      Inverse2(x);
    } else if x & 0xE0 == 0x60 {
      Inverse3(x);
    } else if x & 0xE0 == 0x80 {
      Inverse4(x);
    } else if x & 0xE0 == 0xA0 {
      Inverse5(x);
    } else if x & 0xE0 == 0xC0 {
      Inverse6(x);
    } else if x & 0xE0 == 0xE0 {
      Inverse7(x);
    }
  }

  /** ByteSub: the inverse, or zero for zero, and then the affine transformation. */
  lemma SubstitutionIs(x: bv8, y: bv8)
    requires if x == 0 then y == 0 else Product(x, y) == 1
    ensures Sbox(x) == Affine(y)
  {
    if x != 0 {
      hide Nibble, Sbox, Unaffine, Affine, Product;
      HasInverse(x);
      InverseUnique(x, y, Unaffine(Sbox(x)));
      AffineBack(Sbox(x));
    }
  }

  // ----- the multipliers (FIPS 197, sections 5.1.3 and 5.3.3)

  /** The products that mixing uses, written out. */
  lemma Written(x: bv8)
    ensures var x2 := Doubled(x); var x4 := Doubled(x2); var x8 := Doubled(x4);
            && Product(x, 2) == x2 && Product(x, 3) == Plus(x, x2) && Product(x, 9) == Plus(x, x8)
            && Product(x, 11) == Plus(x, Plus(x2, x8)) && Product(x, 13) == Plus(x, Plus(x4, x8))
            && Product(x, 14) == Plus(x2, Plus(x4, x8))
  {
    hide Doubled, Plus;
    var x2, x4, x8 := Doubled(x), Doubled(Doubled(x)), Doubled(Doubled(Doubled(x)));
    PlusZero(0);
    ZeroPlus(x2);
    ZeroPlus(x8);
    ZeroPlus(Plus(x2, Plus(x4, x8)));
    ZeroPlus(Plus(x4, x8));
  }

  lemma ZeroPlus(x: bv8)
    ensures Plus(0, x) == x == Plus(x, 0)
  {
  }

  lemma MultipliersAre(x: bv8)
    ensures Xtime(x) == Product(x, 2) && Times3(x) == Product(x, 3) && Times9(x) == Product(x, 9)
    ensures Times11(x) == Product(x, 11) && Times13(x) == Product(x, 13) && Times14(x) == Product(x, 14)
  {
    hide Doubled, Plus, Product, Xtime;
    var x2, x4 := Xtime(x), Times4(x);
    XtimeDoubles(x);
    XtimeDoubles(x2);
    XtimeDoubles(x4);
    Written(x);
    PlusReverse(x, x2, Times8(x));
    PlusReverse(x, x4, Times8(x));
    PlusReverse(x2, x4, Times8(x));
    PlusReverse(x2, Times8(x), x);
    PlusReverse(x4, Times8(x), x);
    PlusReverse(x4, Times8(x), x2);
    PlusReverse(Times8(x), x, x);
  }

  /** MixColumns and InvMixColumns multiply by the matrices of the standard. */
  lemma MixIsMatrix(a: bv8, b: bv8, c: bv8, d: bv8)
    ensures Mixed(a, b, c, d) == Plus(Plus(Product(a, 2), Product(b, 3)), Plus(c, d))
    ensures Unmixed(a, b, c, d) == Plus(Plus(Product(a, 14), Product(b, 11)), Plus(Product(c, 13), Product(d, 9)))
  {
    hide Plus, Product, Xtime, Times3, Times9, Times11, Times13, Times14;
    MultipliersAre(a);
    MultipliersAre(b);
    MultipliersAre(c);
    MultipliersAre(d);
  }

  // ----- the layout of the state (FIPS 197, sections 3.4 and 5.1.2)

  /** The byte in row r of a column. */
  function ByteOf(w: bv32, r: nat): bv8
    requires r < 4
  {
    if r == 0 then Byte0(w) else if r == 1 then Byte1(w) else if r == 2 then Byte2(w) else Byte3(w)
  }

  /** Bytes fill the state column by column. */
  lemma StateLayout(m: seq<bv8>, i: nat, r: nat, c: nat)
    requires i + 16 <= |m| && r < 4 && c < 4
    ensures ByteOf(LoadBlock(m, i)[c], r) == m[i + 4 * c + r]
  {
    hide Byte0, Byte1, Byte2, Byte3, Word;
    BytesOfWord(m[i + 4 * c], m[i + 4 * c + 1], m[i + 4 * c + 2], m[i + 4 * c + 3]);
    assert LoadBlock(m, i)[c] == WordAt(m, i + 4 * c);
  }

  /** ByteSub and ShiftRow: row r turns left by r places. */
  lemma ShiftsLeft(s: State, r: nat, c: nat)
    requires r < 4 && c < 4
    ensures ByteOf(SubShift(s)[c], r) == Sbox(ByteOf(s[(c + r) % 4], r))
  {
    hide Byte0, Byte1, Byte2, Byte3, Word, Sbox, SubColumn, SubShift;
    ShiftedColumn(s, c);
    SubColumnBytes(s[c % 4], s[(c + 1) % 4], s[(c + 2) % 4], s[(c + 3) % 4]);
  }

  lemma MixesColumns(w: bv32, r: nat)
    requires r < 4
    ensures ByteOf(Mix(w), r) == Mixed(ByteOf(w, r), ByteOf(w, (r + 1) % 4), ByteOf(w, (r + 2) % 4), ByteOf(w, (r + 3) % 4))
  {
    hide Byte0, Byte1, Byte2, Byte3, Word, Mixed, Mix;
    MixBytes(w);
  }

  // ----- the key schedule (FIPS 197, section 5.2)

  /** The round constants are the powers of x. */
  lemma RconDoubles(j: nat)
    requires j < 29
    ensures Rcon(0) == 1 && Rcon(j + 1) == Product(Rcon(j), 2)
  {
    hide Product, Xtime;
    MultipliersAre(Rcon(j));
    RconNext(j);
  }

  lemma RconNext(j: nat)
    requires j < 29
    ensures Rcon(j + 1) == Xtime(Rcon(j))
  {
    if j < 10 {
      RconNext1(j);
    } else if j < 20 {
      RconNext2(j);
    } else {
      RconNext3(j);
    }
  }

  lemma RconNext1(j: nat)
    requires j < 10
    ensures Rcon(j + 1) == Xtime(Rcon(j))
  {
  }

  lemma RconNext2(j: nat)
    requires 10 <= j < 20
    ensures Rcon(j + 1) == Xtime(Rcon(j))
  {
  }

  lemma RconNext3(j: nat)
    requires 20 <= j < 29
    ensures Rcon(j + 1) == Xtime(Rcon(j))
  {
  }

  /** What is added to byte r of word i of a schedule for nk words of key. */
  function Added(ks: seq<bv32>, nk: nat, i: nat, r: nat): bv8
    requires KeyWords(nk) && nk <= i < 60 && i <= |ks| && r < 4
  {
    var tmp := ks[i - 1];
    if i % nk == 0 then Plus(Sbox(ByteOf(tmp, (r + 1) % 4)), if r == 0 then Rcon(i / nk - 1) else 0)
    else if nk == 8 && i % nk == 4 then Sbox(ByteOf(tmp, r))
    else ByteOf(tmp, r)
  }

  lemma {:induction false} ScheduleKeeps(key: seq<bv32>, n: nat, k: nat)
    requires KeyWords(|key|) && |key| <= k <= n <= 60
    ensures Schedule(key, n)[..k] == Schedule(key, k)
    decreases n
  {
    hide NextWord;
    if k < n {
      ScheduleKeeps(key, n - 1, k);
      assert Schedule(key, n)[..k] == Schedule(key, n - 1)[..k];
    }
  }

  /** Every word of a schedule: the key first, and then each from the one before it and the one a key length back. */
  lemma {:induction false} ScheduleWord(key: seq<bv32>, n: nat, i: nat, r: nat)
    requires KeyWords(|key|) && |key| <= n <= 60 && i < n && r < 4
    ensures var ks := Schedule(key, n);
            if i < |key| then ks[i] == key[i]
            else ByteOf(ks[i], r) == Plus(ByteOf(ks[i - |key|], r), Added(ks, |key|, i, r))
  {
    hide NextWord, Plus, Sbox, Byte0, Byte1, Byte2, Byte3;
    var ks, nk := Schedule(key, n), |key|;
    if i < nk {
      ScheduleKeeps(key, n, nk);
      assert ks[i] == ks[..nk][i];
    } else {
      ScheduleKeeps(key, n, i);
      ScheduleKeeps(key, n, i + 1);
      assert ks[..i + 1][i] == ks[i] && forall k :: 0 <= k < i ==> ks[..i][k] == ks[k];
      NextBytes(Schedule(key, i), nk, r);
    }
  }

  lemma ByteOfPlus(x: bv32, y: bv32, r: nat)
    requires r < 4
    ensures ByteOf(PlusW(x, y), r) == Plus(ByteOf(x, r), ByteOf(y, r))
  {
    hide Plus, PlusW, Byte0, Byte1, Byte2, Byte3;
    BytesPlus(x, y);
  }

  lemma ByteOfWord(a: bv8, b: bv8, c: bv8, d: bv8, r: nat)
    requires r < 4
    ensures ByteOf(Word(a, b, c, d), r) == [a, b, c, d][r]
  {
    hide Byte0, Byte1, Byte2, Byte3, Word;
    BytesOfWord(a, b, c, d);
  }

  lemma NextBytes(ks: seq<bv32>, nk: nat, r: nat)
    requires KeyWords(nk) && nk <= |ks| < 60 && r < 4
    ensures ByteOf(NextWord(ks, nk), r) == Plus(ByteOf(ks[|ks| - nk], r), Added(ks, nk, |ks|, r))
  {
    hide Plus, PlusW, Sbox, ByteOf, SubRotWord, SubWord, RoundConstant, Rcon;
    var i, tmp := |ks|, ks[|ks| - 1];
    var t := if i % nk == 0 then PlusW(SubRotWord(tmp), RoundConstant(i / nk - 1))
             else if nk == 8 && i % nk == 4 then SubWord(tmp) else tmp;
    ByteOfPlus(ks[i - nk], t, r);
    if i % nk == 0 {
      ByteOfPlus(SubRotWord(tmp), RoundConstant(i / nk - 1), r);
      SubstitutedBytes(tmp, r);
      ConstantByte(i / nk - 1, r);
    } else if nk == 8 && i % nk == 4 {
      SubstitutedBytes(tmp, r);
    }
  }

  lemma SubstitutedBytes(w: bv32, r: nat)
    requires r < 4
    ensures ByteOf(SubRotWord(w), r) == Sbox(ByteOf(w, (r + 1) % 4)) && ByteOf(SubWord(w), r) == Sbox(ByteOf(w, r))
  {
    hide Sbox, Byte0, Byte1, Byte2, Byte3, Word;
    ByteOfWord(Sbox(Byte1(w)), Sbox(Byte2(w)), Sbox(Byte3(w)), Sbox(Byte0(w)), r);
    ByteOfWord(Sbox(Byte0(w)), Sbox(Byte1(w)), Sbox(Byte2(w)), Sbox(Byte3(w)), r);
  }

  lemma ConstantByte(j: nat, r: nat)
    requires j < 30 && r < 4
    ensures ByteOf(RoundConstant(j), r) == if r == 0 then Rcon(j) else 0
  {
    hide Byte0, Byte1, Byte2, Byte3, RoundConstant, Rcon;
    ConstantBytes(j);
  }
}
