/** The byte-matrix implementation of AES-128 in lib/aes.c; element [i][j] of its matrix is byte 4i + j. */
module AesMatrix {
  import opened AesTables
  import opened AesWords
  import opened AesBlock
  import opened AesContexts

  const ROUNDS: nat := 10

  // ----- bytes and columns

  lemma ColumnBytes(s: seq<bv8>, i: nat)
    requires i + 4 <= |s|
    ensures var w := WordAt(s, i);
            Byte0(w) == s[i] && Byte1(w) == s[i + 1] && Byte2(w) == s[i + 2] && Byte3(w) == s[i + 3]
  {
    hide Byte0, Byte1, Byte2, Byte3, Word;
    BytesOfWord(s[i], s[i + 1], s[i + 2], s[i + 3]);
  }

  /** A word that has the bytes of a column is the column. */
  lemma ColumnIs(s: seq<bv8>, i: nat, w: bv32)
    requires i + 4 <= |s|
    requires Byte0(w) == s[i] && Byte1(w) == s[i + 1] && Byte2(w) == s[i + 2] && Byte3(w) == s[i + 3]
    ensures WordAt(s, i) == w
  {
    hide Byte0, Byte1, Byte2, Byte3, Word;
    WordOfBytes(w);
  }

  lemma ColumnPlus(s: seq<bv8>, i: nat, k: seq<bv8>, j: nat, t: seq<bv8>, n: nat)
    requires i + 4 <= |s| && j + 4 <= |k| && n + 4 <= |t|
    requires t[n] == Plus(s[i], k[j]) && t[n + 1] == Plus(s[i + 1], k[j + 1])
    requires t[n + 2] == Plus(s[i + 2], k[j + 2]) && t[n + 3] == Plus(s[i + 3], k[j + 3])
    ensures WordAt(t, n) == PlusW(WordAt(s, i), WordAt(k, j))
  {
    hide Byte0, Byte1, Byte2, Byte3, Word, Plus, PlusW;
    var w := PlusW(WordAt(s, i), WordAt(k, j));
    ColumnBytes(s, i);
    ColumnBytes(k, j);
    BytesPlus(WordAt(s, i), WordAt(k, j));
    ColumnIs(t, n, w);
  }

  // ----- the steps

  method AddRoundKey(round: nat, state: array<bv8>, roundKey: seq<bv8>)
    requires state.Length == 16 && round <= ROUNDS && |roundKey| == 176
    modifies state
    ensures LoadBlock(state[..], 0) == AddKey(LoadBlock(old(state[..]), 0), RoundKey(WordsOf(roundKey), round))
  {
    hide Plus, PlusW, Word;
    ghost var was := state[..];
    var i := 0;
    while i < 4
      invariant i <= 4 && forall k :: 0 <= k < 16 ==>
                  state[k] == if k < 4 * i then Plus(was[k], roundKey[16 * round + k]) else was[k]
    {
      var j := 0;
      while j < 4
        invariant j <= 4 && forall k :: 0 <= k < 16 ==>
                    state[k] == if k < 4 * i + j then Plus(was[k], roundKey[16 * round + k]) else was[k]
      {
        state[4 * i + j] := Plus(state[4 * i + j], roundKey[16 * round + 4 * i + j]);
        j := j + 1;
      }
      i := i + 1;
    }
    KeyAdded(was, roundKey, round, state[..]);
  }

  lemma KeyAdded(s: seq<bv8>, roundKey: seq<bv8>, round: nat, t: seq<bv8>)
    requires |s| == |t| == 16 && round <= ROUNDS && |roundKey| == 176
    requires forall k :: 0 <= k < 16 ==> t[k] == Plus(s[k], roundKey[16 * round + k])
    ensures LoadBlock(t, 0) == AddKey(LoadBlock(s, 0), RoundKey(WordsOf(roundKey), round))
  {
    hide Plus, PlusW, WordAt;
    KeyColumn(s, roundKey, round, t, 0);
    KeyColumn(s, roundKey, round, t, 1);
    KeyColumn(s, roundKey, round, t, 2);
    KeyColumn(s, roundKey, round, t, 3);
  }

  lemma KeyColumn(s: seq<bv8>, roundKey: seq<bv8>, round: nat, t: seq<bv8>, i: nat)
    requires |s| == |t| == 16 && round <= ROUNDS && |roundKey| == 176 && i < 4
    requires forall k :: 0 <= k < 16 ==> t[k] == Plus(s[k], roundKey[16 * round + k])
    ensures WordAt(t, 4 * i) == PlusW(WordAt(s, 4 * i), WordsOf(roundKey)[4 * round + i])
  {
    hide Plus, PlusW, WordAt;
    assert 4 * (4 * round + i) == 16 * round + 4 * i;
    ColumnPlus(s, 4 * i, roundKey, 4 * (4 * round + i), t, 4 * i);
  }

  method SubBytes(state: array<bv8>)
    requires state.Length == 16
    modifies state
    ensures forall k :: 0 <= k < 16 ==> state[k] == Sbox(old(state[k]))
  {
    hide Sbox;
    ghost var was := state[..];
    var i := 0;
    while i < 4
      invariant i <= 4 && forall k :: 0 <= k < 16 ==> state[k] == if k % 4 < i then Sbox(was[k]) else was[k]
    {
      var j := 0;
      while j < 4
        invariant j <= 4 && forall k :: 0 <= k < 16 ==>
                    state[k] == if k % 4 < i || (k % 4 == i && k < 4 * j) then Sbox(was[k]) else was[k]
      {
        state[4 * j + i] := Sbox(state[4 * j + i]);
        j := j + 1;
      }
      i := i + 1;
    }
  }

  /** Row j turns left by j. */
  method ShiftRows(state: array<bv8>)
    requires state.Length == 16
    modifies state
    ensures Turns(old(state[..]), state[..])
  {
    var temp := state[1];
    state[1] := state[5];
    state[5] := state[9];
    state[9] := state[13];
    state[13] := temp;
    temp := state[2];
    state[2] := state[10];
    state[10] := temp;
    temp := state[6];
    state[6] := state[14];
    state[14] := temp;
    temp := state[3];
    state[3] := state[15];
    state[15] := state[11];
    state[11] := state[7];
    state[7] := temp;
  }

  /** Byte j of column i comes from column i + j. */
  ghost predicate Turns(s: seq<bv8>, t: seq<bv8>)
    requires |s| == |t| == 16
  {
    && t[0] == s[0] && t[1] == s[5] && t[2] == s[10] && t[3] == s[15]
    && t[4] == s[4] && t[5] == s[9] && t[6] == s[14] && t[7] == s[3]
    && t[8] == s[8] && t[9] == s[13] && t[10] == s[2] && t[11] == s[7]
    && t[12] == s[12] && t[13] == s[1] && t[14] == s[6] && t[15] == s[11]
  }

  /** SubBytes and ShiftRows together are what the packed implementation does. */
  lemma SubbedAndTurned(s: seq<bv8>, t: seq<bv8>, u: seq<bv8>)
    requires |s| == |t| == |u| == 16 && (forall k :: 0 <= k < 16 ==> t[k] == Sbox(s[k])) && Turns(t, u)
    ensures LoadBlock(u, 0) == SubShift(LoadBlock(s, 0))
  {
    hide Sbox, Word, Byte0, Byte1, Byte2, Byte3;
    ColumnBytes(s, 0);
    ColumnBytes(s, 4);
    ColumnBytes(s, 8);
    ColumnBytes(s, 12);
  }

  method MixColumns(state: array<bv8>)
    requires state.Length == 16
    modifies state
    ensures LoadBlock(state[..], 0) == MixAll(LoadBlock(old(state[..]), 0))
  {
    hide Plus, Xtime, Word, Mixed, Mix;
    ghost var was := state[..];
    var i := 0;
    while i < 4
      invariant i <= 4 && forall k :: 0 <= k < i ==> MixedColumn(was, state[..], k)
      invariant forall k :: 4 * i <= k < 16 ==> state[k] == was[k]
    {
      ghost var before := state[..];
      MixColumn(state, i);
      forall k | 0 <= k < i
        ensures MixedColumn(was, state[..], k)
      {
        assert MixedColumn(was, before, k);
      }
      i := i + 1;
    }
    ColumnsMixed(was, state[..]);
  }

  ghost predicate MixedColumn(s: seq<bv8>, t: seq<bv8>, i: nat)
    requires |s| == |t| == 16 && i < 4
  {
    var a, b, c, d := s[4 * i], s[4 * i + 1], s[4 * i + 2], s[4 * i + 3];
    && t[4 * i] == Mixed(a, b, c, d) && t[4 * i + 1] == Mixed(b, c, d, a)
    && t[4 * i + 2] == Mixed(c, d, a, b) && t[4 * i + 3] == Mixed(d, a, b, c)
  }

  method MixColumn(state: array<bv8>, i: nat)
    requires state.Length == 16 && i < 4
    modifies state
    ensures MixedColumn(old(state[..]), state[..], i)
    ensures forall k :: 0 <= k < 16 && (k < 4 * i || 4 * i + 4 <= k) ==> state[k] == old(state[k])
  {
    hide Plus, Xtime, Mixed;
    var p := 4 * i;
    ghost var a, b, c, d := state[p], state[p + 1], state[p + 2], state[p + 3];
    var t := state[p];
    var tmp := Plus(Plus(Plus(state[p], state[p + 1]), state[p + 2]), state[p + 3]);
    SumTurns(a, b, c, d);
    ByteMixed(a, b, c, d, tmp);
    ByteMixed(b, c, d, a, tmp);
    ByteMixed(c, d, a, b, tmp);
    ByteMixed(d, a, b, c, tmp);
    var tm := Xtime(Plus(state[p], state[p + 1]));
    state[p] := Plus(state[p], Plus(tm, tmp));
    tm := Xtime(Plus(state[p + 1], state[p + 2]));
    state[p + 1] := Plus(state[p + 1], Plus(tm, tmp));
    tm := Xtime(Plus(state[p + 2], state[p + 3]));
    state[p + 2] := Plus(state[p + 2], Plus(tm, tmp));
    tm := Xtime(Plus(state[p + 3], t));
    state[p + 3] := Plus(state[p + 3], Plus(tm, tmp));
  }

  lemma ByteMixed(a: bv8, b: bv8, c: bv8, d: bv8, sum: bv8)
    requires sum == Plus(Plus(a, b), Plus(c, d))
    ensures Plus(a, Plus(Xtime(Plus(a, b)), sum)) == Mixed(a, b, c, d)
  {
    hide Plus, Xtime, Mixed;
    MixedForm(a, b, c, d, sum);
    PlusReverse(sum, sum, Xtime(Plus(a, b)));
  }

  lemma ColumnsMixed(s: seq<bv8>, t: seq<bv8>)
    requires |s| == |t| == 16 && forall k :: 0 <= k < 4 ==> MixedColumn(s, t, k)
    ensures LoadBlock(t, 0) == MixAll(LoadBlock(s, 0))
  {
    hide Mix, WordAt, MixedColumn;
    ColumnMixed(s, t, 0);
    ColumnMixed(s, t, 1);
    ColumnMixed(s, t, 2);
    ColumnMixed(s, t, 3);
  }

  lemma ColumnMixed(s: seq<bv8>, t: seq<bv8>, i: nat)
    requires |s| == |t| == 16 && i < 4 && MixedColumn(s, t, i)
    ensures WordAt(t, 4 * i) == Mix(WordAt(s, 4 * i))
  {
    hide Mix, Word, Byte0, Byte1, Byte2, Byte3, Mixed;
    ColumnBytes(s, 4 * i);
    MixBytes(WordAt(s, 4 * i));
    ColumnIs(t, 4 * i, Mix(WordAt(s, 4 * i)));
  }

  /** `Cipher`: for AES-128 it is the block function of the packed implementation. */
  method Cipher(state: array<bv8>, roundKey: seq<bv8>)
    requires state.Length == 16 && |roundKey| == 176
    modifies state
    ensures LoadBlock(state[..], 0) == EncryptBlock(LoadBlock(old(state[..]), 0), WordsOf(roundKey), ROUNDS)
  {
    hide Sbox, LoadBlock, WordsOf, SubShift, MixAll, AddKey, RoundKey;
    ghost var s, ks := LoadBlock(state[..], 0), WordsOf(roundKey);
    AddRoundKey(0, state, roundKey);
    var round := 1;
    while round < ROUNDS
      invariant 1 <= round <= ROUNDS && LoadBlock(state[..], 0) == Encrypted(s, ks, ROUNDS, round - 1)
    {
      ghost var before := state[..];
      SubBytes(state);
      ghost var subbed := state[..];
      ShiftRows(state);
      SubbedAndTurned(before, subbed, state[..]);
      MixColumns(state);
      AddRoundKey(round, state, roundKey);
      round := round + 1;
    }
    ghost var before := state[..];
    SubBytes(state);
    ghost var subbed := state[..];
    ShiftRows(state);
    SubbedAndTurned(before, subbed, state[..]);
    AddRoundKey(ROUNDS, state, roundKey);
  }

  // ----- key expansion

  /** `KeyExpansion`: the same schedule as the packed implementation's. */
  method KeyExpansion(key: seq<bv8>) returns (roundKey: seq<bv8>)
    requires |key| == 16
    ensures |roundKey| == 176 && WordsOf(roundKey) == Schedule(WordsOf(key), 44)
  {
    hide Sbox, Word, Plus, PlusW, NextWord, WordAt, WordsOf, Byte0, Byte1, Byte2, Byte3, Rcon;
    roundKey := key;
    var i := 4;
    while i < 44
      invariant 4 <= i <= 44 && |roundKey| == 4 * i && WordsOf(roundKey) == Schedule(WordsOf(key), i)
    {
      var k := (i - 1) * 4;
      var t0, t1, t2, t3 := roundKey[k], roundKey[k + 1], roundKey[k + 2], roundKey[k + 3];
      if i % 4 == 0 {
        t0, t1, t2, t3 := Sbox(t1), Sbox(t2), Sbox(t3), Sbox(t0);
        t0 := Plus(t0, Rcon(i / 4 - 1));
      }
      k := (i - 4) * 4;
      var four := [Plus(roundKey[k], t0), Plus(roundKey[k + 1], t1), Plus(roundKey[k + 2], t2), Plus(roundKey[k + 3], t3)];
      ColumnBytes(roundKey, 4 * (i - 1));
      ColumnBytes(roundKey, 4 * (i - 4));
      WordOf(roundKey, i - 1);
      WordOf(roundKey, i - 4);
      NextColumn(WordsOf(roundKey), t0, t1, t2, t3, four);
      OneMoreWord(roundKey, four);
      roundKey := roundKey + four;
      i := i + 1;
    }
  }

  lemma WordOf(rk: seq<bv8>, i: nat)
    requires |rk| % 4 == 0 && i < |rk| / 4
    ensures WordsOf(rk)[i] == WordAt(rk, 4 * i)
  {
    hide Word;
  }

  lemma OneMoreWord(rk: seq<bv8>, four: seq<bv8>)
    requires |rk| % 4 == 0 && |four| == 4
    ensures WordsOf(rk + four) == WordsOf(rk) + [WordAt(four, 0)]
  {
    hide Word;
  }

  lemma {:induction false} NextColumn(ks: seq<bv32>, t0: bv8, t1: bv8, t2: bv8, t3: bv8, four: seq<bv8>)
    requires 4 <= |ks| < 44 && |four| == 4
    requires var tmp := ks[|ks| - 1];
             if |ks| % 4 == 0 then
               t0 == Plus(Sbox(Byte1(tmp)), Rcon(|ks| / 4 - 1)) && t1 == Sbox(Byte2(tmp)) && t2 == Sbox(Byte3(tmp)) && t3 == Sbox(Byte0(tmp))
             else t0 == Byte0(tmp) && t1 == Byte1(tmp) && t2 == Byte2(tmp) && t3 == Byte3(tmp)
    requires var w := ks[|ks| - 4];
             && four[0] == Plus(Byte0(w), t0) && four[1] == Plus(Byte1(w), t1)
             && four[2] == Plus(Byte2(w), t2) && four[3] == Plus(Byte3(w), t3)
    ensures WordAt(four, 0) == NextWord(ks, 4)
  {
    hide Sbox, Word, Plus, PlusW, Byte0, Byte1, Byte2, Byte3, RoundConstant, SubRotWord, Rcon;
    var i, tmp := |ks|, ks[|ks| - 1];
    var t := if i % 4 == 0 then PlusW(SubRotWord(tmp), RoundConstant(i / 4 - 1)) else tmp;
    TempWord(tmp, i, t0, t1, t2, t3);
    BytesPlus(ks[i - 4], t);
    ColumnIs(four, 0, PlusW(ks[i - 4], t));
  }

  /** The bytes of the word that is added. */
  lemma TempWord(tmp: bv32, i: nat, t0: bv8, t1: bv8, t2: bv8, t3: bv8)
    requires 4 <= i < 44
    requires if i % 4 == 0 then
               t0 == Plus(Sbox(Byte1(tmp)), Rcon(i / 4 - 1)) && t1 == Sbox(Byte2(tmp)) && t2 == Sbox(Byte3(tmp)) && t3 == Sbox(Byte0(tmp))
             else t0 == Byte0(tmp) && t1 == Byte1(tmp) && t2 == Byte2(tmp) && t3 == Byte3(tmp)
    ensures var t := if i % 4 == 0 then PlusW(SubRotWord(tmp), RoundConstant(i / 4 - 1)) else tmp;
            Byte0(t) == t0 && Byte1(t) == t1 && Byte2(t) == t2 && Byte3(t) == t3
  {
    hide Sbox, Word, Plus, PlusW, Byte0, Byte1, Byte2, Byte3, RoundConstant, Rcon;
    if i % 4 == 0 {
      BytesPlus(SubRotWord(tmp), RoundConstant(i / 4 - 1));
      BytesOfWord(Sbox(Byte1(tmp)), Sbox(Byte2(tmp)), Sbox(Byte3(tmp)), Sbox(Byte0(tmp)));
      ConstantBytes(i / 4 - 1);
      PlusZero(t1);
      PlusZero(t2);
      PlusZero(t3);
    }
  }

  lemma ConstantBytes(j: nat)
    requires j < 30
    ensures var w := RoundConstant(j); Byte0(w) == Rcon(j) && Byte1(w) == 0 && Byte2(w) == 0 && Byte3(w) == 0
  {
    hide Byte0, Byte1, Byte2, Byte3, Rcon;
    ShiftedByte(Rcon(j));
  }

  lemma ShiftedByte(b: bv8)
    ensures var w := (b as bv32) << 24; Byte0(w) == b && Byte1(w) == 0 && Byte2(w) == 0 && Byte3(w) == 0
  {
  }

  // ----- the inverse cipher

  /** The state after n rounds of the inverse cipher, which mixes after adding the round key. */
  function InvCiphered(s: State, ks: seq<bv32>, rounds: nat, n: nat): State
    requires n <= rounds && 4 * rounds + 4 <= |ks|
  {
    if n == 0 then AddKey(s, RoundKey(ks, rounds))
    else
      var t := AddKey(InvSubShift(InvCiphered(s, ks, rounds, n - 1)), RoundKey(ks, rounds - n));
      if n < rounds then InvMixAll(t) else t
  }

  /** `Multiply`: five bits of the factor choose what is added. */
  function Multiply(x: bv8, y: bv8): bv8
  {
    Plus(Plus(Plus(Plus(Chosen(y & 1, x), Chosen((y >> 1) & 1, Xtime(x))), Chosen((y >> 2) & 1, Times4(x))),
              Chosen((y >> 3) & 1, Times8(x))),
         Chosen((y >> 4) & 1, Xtime(Times8(x))))
  }

  function Chosen(bit: bv8, x: bv8): bv8
  {
    if bit == 1 then x else 0
  }

  /** The bitwise product by each of the four factors is the multiplier of InvMixColumns. */
  lemma MultiplyIs(x: bv8)
    ensures Multiply(x, 0x0e) == Times14(x) && Multiply(x, 0x0b) == Times11(x)
    ensures Multiply(x, 0x0d) == Times13(x) && Multiply(x, 0x09) == Times9(x)
  {
    hide Plus, Xtime, Times4, Times8;
    var x2, x4, x8 := Xtime(x), Times4(x), Times8(x);
    PlusReverse(0, x2, x4);
    PlusReverse(x2, x4, x8);
    PlusReverse(x, x2, x8);
    PlusReverse(x, x4, x8);
    PlusZero(x);
    PlusZero(x2);
    PlusZero(Plus(x, x2));
    PlusZero(Plus(Plus(x2, x4), x8));
    PlusZero(Plus(Plus(x, x2), x8));
    PlusZero(Plus(Plus(x, x4), x8));
    PlusZero(Plus(x, x8));
  }

  method InvMixColumns(state: array<bv8>)
    requires state.Length == 16
    modifies state
    ensures LoadBlock(state[..], 0) == InvMixAll(LoadBlock(old(state[..]), 0))
  {
    hide Unmixed, Word, InvMix;
    ghost var was := state[..];
    var i := 0;
    while i < 4
      invariant i <= 4 && forall k :: 0 <= k < i ==> UnmixedColumn(was, state[..], k)
      invariant forall k :: 4 * i <= k < 16 ==> state[k] == was[k]
    {
      ghost var before := state[..];
      InvMixColumn(state, i);
      forall k | 0 <= k < i
        ensures UnmixedColumn(was, state[..], k)
      {
        assert UnmixedColumn(was, before, k);
      }
      i := i + 1;
    }
    ColumnsUnmixed(was, state[..]);
  }

  method InvMixColumn(state: array<bv8>, i: nat)
    requires state.Length == 16 && i < 4
    modifies state
    ensures UnmixedColumn(old(state[..]), state[..], i)
    ensures forall k :: 0 <= k < 16 && (k < 4 * i || 4 * i + 4 <= k) ==> state[k] == old(state[k])
  {
    hide Product, Unmixed;
    var p := 4 * i;
    var a, b, c, d := state[p], state[p + 1], state[p + 2], state[p + 3];
    state[p] := Product(a, b, c, d, 0x0e, 0x0b, 0x0d, 0x09);
    state[p + 1] := Product(a, b, c, d, 0x09, 0x0e, 0x0b, 0x0d);
    state[p + 2] := Product(a, b, c, d, 0x0d, 0x09, 0x0e, 0x0b);
    state[p + 3] := Product(a, b, c, d, 0x0b, 0x0d, 0x09, 0x0e);
    ProductsUnmix(a, b, c, d);
  }

  /** One line of the matrix of InvMixColumns. */
  function Product(a: bv8, b: bv8, c: bv8, d: bv8, x: bv8, y: bv8, z: bv8, w: bv8): bv8
  {
    Plus(Plus(Plus(Multiply(a, x), Multiply(b, y)), Multiply(c, z)), Multiply(d, w))
  }

  /** The four lines are one, turned. */
  lemma ProductsUnmix(a: bv8, b: bv8, c: bv8, d: bv8)
    ensures Product(a, b, c, d, 0x0e, 0x0b, 0x0d, 0x09) == Unmixed(a, b, c, d)
    ensures Product(a, b, c, d, 0x09, 0x0e, 0x0b, 0x0d) == Unmixed(b, c, d, a)
    ensures Product(a, b, c, d, 0x0d, 0x09, 0x0e, 0x0b) == Unmixed(c, d, a, b)
    ensures Product(a, b, c, d, 0x0b, 0x0d, 0x09, 0x0e) == Unmixed(d, a, b, c)
  {
    hide Plus, Multiply, Times9, Times11, Times13, Times14;
    MultiplyIs(a);
    MultiplyIs(b);
    MultiplyIs(c);
    MultiplyIs(d);
    SumTurns(Times14(a), Times11(b), Times13(c), Times9(d));
    SumTurns(Times9(a), Times14(b), Times11(c), Times13(d));
    SumTurns(Times13(a), Times9(b), Times14(c), Times11(d));
    SumTurns(Times11(a), Times13(b), Times9(c), Times14(d));
  }

  ghost predicate UnmixedColumn(s: seq<bv8>, t: seq<bv8>, i: nat)
    requires |s| == |t| == 16 && i < 4
  {
    var a, b, c, d := s[4 * i], s[4 * i + 1], s[4 * i + 2], s[4 * i + 3];
    && t[4 * i] == Unmixed(a, b, c, d) && t[4 * i + 1] == Unmixed(b, c, d, a)
    && t[4 * i + 2] == Unmixed(c, d, a, b) && t[4 * i + 3] == Unmixed(d, a, b, c)
  }

  lemma ColumnsUnmixed(s: seq<bv8>, t: seq<bv8>)
    requires |s| == |t| == 16 && forall k :: 0 <= k < 4 ==> UnmixedColumn(s, t, k)
    ensures LoadBlock(t, 0) == InvMixAll(LoadBlock(s, 0))
  {
    hide InvMix, WordAt, UnmixedColumn;
    ColumnUnmixed(s, t, 0);
    ColumnUnmixed(s, t, 1);
    ColumnUnmixed(s, t, 2);
    ColumnUnmixed(s, t, 3);
  }

  lemma ColumnUnmixed(s: seq<bv8>, t: seq<bv8>, i: nat)
    requires |s| == |t| == 16 && i < 4 && UnmixedColumn(s, t, i)
    ensures WordAt(t, 4 * i) == InvMix(WordAt(s, 4 * i))
  {
    hide InvMix, Word, Byte0, Byte1, Byte2, Byte3, Unmixed;
    ColumnBytes(s, 4 * i);
    InvMixBytes(WordAt(s, 4 * i));
    ColumnIs(t, 4 * i, InvMix(WordAt(s, 4 * i)));
  }

  method InvSubBytes(state: array<bv8>)
    requires state.Length == 16
    modifies state
    ensures forall k :: 0 <= k < 16 ==> state[k] == Isbox(old(state[k]))
  {
    hide Isbox;
    ghost var was := state[..];
    var i := 0;
    while i < 4
      invariant i <= 4 && forall k :: 0 <= k < 16 ==> state[k] == if k % 4 < i then Isbox(was[k]) else was[k]
    {
      var j := 0;
      while j < 4
        invariant j <= 4 && forall k :: 0 <= k < 16 ==>
                    state[k] == if k % 4 < i || (k % 4 == i && k < 4 * j) then Isbox(was[k]) else was[k]
      {
        state[4 * j + i] := Isbox(state[4 * j + i]);
        j := j + 1;
      }
      i := i + 1;
    }
  }

  /** Row j turns right by j: turning left again gives what was there. */
  method InvShiftRows(state: array<bv8>)
    requires state.Length == 16
    modifies state
    ensures Turns(state[..], old(state[..]))
  {
    var temp := state[13];
    state[13] := state[9];
    state[9] := state[5];
    state[5] := state[1];
    state[1] := temp;
    temp := state[2];
    state[2] := state[10];
    state[10] := temp;
    temp := state[6];
    state[6] := state[14];
    state[14] := temp;
    temp := state[3];
    state[3] := state[7];
    state[7] := state[11];
    state[11] := state[15];
    state[15] := temp;
  }

  /** InvShiftRows and InvSubBytes together are what the packed implementation does. */
  lemma TurnedAndUnsubbed(s: seq<bv8>, t: seq<bv8>, u: seq<bv8>)
    requires |s| == |t| == |u| == 16 && Turns(t, s) && forall k :: 0 <= k < 16 ==> u[k] == Isbox(t[k])
    ensures LoadBlock(u, 0) == InvSubShift(LoadBlock(s, 0))
  {
    hide Isbox, Word, Byte0, Byte1, Byte2, Byte3;
    ColumnBytes(s, 0);
    ColumnBytes(s, 4);
    ColumnBytes(s, 8);
    ColumnBytes(s, 12);
  }

  /** `InvCipher`: the straightforward inverse cipher, with the round keys of encryption; it undoes `Cipher`. */
  method InvCipher(state: array<bv8>, roundKey: seq<bv8>)
    requires state.Length == 16 && |roundKey| == 176
    modifies state
    ensures LoadBlock(state[..], 0) == InvCiphered(LoadBlock(old(state[..]), 0), WordsOf(roundKey), ROUNDS, ROUNDS)
    ensures forall m: State :: EncryptBlock(m, WordsOf(roundKey), ROUNDS) == LoadBlock(old(state[..]), 0) ==> LoadBlock(state[..], 0) == m
  {
    hide Isbox, LoadBlock, WordsOf, InvSubShift, InvMixAll, AddKey, RoundKey, EncryptBlock;
    ghost var s, ks := LoadBlock(state[..], 0), WordsOf(roundKey);
    AddRoundKey(ROUNDS, state, roundKey);
    var round := ROUNDS - 1;
    while round > 0
      invariant 0 <= round < ROUNDS && LoadBlock(state[..], 0) == InvCiphered(s, ks, ROUNDS, ROUNDS - 1 - round)
    {
      ghost var before := state[..];
      InvShiftRows(state);
      ghost var turned := state[..];
      InvSubBytes(state);
      TurnedAndUnsubbed(before, turned, state[..]);
      AddRoundKey(round, state, roundKey);
      InvMixColumns(state);
      round := round - 1;
    }
    ghost var before := state[..];
    InvShiftRows(state);
    ghost var turned := state[..];
    InvSubBytes(state);
    TurnedAndUnsubbed(before, turned, state[..]);
    AddRoundKey(0, state, roundKey);
    forall m: State | EncryptBlock(m, ks, ROUNDS) == s
      ensures LoadBlock(state[..], 0) == m
    {
      InvCipherBack(m, ks, ROUNDS);
    }
  }

  lemma UnmixAdded(s: State, k: State)
    ensures InvMixAll(AddKey(s, k)) == AddKey(InvMixAll(s), InvMixAll(k))
  {
    hide PlusW, InvMix;
    InvMixPlus(s[0], k[0]);
    InvMixPlus(s[1], k[1]);
    InvMixPlus(s[2], k[2]);
    InvMixPlus(s[3], k[3]);
  }

  /** The equivalent inverse cipher is equivalent: with converted keys it computes the inverse cipher,
      on every block. */
  lemma {:induction false} InverseCiphersAgree(s: State, ks: seq<bv32>, dk: seq<bv32>, rounds: nat, n: nat)
    requires ConvertedKeys(ks, dk, rounds) && n <= rounds && rounds > 0
    ensures InvCiphered(s, ks, rounds, n) == Decrypted(s, dk, rounds, n)
  {
    hide AddKey, RoundKey, InvMixAll, InvSubShift, InvMix;
    ConvertedRound(ks, dk, rounds, rounds - n);
    if n > 0 {
      InverseCiphersAgree(s, ks, dk, rounds, n - 1);
      UnmixAdded(InvSubShift(InvCiphered(s, ks, rounds, n - 1)), RoundKey(ks, rounds - n));
    }
  }

  /** Keys can always be converted. */
  function Converted(ks: seq<bv32>, rounds: nat): (dk: seq<bv32>)
    requires 4 * rounds + 4 <= |ks|
    ensures ConvertedKeys(ks, dk, rounds)
  {
    seq(|ks|, i requires 0 <= i < |ks| => if 4 <= i < 4 * rounds then InvMix(ks[i]) else ks[i])
  }

  /** The inverse cipher undoes the cipher. */
  lemma {:induction false} InvCipherBack(s: State, ks: seq<bv32>, rounds: nat)
    requires 4 * rounds + 4 <= |ks| && rounds > 0
    ensures InvCiphered(EncryptBlock(s, ks, rounds), ks, rounds, rounds) == s
  {
    hide ConvertedKeys, InvMix;
    var dk := Converted(ks, rounds);
    InverseCiphersAgree(EncryptBlock(s, ks, rounds), ks, dk, rounds, rounds);
    BlockRoundTrip(s, ks, dk, rounds);
  }
}
