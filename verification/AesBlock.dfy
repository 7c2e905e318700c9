/** One block through AES and back, by the equivalent inverse cipher (FIPS 197, section 5.3.5). */
module AesBlock {
  import opened AesTables
  import opened AesWords

  /** Four columns, as packed words. */
  type State = s: seq<bv32> | |s| == 4 witness [0, 0, 0, 0]

  function Columns(c0: bv32, c1: bv32, c2: bv32, c3: bv32): State
  {
    [c0, c1, c2, c3]
  }

  /** ByteSub and ShiftRow together: column r takes row k from column r + k. */
  function SubShift(s: State): State
  {
    Columns(SubColumn(s[0], s[1], s[2], s[3]), SubColumn(s[1], s[2], s[3], s[0]),
            SubColumn(s[2], s[3], s[0], s[1]), SubColumn(s[3], s[0], s[1], s[2]))
  }

  function SubColumn(a: bv32, b: bv32, c: bv32, d: bv32): bv32
  {
    Word(Sbox(Byte0(a)), Sbox(Byte1(b)), Sbox(Byte2(c)), Sbox(Byte3(d)))
  }

  /** The inverse: column r takes row k from column r - k. */
  function InvSubShift(s: State): State
  {
    Columns(InvSubColumn(s[0], s[3], s[2], s[1]), InvSubColumn(s[1], s[0], s[3], s[2]),
            InvSubColumn(s[2], s[1], s[0], s[3]), InvSubColumn(s[3], s[2], s[1], s[0]))
  }

  function InvSubColumn(a: bv32, b: bv32, c: bv32, d: bv32): bv32
  {
    Word(Isbox(Byte0(a)), Isbox(Byte1(b)), Isbox(Byte2(c)), Isbox(Byte3(d)))
  }

  function MixAll(s: State): State
  {
    Columns(Mix(s[0]), Mix(s[1]), Mix(s[2]), Mix(s[3]))
  }

  function InvMixAll(s: State): State
  {
    Columns(InvMix(s[0]), InvMix(s[1]), InvMix(s[2]), InvMix(s[3]))
  }

  /** The words of round key j. */
  function RoundKey(ks: seq<bv32>, j: nat): State
    requires 4 * j + 4 <= |ks|
  {
    Columns(ks[4 * j], ks[4 * j + 1], ks[4 * j + 2], ks[4 * j + 3])
  }

  function AddKey(s: State, k: State): State
  {
    Columns(PlusW(s[0], k[0]), PlusW(s[1], k[1]), PlusW(s[2], k[2]), PlusW(s[3], k[3]))
  }

  /** The state after n rounds of encryption. */
  function Encrypted(s: State, ks: seq<bv32>, rounds: nat, n: nat): State
    requires n <= rounds && 4 * rounds + 4 <= |ks|
  {
    if n == 0 then AddKey(s, RoundKey(ks, 0))
    else
      var t := SubShift(Encrypted(s, ks, rounds, n - 1));
      AddKey(if n < rounds then MixAll(t) else t, RoundKey(ks, n))
  }

  /** The state after n rounds of decryption. */
  function Decrypted(s: State, ks: seq<bv32>, rounds: nat, n: nat): State
    requires n <= rounds && 4 * rounds + 4 <= |ks|
  {
    if n == 0 then AddKey(s, RoundKey(ks, rounds))
    else
      var t := InvSubShift(Decrypted(s, ks, rounds, n - 1));
      AddKey(if n < rounds then InvMixAll(t) else t, RoundKey(ks, rounds - n))
  }

  function EncryptBlock(s: State, ks: seq<bv32>, rounds: nat): State
    requires 4 * rounds + 4 <= |ks|
  {
    Encrypted(s, ks, rounds, rounds)
  }

  function DecryptBlock(s: State, ks: seq<bv32>, rounds: nat): State
    requires 4 * rounds + 4 <= |ks|
  {
    Decrypted(s, ks, rounds, rounds)
  }

  /** The keys for decryption: all but the first and the last go through InvMixColumns. */
  ghost predicate ConvertedKeys(ks: seq<bv32>, dk: seq<bv32>, rounds: nat)
  {
    && |ks| == |dk| && 4 * rounds + 4 <= |ks|
    && forall i :: 0 <= i < 4 * rounds + 4 ==> dk[i] == if 4 <= i < 4 * rounds then InvMix(ks[i]) else ks[i]
  }

  // ----- decryption undoes encryption

  lemma SubColumnBytes(a: bv32, b: bv32, c: bv32, d: bv32)
    ensures var w := SubColumn(a, b, c, d);
            Byte0(w) == Sbox(Byte0(a)) && Byte1(w) == Sbox(Byte1(b)) && Byte2(w) == Sbox(Byte2(c)) && Byte3(w) == Sbox(Byte3(d))
  {
    hide Byte0, Byte1, Byte2, Byte3, Word, Sbox;
    BytesOfWord(Sbox(Byte0(a)), Sbox(Byte1(b)), Sbox(Byte2(c)), Sbox(Byte3(d)));
  }

  lemma InvSubShiftBack(s: State)
    ensures InvSubShift(SubShift(s)) == s
  {
    hide Byte0, Byte1, Byte2, Byte3, Word, Sbox, Isbox, SubColumn;
    var a, b, c, d := s[0], s[1], s[2], s[3];
    ColumnBack(a, b, c, d);
    ColumnBack(b, c, d, a);
    ColumnBack(c, d, a, b);
    ColumnBack(d, a, b, c);
    assert s == [a, b, c, d];
  }

  /** The bytes of one column, found again in the columns they were shifted to. */
  lemma ColumnBack(a: bv32, b: bv32, c: bv32, d: bv32)
    ensures InvSubColumn(SubColumn(a, b, c, d), SubColumn(d, a, b, c), SubColumn(c, d, a, b), SubColumn(b, c, d, a)) == a
  {
    hide Byte0, Byte1, Byte2, Byte3, Word, Sbox, Isbox, SubColumn;
    SubColumnBytes(a, b, c, d);
    SubColumnBytes(d, a, b, c);
    SubColumnBytes(c, d, a, b);
    SubColumnBytes(b, c, d, a);
    SboxInverse(Byte0(a));
    SboxInverse(Byte1(a));
    SboxInverse(Byte2(a));
    SboxInverse(Byte3(a));
    WordOfBytes(a);
  }

  lemma AddKeyTwice(s: State, k: State)
    ensures AddKey(AddKey(s, k), k) == s
  {
    hide PlusW;
    PlusWCancels(s[0], k[0]);
    PlusWCancels(s[1], k[1]);
    PlusWCancels(s[2], k[2]);
    PlusWCancels(s[3], k[3]);
    assert s == [s[0], s[1], s[2], s[3]];
  }

  /** Unmixing a mixed column to which a round key was added. */
  lemma UnmixKeyed(s: State, k: State)
    ensures InvMixAll(AddKey(MixAll(s), k)) == AddKey(s, InvMixAll(k))
  {
    hide PlusW, Mix, InvMix;
    InvMixPlus(Mix(s[0]), k[0]);
    InvMixPlus(Mix(s[1]), k[1]);
    InvMixPlus(Mix(s[2]), k[2]);
    InvMixPlus(Mix(s[3]), k[3]);
    InvMixMix(s[0]);
    InvMixMix(s[1]);
    InvMixMix(s[2]);
    InvMixMix(s[3]);
  }

  lemma ConvertedRound(ks: seq<bv32>, dk: seq<bv32>, rounds: nat, j: nat)
    requires ConvertedKeys(ks, dk, rounds) && j <= rounds
    ensures RoundKey(dk, j) == if 0 < j < rounds then InvMixAll(RoundKey(ks, j)) else RoundKey(ks, j)
  {
    hide InvMix;
  }

  /** After n rounds of decryption, encryption is undone up to the substitution of a round. */
  lemma {:induction false} DecryptionFollows(s: State, ks: seq<bv32>, dk: seq<bv32>, rounds: nat, n: nat)
    requires ConvertedKeys(ks, dk, rounds) && n < rounds
    ensures Decrypted(EncryptBlock(s, ks, rounds), dk, rounds, n) == SubShift(Encrypted(s, ks, rounds, rounds - 1 - n))
  {
    hide SubShift, InvSubShift, MixAll, InvMixAll, RoundKey, AddKey, InvMix;
    var c := EncryptBlock(s, ks, rounds);
    ConvertedRound(ks, dk, rounds, rounds - n);
    if n == 0 {
      AddKeyTwice(SubShift(Encrypted(s, ks, rounds, rounds - 1)), RoundKey(ks, rounds));
    } else {
      DecryptionFollows(s, ks, dk, rounds, n - 1);
      var e := Encrypted(s, ks, rounds, rounds - 1 - n);
      InvSubShiftBack(Encrypted(s, ks, rounds, rounds - n));
      UnmixKeyed(SubShift(e), RoundKey(ks, rounds - n));
      AddKeyTwice(SubShift(e), RoundKey(dk, rounds - n));
    }
  }

  /** For every key schedule, the block function with converted keys undoes encryption. */
  lemma {:induction false} BlockRoundTrip(s: State, ks: seq<bv32>, dk: seq<bv32>, rounds: nat)
    requires ConvertedKeys(ks, dk, rounds) && rounds > 0
    ensures DecryptBlock(EncryptBlock(s, ks, rounds), dk, rounds) == s
  {
    hide SubShift, InvSubShift, MixAll, InvMixAll, RoundKey, AddKey, InvMix;
    DecryptionFollows(s, ks, dk, rounds, rounds - 1);
    ConvertedRound(ks, dk, rounds, 0);
    InvSubShiftBack(Encrypted(s, ks, rounds, 0));
    AddKeyTwice(s, RoundKey(ks, 0));
  }
}
