/** Key schedule, block functions and cipher block chaining of crypto/aes.c. */
module AesContexts {
  import opened AesTables
  import opened AesWords
  import opened AesBlock

  // ----- key schedule (FIPS 197, section 5.2)

  const RCON: seq<bv8> := [
    0x01, 0x02, 0x04, 0x08, 0x10, 0x20, 0x40, 0x80, 0x1b, 0x36, 0x6c, 0xd8, 0xab, 0x4d, 0x9a,
    0x2f, 0x5e, 0xbc, 0x63, 0xc6, 0x97, 0x35, 0x6a, 0xd4, 0xb3, 0x7d, 0xfa, 0xef, 0xc5, 0x91]

  function Rcon(j: nat): bv8
    requires j < 30
  {
    RCON[j]
  }

  function RoundConstant(j: nat): bv32
    requires j < 30
  {
    (Rcon(j) as bv32) << 24
  }

  function SubWord(w: bv32): bv32
  {
    Word(Sbox(Byte0(w)), Sbox(Byte1(w)), Sbox(Byte2(w)), Sbox(Byte3(w)))
  }

  function SubRotWord(w: bv32): bv32
  {
    Word(Sbox(Byte1(w)), Sbox(Byte2(w)), Sbox(Byte3(w)), Sbox(Byte0(w)))
  }

  /** Keys have 4 or 8 words. */
  predicate KeyWords(nk: nat)
  {
    nk == 4 || nk == 8
  }

  /** The next word of the schedule. */
  function NextWord(ks: seq<bv32>, nk: nat): bv32
    requires KeyWords(nk) && nk <= |ks| < 60
  {
    var i, tmp := |ks|, ks[|ks| - 1];
    var t := if i % nk == 0 then PlusW(SubRotWord(tmp), RoundConstant(i / nk - 1))
             else if nk == 8 && i % nk == 4 then SubWord(tmp) else tmp;
    PlusW(ks[i - nk], t)
  }

  /** The first n words. */
  function Schedule(key: seq<bv32>, n: nat): (ks: seq<bv32>)
    requires KeyWords(|key|) && |key| <= n <= 60
    ensures |ks| == n
  {
    if n == |key| then key else Schedule(key, n - 1) + [NextWord(Schedule(key, n - 1), |key|)]
  }

  function WordAt(b: seq<bv8>, i: nat): bv32
    requires i + 4 <= |b|
  {
    Word(b[i], b[i + 1], b[i + 2], b[i + 3])
  }

  function WordsOf(b: seq<bv8>): (w: seq<bv32>)
    requires |b| % 4 == 0
    ensures |w| == |b| / 4
  {
    seq(|b| / 4, i requires 0 <= i < |b| / 4 => WordAt(b, 4 * i))
  }

  // ----- blocks as bytes

  function LoadBlock(m: seq<bv8>, i: nat): State
    requires i + 16 <= |m|
  {
    Columns(WordAt(m, i), WordAt(m, i + 4), WordAt(m, i + 8), WordAt(m, i + 12))
  }

  function BytesOf(w: bv32): (b: seq<bv8>)
    ensures |b| == 4
  {
    [Byte0(w), Byte1(w), Byte2(w), Byte3(w)]
  }

  function StoreBlock(s: State): (b: seq<bv8>)
    ensures |b| == 16
  {
    BytesOf(s[0]) + BytesOf(s[1]) + BytesOf(s[2]) + BytesOf(s[3])
  }

  lemma LoadStore(s: State)
    ensures LoadBlock(StoreBlock(s), 0) == s
  {
    hide Byte0, Byte1, Byte2, Byte3, Word;
    WordOfBytes(s[0]);
    WordOfBytes(s[1]);
    WordOfBytes(s[2]);
    WordOfBytes(s[3]);
    assert s == [s[0], s[1], s[2], s[3]];
  }

  lemma StoreLoad(m: seq<bv8>, i: nat)
    requires i + 16 <= |m|
    ensures StoreBlock(LoadBlock(m, i)) == m[i..i + 16]
  {
    hide Byte0, Byte1, Byte2, Byte3, Word;
    FourBytes(m, i);
    FourBytes(m, i + 4);
    FourBytes(m, i + 8);
    FourBytes(m, i + 12);
    assert m[i..i + 16] == m[i..i + 4] + m[i + 4..i + 8] + m[i + 8..i + 12] + m[i + 12..i + 16];
  }

  lemma FourBytes(m: seq<bv8>, i: nat)
    requires i + 4 <= |m|
    ensures BytesOf(WordAt(m, i)) == m[i..i + 4]
  {
    hide Byte0, Byte1, Byte2, Byte3, Word;
    BytesOfWord(m[i], m[i + 1], m[i + 2], m[i + 3]);
  }

  // ----- cipher block chaining (NIST SP 800-38A, section 6.2)

  /** The whole blocks of a message, encrypted after the block `iv`. */
  function CbcEncrypted(ks: seq<bv32>, rounds: nat, iv: State, m: seq<bv8>): seq<bv8>
    requires 4 * rounds + 4 <= |ks|
    decreases |m|
  {
    if |m| < 16 then []
    else
      var c := EncryptBlock(AddKey(LoadBlock(m, 0), iv), ks, rounds);
      StoreBlock(c) + CbcEncrypted(ks, rounds, c, m[16..])
  }

  function CbcDecrypted(ks: seq<bv32>, rounds: nat, iv: State, m: seq<bv8>): seq<bv8>
    requires 4 * rounds + 4 <= |ks|
    decreases |m|
  {
    if |m| < 16 then []
    else
      StoreBlock(AddKey(DecryptBlock(LoadBlock(m, 0), ks, rounds), iv)) + CbcDecrypted(ks, rounds, LoadBlock(m, 0), m[16..])
  }

  /** For every key schedule, initial vector and message of whole blocks, decryption undoes encryption. */
  lemma {:induction false} CbcRoundTrip(ks: seq<bv32>, dk: seq<bv32>, rounds: nat, iv: State, m: seq<bv8>)
    requires ConvertedKeys(ks, dk, rounds) && rounds > 0 && |m| % 16 == 0
    ensures CbcDecrypted(dk, rounds, iv, CbcEncrypted(ks, rounds, iv, m)) == m
    decreases |m|
  {
    hide EncryptBlock, DecryptBlock, AddKey, InvMix, LoadBlock, StoreBlock;
    if m == [] {
    } else {
      var p := AddKey(LoadBlock(m, 0), iv);
      var c := EncryptBlock(p, ks, rounds);
      var rest := CbcEncrypted(ks, rounds, c, m[16..]);
      var all := StoreBlock(c) + rest;
      CbcRoundTrip(ks, dk, rounds, c, m[16..]);
      FirstBlock(c, rest);
      assert all[16..] == rest;
      BlockRoundTrip(p, ks, dk, rounds);
      AddKeyTwice(LoadBlock(m, 0), iv);
      StoreLoad(m, 0);
      assert m == m[0..16] + m[16..];
    }
  }

  /** Bytes after the last whole block are left out. */
  lemma {:induction false} WholeBlocks(ks: seq<bv32>, rounds: nat, iv: State, m: seq<bv8>)
    requires 4 * rounds + 4 <= |ks|
    ensures CbcEncrypted(ks, rounds, iv, m) == CbcEncrypted(ks, rounds, iv, m[..|m| / 16 * 16])
    decreases |m|
  {
    hide EncryptBlock, AddKey, LoadBlock, StoreBlock;
    var whole := |m| / 16 * 16;
    if |m| >= 16 {
      var c := EncryptBlock(AddKey(LoadBlock(m, 0), iv), ks, rounds);
      WholeBlocks(ks, rounds, c, m[16..]);
      SameBlock(m, m[..whole]);
      assert m[16..][..whole - 16] == m[..whole][16..];
    }
  }

  lemma SameBlock(m: seq<bv8>, n: seq<bv8>)
    requires |n| >= 16 && n <= m
    ensures LoadBlock(n, 0) == LoadBlock(m, 0)
  {
    hide Word;
  }

  /** Two calls, the second chained by the last block of the first, encrypt as one. */
  lemma {:induction false} CbcConcat(ks: seq<bv32>, rounds: nat, iv: State, m: seq<bv8>, n: seq<bv8>)
    requires 4 * rounds + 4 <= |ks| && |m| % 16 == 0
    ensures var out := CbcEncrypted(ks, rounds, iv, m);
            && |out| == |m|
            && CbcEncrypted(ks, rounds, iv, m + n) == out + CbcEncrypted(ks, rounds, CbcNext(iv, out), n)
    decreases |m|
  {
    hide EncryptBlock, AddKey, LoadBlock, StoreBlock;
    if m == [] {
      assert m + n == n;
    } else {
      var c := EncryptBlock(AddKey(LoadBlock(m, 0), iv), ks, rounds);
      var rest := CbcEncrypted(ks, rounds, c, m[16..]);
      CbcConcat(ks, rounds, c, m[16..], n);
      SameBlock(m + n, m);
      assert (m + n)[16..] == m[16..] + n;
      NextAfterBlock(iv, c, rest);
    }
  }

  lemma NextAfterBlock(iv: State, c: State, rest: seq<bv8>)
    requires |rest| % 16 == 0
    ensures CbcNext(iv, StoreBlock(c) + rest) == CbcNext(c, rest)
  {
    hide Word, Byte0, Byte1, Byte2, Byte3, LoadBlock, StoreBlock;
    var all := StoreBlock(c) + rest;
    if rest == [] {
      FirstBlock(c, rest);
    } else {
      LoadFrom(all, 16);
      assert all[16..] == rest;
      LoadFrom(all, |all| - 16);
      LoadFrom(rest, |rest| - 16);
      assert all[|all| - 16..] == rest[|rest| - 16..];
    }
  }

  lemma FirstBlock(c: State, rest: seq<bv8>)
    ensures LoadBlock(StoreBlock(c) + rest, 0) == c
  {
    hide Byte0, Byte1, Byte2, Byte3, Word;
    LoadStore(c);
  }

  /** The block that chains the next call. */
  function CbcNext(iv: State, blocks: seq<bv8>): State
  {
    if |blocks| < 16 then iv else LoadBlock(blocks, |blocks| / 16 * 16 - 16)
  }

  /** The next block is encrypted after the addition of the last encrypted block, the first one after that of the
      initial vector. */
  lemma {:induction false} CbcChains(ks: seq<bv32>, rounds: nat, iv: State, m: seq<bv8>, block: seq<bv8>)
    requires 4 * rounds + 4 <= |ks| && |m| % 16 == 0 && |block| == 16
    ensures var out := CbcEncrypted(ks, rounds, iv, m);
            && |out| == |m|
            && CbcEncrypted(ks, rounds, iv, m + block)
               == out + StoreBlock(EncryptBlock(AddKey(LoadBlock(block, 0), if m == [] then iv else LoadBlock(out, |out| - 16)), ks, rounds))
  {
    hide EncryptBlock, AddKey, LoadBlock, StoreBlock;
    CbcConcat(ks, rounds, iv, m, block);
    var last := StoreBlock(EncryptBlock(AddKey(LoadBlock(block, 0), CbcNext(iv, CbcEncrypted(ks, rounds, iv, m))), ks, rounds));
    assert last + [] == last;
  }

  /** Addition of blocks is exclusive or, byte by byte. */
  lemma {:induction false} AddKeyBytes(s: State, k: State, j: nat)
    requires j < 16
    ensures StoreBlock(AddKey(s, k))[j] == Plus(StoreBlock(s)[j], StoreBlock(k)[j])
  {
    hide StoreBlock, AddKey, Plus, PlusW, BytesOf;
    StoredByte(AddKey(s, k), j);
    StoredByte(s, j);
    StoredByte(k, j);
    AddedWord(s, k, j / 4);
    AddedByte(s[j / 4], k[j / 4], j % 4);
  }

  lemma StoredByte(s: State, j: nat)
    requires j < 16
    ensures StoreBlock(s)[j] == BytesOf(s[j / 4])[j % 4]
  {
    hide Byte0, Byte1, Byte2, Byte3;
  }

  lemma AddedWord(s: State, k: State, c: nat)
    requires c < 4
    ensures AddKey(s, k)[c] == PlusW(s[c], k[c])
  {
    hide PlusW;
  }

  lemma AddedByte(x: bv32, y: bv32, r: nat)
    requires r < 4
    ensures BytesOf(PlusW(x, y))[r] == Plus(BytesOf(x)[r], BytesOf(y)[r])
  {
    hide Byte0, Byte1, Byte2, Byte3, Plus, PlusW;
    BytesPlus(x, y);
  }

  datatype Mode = Mode128 | Mode256

  class AesCtx {
    var rounds: nat
    var keySize: nat
    const ks: array<bv32>
    var iv: seq<bv8>

    constructor ()
      ensures ks.Length == 60 && fresh(ks)
    {
      rounds, keySize, iv := 0, 0, seq(16, _ => 0);
      ks := new bv32[60](_ => 0);
    }

    predicate Valid()
      reads this
    {
      ks.Length == 60 && 0 < 4 * rounds + 4 <= 60 && rounds > 0 && |iv| == 16
    }

    method SetKey(key: seq<bv8>, iv: seq<bv8>, mode: Mode)
      requires ks.Length == 60 && |iv| == 16 && |key| == if mode.Mode128? then 16 else 32
      modifies this, ks
      ensures Valid() && this.iv == iv && rounds == if mode.Mode128? then 10 else 14
      ensures ks[..4 * rounds + 4] == Schedule(WordsOf(key), 4 * rounds + 4)
    {
      hide Word, PlusW, NextWord, SubRotWord, SubWord, Schedule, WordsOf;
      var words := if mode.Mode128? then 4 else 8;
      rounds, keySize := if mode.Mode128? then 10 else 14, words;
      LoadKey(key, words);
      Expand(words, WordsOf(key));
      this.iv := iv;
    }

    method LoadKey(key: seq<bv8>, words: nat)
      requires ks.Length == 60 && words <= 8 && |key| == 4 * words
      modifies ks
      ensures ks[..words] == WordsOf(key)
    {
      hide Word;
      var i := 0;
      while i < words
        invariant i <= words && forall k :: 0 <= k < i ==> ks[k] == WordAt(key, 4 * k)
      {
        ks[i] := Word(key[4 * i], key[4 * i + 1], key[4 * i + 2], key[4 * i + 3]);
        i := i + 1;
      }
    }

    method Expand(words: nat, ghost key: seq<bv32>)
      requires ks.Length == 60 && KeyWords(words) && |key| == words && words <= 4 * (rounds + 1) <= 60 && ks[..words] == key
      modifies ks
      ensures ks[..4 * rounds + 4] == Schedule(key, 4 * rounds + 4)
    {
      hide PlusW, NextWord, SubRotWord, SubWord, RoundConstant;
      var i := words;
      while i < 4 * (rounds + 1)
        invariant words <= i <= 4 * (rounds + 1) && ks[..i] == Schedule(key, i)
      {
        ghost var was := ks[..i];
        var tmp := ks[i - 1];
        if i % words == 0 {
          tmp := PlusW(SubRotWord(tmp), RoundConstant(i / words - 1));
        } else if words == 8 && i % words == 4 {
          tmp := SubWord(tmp);
        }
        NextIs(was, words, tmp);
        ks[i] := PlusW(ks[i - words], tmp);
        assert ks[..i + 1] == was + [ks[i]];
        i := i + 1;
      }
    }

    /** `AES_convert_key`. */
    method ConvertKey()
      requires Valid()
      modifies ks
      ensures ConvertedKeys(old(ks[..]), ks[..], rounds)
    {
      hide PackedInvMix, InvMix;
      var k := 4;
      while k < 4 * rounds
        invariant 4 <= k <= 4 * rounds
        invariant forall i :: 0 <= i < 60 ==> ks[i] == if 4 <= i < k then InvMix(old(ks[i])) else old(ks[i])
      {
        PackedIsInvMix(ks[k]);
        ks[k] := PackedInvMix(ks[k]);
        k := k + 1;
      }
    }

    /** `AES_encrypt`: one block, in place. */
    method Encrypt(data: array<bv32>)
      requires Valid() && data.Length == 4 && data != ks
      modifies data
      ensures data[..] == EncryptBlock(old(data[..]), ks[..], rounds)
    {
      hide PlusW, Encrypted, AddKey, RoundKey, RoundColumn;
      ghost var s: State := data[..];
      AddRoundKey(data, data[..], 0);
      StartEncrypted(s, ks[..], rounds);
      var round := 0;
      while round < rounds
        invariant round <= rounds && data[..] == Encrypted(s, ks[..], rounds, round)
      {
        var tmp := SubstituteColumns(data[..], round < rounds - 1);
        NextEncrypted(s, ks[..], rounds, round + 1, tmp);
        AddRoundKey(data, tmp, round + 1);
        round := round + 1;
      }
    }

    /** The words of a round key added. */
    method AddRoundKey(data: array<bv32>, t: seq<bv32>, j: nat)
      requires ks.Length == 60 && 4 * j + 4 <= 60 && data.Length == 4 && data != ks && |t| == 4
      modifies data
      ensures data[..] == AddKey(t, RoundKey(ks[..], j))
    {
      hide PlusW;
      var row := 0;
      while row < 4
        invariant row <= 4 && forall k :: 0 <= k < row ==> data[k] == PlusW(t[k], ks[4 * j + k])
      {
        data[row] := PlusW(t[row], ks[4 * j + row]);
        row := row + 1;
      }
    }

    /** `AES_decrypt`: one block, in place, with converted keys. */
    method Decrypt(data: array<bv32>)
      requires Valid() && data.Length == 4 && data != ks
      modifies data
      ensures data[..] == DecryptBlock(old(data[..]), ks[..], rounds)
    {
      hide PlusW, Decrypted, AddKey, RoundKey, InvRoundColumn;
      ghost var s: State := data[..];
      AddRoundKey(data, data[..], rounds);
      StartDecrypted(s, ks[..], rounds);
      var round := 0;
      while round < rounds
        invariant round <= rounds && data[..] == Decrypted(s, ks[..], rounds, round)
      {
        var tmp := InvSubstituteColumns(data[..], round < rounds - 1);
        NextDecrypted(s, ks[..], rounds, round + 1, tmp);
        AddRoundKey(data, tmp, rounds - 1 - round);
        round := round + 1;
      }
    }

    /** `AES_cbc_encrypt`: the whole blocks of the message; the last one chains the next call. */
    method CbcEncrypt(msg: seq<bv8>) returns (out: seq<bv8>)
      requires Valid()
      modifies this`iv
      ensures Valid() && out == CbcEncrypted(ks[..], rounds, LoadBlock(old(iv), 0), msg)
      ensures LoadBlock(iv, 0) == CbcNext(LoadBlock(old(iv), 0), out)
    {
      hide EncryptBlock, AddKey, LoadBlock, StoreBlock, CbcEncrypted, CbcNext;
      out := [];
      var tout: State := LoadBlock(iv, 0);
      ghost var iv0 := tout;
      var rest := msg;
      NothingChained(tout);
      assert [] + CbcEncrypted(ks[..], rounds, tout, rest) == CbcEncrypted(ks[..], rounds, tout, rest);
      while |rest| >= 16
        invariant Valid() && |out| % 16 == 0
        invariant out + CbcEncrypted(ks[..], rounds, tout, rest) == CbcEncrypted(ks[..], rounds, iv0, msg)
        invariant tout == CbcNext(iv0, out)
        decreases |rest|
      {
        var data := new bv32[4];
        var tin := AddKey(LoadBlock(rest, 0), tout);
        data[0], data[1], data[2], data[3] := tin[0], tin[1], tin[2], tin[3];
        assert data[..] == tin;
        Encrypt(data);
        CbcEncryptStep(ks[..], rounds, tout, rest, out);
        tout := data[..];
        LastStored(out, tout, iv0);
        out := out + StoreBlock(tout);
        rest := rest[16..];
      }
      CbcDone(ks[..], rounds, tout, rest);
      assert out + [] == out;
      LoadStore(tout);
      iv := StoreBlock(tout);
    }

    /** `AES_cbc_decrypt`. */
    method CbcDecrypt(msg: seq<bv8>) returns (out: seq<bv8>)
      requires Valid()
      modifies this`iv
      ensures Valid() && out == CbcDecrypted(ks[..], rounds, LoadBlock(old(iv), 0), msg)
      ensures LoadBlock(iv, 0) == CbcNext(LoadBlock(old(iv), 0), msg)
    {
      hide DecryptBlock, AddKey, LoadBlock, StoreBlock, CbcDecrypted, CbcNext;
      out := [];
      var xor: State := LoadBlock(iv, 0);
      ghost var iv0 := xor;
      var rest := msg;
      assert [] + CbcDecrypted(ks[..], rounds, xor, rest) == CbcDecrypted(ks[..], rounds, xor, rest);
      while |rest| >= 16
        invariant Valid()
        invariant out + CbcDecrypted(ks[..], rounds, xor, rest) == CbcDecrypted(ks[..], rounds, iv0, msg)
        invariant CbcNext(xor, rest) == CbcNext(iv0, msg)
        decreases |rest|
      {
        var data := new bv32[4];
        var tin := LoadBlock(rest, 0);
        data[0], data[1], data[2], data[3] := tin[0], tin[1], tin[2], tin[3];
        assert data[..] == tin;
        Decrypt(data);
        CbcStep(ks[..], rounds, xor, rest, out);
        out := out + StoreBlock(AddKey(data[..], xor));
        xor := tin;
        rest := rest[16..];
      }
      CbcDone(ks[..], rounds, xor, rest);
      assert out + [] == out;
      LoadStore(xor);
      iv := StoreBlock(xor);
    }
  }

  /** Words after the last round key are not read. */
  lemma {:induction false} EncryptedSame(s: State, ks: seq<bv32>, dk: seq<bv32>, rounds: nat, n: nat)
    requires n <= rounds && 4 * rounds + 4 <= |ks| && 4 * rounds + 4 <= |dk| && ks[..4 * rounds + 4] == dk[..4 * rounds + 4]
    ensures Encrypted(s, ks, rounds, n) == Encrypted(s, dk, rounds, n)
  {
    hide AddKey, SubShift, MixAll;
    assert forall i :: 0 <= i < 4 * rounds + 4 ==> ks[i] == ks[..4 * rounds + 4][i] == dk[i];
    if n > 0 {
      EncryptedSame(s, ks, dk, rounds, n - 1);
    }
  }

  lemma {:induction false} CbcSame(ks: seq<bv32>, dk: seq<bv32>, rounds: nat, iv: State, m: seq<bv8>)
    requires 4 * rounds + 4 <= |ks| && 4 * rounds + 4 <= |dk| && ks[..4 * rounds + 4] == dk[..4 * rounds + 4]
    ensures CbcEncrypted(ks, rounds, iv, m) == CbcEncrypted(dk, rounds, iv, m)
    decreases |m|
  {
    hide Encrypted, AddKey, LoadBlock, StoreBlock;
    if |m| >= 16 {
      var p := AddKey(LoadBlock(m, 0), iv);
      EncryptedSame(p, ks, dk, rounds, rounds);
      CbcSame(ks, dk, rounds, EncryptBlock(p, ks, rounds), m[16..]);
    }
  }

  /** The block after all of `out` and `c`. */
  lemma NextOfBoth(iv: State, out: seq<bv8>, c: seq<bv8>)
    requires |out| % 16 == 0 && |c| % 16 == 0
    ensures CbcNext(iv, out + c) == CbcNext(CbcNext(iv, out), c)
  {
    hide Word, LoadBlock;
    if c == [] {
      assert out + c == out;
    } else {
      LoadFrom(out + c, |out + c| - 16);
      LoadFrom(c, |c| - 16);
      assert (out + c)[|out + c| - 16..] == c[|c| - 16..];
    }
  }

  /** The pieces in order. */
  function Concat(pieces: seq<seq<bv8>>): seq<bv8>
  {
    if pieces == [] then [] else Concat(pieces[..|pieces| - 1]) + pieces[|pieces| - 1]
  }

  lemma ConcatNext(pieces: seq<seq<bv8>>, i: nat)
    requires i < |pieces|
    ensures Concat(pieces[..i + 1]) == Concat(pieces[..i]) + pieces[i]
  {
    assert pieces[..i + 1][..i] == pieces[..i];
  }

  /** Any number of calls with whole blocks and a last call of any length encrypt as one. */
  method CbcInPieces(ctx: AesCtx, pieces: seq<seq<bv8>>, last: seq<bv8>) returns (out: seq<bv8>)
    requires ctx.Valid() && forall i :: 0 <= i < |pieces| ==> |pieces[i]| % 16 == 0
    modifies ctx`iv
    ensures ctx.Valid()
    ensures out == CbcEncrypted(ctx.ks[..], ctx.rounds, LoadBlock(old(ctx.iv), 0), Concat(pieces) + last)
  {
    hide CbcEncrypted, LoadBlock, CbcNext;
    ghost var ks, iv0 := ctx.ks[..], LoadBlock(ctx.iv, 0);
    out := [];
    NothingChained(iv0);
    CbcDone(ks, ctx.rounds, iv0, []);
    var i := 0;
    while i < |pieces|
      invariant i <= |pieces| && ctx.Valid()
      invariant |Concat(pieces[..i])| % 16 == 0 && out == CbcEncrypted(ks, ctx.rounds, iv0, Concat(pieces[..i]))
      invariant LoadBlock(ctx.iv, 0) == CbcNext(iv0, out)
    {
      var c := ctx.CbcEncrypt(pieces[i]);
      ConcatNext(pieces, i);
      CbcConcat(ks, ctx.rounds, iv0, Concat(pieces[..i]), pieces[i]);
      CbcConcat(ks, ctx.rounds, CbcNext(iv0, out), pieces[i], []);
      NextOfBoth(iv0, out, c);
      out := out + c;
      i := i + 1;
    }
    assert pieces[..i] == pieces;
    var c := ctx.CbcEncrypt(last);
    CbcConcat(ks, ctx.rounds, iv0, Concat(pieces), last);
    out := out + c;
  }

  /** From a key: what one context encrypts in pieces, another of the same key and initial vector decrypts
      with converted keys. */
  method CbcThereAndBack(key: seq<bv8>, iv: seq<bv8>, mode: Mode, pieces: seq<seq<bv8>>, last: seq<bv8>)
      returns (out: seq<bv8>, back: seq<bv8>)
    requires |key| == if mode.Mode128? then 16 else 32
    requires |iv| == 16 && forall i :: 0 <= i < |pieces| ==> |pieces[i]| % 16 == 0
    ensures var m := Concat(pieces) + last; back == m[..|m| / 16 * 16]
  {
    hide Word, CbcEncrypted, CbcDecrypted, Schedule, LoadBlock, InvMix, CbcNext;
    var ctx := new AesCtx();
    ctx.SetKey(key, iv, mode);
    ghost var ks, rounds, iv0 := ctx.ks[..], ctx.rounds, LoadBlock(iv, 0);
    out := CbcInPieces(ctx, pieces, last);
    ghost var m := Concat(pieces) + last;
    WholeBlocks(ks, rounds, iv0, m);
    var other := new AesCtx();
    other.SetKey(key, iv, mode);
    ghost var again := other.ks[..];
    assert ks[..4 * rounds + 4] == again[..4 * rounds + 4];
    CbcSame(ks, again, rounds, iv0, m[..|m| / 16 * 16]);
    other.ConvertKey();
    CbcRoundTrip(again, other.ks[..], rounds, iv0, m[..|m| / 16 * 16]);
    back := other.CbcDecrypt(out);
  }

  lemma NextIs(ks: seq<bv32>, nk: nat, t: bv32)
    requires KeyWords(nk) && nk <= |ks| < 60
    requires var i, tmp := |ks|, ks[|ks| - 1];
             t == if i % nk == 0 then PlusW(SubRotWord(tmp), RoundConstant(i / nk - 1))
                  else if nk == 8 && i % nk == 4 then SubWord(tmp) else tmp
    ensures NextWord(ks, nk) == PlusW(ks[|ks| - nk], t)
  {
    hide PlusW, SubRotWord, SubWord, RoundConstant;
  }

  /** ByteSub, ShiftRow and, but for the last round, MixColumn of all columns. */
  method SubstituteColumns(data: seq<bv32>, mixes: bool) returns (tmp: seq<bv32>)
    requires |data| == 4
    ensures |tmp| == 4 && forall k :: 0 <= k < 4 ==> tmp[k] == RoundColumn(data, k, mixes)
  {
    hide RoundColumn, MixWord, Word, Sbox, Byte0, Byte1, Byte2, Byte3;
    tmp := [];
    var row := 0;
    while row < 4
      invariant row == |tmp| <= 4 && forall k :: 0 <= k < row ==> tmp[k] == RoundColumn(data, k, mixes)
    {
      var a0, a1 := Sbox(Byte0(data[row % 4])), Sbox(Byte1(data[(row + 1) % 4]));
      var a2, a3 := Sbox(Byte2(data[(row + 2) % 4])), Sbox(Byte3(data[(row + 3) % 4]));
      RoundColumnIs(data, row, mixes);
      tmp := tmp + [if mixes then MixWord(a0, a1, a2, a3) else Word(a0, a1, a2, a3)];
      row := row + 1;
    }
  }

  /** The inverse substitution and shift and, but for the last round, InvMixColumns; from the last column
      down. */
  method InvSubstituteColumns(data: seq<bv32>, mixes: bool) returns (tmp: seq<bv32>)
    requires |data| == 4
    ensures |tmp| == 4 && forall k :: 0 <= k < 4 ==> tmp[k] == InvRoundColumn(data, k, mixes)
  {
    hide InvRoundColumn, UnmixWord, Word, Isbox, Byte0, Byte1, Byte2, Byte3;
    tmp := [];
    var row := 4;
    while row > 0
      invariant row == 4 - |tmp| && forall k :: row <= k < 4 ==> tmp[k - row] == InvRoundColumn(data, k, mixes)
    {
      var a0, a1 := Isbox(Byte0(data[(row + 3) % 4])), Isbox(Byte1(data[(row + 2) % 4]));
      var a2, a3 := Isbox(Byte2(data[(row + 1) % 4])), Isbox(Byte3(data[row % 4]));
      InvRoundColumnIs(data, row - 1, mixes);
      tmp := [if mixes then UnmixWord(a0, a1, a2, a3) else Word(a0, a1, a2, a3)] + tmp;
      row := row - 1;
    }
  }

  /** The column `AES_encrypt` makes of four substituted bytes. */
  function MixWord(a0: bv8, a1: bv8, a2: bv8, a3: bv8): bv32
  {
    var tmp1 := Plus(Plus(Plus(a0, a1), a2), a3);
    Word(Plus(a0, Plus(tmp1, Xtime(Plus(a0, a1)))), Plus(a1, Plus(tmp1, Xtime(Plus(a1, a2)))),
         Plus(a2, Plus(tmp1, Xtime(Plus(a2, a3)))), Plus(a3, Plus(tmp1, Xtime(Plus(a3, a0)))))
  }

  lemma MixWordIs(a0: bv8, a1: bv8, a2: bv8, a3: bv8)
    ensures MixWord(a0, a1, a2, a3) == Mix(Word(a0, a1, a2, a3))
  {
    hide Plus, Xtime, Word, Byte0, Byte1, Byte2, Byte3, Mixed;
    var tmp1 := Plus(Plus(Plus(a0, a1), a2), a3);
    SumTurns(a0, a1, a2, a3);
    MixedForm(a0, a1, a2, a3, tmp1);
    MixedForm(a1, a2, a3, a0, tmp1);
    MixedForm(a2, a3, a0, a1, tmp1);
    MixedForm(a3, a0, a1, a2, tmp1);
    BytesOfWord(a0, a1, a2, a3);
  }

  /** The column `AES_decrypt` makes of four substituted bytes. */
  function UnmixWord(a0: bv8, a1: bv8, a2: bv8, a3: bv8): bv32
  {
    var xt0, xt1, xt2, xt3 := Xtime(Plus(a0, a1)), Xtime(Plus(a1, a2)), Xtime(Plus(a2, a3)), Xtime(Plus(a3, a0));
    var xt4, xt5 := Xtime(Plus(xt0, xt1)), Xtime(Plus(xt1, xt2));
    var xt6 := Xtime(Plus(xt4, xt5));
    Word(Plus(xt0, Plus(Plus(Plus(Plus(a1, a2), a3), xt4), xt6)), Plus(xt1, Plus(Plus(Plus(Plus(a2, a3), a0), xt5), xt6)),
         Plus(xt2, Plus(Plus(Plus(Plus(a3, a0), a1), xt4), xt6)), Plus(xt3, Plus(Plus(Plus(Plus(a0, a1), a2), xt5), xt6)))
  }

  lemma UnmixWordIs(a0: bv8, a1: bv8, a2: bv8, a3: bv8)
    ensures UnmixWord(a0, a1, a2, a3) == InvMix(Word(a0, a1, a2, a3))
  {
    hide Plus, Xtime, Word, Byte0, Byte1, Byte2, Byte3, Unmixed, Times4, Times8;
    var xt0, xt1, xt2, xt3 := Xtime(Plus(a0, a1)), Xtime(Plus(a1, a2)), Xtime(Plus(a2, a3)), Xtime(Plus(a3, a0));
    var xt4, xt5 := Xtime(Plus(xt0, xt1)), Xtime(Plus(xt1, xt2));
    var xt6 := Xtime(Plus(xt4, xt5));
    SharedProducts(a0, a1, a2, a3);
    SharedProducts(a1, a2, a3, a0);
    SharedProducts(a2, a3, a0, a1);
    SharedProducts(a3, a0, a1, a2);
    PlusReverse(Times4(a0), Times4(a0), Times4(a2));
    PlusReverse(Times4(a1), Times4(a1), Times4(a3));
    SumTurns(Times8(a0), Times8(a1), Times8(a2), Times8(a3));
    SharedForm(a0, a1, a2, a3, xt0, xt4, xt6);
    SharedForm(a1, a2, a3, a0, xt1, xt5, xt6);
    SharedForm(a2, a3, a0, a1, xt2, xt4, xt6);
    SharedForm(a3, a0, a1, a2, xt3, xt5, xt6);
    BytesOfWord(a0, a1, a2, a3);
  }

  /** Column k after the substitution of a round, mixed unless it is the last. */
  ghost function RoundColumn(s: seq<bv32>, k: nat, mixes: bool): bv32
    requires |s| == 4 && k < 4
  {
    var t := SubShift(s)[k];
    if mixes then Mix(t) else t
  }

  lemma ShiftedColumn(s: seq<bv32>, k: nat)
    requires |s| == 4 && k < 4
    ensures SubShift(s)[k] == SubColumn(s[k % 4], s[(k + 1) % 4], s[(k + 2) % 4], s[(k + 3) % 4])
  {
    hide SubColumn;
    if k == 0 {
    } else if k == 1 {
    } else if k == 2 {
    } else {
    }
  }

  lemma InvShiftedColumn(s: seq<bv32>, k: nat)
    requires |s| == 4 && k < 4
    ensures InvSubShift(s)[k] == InvSubColumn(s[(k + 4) % 4], s[(k + 3) % 4], s[(k + 2) % 4], s[(k + 1) % 4])
  {
    hide InvSubColumn;
    if k == 0 {
    } else if k == 1 {
    } else if k == 2 {
    } else {
    }
  }

  lemma RoundColumnIs(s: seq<bv32>, k: nat, mixes: bool)
    requires |s| == 4 && k < 4
    ensures var a0, a1, a2, a3 := Sbox(Byte0(s[k % 4])), Sbox(Byte1(s[(k + 1) % 4])), Sbox(Byte2(s[(k + 2) % 4])), Sbox(Byte3(s[(k + 3) % 4]));
            RoundColumn(s, k, mixes) == if mixes then MixWord(a0, a1, a2, a3) else Word(a0, a1, a2, a3)
  {
    hide Sbox, Byte0, Byte1, Byte2, Byte3, Word, MixWord, Mix, SubShift;
    ShiftedColumn(s, k);
    var a0, a1, a2, a3 := Sbox(Byte0(s[k % 4])), Sbox(Byte1(s[(k + 1) % 4])), Sbox(Byte2(s[(k + 2) % 4])), Sbox(Byte3(s[(k + 3) % 4]));
    MixWordIs(a0, a1, a2, a3);
  }

  ghost function InvRoundColumn(s: seq<bv32>, k: nat, mixes: bool): bv32
    requires |s| == 4 && k < 4
  {
    var t := InvSubShift(s)[k];
    if mixes then InvMix(t) else t
  }

  lemma InvRoundColumnIs(s: seq<bv32>, k: nat, mixes: bool)
    requires |s| == 4 && k < 4
    ensures var a0, a1, a2, a3 := Isbox(Byte0(s[(k + 4) % 4])), Isbox(Byte1(s[(k + 3) % 4])), Isbox(Byte2(s[(k + 2) % 4])), Isbox(Byte3(s[(k + 1) % 4]));
            InvRoundColumn(s, k, mixes) == if mixes then UnmixWord(a0, a1, a2, a3) else Word(a0, a1, a2, a3)
  {
    hide Isbox, Byte0, Byte1, Byte2, Byte3, Word, UnmixWord, InvMix, InvSubShift;
    InvShiftedColumn(s, k);
    var a0, a1, a2, a3 := Isbox(Byte0(s[(k + 4) % 4])), Isbox(Byte1(s[(k + 3) % 4])), Isbox(Byte2(s[(k + 2) % 4])), Isbox(Byte3(s[(k + 1) % 4]));
    UnmixWordIs(a0, a1, a2, a3);
  }

  lemma StartEncrypted(s: State, ks: seq<bv32>, rounds: nat)
    requires 4 * rounds + 4 <= |ks|
    ensures Encrypted(s, ks, rounds, 0) == AddKey(s, RoundKey(ks, 0))
  {
  }

  lemma NextEncrypted(s: State, ks: seq<bv32>, rounds: nat, n: nat, t: seq<bv32>)
    requires 0 < n <= rounds && 4 * rounds + 4 <= |ks| && |t| == 4
    requires forall k :: 0 <= k < 4 ==> t[k] == RoundColumn(Encrypted(s, ks, rounds, n - 1), k, n < rounds)
    ensures Encrypted(s, ks, rounds, n) == AddKey(t, RoundKey(ks, n))
  {
    hide AddKey, RoundKey, Mix, SubShift;
    var e := SubShift(Encrypted(s, ks, rounds, n - 1));
    assert t == if n < rounds then MixAll(e) else e;
  }

  lemma StartDecrypted(s: State, ks: seq<bv32>, rounds: nat)
    requires 4 * rounds + 4 <= |ks|
    ensures Decrypted(s, ks, rounds, 0) == AddKey(s, RoundKey(ks, rounds))
  {
  }

  lemma NextDecrypted(s: State, ks: seq<bv32>, rounds: nat, n: nat, t: seq<bv32>)
    requires 0 < n <= rounds && 4 * rounds + 4 <= |ks| && |t| == 4
    requires forall k :: 0 <= k < 4 ==> t[k] == InvRoundColumn(Decrypted(s, ks, rounds, n - 1), k, n < rounds)
    ensures Decrypted(s, ks, rounds, n) == AddKey(t, RoundKey(ks, rounds - n))
  {
    hide AddKey, RoundKey, InvMix, InvSubShift;
    var d := InvSubShift(Decrypted(s, ks, rounds, n - 1));
    assert t == if n < rounds then InvMixAll(d) else d;
  }

  lemma NothingChained(iv: State)
    ensures CbcNext(iv, []) == iv
  {
  }

  lemma LastStored(out: seq<bv8>, c: State, iv: State)
    requires |out| % 16 == 0
    ensures CbcNext(iv, out + StoreBlock(c)) == c
  {
    hide Word, Byte0, Byte1, Byte2, Byte3, LoadBlock, StoreBlock;
    LoadStore(c);
    LoadFrom(out + StoreBlock(c), |out|);
    assert (out + StoreBlock(c))[|out|..] == StoreBlock(c);
  }

  lemma LoadFrom(m: seq<bv8>, p: nat)
    requires p + 16 <= |m|
    ensures LoadBlock(m[p..], 0) == LoadBlock(m, p)
  {
    hide Word;
  }

  lemma CbcStep(ks: seq<bv32>, rounds: nat, xor: State, rest: seq<bv8>, out: seq<bv8>)
    requires 4 * rounds + 4 <= |ks| && |rest| >= 16
    ensures var c := LoadBlock(rest, 0);
            && out + CbcDecrypted(ks, rounds, xor, rest)
               == (out + StoreBlock(AddKey(DecryptBlock(c, ks, rounds), xor))) + CbcDecrypted(ks, rounds, c, rest[16..])
            && CbcNext(xor, rest) == CbcNext(c, rest[16..])
  {
    hide DecryptBlock, AddKey, StoreBlock, Word, LoadBlock;
    if |rest| >= 32 {
      NextBlocks(rest);
    }
  }

  lemma NextBlocks(rest: seq<bv8>)
    requires |rest| >= 32
    ensures LoadBlock(rest[16..], |rest[16..]| / 16 * 16 - 16) == LoadBlock(rest, |rest| / 16 * 16 - 16)
  {
    hide Word;
    assert |rest[16..]| / 16 * 16 == |rest| / 16 * 16 - 16;
  }

  lemma CbcDone(ks: seq<bv32>, rounds: nat, xor: State, rest: seq<bv8>)
    requires 4 * rounds + 4 <= |ks| && |rest| < 16
    ensures CbcDecrypted(ks, rounds, xor, rest) == CbcEncrypted(ks, rounds, xor, rest) == [] && CbcNext(xor, rest) == xor
  {
  }

  lemma CbcEncryptStep(ks: seq<bv32>, rounds: nat, tout: State, rest: seq<bv8>, out: seq<bv8>)
    requires 4 * rounds + 4 <= |ks| && |rest| >= 16
    ensures var c := EncryptBlock(AddKey(LoadBlock(rest, 0), tout), ks, rounds);
            out + CbcEncrypted(ks, rounds, tout, rest) == (out + StoreBlock(c)) + CbcEncrypted(ks, rounds, c, rest[16..])
  {
    hide EncryptBlock, AddKey, StoreBlock, Word, LoadBlock;
  }
}
