/** Counter mode (NIST SP 800-38A, section 6.5), in its two streaming forms, over any block cipher. */
module Ctr {
  import opened Bytes
  import opened Arith
  import opened Positional
  import opened BigEndians

  const COUNTERS: nat := 0x1_0000_0000_0000_0000_0000_0000_0000_0000

  type Block = b: seq<Byte> | |b| == 16 witness seq(16, _ => 0)
  type Cipher = Block -> Block

  /** Byte i of the keystream that starts with a counter. */
  function Keystream(cipher: Cipher, start: nat, i: nat): Byte
  {
    cipher(BigEndian((start + i / 16) % COUNTERS, 16))[i % 16]
  }

  function Stream(cipher: Cipher, start: nat, pos: nat, n: nat): (r: seq<Byte>)
    ensures |r| == n
  {
    seq<Byte>(n, i requires 0 <= i < n => Keystream(cipher, start, pos + i))
  }

  /** The data under the keystream from position `pos` on. */
  function Crypted(cipher: Cipher, start: nat, pos: nat, data: seq<Byte>): (r: seq<Byte>)
    ensures |r| == |data|
  {
    seq(|data|, k requires 0 <= k < |data| => Xor(data[k], Keystream(cipher, start, pos + k)))
  }

  /** Cutting the data changes nothing. */
  lemma {:induction false} CryptedConcat(cipher: Cipher, start: nat, pos: nat, a: seq<Byte>, b: seq<Byte>)
    ensures Crypted(cipher, start, pos, a + b) == Crypted(cipher, start, pos, a) + Crypted(cipher, start, pos + |a|, b)
  {
    hide Keystream, Xor;
    var r, t := Crypted(cipher, start, pos, a + b), Crypted(cipher, start, pos, a) + Crypted(cipher, start, pos + |a|, b);
    forall k | 0 <= k < |a + b|
      ensures r[k] == t[k]
    {
      if k >= |a| {
        assert t[k] == Crypted(cipher, start, pos + |a|, b)[k - |a|];
        assert pos + |a| + (k - |a|) == pos + k;
      }
    }
  }

  /** Decrypting is encrypting. */
  lemma {:induction false} CryptedTwice(cipher: Cipher, start: nat, pos: nat, data: seq<Byte>)
    ensures Crypted(cipher, start, pos, Crypted(cipher, start, pos, data)) == data
  {
    hide Keystream, Xor;
    forall k | 0 <= k < |data|
      ensures Crypted(cipher, start, pos, Crypted(cipher, start, pos, data))[k] == data[k]
    {
      XorTwice(data[k], Keystream(cipher, start, pos + k));
    }
  }

  // ----- counters

  lemma {:induction false} FromBound(s: seq<Byte>)
    ensures FromBigEndian(s) < Pow(256, |s|)
  {
    if s != [] {
      FromBound(s[..|s| - 1]);
    }
  }

  /** Bytes are determined by the number they stand for. */
  lemma {:induction false} BackToBytes(s: seq<Byte>)
    ensures BigEndian(FromBigEndian(s), |s|) == s
  {
    if s != [] {
      BackToBytes(s[..|s| - 1]);
      assert s == s[..|s| - 1] + [s[|s| - 1]];
    }
  }

  lemma CounterRange()
    ensures Pow(256, 16) == COUNTERS
  {
    hide Pow;
    FourBytes();
    PowAdd(256, 4, 4);
    PowAdd(256, 8, 8);
  }

  lemma FourBytes()
    ensures Pow(256, 4) == 0x1_0000_0000
  {
    assert Pow(256, 2) == 0x1_0000;
  }

  /** The counter below the last n bytes, and the weight of those bytes. */
  ghost predicate Carrying(was: seq<Byte>, now: seq<Byte>, n: nat, carry: int)
  {
    && |was| == |now| == 16 && n <= 16 && now[..n] == was[..n]
    && FromBigEndian(now[n..]) + carry * Pow(256, 16 - n) == FromBigEndian(was[n..]) + 1
  }

  lemma {:induction false} CarryByte(was: seq<Byte>, now: seq<Byte>, n: nat, carry: int, d: Byte, carry': int)
    requires Carrying(was, now, n, carry) && n > 0 && d + 256 * carry' == was[n - 1] + carry
    ensures Carrying(was, now[n - 1 := d], n - 1, carry')
  {
    hide Pow, FromBigEndian;
    var t := now[n - 1 := d];
    assert t[n - 1..] == [d] + now[n..] && was[n - 1..] == [was[n - 1]] + was[n..];
    FromSplit([d], now[n..]);
    FromSplit([was[n - 1]], was[n..]);
    FromOne(d);
    FromOne(was[n - 1]);
    assert Pow(256, 16 - (n - 1)) == 256 * Pow(256, 16 - n) by { NextPow(16 - n); }
    CarryTerm(d, carry, carry', was[n - 1], Pow(256, 16 - n));
  }

  lemma CarryTerm(d: int, carry: int, carry': int, b: int, p: int)
    requires d + 256 * carry' == b + carry
    ensures d * p + carry' * (256 * p) == b * p + carry * p
  {
  }

  lemma NextPow(n: nat)
    ensures Pow(256, n + 1) == 256 * Pow(256, n)
  {
  }

  lemma FromOne(d: Byte)
    ensures FromBigEndian([d]) == d
  {
    assert [d][..0] == [];
  }

  /** With no carry left, or one that runs out of the counter, the counter has gone up by one. */
  lemma {:induction false} CountedUp(was: seq<Byte>, now: seq<Byte>, n: nat, carry: int)
    requires Carrying(was, now, n, carry) && 0 <= carry <= 1 && (carry == 0 || n == 0)
    ensures FromBigEndian(now) == (FromBigEndian(was) + 1) % COUNTERS
  {
    hide Pow, FromBigEndian;
    assert now == now[..n] + now[n..] && was == was[..n] + was[n..];
    FromSplit(now[..n], now[n..]);
    FromSplit(was[..n], was[n..]);
    FromBound(now);
    CounterRange();
    FromNothing();
    if carry == 1 {
      assert now[..0] == [] && was[..0] == [];
    }
    DivUnique(FromBigEndian(was) + 1, COUNTERS, carry, FromBigEndian(now));
  }

  lemma FromNothing()
    ensures FromBigEndian([]) == 0
  {
  }

  /** `ctr128_inc`: a carry of 1 goes through all bytes from the last. */
  method Ctr128Inc(counter: array<Byte>)
    requires counter.Length == 16
    modifies counter
    ensures FromBigEndian(counter[..]) == (FromBigEndian(old(counter[..])) + 1) % COUNTERS
  {
    hide Pow, FromBigEndian, Carrying;
    var n := 16;
    var c: int := 1;
    ghost var was := counter[..];
    CarryStarts(was);
    while n > 0
      invariant 0 <= n <= 16 && 0 <= c <= 1 && Carrying(was, counter[..], n, c)
    {
      n := n - 1;
      CarriedBytes(was, counter[..], n + 1, c);
      var sum: int := c + counter[n];
      var low: Byte := sum % 256;
      ghost var now := counter[..];
      CarryByte(was, now, n + 1, c, low, sum / 256);
      counter[n] := low;
      assert counter[..] == now[n := low];
      c := sum / 256;
    }
    CountedUp(was, counter[..], n, c);
  }

  lemma CarryStarts(was: seq<Byte>)
    requires |was| == 16
    ensures Carrying(was, was, 16, 1)
  {
    assert was[16..] == [];
  }

  lemma CarriedBytes(was: seq<Byte>, now: seq<Byte>, n: nat, carry: int)
    requires Carrying(was, now, n, carry) && n > 0
    ensures now[n - 1] == was[n - 1]
  {
    assert now[..n][n - 1] == was[..n][n - 1];
  }

  /** The increment in `AES_CTR_xcrypt_buffer`: bytes of 255 become 0 up to one that is not 255. */
  method IncrementIv(iv: array<Byte>)
    requires iv.Length == 16
    modifies iv
    ensures FromBigEndian(iv[..]) == (FromBigEndian(old(iv[..])) + 1) % COUNTERS
  {
    hide Pow, FromBigEndian, Carrying;
    var bi := 15;
    ghost var was := iv[..];
    CarryStarts(was);
    while bi >= 0 && iv[bi] == 255
      invariant -1 <= bi <= 15 && Carrying(was, iv[..], bi + 1, 1)
      decreases bi
    {
      CarriedBytes(was, iv[..], bi + 1, 1);
      CarryByte(was, iv[..], bi + 1, 1, 0, 1);
      ghost var now := iv[..];
      iv[bi] := 0;
      assert iv[..] == now[bi := 0];
      bi := bi - 1;
    }
    if bi >= 0 {
      CarriedBytes(was, iv[..], bi + 1, 1);
      CarryByte(was, iv[..], bi + 1, 1, iv[bi] + 1, 0);
      ghost var now := iv[..];
      iv[bi] := iv[bi] + 1;
      assert iv[..] == now[bi := now[bi] + 1];
      CountedUp(was, iv[..], bi, 0);
    } else {
      CountedUp(was, iv[..], 0, 1);
    }
  }

  /** The block of keystream a counter makes. */
  lemma {:induction false} BlockOfStream(cipher: Cipher, start: nat, n: nat, counter: seq<Byte>, i: nat)
    requires |counter| == 16 && FromBigEndian(counter) == (start + n) % COUNTERS && i < 16
    ensures cipher(counter)[i] == Keystream(cipher, start, 16 * n + i)
  {
    hide BigEndian, FromBigEndian;
    BackToBytes(counter);
    assert (16 * n + i) / 16 == n && (16 * n + i) % 16 == i;
  }

  lemma NextCounter(start: nat, n: nat, v: nat, w: nat)
    requires v == (start + n) % COUNTERS && w == (v + 1) % COUNTERS
    ensures w == (start + (n + 1)) % COUNTERS
  {
  }

  // ----- aes_ctr.c

  class AesCtrContext {
    const cipher: Cipher
    const counter: array<Byte>
    var state: Block
    var available: nat
    /** The counter at the start, and how many bytes have been encrypted. */
    ghost var start: nat
    ghost var pos: nat

    constructor (cipher: Cipher, nonce: Block)
      ensures Valid() && fresh(counter) && this.cipher == cipher
      ensures start == FromBigEndian(nonce) && pos == 0
    {
      this.cipher := cipher;
      counter := new Byte[16](i requires 0 <= i < 16 => nonce[i]);
      state := seq(16, _ => 0);
      available := 0;
      start, pos := FromBigEndian(nonce), 0;
      new;
      assert counter[..] == nonce;
      FromBound(nonce);
      CounterRange();
    }

    /** The blocks made so far cover the bytes encrypted and those available. */
    ghost predicate Valid()
      reads this, counter
    {
      && counter.Length == 16 && available <= 16 && (pos + available) % 16 == 0
      && FromBigEndian(counter[..]) == (start + (pos + available) / 16) % COUNTERS
      && (available > 0 ==> pos + available >= 16 && forall i :: 0 <= i < 16 ==>
           state[i] == Keystream(cipher, start, pos + available - 16 + i))
    }

    /** However the data is cut into calls, it is encrypted with one keystream. */
    method Encrypt(msg: seq<Byte>) returns (out: seq<Byte>)
      requires Valid()
      modifies this, counter
      ensures Valid() && start == old(start) && pos == old(pos) + |msg|
      ensures out == Crypted(cipher, start, old(pos), msg)
    {
      hide FromBigEndian, Keystream, Xor, Crypted;
      out := [];
      var msgidx := 0;
      NothingCrypted(cipher, start, pos);
      assert msg[..0] == [];
      while msgidx < |msg|
        invariant msgidx <= |msg| && Valid() && start == old(start) && pos == old(pos) + msgidx
        invariant out == Crypted(cipher, start, old(pos), msg[..msgidx])
        decreases |msg| - msgidx
      {
        if available == 0 {
          Refill();
        }
        var n := if available < |msg| - msgidx then available else |msg| - msgidx;
        var part := Use(msg[msgidx..msgidx + n]);
        CryptedConcat(cipher, start, old(pos), msg[..msgidx], msg[msgidx..msgidx + n]);
        assert msg[..msgidx] + msg[msgidx..msgidx + n] == msg[..msgidx + n];
        out := out + part;
        msgidx := msgidx + n;
      }
      assert msg[..msgidx] == msg;
    }

    /** The loop over the bytes of keystream that are available. */
    method Use(part: seq<Byte>) returns (out: seq<Byte>)
      requires Valid() && |part| <= available
      modifies this
      ensures Valid() && start == old(start) && pos == old(pos) + |part| && available == old(available) - |part|
      ensures out == Crypted(cipher, start, old(pos), part)
    {
      hide FromBigEndian, Keystream, Xor;
      out := [];
      var i := 0;
      while i < |part|
        invariant i == |out| <= |part|
        invariant forall k :: 0 <= k < i ==> out[k] == Xor(part[k], Keystream(cipher, start, pos + k))
      {
        out := out + [Xor(part[i], state[16 - available + i])];
        assert state[16 - available + i] == Keystream(cipher, start, pos + available - 16 + (16 - available + i));
        i := i + 1;
      }
      available := available - i;
      pos := pos + i;
    }

    method Refill()
      requires Valid() && available == 0
      modifies this, counter
      ensures Valid() && available == 16 && start == old(start) && pos == old(pos)
    {
      hide FromBigEndian, Keystream;
      ghost var n := pos / 16;
      ghost var was := counter[..];
      state := cipher(counter[..]);
      available := 16;
      Ctr128Inc(counter);
      NextCounter(start, n, FromBigEndian(was), FromBigEndian(counter[..]));
      forall i | 0 <= i < 16
        ensures state[i] == Keystream(cipher, start, 16 * n + i)
      {
        BlockOfStream(cipher, start, n, was, i);
      }
    }
  }

  // ----- aes.c and mirror_buffer.c

  /** The keystream of a counter that has gone up n times. */
  lemma {:induction false} StreamShift(cipher: Cipher, start: nat, n: nat, v: nat, k: nat)
    requires v == (start + n) % COUNTERS
    ensures Keystream(cipher, v, k) == Keystream(cipher, start, 16 * n + k)
  {
    assert (16 * n + k) / 16 == n + k / 16 && (16 * n + k) % 16 == k % 16;
    assert (v + k / 16) % COUNTERS == (start + n + k / 16) % COUNTERS;
  }

  class MirrorBuffer {
    const cipher: Cipher
    const iv: array<Byte>
    var og: Block
    var nextDecryptCount: nat
    ghost var start: nat
    ghost var pos: nat

    constructor (cipher: Cipher, iv: Block)
      ensures Valid() && fresh(this.iv) && this.cipher == cipher
      ensures start == FromBigEndian(iv) && pos == 0 && nextDecryptCount == 0
    {
      this.cipher := cipher;
      this.iv := new Byte[16](i requires 0 <= i < 16 => iv[i]);
      og := seq(16, _ => 0);
      nextDecryptCount := 0;
      start, pos := FromBigEndian(iv), 0;
      new;
      assert this.iv[..] == iv;
      FromBound(iv);
      CounterRange();
    }

    /** The end of `og` is the keystream the next call begins with. */
    ghost predicate Valid()
      reads this, iv
    {
      && iv.Length == 16 && nextDecryptCount < 16 && (pos + nextDecryptCount) % 16 == 0
      && FromBigEndian(iv[..]) == (start + (pos + nextDecryptCount) / 16) % COUNTERS
      && og[16 - nextDecryptCount..] == Stream(cipher, start, pos, nextDecryptCount)
    }

    /** `AES_CTR_xcrypt_buffer`: starts with a new counter block, and drops what it does not use of the
        last. */
    method XcryptBuffer(buf: seq<Byte>) returns (out: seq<Byte>)
      requires iv.Length == 16
      modifies iv
      ensures out == Crypted(cipher, FromBigEndian(old(iv[..])), 0, buf)
      ensures FromBigEndian(iv[..]) == (FromBigEndian(old(iv[..])) + (|buf| + 15) / 16) % COUNTERS
    {
      hide FromBigEndian, Keystream, Xor;
      ghost var v := FromBigEndian(iv[..]);
      FromBound(iv[..]);
      CounterRange();
      var buffer: Block := iv[..];
      out := [];
      var i, bi := 0, 16;
      ghost var n := 0;
      while i < |buf|
        invariant i == |out| <= |buf| && bi <= 16 && i + 16 == 16 * n + bi && (n == 0 ==> bi == 16) && (n > 0 ==> bi > 0)
        invariant FromBigEndian(iv[..]) == (v + n) % COUNTERS
        invariant n > 0 ==> buffer == Stream(cipher, v, 16 * (n - 1), 16)
        invariant forall k :: 0 <= k < i ==> out[k] == Xor(buf[k], Keystream(cipher, v, k))
      {
        if bi == 16 {
          buffer := Regenerate(v, n);
          bi := 0;
          n := n + 1;
        }
        assert buffer[bi] == Keystream(cipher, v, 16 * (n - 1) + bi);
        out := out + [Xor(buf[i], buffer[bi])];
        i, bi := i + 1, bi + 1;
      }
      BlocksFor(|buf|, n, bi);
      forall k | 0 <= k < |buf|
        ensures out[k] == Crypted(cipher, v, 0, buf)[k]
      {
        assert 0 + k == k;
      }
    }

    /** A block of keystream; the counter goes up. */
    method Regenerate(ghost v: nat, ghost n: nat) returns (buffer: Block)
      requires iv.Length == 16 && FromBigEndian(iv[..]) == (v + n) % COUNTERS
      modifies iv
      ensures FromBigEndian(iv[..]) == (v + (n + 1)) % COUNTERS
      ensures buffer == Stream(cipher, v, 16 * n, 16)
    {
      hide FromBigEndian, Keystream;
      ghost var was := iv[..];
      buffer := cipher(iv[..]);
      IncrementIv(iv);
      NextCounter(v, n, FromBigEndian(was), FromBigEndian(iv[..]));
      forall j | 0 <= j < 16
        ensures buffer[j] == Keystream(cipher, v, 16 * n + j)
      {
        BlockOfStream(cipher, v, n, was, j);
      }
    }

    /** Over calls that are at least as long as the bytes carried over, the outputs are the inputs under
        one keystream. */
    method Decrypt(input: seq<Byte>) returns (output: seq<Byte>)
      requires Valid() && |input| >= nextDecryptCount
      modifies this, iv
      ensures Valid() && start == old(start) && pos == old(pos) + |input|
      ensures output == Crypted(cipher, start, old(pos), input)
    {
      hide FromBigEndian, Keystream, Xor, Crypted;
      var next := nextDecryptCount;
      var encryptlen := (|input| - next) / 16 * 16;
      var restlen := (|input| - next) % 16;
      var head, middle, rest := input[..next], input[next..next + encryptlen], input[next + encryptlen..];
      assert head + middle + rest == input;
      CryptedConcat(cipher, start, pos, head, middle);
      CryptedConcat(cipher, start, pos, head + middle, rest);
      var first := Carried(head);
      var second := Blocks(middle);
      output := first + second;
      if restlen > 0 {
        var third := Rest(rest);
        output := output + third;
      } else {
        NothingCrypted(cipher, start, pos);
      }
    }

    /** The bytes whose keystream was left from the call before. */
    method Carried(head: seq<Byte>) returns (output: seq<Byte>)
      requires Valid() && |head| == nextDecryptCount
      modifies this
      ensures Valid() && start == old(start) && pos == old(pos) + |head| && nextDecryptCount == 0
      ensures output == Crypted(cipher, start, old(pos), head)
    {
      hide FromBigEndian, Keystream, Xor;
      output := [];
      ghost var stream := Stream(cipher, start, pos, nextDecryptCount);
      var i := 0;
      while i < nextDecryptCount
        invariant i == |output| <= nextDecryptCount
        invariant forall k :: 0 <= k < i ==> output[k] == Xor(head[k], stream[k])
      {
        assert og[16 - nextDecryptCount..][i] == og[16 - nextDecryptCount + i];
        output := output + [Xor(head[i], og[16 - nextDecryptCount + i])];
        i := i + 1;
      }
      pos := pos + |head|;
      nextDecryptCount := 0;
      assert og[16..] == [];
    }

    /** Whole blocks. */
    method Blocks(middle: seq<Byte>) returns (output: seq<Byte>)
      requires Valid() && nextDecryptCount == 0 && |middle| % 16 == 0
      modifies this, iv
      ensures Valid() && start == old(start) && pos == old(pos) + |middle| && nextDecryptCount == 0
      ensures output == Crypted(cipher, start, old(pos), middle)
    {
      hide FromBigEndian, Keystream, Xor, Crypted;
      ghost var n, v := pos / 16, FromBigEndian(iv[..]);
      output := XcryptBuffer(middle);
      Moved(cipher, start, n, v, middle);
      Counted(start, n, v, |middle|);
      pos := pos + |middle|;
      assert og[16..] == [];
    }

    /** The last bytes: a whole block of keystream is made, and the rest of it kept. */
    method Rest(rest: seq<Byte>) returns (output: seq<Byte>)
      requires Valid() && nextDecryptCount == 0 && 0 < |rest| < 16
      modifies this, iv
      ensures Valid() && start == old(start) && pos == old(pos) + |rest|
      ensures output == Crypted(cipher, start, old(pos), rest)
    {
      hide FromBigEndian, Keystream, Xor, Crypted, Stream;
      ghost var n, v := pos / 16, FromBigEndian(iv[..]);
      assert pos == 16 * n;
      var zeros: seq<Byte> := seq(16 - |rest|, _ => 0);
      og := XcryptBuffer(rest + zeros);
      Moved(cipher, start, n, v, rest + zeros);
      Counted(start, n, v, 16);
      CryptedConcat(cipher, start, pos, rest, zeros);
      CryptedZeros(cipher, start, pos + |rest|, 16 - |rest|);
      output := og[..|rest|];
      nextDecryptCount := 16 - |rest|;
      pos := pos + |rest|;
      assert pos + nextDecryptCount == 16 * n + 16;
      assert og[16 - nextDecryptCount..] == Crypted(cipher, start, pos, zeros);
    }
  }

  lemma BlocksFor(len: nat, n: nat, bi: nat)
    requires bi <= 16 && len + 16 == 16 * n + bi && (n == 0 ==> bi == 16) && (n > 0 ==> bi > 0)
    ensures (len + 15) / 16 == n
  {
  }

  lemma NothingCrypted(cipher: Cipher, start: nat, pos: nat)
    ensures Crypted(cipher, start, pos, []) == []
  {
  }

  /** Zeros under the keystream are the keystream. */
  lemma {:induction false} CryptedZeros(cipher: Cipher, start: nat, pos: nat, n: nat)
    ensures Crypted(cipher, start, pos, seq(n, _ => 0)) == Stream(cipher, start, pos, n)
  {
    hide Keystream, Xor;
    forall i | 0 <= i < n
      ensures Crypted(cipher, start, pos, seq(n, _ => 0))[i] == Stream(cipher, start, pos, n)[i]
    {
      XorZero(Keystream(cipher, start, pos + i));
    }
  }

  lemma {:induction false} Moved(cipher: Cipher, start: nat, n: nat, v: nat, data: seq<Byte>)
    requires v == (start + n) % COUNTERS
    ensures Crypted(cipher, v, 0, data) == Crypted(cipher, start, 16 * n, data)
  {
    hide Keystream, Xor;
    forall k | 0 <= k < |data|
      ensures Crypted(cipher, v, 0, data)[k] == Crypted(cipher, start, 16 * n, data)[k]
    {
      StreamShift(cipher, start, n, v, k);
      assert 0 + k == k;
    }
  }

  lemma Counted(start: nat, n: nat, v: nat, len: nat)
    requires v == (start + n) % COUNTERS && len % 16 == 0
    ensures (v + (len + 15) / 16) % COUNTERS == (start + (16 * n + len) / 16) % COUNTERS
  {
    assert (len + 15) / 16 == len / 16;
    assert (16 * n + len) / 16 == n + len / 16;
  }
}
