/** The buffering of SHA-512 (FIPS 180-4, section 5.1.2), over any compression function. */
module Sha512s {
  import opened Bytes
  import opened Arith
  import opened Positional
  import opened BigEndians

  type Word = w: nat | w < 0x1_0000_0000_0000_0000

  /** The eight words of a hash state. */
  type State = s: seq<Word> | |s| == 8 witness [0, 0, 0, 0, 0, 0, 0, 0]

  const INITIAL: State := [
    0x6a09e667f3bcc908, 0xbb67ae8584caa73b, 0x3c6ef372fe94f82b, 0xa54ff53a5f1d36f1,
    0x510e527fade682d1, 0x9b05688c2b3e6c1f, 0x1f83d9abfb41bd6b, 0x5be0cd19137e2179]

  type Compress = (State, seq<Byte>) -> State

  // ----- the hash of a whole message

  /** The whole 128-byte blocks of the data, compressed in order. */
  function Blocks(compress: Compress, s: State, data: seq<Byte>): State
    decreases |data|
  {
    if |data| < 128 then s else Blocks(compress, compress(s, data[..128]), data[128..])
  }

  function Zeros(n: nat): (z: seq<Byte>)
    ensures |z| == n
  {
    seq(n, _ => 0)
  }

  /** The message, a bit 1, as few zeros as possible, and the length in bits as a 128-bit number. */
  function Padded(message: seq<Byte>): seq<Byte>
  {
    message + [0x80] + Zeros((111 - |message|) % 128) + BigEndian(8 * |message|, 16)
  }

  function WordBytes(s: seq<Word>): seq<Byte>
  {
    if s == [] then [] else BigEndian(s[0], 8) + WordBytes(s[1..])
  }

  function Digest(compress: Compress, message: seq<Byte>): seq<Byte>
  {
    WordBytes(Blocks(compress, INITIAL, Padded(message)))
  }

  lemma {:induction false} BlocksConcat(compress: Compress, s: State, a: seq<Byte>, b: seq<Byte>)
    requires |a| % 128 == 0
    ensures Blocks(compress, s, a + b) == Blocks(compress, Blocks(compress, s, a), b)
    decreases |a|
  {
    if a == [] {
      assert a + b == b;
    } else {
      assert (a + b)[..128] == a[..128] && (a + b)[128..] == a[128..] + b;
      BlocksConcat(compress, compress(s, a[..128]), a[128..], b);
    }
  }

  lemma OneBlock(compress: Compress, s: State, b: seq<Byte>)
    requires |b| == 128
    ensures Blocks(compress, s, b) == compress(s, b)
  {
    assert b[..128] == b;
  }

  /** The whole blocks of a message that have been compressed, and the bytes that wait. */
  function Whole(message: seq<Byte>): (p: seq<Byte>)
    ensures |p| % 128 == 0 && |p| <= |message|
  {
    message[..|message| / 128 * 128]
  }

  function Waiting(message: seq<Byte>): (w: seq<Byte>)
    ensures |w| < 128
  {
    message[|message| / 128 * 128..]
  }

  /** The bits compressed, as a 64-bit number. */
  function BitCount(message: seq<Byte>): nat
  {
    8 * |Whole(message)| % 0x1_0000_0000_0000_0000
  }

  /** Taking n more bytes that at most fill the block. */
  lemma {:induction false} MoreWaits(compress: Compress, s: State, m: seq<Byte>, part: seq<Byte>)
    requires |Waiting(m)| + |part| <= 128
    ensures var w := Waiting(m) + part;
            if |w| < 128 then Whole(m + part) == Whole(m) && Waiting(m + part) == w
            else Waiting(m + part) == [] && Blocks(compress, s, Whole(m + part)) == compress(Blocks(compress, s, Whole(m)), w)
  {
    hide Blocks;
    var w, k := Waiting(m) + part, |m| / 128;
    assert m == Whole(m) + Waiting(m);
    assert m + part == Whole(m) + w;
    if |w| < 128 {
      assert |m + part| / 128 == k;
    } else {
      assert |m + part| == 128 * (k + 1);
      assert Whole(m + part) == m + part;
      BlocksConcat(compress, s, Whole(m), w);
      OneBlock(compress, Blocks(compress, s, Whole(m)), w);
    }
  }

  class Sha512Context {
    var length: nat
    var state: State
    var curlen: nat
    const buf: array<Byte>
    const compress: Compress
    /** What has been hashed so far. */
    ghost var message: seq<Byte>

    /** `sha512_init`. */
    constructor (compress: Compress)
      ensures Valid() && fresh(buf) && message == [] && this.compress == compress
    {
      this.compress := compress;
      buf := new Byte[128](_ => 0);
      curlen, length, state, message := 0, 0, INITIAL, [];
    }

    /** The state holds the whole blocks, the buffer the rest, and the length counts the blocks' bits. */
    ghost predicate Valid()
      reads this, buf
    {
      && buf.Length == 128 && curlen == |Waiting(message)| && buf[..curlen] == Waiting(message)
      && state == Blocks(compress, INITIAL, Whole(message))
      && length == BitCount(message)
    }

    /** However a message is cut into updates, the context only depends on their concatenation. */
    method Update(data: seq<Byte>)
      requires Valid()
      modifies this, buf
      ensures Valid() && message == old(message) + data
    {
      hide Blocks, Whole, Waiting, BitCount;
      var p := 0;
      assert message == old(message) + data[..0];
      while p < |data|
        invariant p <= |data| && Valid() && message == old(message) + data[..p]
        decreases |data| - p
      {
        var n := |data| - p;
        if curlen == 0 && n >= 128 {
          n := 128;
          Direct(data[p..p + n]);
        } else {
          n := if n < 128 - curlen then n else 128 - curlen;
          Buffer(data[p..p + n]);
        }
        assert data[..p + n] == data[..p] + data[p..p + n];
        p := p + n;
      }
      assert data[..p] == data;
    }

    /** A block that need not be copied. */
    method Direct(part: seq<Byte>)
      requires Valid() && curlen == 0 && |part| == 128
      modifies this
      ensures Valid() && message == old(message) + part
    {
      hide Blocks, Whole, Waiting, BitCount;
      MoreWaits(compress, INITIAL, message, part);
      Lengths(message, part);
      assert Waiting(message) + part == part;
      state := compress(state, part);
      length := (length + 128 * 8) % 0x1_0000_0000_0000_0000;
      message := message + part;
    }

    /** Bytes that fit into the buffer; a full buffer is compressed. */
    method Buffer(part: seq<Byte>)
      requires Valid() && curlen + |part| <= 128 && part != []
      modifies this, buf
      ensures Valid() && message == old(message) + part
    {
      hide Blocks, Whole, Waiting, BitCount;
      MoreWaits(compress, INITIAL, message, part);
      Lengths(message, part);
      Fill(part);
      curlen := curlen + |part|;
      if curlen == 128 {
        assert buf[..128] == buf[..];
        state := compress(state, buf[..]);
        length := (length + 8 * 128) % 0x1_0000_0000_0000_0000;
        curlen := 0;
      }
      message := message + part;
    }

    /** Copies bytes behind those that wait. */
    method Fill(part: seq<Byte>)
      requires buf.Length == 128 && curlen + |part| <= 128
      modifies buf
      ensures buf[..curlen + |part|] == old(buf[..curlen]) + part
    {
      var i := 0;
      while i < |part|
        invariant i <= |part| && buf[..curlen] == old(buf[..curlen])
        invariant forall k :: 0 <= k < i ==> buf[curlen + k] == part[k]
      {
        buf[i + curlen] := part[i];
        i := i + 1;
      }
    }

    /** Appends zeros up to position n. */
    method Zero(n: nat)
      requires buf.Length == 128 && curlen <= n <= 128
      modifies buf, this`curlen
      ensures curlen == n && buf[..n] == old(buf[..curlen]) + Zeros(n - old(curlen))
    {
      while curlen < n
        invariant old(curlen) <= curlen <= n && buf[..old(curlen)] == old(buf[..curlen])
        invariant forall k :: old(curlen) <= k < curlen ==> buf[k] == 0
      {
        buf[curlen] := 0;
        curlen := curlen + 1;
      }
    }

    /** The digest is that of the padded message, for messages of less than 2^64 bits. */
    method Final() returns (digest: seq<Byte>)
      requires Valid() && 8 * |message| < 0x1_0000_0000_0000_0000
      modifies this, buf
      ensures digest == Digest(compress, old(message))
    {
      hide Blocks, Padded, WordBytes, Whole, Waiting, Zeros, BigEndian, BitCount;
      ghost var m := message;
      LengthOf(m);
      length := (length + curlen * 8) % 0x1_0000_0000_0000_0000;
      ghost var spilled := Pad();
      Store(length);
      PaddedParts(compress, INITIAL, m, spilled, buf[..]);
      state := compress(state, buf[..]);
      digest := WordBytes(state);
    }

    /** The bit 1 and the zeros; a block is spilled if the length does not fit behind them. */
    method Pad() returns (ghost spilled: seq<Byte>)
      requires buf.Length == 128 && curlen < 128
      modifies buf, this`curlen, this`state
      ensures var w := old(buf[..curlen]) + [0x80];
              if |w| > 112 then spilled == w + Zeros(128 - |w|) && buf[..120] == Zeros(120) && state == compress(old(state), spilled)
              else spilled == [] && buf[..120] == w + Zeros(120 - |w|) && state == old(state)
    {
      hide Zeros;
      ghost var w := buf[..curlen] + [0x80];
      buf[curlen] := 0x80;
      curlen := curlen + 1;
      assert buf[..curlen] == w;
      spilled := [];
      if curlen > 112 {
        Zero(128);
        assert buf[..128] == buf[..];
        spilled := buf[..];
        state := compress(state, buf[..]);
        curlen := 0;
        assert buf[..0] == [];
      }
      Zero(120);
      assert [] + Zeros(120) == Zeros(120);
    }

    method Store(n: nat)
      requires buf.Length == 128
      modifies buf
      ensures buf[..] == old(buf[..120]) + BigEndian(n, 8)
    {
      var bytes := BigEndian(n, 8);
      var i := 0;
      while i < 8
        invariant i <= 8 && buf[..120] == old(buf[..120])
        invariant forall k :: 0 <= k < i ==> buf[120 + k] == bytes[k]
      {
        buf[120 + i] := bytes[i];
        i := i + 1;
      }
    }
  }

  lemma Lengths(m: seq<Byte>, part: seq<Byte>)
    requires |Waiting(m)| + |part| <= 128
    ensures BitCount(m + part)
            == if |Waiting(m)| + |part| == 128 then (BitCount(m) + 8 * 128) % 0x1_0000_0000_0000_0000 else BitCount(m)
  {
    WholeLength(m, part);
    NextCount(8 * |Whole(m)|);
  }

  lemma WholeLength(m: seq<Byte>, part: seq<Byte>)
    requires |Waiting(m)| + |part| <= 128
    ensures |Whole(m + part)| == if |Waiting(m)| + |part| == 128 then |Whole(m)| + 128 else |Whole(m)|
  {
    var q, r := |m| / 128, |m| % 128;
    if r + |part| < 128 {
      DivUnique(|m + part|, 128, q, r + |part|);
    } else {
      DivUnique(|m + part|, 128, q + 1, 0);
    }
  }

  lemma NextCount(v: nat)
    ensures (v + 8 * 128) % 0x1_0000_0000_0000_0000 == (v % 0x1_0000_0000_0000_0000 + 8 * 128) % 0x1_0000_0000_0000_0000
  {
  }

  lemma LengthOf(m: seq<Byte>)
    requires 8 * |m| < 0x1_0000_0000_0000_0000
    ensures (BitCount(m) + |Waiting(m)| * 8) % 0x1_0000_0000_0000_0000 == 8 * |m|
  {
    assert |m| == |Whole(m)| + |Waiting(m)|;
    assert BitCount(m) == 8 * |Whole(m)|;
  }

  lemma PaddedIsBlocks(m: seq<Byte>)
    ensures |Padded(m)| % 128 == 0
  {
    hide BigEndian, Zeros;
    PaddingLength(m);
    var q, w := |m| / 128, |Waiting(m)| + 1;
    assert |m| == 128 * q + (w - 1);
    var total := |m| + 1 + (111 - |m|) % 128 + 16;
    assert total == if w > 112 then 128 * (q + 2) else 128 * (q + 1);
    assert |Padded(m)| == total;
  }

  /** The message, a bit 1, as few bits 0 as possible, and the length in bits. */
  lemma {:induction false} PaddedShape(m: seq<Byte>)
    requires 8 * |m| < Pow(256, 16)
    ensures var p := Padded(m);
            && |m| + 17 <= |p| < |m| + 17 + 128
            && p[..|m|] == m && p[|m|] == 128
            && (forall i :: |m| < i < |p| - 16 ==> p[i] == 0)
            && FromBigEndian(p[|p| - 16..]) == 8 * |m|
  {
    hide BigEndian, FromBigEndian, Pow;
    BigEndianBack(8 * |m|, 16);
    assert Padded(m)[|Padded(m)| - 16..] == BigEndian(8 * |m|, 16);
  }

  /** The initial words are the first 64 bits of the fractions of the square roots of the first eight primes
      (FIPS 180-4, section 5.3.5). */
  lemma InitialIsRoots(i: nat)
    requires i < 8
    ensures var root: int := ([1, 1, 2, 2, 3, 3, 4, 4][i] as int) * 0x1_0000_0000_0000_0000 + INITIAL[i] as int;
            root * root <= [2, 3, 5, 7, 11, 13, 17, 19][i] * 0x1_0000_0000_0000_0000_0000_0000_0000_0000 < (root + 1) * (root + 1)
  {
  }

  /** The padded message is its whole blocks, the block that spills if there is one, and the last block. */
  lemma {:induction false} PaddedParts(compress: Compress, s: State, m: seq<Byte>, spilled: seq<Byte>, last: seq<Byte>)
    requires 8 * |m| < 0x1_0000_0000_0000_0000
    requires var w := Waiting(m) + [0x80];
             if |w| > 112 then spilled == w + Zeros(128 - |w|) && last == Zeros(120) + BigEndian(8 * |m|, 8)
             else spilled == [] && last == w + Zeros(120 - |w|) + BigEndian(8 * |m|, 8)
    ensures |spilled| == 0 || |spilled| == 128
    ensures Blocks(compress, s, Padded(m))
            == var t := Blocks(compress, s, Whole(m)); compress(if spilled == [] then t else compress(t, spilled), last)
  {
    hide Blocks, BigEndian;
    var w := Waiting(m) + [0x80];
    WideLength(8 * |m|);
    assert m == Whole(m) + Waiting(m);
    PaddingLength(m);
    if |w| > 112 {
      assert Padded(m) == Whole(m) + (spilled + last);
    } else {
      assert Padded(m) == Whole(m) + (spilled + last);
    }
    BlocksConcat(compress, s, Whole(m), spilled + last);
    var t := Blocks(compress, s, Whole(m));
    BlocksConcat(compress, t, spilled, last);
    OneBlock(compress, if spilled == [] then t else compress(t, spilled), last);
    if spilled != [] {
      OneBlock(compress, t, spilled);
    } else {
      NoBlocks(compress, t);
    }
  }

  lemma NoBlocks(compress: Compress, s: State)
    ensures Blocks(compress, s, []) == s
  {
  }

  /** The upper half of the 128-bit length is 0. */
  lemma {:induction false} WideLength(v: nat)
    requires v < 0x1_0000_0000_0000_0000
    ensures BigEndian(v, 16) == Zeros(8) + BigEndian(v, 8)
  {
    PowAdd(256, 4, 4);
    assert Pow(256, 2) == 0x1_0000;
    assert Pow(256, 4) == 0x1_0000_0000;
    SmallTop(v, 8);
  }

  lemma {:induction false} SmallTop(v: nat, n: nat)
    requires v < Pow(256, n)
    ensures BigEndian(v, 8 + n) == Zeros(8) + BigEndian(v, n)
  {
    if n == 0 {
      ZeroBytes(8);
    } else {
      SmallTop(v / 256, n - 1);
    }
  }

  lemma {:induction false} ZeroBytes(n: nat)
    ensures BigEndian(0, n) == Zeros(n)
  {
    if n > 0 {
      ZeroBytes(n - 1);
    }
  }

  lemma PaddingLength(m: seq<Byte>)
    ensures var w := |Waiting(m)| + 1;
            (111 - |m|) % 128 == if w > 112 then 128 - w + 112 else 112 - w
  {
  }
}
