/** Numbers as bytes, most significant first. */
module BigEndians {
  import opened Arith
  import opened Bytes
  import opened Positional

  function BigEndian(v: nat, n: nat): (r: seq<Byte>)
    ensures |r| == n
  {
    if n == 0 then [] else BigEndian(v / 256, n - 1) + [v % 256]
  }

  function FromBigEndian(s: seq<Byte>): nat
  {
    if s == [] then 0 else FromBigEndian(s[..|s| - 1]) * 256 + s[|s| - 1]
  }

  /** Byte i has the weight of the n - 1 - i bytes behind it. */
  lemma {:induction false} BigEndianAt(v: nat, n: nat, i: nat)
    requires i < n
    ensures Pow(256, n - 1 - i) > 0 && BigEndian(v, n)[i] == v / Pow(256, n - 1 - i) % 256
  {
    if i < n - 1 {
      BigEndianAt(v / 256, n - 1, i);
      DivDiv(v, 256, Pow(256, n - 2 - i));
    }
  }

  /** Numbers of two and of four bytes. */
  lemma TwoAndFour(v: nat)
    ensures BigEndian(v, 2) == [v / 0x100 % 256, v % 256]
    ensures BigEndian(v, 4) == [v / 0x100_0000 % 256, v / 0x1_0000 % 256, v / 0x100 % 256, v % 256]
  {
    assert BigEndian(v, 1) == [v % 256];
    assert BigEndian(v / 256, 1) == [v / 256 % 256];
    DivDiv(v, 256, 256);
    DivDiv(v, 0x1_0000, 256);
    assert BigEndian(v / 0x1_0000, 2) == [v / 0x1_0000 / 256 % 256, v / 0x1_0000 % 256];
    assert BigEndian(v / 256, 3) == BigEndian(v / 256 / 256, 2) + [v / 256 % 256];
  }

  lemma {:induction false} BigEndianBack(v: nat, n: nat)
    requires v < Pow(256, n)
    ensures FromBigEndian(BigEndian(v, n)) == v
  {
    if n > 0 {
      var s := BigEndian(v, n);
      assert s[..n - 1] == BigEndian(v / 256, n - 1);
      BigEndianBack(v / 256, n - 1);
    }
  }

  /** A big-endian number is its first bytes and its last. */
  lemma {:induction false} FromSplit(s: seq<Byte>, t: seq<Byte>)
    ensures FromBigEndian(s + t) == FromBigEndian(s) * Pow(256, |t|) + FromBigEndian(t)
  {
    if t == [] {
      assert s + t == s;
    } else {
      var k := |t| - 1;
      FromSplit(s, t[..k]);
      assert (s + t)[..|s + t| - 1] == s + t[..k];
      ShiftedNumber(FromBigEndian(s), Pow(256, k), FromBigEndian(t[..k]), t[k]);
    }
  }

  lemma ShiftedNumber(v: int, p: int, w: int, d: int)
    ensures (v * p + w) * 256 + d == v * (256 * p) + (w * 256 + d)
  {
  }
}
