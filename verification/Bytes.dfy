module Bytes {
  type Byte = x: nat | x < 256

  /** The n lowest bits of the exclusive or. */
  function XorBits(a: nat, b: nat, n: nat): (c: nat)
  {
    if n == 0 then 0 else (a + b) % 2 + 2 * XorBits(a / 2, b / 2, n - 1)
  }

  lemma {:induction false} XorBitsBound(a: nat, b: nat, n: nat, m: nat)
    requires n <= 8 && m == [1, 2, 4, 8, 16, 32, 64, 128, 256][n]
    ensures XorBits(a, b, n) < m
  {
    if n > 0 {
      XorBitsBound(a / 2, b / 2, n - 1, m / 2);
    }
  }

  function Xor(a: Byte, b: Byte): (c: Byte)
  {
    XorBitsBound(a, b, 8, 256);
    XorBits(a, b, 8)
  }

  lemma {:induction false} XorBitsTwice(a: nat, b: nat, n: nat)
    ensures XorBits(XorBits(a, b, n), b, n) == XorBits(a, 0, n)
  {
    if n > 0 {
      XorBitsTwice(a / 2, b / 2, n - 1);
      LowBit(a, b, XorBits(a / 2, b / 2, n - 1));
    }
  }

  lemma LowBit(a: nat, b: nat, r: nat)
    ensures ((a + b) % 2 + 2 * r) / 2 == r && ((a + b) % 2 + 2 * r + b) % 2 == (a + 0) % 2
  {
    var x, y := a % 2, b % 2;
    assert a == 2 * (a / 2) + x && b == 2 * (b / 2) + y;
    assert (a + b) % 2 == (x + y) % 2;
  }

  lemma {:induction false} XorBitsZero(a: nat, n: nat, m: nat)
    requires n <= 8 && m == [1, 2, 4, 8, 16, 32, 64, 128, 256][n] && a < m
    ensures XorBits(a, 0, n) == a
  {
    if n > 0 {
      XorBitsZero(a / 2, n - 1, m / 2);
    }
  }

  lemma XorTwice(a: Byte, b: Byte)
    ensures Xor(Xor(a, b), b) == a
  {
    XorBitsTwice(a, b, 8);
    XorBitsZero(a, 8, 256);
  }

  lemma {:induction false} XorBitsOfZero(b: nat, n: nat)
    ensures XorBits(0, b, n) == XorBits(b, 0, n)
  {
    if n > 0 {
      XorBitsOfZero(b / 2, n - 1);
    }
  }

  lemma XorZero(b: Byte)
    ensures Xor(0, b) == b
  {
    XorBitsOfZero(b, 8);
    XorBitsZero(b, 8, 256);
  }
}
