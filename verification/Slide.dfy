/** The sliding-window recoding of a scalar: `slide`. */
module Slides {
  import opened Positional
  import opened Bytes
  import opened SignedDigits
  import opened ScalarBytes

  type SChar = x: int | -128 <= x < 128

  const TWO_253: int := 0x2000000000000000000000000000000000000000000000000000000000000000
  const TWO_255: int := 4 * TWO_253

  /** What a digit may be. */
  predicate WindowDigit(d: int)
  {
    d == 0 || (-15 <= d <= 15 && d % 2 == 1)
  }

  predicate Recoded(r: seq<int>)
  {
    |r| == 256 && forall i :: 0 <= i < 256 ==> WindowDigit(r[i])
  }

  lemma Two255()
    ensures Pow(2, 255) == TWO_255
  {
    hide Pow;
    PowFifteen();
    PowAdd(2, 15, 15);
    PowAdd(2, 30, 30);
    PowAdd(2, 60, 60);
    PowAdd(2, 120, 120);
    PowAdd(2, 240, 15);
  }

  lemma PowFifteen()
    ensures Pow(2, 15) == 0x8000
  {
    assert Pow(2, 3) == 8;
    assert Pow(2, 7) == 128;
    assert Pow(2, 11) == 2048;
  }

  /** Bits from w up, window digits below i, zeros between, and the digits stand for v. */
  ghost predicate Sliding(r: seq<int>, i: nat, w: nat, v: nat)
  {
    && |r| == 256 && i <= w <= 256
    && (forall j :: w <= j < 256 ==> r[j] == 0 || r[j] == 1)
    && (forall j :: 0 <= j < i ==> WindowDigit(r[j]))
    && (forall j :: i <= j < w ==> r[j] == 0)
    && SignedValue(2, r) == v
    && Balanced(r, w)
  }

  /** The digits below w stand for a number between -2^w / 2 and 2^w. */
  ghost predicate Balanced(r: seq<int>, w: nat)
    requires w <= |r|
  {
    -(Pow(2, w) as int) < 2 * SignedValue(2, r[..w]) < 2 * Pow(2, w)
  }

  lemma PowNext(n: nat)
    ensures Pow(2, n + 1) == 2 * Pow(2, n) && Pow(2, n) > 0
  {
  }

  /** The digits below w and one more. */
  lemma {:induction false} OneMoreDigit(r: seq<int>, w: nat)
    requires w < |r|
    ensures SignedValue(2, r[..w + 1]) == SignedValue(2, r[..w]) + Pow(2, w) * r[w]
  {
    assert r[..w + 1] == r[..w] + [r[w]];
    SignedConcat(2, r[..w], [r[w]]);
    SignedOne(2, r[w]);
  }

  /** In the window that starts at i: digit i is odd, bits from w up are still to come. */
  ghost predicate InWindow(r: seq<int>, i: nat, w: nat, v: nat)
  {
    WindowShape(r, i, w) && WindowValue(r, i, w, v)
  }

  ghost predicate WindowShape(r: seq<int>, i: nat, w: nat)
  {
    && |r| == 256 && i < w <= 256
    && (forall j :: w <= j < 256 ==> r[j] == 0 || r[j] == 1)
    && (forall j :: 0 <= j <= i ==> WindowDigit(r[j])) && r[i] % 2 == 1 && r[i] < Shift2(w - i)
    && (forall j :: i < j < w ==> r[j] == 0)
  }

  ghost predicate WindowValue(r: seq<int>, i: nat, w: nat, v: nat)
    requires i < w <= |r|
  {
    && SignedValue(2, r) == v && Balanced(r, w)
    && (r[i] > 0 ==> SignedValue(2, r[..w]) > 0)
  }

  /** A window opens at a digit 1. */
  lemma {:induction false} WindowOpens(r: seq<int>, i: nat, w: nat, v: nat)
    requires Sliding(r, i, w, v) && i < 256 && r[i] != 0
    ensures w == i && InWindow(r, i, i + 1, v)
  {
    hide SignedValue, Pow;
    OneMoreDigit(r, i);
    PowNext(i);
    ShiftBounds(1);
  }

  /** A digit that is 0 is left alone. */
  lemma {:induction false} NothingAt(r: seq<int>, i: nat, w: nat, v: nat)
    requires Sliding(r, i, w, v) && i < 256 && r[i] == 0
    ensures Sliding(r, i + 1, if w == i then i + 1 else w, v)
  {
    hide SignedValue, Pow;
    if w == i {
      OneMoreDigit(r, i);
      PowNext(i);
    }
  }

  /** A 0 bit in the window. */
  lemma {:induction false} SkipBit(r: seq<int>, i: nat, w: nat, v: nat)
    requires InWindow(r, i, w, v) && w < 256 && r[w] == 0
    ensures InWindow(r, i, w + 1, v)
  {
    hide SignedValue, Pow;
    OneMoreDigit(r, w);
    PowNext(w);
    PowNext(w - i);
  }

  lemma WindowCloses(r: seq<int>, i: nat, w: nat, v: nat)
    requires InWindow(r, i, w, v)
    ensures Sliding(r, i + 1, w, v)
  {
  }

  /** Changing digit i by a multiple of its weight. */
  lemma {:induction false} DigitShifted(r: seq<int>, i: nat, w: nat, x: int)
    requires i < w <= |r|
    ensures SignedValue(2, Added(r, i, x)) == SignedValue(2, r) + x * Pow(2, i)
    ensures SignedValue(2, Added(r, i, x)[..w]) == SignedValue(2, r[..w]) + x * Pow(2, i)
  {
    AddedSigned(2, r, i, x);
    assert Added(r, i, x)[..w] == Added(r[..w], i, x);
    AddedSigned(2, r[..w], i, x);
  }

  /** A bit of the window is absorbed into its digit. */
  lemma {:induction false} AbsorbBit(r: seq<int>, i: nat, w: nat, v: nat)
    requires InWindow(r, i, w, v) && w < 256 && r[w] == 1 && w - i <= 6 && r[i] + Shift2(w - i) <= 15
    ensures InWindow(Added(Added(r, i, Shift2(w - i)), w, -1), i, w + 1, v)
  {
    hide SignedValue, Pow, Shift2, WindowValue, Added;
    AbsorbShape(r, i, w);
    AbsorbValue(r, i, w, v);
  }

  lemma {:induction false} AbsorbShape(r: seq<int>, i: nat, w: nat)
    requires WindowShape(r, i, w) && w < 256 && r[w] == 1 && w - i <= 6 && r[i] + Shift2(w - i) <= 15
    ensures WindowShape(Added(Added(r, i, Shift2(w - i)), w, -1), i, w + 1)
  {
    hide Shift2;
    ShiftBounds(w - i);
    ShiftNext(w - i);
  }

  lemma {:induction false} AbsorbValue(r: seq<int>, i: nat, w: nat, v: nat)
    requires |r| == 256 && i < w < 256 && r[w] == 1 && WindowValue(r, i, w, v)
    ensures WindowValue(Added(Added(r, i, Shift2(w - i)), w, -1), i, w + 1, v)
  {
    hide SignedValue, Pow, Shift2;
    var b := w - i;
    ShiftedPow(i, b);
    var t := Added(r, i, Shift2(b));
    var s := Added(t, w, -1);
    DigitShifted(r, i, w, Shift2(b));
    AddedSigned(2, t, w, -1);
    assert s[..w] == t[..w];
    OneMoreDigit(s, w);
    PowNext(w);
  }

  lemma ShiftNext(b: nat)
    ensures Shift2(b + 1) == 2 * Shift2(b)
  {
  }

  /** 1 shifted left. */
  function Shift2(b: nat): int
  {
    Pow(2, b)
  }

  lemma ShiftBounds(b: nat)
    requires 1 <= b <= 6
    ensures Shift2(b) % 2 == 0 && 2 <= Shift2(b) <= 64 && (b >= 5 ==> Shift2(b) >= 32)
  {
    assert Pow(2, 1) == 2;
    assert Pow(2, 2) == 4;
    assert Pow(2, 3) == 8;
    assert Pow(2, 4) == 16;
    assert Pow(2, 5) == 32;
    assert Pow(2, 6) == 64;
  }

  lemma ShiftedPow(i: nat, b: nat)
    ensures Shift2(b) * Pow(2, i) == Pow(2, i + b)
  {
    hide Pow;
    PowAdd(2, i, b);
  }

  /** While a bit is carried up from w: bits up to k - 1 are 0, and 2^k is still to be added. */
  ghost predicate CarryingUp(r: seq<int>, i: nat, w: nat, k: nat, v: nat)
  {
    && CarryShape(r, i, w, k)
    && SignedValue(2, r) + Pow(2, k) == v
    && -(Pow(2, w) as int) < SignedValue(2, r[..w]) < Pow(2, w)
  }

  ghost predicate CarryShape(r: seq<int>, i: nat, w: nat, k: nat)
  {
    && |r| == 256 && i < w <= k <= 256 && (k == w ==> w < 256 && r[w] == 1)
    && (forall j :: k <= j < 256 ==> r[j] == 0 || r[j] == 1)
    && (forall j :: 0 <= j <= i ==> WindowDigit(r[j])) && r[i] % 2 == 1 && r[i] < 0
    && (forall j :: i < j < k ==> r[j] == 0)
  }

  /** A bit that is too much for the digit is subtracted from it, and a carry starts. */
  lemma {:induction false} CarryStarts(r: seq<int>, i: nat, w: nat, v: nat)
    requires InWindow(r, i, w, v) && w < 256 && r[w] == 1 && w - i <= 6
    requires r[i] + Shift2(w - i) > 15 && r[i] - Shift2(w - i) >= -15
    ensures CarryingUp(Added(r, i, -Shift2(w - i)), i, w, w, v)
  {
    hide SignedValue, Pow, Shift2, Added, CarryShape;
    var b := w - i;
    StartShape(r, i, w);
    ShiftedPow(i, b);
    DigitShifted(r, i, w, -Shift2(b));
    assert (-Shift2(b)) * Pow(2, i) == -(Pow(2, w) as int);
  }

  lemma {:induction false} StartShape(r: seq<int>, i: nat, w: nat)
    requires WindowShape(r, i, w) && w < 256 && r[w] == 1 && w - i <= 6
    requires r[i] + Shift2(w - i) > 15 && r[i] - Shift2(w - i) >= -15
    ensures CarryShape(Added(r, i, -Shift2(w - i)), i, w, w)
  {
    hide Shift2;
    ShiftBounds(w - i);
  }

  lemma {:induction false} CarryGoesOn(r: seq<int>, i: nat, w: nat, k: nat, v: nat)
    requires CarryingUp(r, i, w, k, v) && k < 256 && r[k] != 0
    ensures CarryingUp(r[k := 0], i, w, k + 1, v)
  {
    hide SignedValue, Pow;
    AddedSigned(2, r, k, -1);
    assert r[k := 0] == Added(r, k, -1);
    assert r[k := 0][..w] == r[..w];
    PowNext(k);
  }

  lemma {:induction false} CarryEnds(r: seq<int>, i: nat, w: nat, k: nat, v: nat)
    requires CarryingUp(r, i, w, k, v) && k < 256 && r[k] == 0 && w - i <= 6
    ensures InWindow(r[k := 1], i, w + 1, v)
  {
    hide SignedValue, Pow;
    var s := r[k := 1];
    AddedSigned(2, r, k, 1);
    assert s == Added(r, k, 1);
    assert s[..w] == r[..w];
    OneMoreDigit(s, w);
    PowNext(w);
    ShiftPositive(w + 1 - i);
  }

  lemma ShiftPositive(b: nat)
    ensures Shift2(b) > 0
  {
  }

  /** For scalars below 2^253 no carry runs past the last digit. */
  lemma {:induction false} CarryStops(r: seq<int>, i: nat, w: nat, k: nat, v: nat)
    requires CarryingUp(r, i, w, k, v) && v < TWO_253
    ensures k < 256
  {
    hide SignedValue, Pow;
    SignedSplit(2, r, w);
    Two255();
    PowNext(255);
    if w < 256 {
      PowMonotonic(2, w, 255);
    }
    if k == 256 {
      SignedZeros(2, r[w..]);
    }
  }

  // ----- bits

  /** Bit i of the scalar. */
  function BitAt(a: seq<Byte>, i: nat): nat
    requires i / 8 < |a|
  {
    (a[i / 8] as nat) / Two(i % 8) % 2
  }

  lemma {:induction false} BitIsBit(a: seq<Byte>, i: nat)
    requires i / 8 < |a|
    ensures BitAt(a, i) == Above(Value(256, a), i) % 2
  {
    hide Pow, Value;
    var off, sh := i / 8, i % 8;
    WindowOf(a, off, 1);
    OneByte(a[off..off + 1]);
    AboveAbove(Value(256, a), 8 * off, sh);
    BitsBelow(a[off], Value(256, a[off + 1..]), sh, 1, 8);
    TwoEight();
    TwoOne();
    AboveIs(a[off], sh);
  }

  lemma TwoOne()
    ensures Two(1) == 2 && Two(0) == 1
  {
  }

  lemma OneByte(t: seq<Byte>)
    requires |t| == 1
    ensures Value(256, t) == t[0]
  {
    assert t[1..] == [];
  }

  /** The bits of a number stand for it. */
  lemma {:induction false} BitsStandFor(r: seq<int>, v: nat, k: nat)
    requires k <= |r| && v < Two(|r|) && forall i :: 0 <= i < |r| ==> r[i] == Above(v, i) % 2
    ensures SignedValue(2, r[k..]) == Above(v, k)
    decreases |r| - k
  {
    hide Pow, SignedValue;
    SignedFrom(2, r, k);
    if k < |r| {
      BitsStandFor(r, v, k + 1);
      AboveAbove(v, k, 1);
      TwoOne();
      AboveIs(Above(v, k), 1);
    } else {
      AboveIs(v, k);
    }
  }

  method Slide(r: array<SChar>, a: seq<Byte>)
    requires r.Length == 256 && |a| == 32 && Value(256, a) < TWO_253
    modifies r
    ensures Recoded(r[..]) && SignedValue(2, r[..]) == Value(256, a)
  {
    hide SignedValue, Value, Pow, Sliding, InWindow, CarryingUp, Above, Balanced;
    ghost var v := Value(256, a);
    var i := 0;
    while i < 256
      invariant i <= 256 && forall j :: 0 <= j < i ==> r[j] == Above(v, j) % 2
    {
      BitIsBit(a, i);
      r[i] := BitAt(a, i);
      i := i + 1;
    }
    StartSliding(r[..], v);
    ghost var w := 0;
    i := 0;
    while i < 256
      invariant i <= 256 && Sliding(r[..], i, w, v)
    {
      if r[i] != 0 {
        WindowOpens(r[..], i, w, v);
        w := Window(r, i, v);
      } else {
        NothingAt(r[..], i, w, v);
        w := if w == i then i + 1 else w;
      }
      i := i + 1;
    }
    SlidingDone(r[..], w, v);
  }

  lemma {:induction false} StartSliding(r: seq<int>, v: nat)
    requires |r| == 256 && v < TWO_253 && forall j :: 0 <= j < 256 ==> r[j] == Above(v, j) % 2
    ensures Sliding(r, 0, 0, v)
  {
    Two255();
    PowMonotonic(2, 255, 256);
    BitsStandFor(r, v, 0);
    AboveZero(v);
    assert r[0..] == r && r[..0] == [];
  }

  lemma SlidingDone(r: seq<int>, w: nat, v: nat)
    requires Sliding(r, 256, w, v)
    ensures Recoded(r) && SignedValue(2, r) == v
  {
  }

  lemma WindowFacts(r: seq<int>, i: nat, w: nat, v: nat)
    requires InWindow(r, i, w, v)
    ensures |r| == 256 && i < w <= 256 && -15 <= r[i] <= 15
    ensures w < 256 ==> r[w] == 0 || r[w] == 1
  {
  }

  /** The window that starts at digit i; returns where it ends. */
  method Window(r: array<SChar>, i: nat, ghost v: nat) returns (ghost w: nat)
    requires r.Length == 256 && i < 256 && InWindow(r[..], i, i + 1, v) && v < TWO_253
    modifies r
    ensures Sliding(r[..], i + 1, w, v)
  {
    hide SignedValue, Pow, InWindow, CarryingUp, Sliding, Balanced;
    var b := 1;
    while b <= 6 && i + b < 256
      invariant 1 <= b <= 7 && i + b <= 256 && InWindow(r[..], i, i + b, v)
    {
      WindowFacts(r[..], i, i + b, v);
      ShiftBounds(b);
      if r[i + b] != 0 {
        var shifted := r[i + b] * Shift2(b);
        if r[i] + shifted <= 15 {
          AbsorbBit(r[..], i, i + b, v);
          ghost var was := r[..];
          r[i] := r[i] + shifted;
          r[i + b] := 0;
          assert r[..] == Added(Added(was, i, shifted), i + b, -1);
        } else if r[i] - shifted >= -15 {
          CarryStarts(r[..], i, i + b, v);
          ghost var was := r[..];
          r[i] := r[i] - shifted;
          assert r[..] == Added(was, i, -shifted);
          CarryUp(r, i, i + b, v);
        } else {
          break;
        }
      } else {
        SkipBit(r[..], i, i + b, v);
      }
      b := b + 1;
    }
    w := i + b;
    WindowCloses(r[..], i, w, v);
  }

  /** The loop that adds a carried bit. */
  method CarryUp(r: array<SChar>, i: nat, w: nat, ghost v: nat)
    requires r.Length == 256 && CarryingUp(r[..], i, w, w, v) && v < TWO_253 && i < w < 256 && w - i <= 6
    modifies r
    ensures InWindow(r[..], i, w + 1, v)
  {
    hide SignedValue, Pow, InWindow, CarryingUp;
    var k := w;
    while k < 256 && r[k] != 0
      invariant w <= k <= 256 && CarryingUp(r[..], i, w, k, v)
    {
      CarryGoesOn(r[..], i, w, k, v);
      ghost var was := r[..];
      r[k] := 0;
      assert r[..] == was[k := 0];
      k := k + 1;
    }
    CarryStops(r[..], i, w, k, v);
    CarryEnds(r[..], i, w, k, v);
    ghost var was := r[..];
    r[k] := 1;
    assert r[..] == was[k := 1];
  }
}
