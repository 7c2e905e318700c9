/** Field elements as 32 bytes: `fexpand` reads them and `fcontract` writes the least representative. */
module FieldBytes {
  import opened Arith
  import opened Positional
  import opened Bytes
  import opened ScalarBytes
  import opened FieldLimbs
  import opened FieldReduce

  type Int32 = x: int | -0x8000_0000 <= x < 0x8000_0000

  // ----- reading

  /** The bit limb i starts at. */
  function Bit(i: nat): nat
  {
    51 * (i / 2) + if i % 2 == 0 then 0 else 26
  }

  lemma {:induction false} WeightIs(i: nat)
    ensures Weight(i) == Two(Bit(i))
    ensures Size(i) == Two(if i % 2 == 0 then 26 else 25)
  {
    hide Pow;
    Widths();
    if i > 0 {
      WeightIs(i - 1);
      var width := if i % 2 == 1 then 26 else 25;
      NextBit(i - 1);
      PowAdd(2, width, Bit(i - 1));
      NextWeight(i - 1);
    }
  }

  lemma NextBit(i: nat)
    ensures Bit(i + 1) == Bit(i) + if i % 2 == 0 then 26 else 25
  {
  }

  lemma Widths()
    ensures Two(0) == 1 && Two(25) == 0x200_0000 && Two(26) == 0x400_0000
  {
    PowTwos();
    PowAdd(2, 8, 8);
    PowAdd(2, 16, 8);
    assert Two(25) == 2 * Two(24) && Two(26) == 2 * Two(25);
  }

  /** Four bytes from `start` on, without the `shift` lowest bits and all above `size`. */
  method ExpandLimb(output: array<Int64>, input: seq<Byte>, n: nat, start: nat, shift: nat, size: nat)
    requires output.Length >= 10 && |input| == 32 && n < 10
    requires start == Bit(n) / 8 && shift == Bit(n) % 8 && size == Size(n)
    modifies output
    ensures output[n] == Above(Value(256, input), Bit(n)) % Size(n)
    ensures forall k :: 0 <= k < output.Length && k != n ==> output[k] == old(output[k])
  {
    hide Value, Pow, Load4;
    LimbIsWindow(input, n);
    output[n] := Load4(input, start) / Two(shift) % size;
  }

  lemma {:induction false} LimbIsWindow(s: seq<Byte>, n: nat)
    requires |s| == 32 && n < 10
    ensures Load4(s, Bit(n) / 8) / Two(Bit(n) % 8) % Size(n) == Above(Value(256, s), Bit(n)) % Size(n)
  {
    hide Pow, Value, Load4, Above, Two, Size, Bit;
    var off, sh := Bit(n) / 8, Bit(n) % 8;
    FirstByte(n);
    LoadsAreValues(s, off);
    WindowOf(s, off, 4);
    AboveAbove(Value(256, s), 8 * off, sh);
    WeightIs(n);
    var width := if n % 2 == 0 then 26 else 25;
    var a := Load4(s, off);
    BitsBelow(a, Value(256, s[off + 4..]), sh, width, 32);
    AboveIs(a, sh);
  }

  /** Limbs that are the bits of a number stand for its low bits. */
  lemma {:induction false} SumOfBits(s: seq<int>, v: nat, n: nat)
    requires n <= |s| && forall i :: 0 <= i < n ==> s[i] == Above(v, Bit(i)) % Size(i)
    ensures Sum(s, n) == v % Weight(n)
  {
    if n > 0 {
      SumOfBits(s, v, n - 1);
      WeightIs(n - 1);
      OneMoreDigit(v, Weight(n - 1), Size(n - 1));
    }
  }

  lemma {:induction false} OneMoreDigit(v: nat, w: nat, z: nat)
    requires 0 < w && 0 < z
    ensures v % w + (v / w % z) * w == v % (z * w)
  {
    var q, r := v / w, v % w;
    var p, d := q / z, q % z;
    assert v == q * w + r && q == p * z + d;
    assert (p * z + d) * w == p * (z * w) + d * w;
    FitsStep(r, d, w, z);
    DivUnique(v, z * w, p, d * w + r);
  }

  /** The low 255 bits of 32 bytes as a field element. */
  method FExpand(output: array<Int64>, input: seq<Byte>)
    requires output.Length >= 10 && |input| == 32
    modifies output
    ensures Sum(output[..], 10) == Value(256, input) % Weight(10)
    ensures Reduced(output[..])
    ensures output[10..] == old(output[10..])
  {
    hide Value, Pow, Weight, Sum, Above;
    ExpandLimb(output, input, 0, 0, 0, 0x400_0000);
    ExpandLimb(output, input, 1, 3, 2, 0x200_0000);
    ExpandLimb(output, input, 2, 6, 3, 0x400_0000);
    ExpandLimb(output, input, 3, 9, 5, 0x200_0000);
    ExpandLimb(output, input, 4, 12, 6, 0x400_0000);
    ExpandLimb(output, input, 5, 16, 0, 0x200_0000);
    ExpandLimb(output, input, 6, 19, 1, 0x400_0000);
    ExpandLimb(output, input, 7, 22, 3, 0x200_0000);
    ExpandLimb(output, input, 8, 25, 4, 0x400_0000);
    ExpandLimb(output, input, 9, 28, 6, 0x200_0000);
    SumOfBits(output[..], Value(256, input), 10);
  }

  // ----- making the limbs fit

  /** What a negative limb must borrow to become non-negative: the mask clears the others. */
  function Borrow(x: int, size: nat): (c: nat)
    requires 0 < size
    ensures x >= 0 ==> c == 0
    ensures x < 0 ==> 0 <= x + c * size < size
  {
    var masked := if x < 0 then x else 0;
    -(masked / size)
  }

  const TWO_26: int := 0x400_0000

  /** What limb i lends to those below it in one pass. */
  function Lent(s: seq<int>, i: nat): nat
    requires i <= |s|
  {
    if i == 0 then 0 else Borrow(s[i - 1] - Lent(s, i - 1), Size(i - 1))
  }

  /** Limb i after one pass: it has lent, and borrowed from the next. */
  function Repaid(s: seq<int>, i: nat): int
    requires i < |s|
  {
    s[i] - Lent(s, i) + Lent(s, i + 1) * Size(i)
  }

  /** Three at most are borrowed from limb 0, and how many depends on limb 9 and what that lent. */
  lemma {:induction false} LastLent(s: seq<int>)
    requires |s| == 10 && Below(s, 10, TWO_26)
    ensures Lent(s, 10) <= 1 <==> s[9] - Lent(s, 9) >= -0x200_0000
    ensures Lent(s, 10) <= 2 <==> s[9] > -0x3ff_ffff || Lent(s, 9) <= 1
    ensures Lent(s, 10) <= 3 && Lent(s, 9) <= 2
  {
    hide Lent;
    LentBound(s, 9);
    NextLent(s, 9);
  }

  lemma NextLent(s: seq<int>, i: nat)
    requires i < |s|
    ensures Lent(s, i + 1) == Borrow(s[i] - Lent(s, i), Size(i))
  {
  }

  lemma {:induction false} LentBound(s: seq<int>, i: nat)
    requires i <= |s| && Below(s, |s|, TWO_26)
    ensures Lent(s, i) <= if i % 2 == 1 then 2 else 3
  {
    if i > 0 {
      LentBound(s, i - 1);
      var x := s[i - 1] - Lent(s, i - 1);
      assert -TWO_26 - 2 <= x;
    }
  }

  /** After the first pass limb 0 is -19 or more exactly if one at most was borrowed from it, or its own
      bits make up for the others. */
  lemma {:induction false} FirstLimb(s: seq<int>)
    requires |s| == 10 && Below(s, 10, TWO_26)
    ensures Repaid(s, 0) - 19 * Lent(s, 10) >= -19 <==> Lent(s, 10) <= 1 || Repaid(s, 0) >= 19 * (Lent(s, 10) - 1)
    ensures 0 <= Repaid(s, 0)
  {
  }

  /** With these limbs three are borrowed from limb 0, and it becomes -57. */
  lemma {:induction false} ThreeBorrowed()
    ensures var s := [0, 0, 0, 0, 0, 0, 0, -0x3ff_ffff, -0x3ff_ffff, -0x3ff_ffff];
            Below(s, 10, TWO_26) && Lent(s, 10) == 3 && Repaid(s, 0) - 19 * Lent(s, 10) == -57
  {
    hide Lent;
    var s := [0, 0, 0, 0, 0, 0, 0, -0x3ff_ffff, -0x3ff_ffff, -0x3ff_ffff];
    NothingLent(s, 7);
    NothingLent(s, 1);
    NextLent(s, 0);
    NextLent(s, 7);
    NextLent(s, 8);
    NextLent(s, 9);
  }

  lemma {:induction false} NothingLent(s: seq<int>, i: nat)
    requires i <= |s| && forall k :: 0 <= k < i ==> s[k] >= 0
    ensures Lent(s, i) == 0
  {
    if i > 0 {
      NothingLent(s, i - 1);
    }
  }

  /** Limbs within their widths borrow one at most. */
  lemma {:induction false} WidthsLendOne(s: seq<int>, i: nat)
    requires i <= |s| && forall k :: 0 <= k < |s| ==> -(Size(k) as int) < s[k]
    ensures Lent(s, i) <= 1
  {
    if i > 0 {
      WidthsLendOne(s, i - 1);
    }
  }

  /** No limb but the first is negative, and that one only a little. */
  ghost predicate Settled(s: seq<int>)
  {
    |s| == 10 && s[0] >= -57 && forall k :: 1 <= k < 10 ==> 0 <= s[k]
  }

  /** The limbs below i have borrowed; limb i has lent to them. */
  ghost predicate BorrowedTo(s: seq<int>, t: seq<int>, i: nat)
  {
    && |s| == |t| == 10 && i < 10
    && (forall k :: 0 <= k < i ==> 0 <= t[k] < TWO_26 && t[k] == Repaid(s, k))
    && t[i] == s[i] - Lent(s, i) && Lent(s, i) <= 3
    && (forall k :: i < k < 10 ==> t[k] == s[k])
    && (Settled(s) && i > 0 ==> t[i] == s[i] || (t[i] == s[i] - 1 && t[0] >= TWO_26 - 57))
  }

  /** Every limb borrows from the next, and the last from the first. */
  method BorrowPass(input: array<Int32>, ghost v: int)
    requires input.Length == 10 && Below(input[..], 10, TWO_26) && Congruent(Sum(input[..], 10), v)
    modifies input
    ensures Below(input[..], 10, TWO_26) && Settled(input[..])
    ensures old(Settled(input[..])) ==> input[0] >= 0
    ensures var s: seq<int> := old(input[..]);
            && input[0] == Repaid(s, 0) - 19 * Lent(s, 10)
            && forall k :: 1 <= k < 10 ==> input[k] == Repaid(s, k)
    ensures Congruent(Sum(input[..], 10), v)
  {
    hide Sum, Congruent, Lent;
    ghost var s := input[..];
    NothingLent(s, 0);
    var i := 0;
    while i < 9
      invariant i <= 9 && BorrowedTo(s, input[..], i)
      invariant Sum(input[..], 10) == Sum(s, 10)
    {
      BorrowStep(input, i, s);
      i := i + 1;
    }
    ghost var t := input[..];
    var carry: int := Borrow(input[9], 0x200_0000);
    NextLent(s, 9);
    LastBorrow(s, t, carry);
    input[9] := input[9] + carry * 0x200_0000;
    input[0] := input[0] - carry * 19;
    assert input[..] == Wrapped(t, -carry);
    WrappedSum(t, -carry);
    Transitive(Sum(input[..], 10), Sum(t, 10), v);
  }

  method BorrowStep(input: array<Int32>, i: nat, ghost s: seq<int>)
    requires i < 9 && Below(s, |s|, TWO_26) && BorrowedTo(s, input[..], i)
    modifies input
    ensures BorrowedTo(s, input[..], i + 1)
    ensures Sum(input[..], 10) == old(Sum(input[..], 10))
  {
    hide Sum, Lent, Repaid;
    ghost var t := input[..];
    var size := if i % 2 == 1 then 0x200_0000 else 0x400_0000;
    BorrowFits(s, t, i);
    var carry: int := Borrow(input[i], size);
    input[i] := input[i] + carry * size;
    input[i + 1] := input[i + 1] - carry;
    assert input[..] == Carried(t, i, -carry);
    CarriedSum(t, i, -carry, 10);
    BorrowedNext(s, t, i, input[..]);
  }

  lemma {:induction false} BorrowFits(s: seq<int>, t: seq<int>, i: nat)
    requires i < 9 && Below(s, |s|, TWO_26) && BorrowedTo(s, t, i)
    ensures Borrow(t[i], Size(i)) == Lent(s, i + 1) <= 3
    ensures 0 <= t[i] + Lent(s, i + 1) * Size(i) < TWO_26
    ensures Repaid(s, i) == t[i] + Lent(s, i + 1) * Size(i) && t[i + 1] == s[i + 1]
  {
    hide Lent;
    NextLent(s, i);
    assert -TWO_26 - 3 < t[i];
  }

  lemma {:induction false} BorrowedNext(s: seq<int>, t: seq<int>, i: nat, u: seq<int>)
    requires i < 9 && Below(s, |s|, TWO_26) && BorrowedTo(s, t, i)
    requires u == Carried(t, i, -(Lent(s, i + 1) as int))
    ensures BorrowedTo(s, u, i + 1)
  {
    hide Lent, Repaid;
    BorrowFits(s, t, i);
    NothingLent(s, 0);
    var c := Lent(s, i + 1);
    assert u[i] == t[i] + c * Size(i) && u[i + 1] == s[i + 1] - c;
    if Settled(s) {
      assert t[i] >= 0 ==> c == 0;
      assert t[i] < 0 ==> c == 1;
    }
  }

  lemma LastBorrow(s: seq<int>, t: seq<int>, carry: nat)
    requires Below(s, |s|, TWO_26) && BorrowedTo(s, t, 9) && carry == Borrow(t[9], 0x200_0000)
    ensures carry <= 3 && (Settled(s) && carry > 0 ==> carry == 1 && t[0] >= TWO_26 - 57)
  {
  }

  /** Every limb but the first fits, and that one almost. */
  ghost predicate Close(s: seq<int>)
  {
    && |s| == 10 && (forall k :: 0 <= k < 10 ==> 0 <= s[k])
    && s[0] < TWO_26 + 38 && forall k :: 1 <= k < 10 ==> s[k] < Size(k)
  }

  ghost predicate CarriedTo(s: seq<int>, t: seq<int>, i: nat)
  {
    && |s| == |t| == 10 && i < 10
    && Fits(t, i)
    && s[i] <= t[i] <= s[i] + (if i > 0 then 2 else 0)
    && (forall k :: i < k < 10 ==> t[k] == s[k])
    && (Close(s) && i > 0 ==> t[i] == s[i] || (t[i] == s[i] + 1 && t[0] < 38))
  }

  ghost predicate Natural(s: seq<int>)
  {
    |s| == 10 && 0 <= s[0] < TWO_26 + 38 && forall k :: 1 <= k < 10 ==> 0 <= s[k] < TWO_26
  }

  /** Every limb carries into the next, and the last into the first. */
  method CarryPass(input: array<Int32>, ghost v: int)
    requires input.Length == 10 && Natural(input[..]) && Congruent(Sum(input[..], 10), v)
    modifies input
    ensures Close(input[..])
    ensures old(Close(input[..])) ==> Fits(input[..], 10)
    ensures Congruent(Sum(input[..], 10), v)
  {
    hide Sum, Congruent;
    ghost var s := input[..];
    var i := 0;
    while i < 9
      invariant i <= 9 && CarriedTo(s, input[..], i)
      invariant Sum(input[..], 10) == Sum(s, 10)
    {
      CarryStep(input, i, s);
      i := i + 1;
    }
    ghost var t := input[..];
    var carry := input[9] / 0x200_0000;
    input[9] := input[9] % 0x200_0000;
    input[0] := input[0] + 19 * carry;
    assert input[..] == Wrapped(t, carry);
    WrappedSum(t, carry);
    Transitive(Sum(input[..], 10), Sum(t, 10), v);
  }

  method CarryStep(input: array<Int32>, i: nat, ghost s: seq<int>)
    requires i < 9 && Natural(s) && CarriedTo(s, input[..], i)
    modifies input
    ensures CarriedTo(s, input[..], i + 1)
    ensures Sum(input[..], 10) == old(Sum(input[..], 10))
  {
    hide Sum;
    ghost var t := input[..];
    var size := if i % 2 == 1 then 0x200_0000 else 0x400_0000;
    var carry := input[i] / size;
    input[i] := input[i] % size;
    input[i + 1] := input[i + 1] + carry;
    assert input[..] == Carried(t, i, carry);
    CarriedSum(t, i, carry, 10);
  }

  // ----- the least representative

  /** All ones for equal words, else 0. */
  function Equal(a: bv32, b: bv32): (mask: bv32)
    ensures mask == Mask(a == b)
  {
    var c := !(a ^ b);
    var c := c & (c << 16);
    var c := c & (c << 8);
    var c := c & (c << 4);
    var c := c & (c << 2);
    var c := c & (c << 1);
    SignMask(c)
  }

  /** All ones if the sign bit is set: an arithmetic shift by 31. */
  function SignMask(a: bv32): (mask: bv32)
    ensures mask == if a & 0x8000_0000 != 0 then 0xffff_ffff else 0
  {
    if a >> 31 == 1 then 0xffff_ffff else 0
  }

  /** All ones if a >= b, else 0, for numbers that are not negative. */
  function AtLeast(a: Int32, b: Int32): (mask: bv32)
    requires 0 <= a && 0 <= b
    ensures mask == Mask(a >= b)
  {
    var difference: Int32 := a - b;
    !(if difference < 0 then 0xffff_ffff else 0)
  }

  function Word(x: Int32): bv32
    requires 0 <= x
  {
    x as bv32
  }

  lemma GreatestWords()
    ensures Word(0x1ff_ffff) == 0x1ff_ffff && Word(0x3ff_ffff) == 0x3ff_ffff
  {
  }

  lemma Greatest25(x: Int32)
    requires 0 <= x && Word(x) == 0x1ff_ffff
    ensures x == 0x1ff_ffff
  {
  }

  lemma Greatest26(x: Int32)
    requires 0 <= x && Word(x) == 0x3ff_ffff
    ensures x == 0x3ff_ffff
  {
  }

  /** The comparison of a limb with the greatest of its size. */
  function IsGreatest(x: Int32, i: nat): (mask: bv32)
    requires 0 <= x
  {
    if i % 2 == 1 then Equal(Word(x), 0x1ff_ffff) else Equal(Word(x), 0x3ff_ffff)
  }

  lemma GreatestMask(x: Int32, i: nat)
    requires 0 <= x
    ensures IsGreatest(x, i) == Mask(x == Size(i) - 1)
  {
    hide Word, Equal;
    GreatestWords();
    if Word(x) == 0x1ff_ffff {
      Greatest25(x);
    } else if Word(x) == 0x3ff_ffff {
      Greatest26(x);
    }
  }

  function Mask(b: bool): bv32
  {
    if b then 0xffff_ffff else 0
  }

  function Both(m: bv32, n: bv32): bv32
  {
    m & n
  }

  lemma MasksMeet(a: bool, b: bool)
    ensures Both(Mask(a), Mask(b)) == Mask(a && b)
  {
  }

  lemma MaskIs(b: bool)
    ensures b ==> Mask(b) == 0xffff_ffff
    ensures !b ==> Mask(b) == 0
  {
  }

  /** The part of the prime a mask lets through. */
  function MaskedPrime(mask: bv32, i: nat): (x: nat)
    requires mask == 0 || mask == 0xffff_ffff
    ensures x == if mask == 0 then 0 else PrimeLimb(i)
  {
    if i == 0 then (mask & 0x3ff_ffed) as nat
    else if i % 2 == 1 then (mask & 0x1ff_ffff) as nat
    else (mask & 0x3ff_ffff) as nat
  }

  /** The limbs of 2^255 - 19. */
  function PrimeLimb(i: nat): nat
  {
    if i == 0 then 0x3ff_ffed else Size(i) - 1
  }

  /** Every limb is at least that of the prime; from the second on it is the greatest. */
  ghost predicate AllHigh(s: seq<int>, n: nat)
    requires n <= |s|
  {
    forall i :: 0 <= i < n ==> s[i] >= PrimeLimb(i)
  }

  lemma LastDigit(z: int, w: int)
    ensures (z - 1) * w + w == z * w
  {
  }

  /** Only limbs that are all high reach the prime. */
  lemma {:induction false} BelowPrime(s: seq<int>, n: nat)
    requires 1 <= n <= |s| && Fits(s, n)
    ensures AllHigh(s, n) <==> Sum(s, n) >= Weight(n) - 19
  {
    if n == 1 {
      assert Sum(s, 0) == 0 && Weight(0) == 1 && Weight(1) == 0x400_0000;
    } else {
      BelowPrime(s, n - 1);
      FitsBound(s, n - 1);
      TopDigit(Sum(s, n - 1), s[n - 1], Weight(n - 1), Size(n - 1));
      AtLeastOne(n - 1);
      NextWeight(n - 1);
    }
  }

  lemma {:induction false} AtLeastOne(i: nat)
    requires i > 0
    ensures Weight(i) >= 0x400_0000
  {
    if i > 1 {
      AtLeastOne(i - 1);
    } else {
      assert Weight(0) == 1;
    }
  }

  lemma {:induction false} TopDigit(v: int, d: int, w: int, z: int)
    requires 0 <= v < w && 0 <= d < z && w > 19
    ensures v + d * w >= z * w - 19 <==> d == z - 1 && v >= w - 19
  {
    LastDigit(z, w);
    if d < z - 1 {
      MulOrder(w, d + 1, z - 1);
      assert w * (d + 1) == d * w + w;
    }
  }

  lemma OneHigh(s: seq<int>)
    requires |s| > 0
    ensures AllHigh(s, 1) <==> s[0] >= 0x3ff_ffed
  {
  }

  lemma OneMoreHigh(s: seq<int>, i: nat)
    requires 1 <= i < |s| && Fits(s, |s|)
    ensures AllHigh(s, i + 1) <==> AllHigh(s, i) && s[i] == Size(i) - 1
  {
  }

  /** All ones exactly if the limbs stand for 2^255 - 19 or more. */
  method HighMask(input: array<Int32>) returns (mask: bv32)
    requires input.Length == 10 && Fits(input[..], 10)
    ensures mask == Mask(Sum(input[..], 10) >= PRIME)
  {
    hide Sum, Weight, Mask, Both, Equal, AtLeast, IsGreatest, AllHigh;
    OneHigh(input[..]);
    mask := AtLeast(input[0], 0x3ff_ffed);
    var i := 1;
    while i < 10
      invariant 1 <= i <= 10
      invariant mask == Mask(AllHigh(input[..], i))
    {
      MasksMeet(AllHigh(input[..], i), input[i] == Size(i) - 1);
      GreatestMask(input[i], i);
      mask := Both(mask, IsGreatest(input[i], i));
      OneMoreHigh(input[..], i);
      i := i + 1;
    }
    BelowPrime(input[..], 10);
    Weights();
  }

  /** Subtracts 2^255 - 19 from limbs that stand for that much. */
  method SubtractPrime(input: array<Int32>)
    requires input.Length == 10 && Fits(input[..], 10)
    modifies input
    ensures Fits(input[..], 10)
    ensures Sum(input[..], 10) == old(Sum(input[..], 10)) % PRIME
  {
    hide Sum, Weight, MaskedPrime, Mask;
    ghost var s := input[..];
    ghost var high := Sum(s, 10) >= PRIME;
    var mask := HighMask(input);
    MaskIs(high);
    var i := 0;
    while i < 10
      invariant 0 <= i <= 10
      invariant forall k :: 0 <= k < i ==> input[k] == s[k] - if high then PrimeLimb(k) else 0
      invariant forall k :: i <= k < 10 ==> input[k] == s[k]
    {
      input[i] := input[i] - MaskedPrime(mask, i);
      i := i + 1;
    }
    BelowPrime(s, 10);
    FitsBound(s, 10);
    Weights();
    if high {
      PrimeTaken(s, input[..], 10);
    } else {
      SumSame(s, input[..], 10);
    }
  }

  lemma {:induction false} PrimeTaken(s: seq<int>, t: seq<int>, n: nat)
    requires 1 <= n <= |s| && n <= |t| && forall k :: 0 <= k < n ==> t[k] == s[k] - PrimeLimb(k)
    ensures Sum(t, n) == Sum(s, n) - (Weight(n) - 19)
  {
    if n == 1 {
      assert Sum(s, 0) == 0 && Sum(t, 0) == 0 && Weight(0) == 1 && Weight(1) == 0x400_0000;
    } else {
      PrimeTaken(s, t, n - 1);
      LastDigit(Size(n - 1), Weight(n - 1));
      NextWeight(n - 1);
      Taken(s[n - 1], Size(n - 1), Weight(n - 1));
    }
  }

  lemma Taken(d: int, z: int, w: int)
    ensures (d - (z - 1)) * w == d * w - z * w + w
  {
  }

  // ----- writing

  /** The 32 bits of a word as a number without sign. */
  function Unsigned(y: Int32): (u: nat)
    ensures u < 0x1_0000_0000
  {
    if y < 0 then y + 0x1_0000_0000 else y
  }

  function Signed(u: nat): (y: Int32)
    requires u < 0x1_0000_0000
    ensures Unsigned(y) == u
  {
    if u < 0x8000_0000 then u else u - 0x1_0000_0000
  }

  /** A shift to the left in 32 bits: what reaches bit 31 is the sign. */
  function ShiftLeft(x: Int32, n: nat): (y: Int32)
    requires 0 <= x && x * Two(n) < 0x1_0000_0000
  {
    hide Pow;
    Signed(x * Two(n))
  }

  /** The bytes of a word do not depend on how its sign is read. */
  lemma ByteOfWord(y: Int32, u: nat)
    requires Unsigned(y) == u
    ensures y % 0x100 == u % 0x100 && y / 0x100 % 0x100 == u / 0x100 % 0x100
    ensures y / 0x1_0000 % 0x100 == u / 0x1_0000 % 0x100 && y / 0x100_0000 % 0x100 == u / 0x100_0000
  {
    if y < 0 {
      ModShift(u, 0x100, -0x100_0000);
      DivUnique(y, 0x100, u / 0x100 - 0x100_0000, u % 0x100);
      ModShift(u / 0x100, 0x100, -0x1_0000);
      DivUnique(y, 0x1_0000, u / 0x1_0000 - 0x1_0000, u % 0x1_0000);
      ModShift(u / 0x1_0000, 0x100, -0x100);
      DivUnique(y, 0x100_0000, u / 0x100_0000 - 0x100, u % 0x100_0000);
    }
  }

  lemma FourBytes(u: nat)
    requires u < 0x1_0000_0000
    ensures u == u % 0x100 + 0x100 * (u / 0x100 % 0x100 + 0x100 * (u / 0x1_0000 % 0x100 + 0x100 * (u / 0x100_0000)))
  {
  }

  /** The four bytes of a shifted limb; the lowest shares its byte with the limb before. */
  method StoreWord(output: array<Byte>, y: Int32, s: nat, ghost sh: nat, ghost u: nat)
    requires s + 4 <= output.Length && sh <= 8 && Unsigned(y) == u
    requires output[s] < Two(sh) && u % Two(sh) == 0
    modifies output
    ensures forall k :: 0 <= k < s || s + 4 <= k < output.Length ==> output[k] == old(output[k])
    ensures Value(256, output[..s + 4]) == old(Value(256, output[..s + 1])) + Pow(256, s) * u
    ensures output[s + 3] == u / 0x100_0000
  {
    hide Value, Pow;
    ghost var before := output[..s];
    ghost var low := output[s];
    ByteOfWord(y, u);
    LowByte(low, u, sh);
    output[s] := OrBits(output[s], y % 0x100, 8);
    output[s + 1] := y / 0x100 % 0x100;
    output[s + 2] := y / 0x1_0000 % 0x100;
    output[s + 3] := y / 0x100_0000 % 0x100;
    FourBytes(u);
    FourAbove(before, [low + u % 0x100, u / 0x100 % 0x100, u / 0x1_0000 % 0x100, u / 0x100_0000], low, u);
    assert output[..s + 4] == before + output[s..s + 4];
    assert old(output[..s + 1]) == before + [low];
    assert output[s..s + 4] == [low + u % 0x100, u / 0x100 % 0x100, u / 0x1_0000 % 0x100, u / 0x100_0000];
  }

  lemma {:induction false} FourAbove(before: seq<nat>, four: seq<nat>, low: nat, u: nat)
    requires |four| == 4 && four[0] + 0x100 * (four[1] + 0x100 * (four[2] + 0x100 * four[3])) == low + u
    ensures Value(256, before + four) == Value(256, before + [low]) + Pow(256, |before|) * u
  {
    hide Value, Pow;
    ValueConcat(256, before, four);
    ValueSnoc(256, before, low);
    FourDigits(four);
    Spread(Pow(256, |before|), low, u);
  }

  lemma Spread(p: int, x: int, y: int)
    ensures p * (x + y) == p * x + p * y
  {
  }

  lemma {:induction false} FourDigits(t: seq<nat>)
    requires |t| == 4
    ensures Value(256, t) == t[0] + 0x100 * (t[1] + 0x100 * (t[2] + 0x100 * t[3]))
  {
    hide Value;
    assert t[0..] == t;
    ValueFrom(256, t, 0);
    ValueFrom(256, t, 1);
    ValueFrom(256, t, 2);
    ValueFrom(256, t, 3);
    ValueFrom(256, t, 4);
  }

  /** The bytes up to the first bit of limb i hold the limbs below i. */
  ghost predicate Stored(bytes: seq<Byte>, x: seq<int>, i: nat)
  {
    && |bytes| == 32 && |x| == 10 && i <= 10
    && (i <= 4 ==> bytes[16] == 0)
    && (i < 10 ==> Value(256, bytes[..Bit(i) / 8 + 1]) == Sum(x, i) && bytes[Bit(i) / 8] < Two(Bit(i) % 8))
    && (i == 10 ==> Value(256, bytes) == Sum(x, 10))
  }

  lemma {:induction false} NoneStored(bytes: seq<Byte>, x: seq<int>)
    requires |bytes| == 32 && |x| == 10 && bytes[0] == 0 && bytes[16] == 0
    ensures Stored(bytes, x, 0)
  {
    assert bytes[..1] == [bytes[0]];
    assert Value(256, [bytes[0]]) == bytes[0] + 256 * Value(256, [bytes[0]][1..]);
  }

  /** A limb shifted to its first bit takes at most four bytes. */
  lemma {:induction false} ShiftedLimb(d: nat, i: nat)
    requires i < 10 && d < Size(i)
    ensures d * Two(Bit(i) % 8) < 0x1_0000_0000 && (d * Two(Bit(i) % 8)) % Two(Bit(i) % 8) == 0
    ensures Pow(256, Bit(i) / 8) * (d * Two(Bit(i) % 8)) == d * Weight(i)
    ensures i != 4 ==> d * Two(Bit(i) % 8) / 0x100_0000 < Two(Bit(i + 1) % 8)
  {
    hide Pow, Weight, Size, Two, Bit;
    var s, sh := Bit(i) / 8, Bit(i) % 8;
    var width := if i % 2 == 0 then 26 else 25;
    WeightIs(i);
    PowOfBytes(s);
    TwoAdd(8 * s, sh);
    Regroup(Two(8 * s), d, Two(sh));
    FirstByte(i);
    FillsWord(d, width, sh);
  }

  lemma TwoAdd(m: nat, n: nat)
    ensures Two(m + n) == Two(m) * Two(n)
  {
    hide Pow;
    PowAdd(2, m, n);
  }

  lemma FirstByte(i: nat)
    requires i < 10
    ensures var width, sh := if i % 2 == 0 then 26 else 25, Bit(i) % 8;
            && 24 <= width + sh <= 32 && Bit(i) / 8 + 4 <= 32
            && Bit(i + 1) % 8 == (if i == 4 then 0 else width + sh - 24)
            && Bit(i + 1) / 8 == Bit(i) / 8 + (if i == 4 then 4 else 3)
  {
    assert Bit(i) == [0, 26, 51, 77, 102, 128, 153, 179, 204, 230][i];
    NextBit(i);
  }

  lemma {:induction false} FillsWord(d: nat, width: nat, sh: nat)
    requires d < Two(width) && 24 <= width + sh <= 32
    ensures d * Two(sh) < 0x1_0000_0000 && (d * Two(sh)) % Two(sh) == 0
    ensures d * Two(sh) / 0x100_0000 < Two(width + sh - 24)
  {
    hide Pow;
    PowAdd(2, width, sh);
    PowAdd(2, 24, width + sh - 24);
    PowAdd(2, width + sh, 32 - width - sh);
    WideTwos();
    var p, t := Two(width), Two(sh);
    FitsStep(0, d, t, p);
    assert d * t < t * p by {
      MulOrder(t, d + 1, p);
      assert t * (d + 1) == d * t + t;
    }
    MulOrder(Two(width + sh), 1, Two(32 - width - sh));
    DivUnique(d * t, t, d, 0);
    DivBelow(d * t, 0x100_0000, Two(width + sh - 24));
  }

  lemma WideTwos()
    ensures Two(24) == 0x100_0000 && Two(32) == 0x1_0000_0000
  {
    PowTwos();
    PowAdd(2, 8, 8);
    PowAdd(2, 16, 8);
    PowAdd(2, 16, 16);
  }

  lemma Regroup(p: int, d: int, t: int)
    ensures p * (d * t) == d * (p * t)
  {
  }

  method StoreLimb(output: array<Byte>, y: Int32, i: nat, s: nat, ghost x: seq<int>)
    requires output.Length == 32 && |x| == 10 && Fits(x, 10) && i < 10 && s == Bit(i) / 8
    requires Unsigned(y) == x[i] * Two(Bit(i) % 8)
    requires Stored(output[..], x, i)
    modifies output
    ensures Stored(output[..], x, i + 1)
  {
    hide Value, Pow, Weight, Two, Size, Bit, Unsigned;
    ghost var before := output[..];
    FirstByte(i);
    ShiftedLimb(x[i], i);
    assert before[..s + 1] == output[..s + 1];
    StoreWord(output, y, s, Bit(i) % 8, x[i] * Two(Bit(i) % 8));
    assert output[..][..s + 4] == output[..s + 4];
    StoredNext(before, output[..], x, i);
  }

  lemma {:induction false} StoredNext(before: seq<Byte>, after: seq<Byte>, x: seq<int>, i: nat)
    requires |x| == 10 && Fits(x, 10) && i < 10 && Stored(before, x, i) && |after| == 32
    requires forall k :: Bit(i) / 8 + 4 <= k < 32 ==> after[k] == before[k]
    requires Bit(i) / 8 + 4 <= 32
    requires Value(256, after[..Bit(i) / 8 + 4]) == Value(256, before[..Bit(i) / 8 + 1]) + x[i] * Weight(i)
    requires after[Bit(i) / 8 + 3] == x[i] * Two(Bit(i) % 8) / 0x100_0000
    ensures Stored(after, x, i + 1)
  {
    hide Value, Pow, Weight, Two, Size, Bit;
    FirstByte(i);
    ShiftedLimb(x[i], i);
    FirstByteOfSix();
    if i == 4 {
      ZeroAfter(after, 16);
    } else if i == 9 {
      assert after[..32] == after;
    }
  }

  lemma FirstByteOfSix()
    ensures Bit(4) / 8 == 12 && Bit(5) == 128 && Bit(9) / 8 == 28 && Two(0) == 1
    ensures forall i :: 0 <= i < 4 ==> Bit(i) / 8 < 12
  {
  }

  lemma {:induction false} ZeroAfter(bytes: seq<Byte>, k: nat)
    requires k < |bytes| && bytes[k] == 0
    ensures Value(256, bytes[..k + 1]) == Value(256, bytes[..k])
  {
    ValueSnoc(256, bytes[..k], 0);
    assert bytes[..k + 1] == bytes[..k] + [0];
  }

  /** Limbs that fit, as 32 bytes. */
  method StoreLimbs(output: array<Byte>, input: array<Int32>)
    requires output.Length == 32 && input.Length == 10 && Fits(input[..], 10)
    modifies output, input
    ensures Value(256, output[..]) == old(Sum(input[..], 10))
  {
    hide Value, Pow, Sum, Stored, Fits;
    ghost var x := input[..];
    ShiftLimbs(input);
    output[0] := 0;
    output[16] := 0;
    NoneStored(output[..], x);
    StoreLimb(output, input[0], 0, 0, x);
    StoreLimb(output, input[1], 1, 3, x);
    StoreLimb(output, input[2], 2, 6, x);
    StoreLimb(output, input[3], 3, 9, x);
    StoreLimb(output, input[4], 4, 12, x);
    StoreLimb(output, input[5], 5, 16, x);
    StoreLimb(output, input[6], 6, 19, x);
    StoreLimb(output, input[7], 7, 22, x);
    StoreLimb(output, input[8], 8, 25, x);
    StoreLimb(output, input[9], 9, 28, x);
    AllStored(output[..], x);
  }

  lemma AllStored(bytes: seq<Byte>, x: seq<int>)
    requires Stored(bytes, x, 10)
    ensures |x| == 10 && Value(256, bytes) == Sum(x, 10)
  {
  }

  /** The limbs below m are shifted to the bit of their first byte where they start. */
  ghost predicate ShiftedBelow(x: seq<int>, s: seq<Int32>, m: nat)
  {
    && |s| == |x| == 10
    && (forall i :: 0 <= i < m && i < 10 ==> Unsigned(s[i]) == x[i] * Two(Bit(i) % 8))
    && (forall i :: m <= i < 10 ==> s[i] == x[i])
  }

  method ShiftLimb(input: array<Int32>, i: nat, n: nat, ghost x: seq<int>)
    requires input.Length == 10 && i < 10 && n == Bit(i) % 8 && |x| == 10 && Fits(x, 10)
    requires ShiftedBelow(x, input[..], i)
    modifies input
    ensures ShiftedBelow(x, input[..], i + 1)
  {
    hide Pow;
    assert input[..][i] == x[i];
    ShiftedLimb(x[i], i);
    input[i] := ShiftLeft(input[i], n);
  }

  lemma NotShifted(x: seq<int>, s: seq<Int32>, i: nat)
    requires i == 0 || i == 5
    requires |x| == 10 && Fits(x, 10) && ShiftedBelow(x, s, i)
    ensures ShiftedBelow(x, s, i + 1)
  {
    assert Two(Bit(i) % 8) == 1;
  }

  method ShiftLimbs(input: array<Int32>)
    requires input.Length == 10 && Fits(input[..], 10)
    modifies input
    ensures ShiftedBelow(old(input[..]), input[..], 10)
  {
    hide ShiftedBelow;
    ghost var x := input[..];
    NothingShifted(x);
    NotShifted(x, input[..], 0);
    ShiftLimb(input, 1, 2, x);
    ShiftLimb(input, 2, 3, x);
    ShiftLimb(input, 3, 5, x);
    ShiftLimb(input, 4, 6, x);
    NotShifted(x, input[..], 5);
    ShiftLimb(input, 6, 1, x);
    ShiftLimb(input, 7, 3, x);
    ShiftLimb(input, 8, 4, x);
    ShiftLimb(input, 9, 6, x);
  }

  lemma NothingShifted(x: seq<Int32>)
    requires |x| == 10
    ensures ShiftedBelow(x, x, 0)
  {
  }

  /** The least representative of a field element, as 32 bytes. */
  method FContract(output: array<Byte>, limbs: array<Int64>)
    requires output.Length == 32 && limbs.Length >= 10 && Reduced(limbs[..])
    modifies output
    ensures Value(256, output[..]) == Sum(limbs[..], 10) % PRIME
  {
    hide Value, Sum, Congruent, Lent, Repaid;
    var input := new Int32[10];
    var i := 0;
    while i < 10
      invariant 0 <= i <= 10 && forall k :: 0 <= k < i ==> input[k] == limbs[k]
    {
      input[i] := limbs[i];
      i := i + 1;
    }
    SumSame(input[..], limbs[..], 10);
    ghost var v := Sum(limbs[..], 10);
    Reflexive(v);
    BorrowPass(input, v);
    BorrowPass(input, v);
    BorrowFirst(input);
    CarryPass(input, v);
    CarryPass(input, v);
    SameRemainder(Sum(input[..], 10), v);
    SubtractPrime(input);
    StoreLimbs(output, input);
  }

  /** After two passes the first limb has nothing left to borrow. */
  method BorrowFirst(input: array<Int32>)
    requires input.Length == 10 && input[0] >= 0
    modifies input
    ensures input[..] == old(input[..])
  {
    var carry := Borrow(input[0], 0x400_0000);
    input[0] := input[0] + carry * 0x400_0000;
    input[1] := input[1] - carry;
  }
}
