/** `crecip`: the reciprocal of a field element as its power 2^255 - 21. */
module Reciprocals {
  import opened Positional
  import opened ScalarBytes
  import opened FieldLimbs
  import opened FieldReduce
  import opened FieldBytes
  import opened Ladder

  function Power(z: int, e: nat): int
  {
    if e == 0 then 1 else z * Power(z, e - 1)
  }

  lemma {:induction false} PowerPlus(z: int, m: nat, n: nat)
    ensures Power(z, m + n) == Power(z, m) * Power(z, n)
  {
    if m > 0 {
      PowerPlus(z, m - 1, n);
      Associate(z, Power(z, m - 1), Power(z, n));
    }
  }

  lemma Associate(x: int, y: int, w: int)
    ensures x * (y * w) == (x * y) * w
  {
  }

  ghost predicate IsPower(x: int, z: int, e: nat)
  {
    Congruent(x, Power(z, e))
  }

  /** x is the power of z that the chain ends with: the exponent is 2^255 - 21. */
  ghost predicate IsReciprocal(x: int, z: int)
  {
    exists e: nat :: e + 2 == PRIME && IsPower(x, z, e)
  }

  lemma {:induction false} PowersMultiply(x: int, y: int, w: int, z: int, m: nat, n: nat)
    requires IsPower(x, z, m) && IsPower(y, z, n) && Congruent(w, x * y)
    ensures IsPower(w, z, m + n)
  {
    hide Congruent;
    CongruentMul(x, y, Power(z, m), Power(z, n));
    PowerPlus(z, m, n);
    Transitive(w, x * y, Power(z, m) * Power(z, n));
  }

  /** The square of a power of z. */
  method SquarePower(output: array<Int64>, a: array<Int64>, ghost z: int, ghost e: nat)
    requires output.Length >= 10 && Element(a) && IsPower(F(a), z, e)
    modifies output
    ensures Element(output) && IsPower(F(output), z, 2 * e)
  {
    hide Sum, IsPower, Congruent;
    ghost var x := F(a);
    FSquare(output, a);
    PowersMultiply(x, x, F(output), z, e, e);
  }

  method MultiplyPowers(output: array<Int64>, a: array<Int64>, b: array<Int64>, ghost z: int, ghost m: nat, ghost n: nat)
    requires output.Length >= 10 && Element(a) && Element(b) && IsPower(F(a), z, m) && IsPower(F(b), z, n)
    modifies output
    ensures Element(output) && IsPower(F(output), z, m + n)
  {
    hide Sum, IsPower, Congruent;
    ghost var x, y := F(a), F(b);
    FMul(output, a, b);
    PowersMultiply(x, y, F(output), z, m, n);
  }

  /** Two squares at a time, from a power that was squared twice already. */
  method SquareTimes(t0: array<Int64>, t1: array<Int64>, n: nat, ghost z: int, ghost e: nat)
    requires t0.Length >= 10 && Element(t1) && t0 != t1 && n >= 2 && n % 2 == 0 && IsPower(F(t1), z, Two(2) * e)
    modifies t0, t1
    ensures Element(t1) && IsPower(F(t1), z, Two(n) * e)
  {
    hide Sum, IsPower, Pow;
    var i := 2;
    while i < n
      invariant 2 <= i <= n && i % 2 == 0
      invariant Element(t1) && IsPower(F(t1), z, Two(i) * e)
    {
      FourTimes(i, e);
      SquarePower(t0, t1, z, Two(i) * e);
      SquarePower(t1, t0, z, 2 * (Two(i) * e));
      i := i + 2;
    }
  }

  lemma FourTimes(i: nat, e: nat)
    ensures Two(i + 2) * e == 2 * (2 * (Two(i) * e))
  {
    assert Two(i + 2) == 2 * Two(i + 1) == 2 * (2 * Two(i));
  }

  lemma TwosOfTen()
    ensures Two(2) == 4 && Two(10) == 0x400 && Two(20) == 0x10_0000 && Two(50) == 0x4_0000_0000_0000
    ensures Two(100) == 0x10_0000_0000_0000_0000_0000_0000
  {
    hide Pow;
    TwoUpTo5();
    TwoAdd(5, 5);
    TwoAdd(10, 10);
    TwoAdd(20, 20);
    TwoAdd(40, 10);
    TwoAdd(50, 50);
  }

  lemma TwoUpTo5()
    ensures Two(2) == 4 && Two(5) == 32
  {
    assert Two(3) == 8;
  }

  /** n squares and a product: the exponent moves up by n bits and d fills them. */
  method Raise(output: array<Int64>, t0: array<Int64>, t1: array<Int64>, a: array<Int64>, b: array<Int64>,
               n: nat, ghost z: int, ghost e: nat, ghost d: nat)
    requires output.Length >= 10 && t0.Length >= 10 && t1.Length >= 10 && t0 != t1 && b !in {t0, t1}
    requires n >= 2 && n % 2 == 0 && Element(a) && Element(b) && IsPower(F(a), z, e) && IsPower(F(b), z, d)
    modifies output, t0, t1
    ensures Element(output) && IsPower(F(output), z, Two(n) * e + d)
  {
    hide Sum, IsPower, Pow;
    SquarePower(t0, a, z, e);
    SquarePower(t1, t0, z, 2 * e);
    TwosOfTen();
    assert 2 * (2 * e) == Two(2) * e;
    SquareTimes(t0, t1, n, z, e);
    MultiplyPowers(output, t1, b, z, Two(n) * e, d);
  }

  /** The exponents of the chain that are a row of ones. */
  function Ones(n: nat): nat
  {
    Two(n) - 1
  }

  lemma OnesJoin(m: nat, n: nat)
    ensures Two(n) * Ones(m) + Ones(n) == Ones(m + n)
  {
    hide Pow;
    TwoAdd(n, m);
    OnesSum(Two(n), Two(m));
  }

  lemma OnesSum(x: int, y: int)
    ensures x * (y - 1) + x - 1 == x * y - 1
  {
  }

  lemma LastExponent()
    ensures Ones(5) == 31 && 32 * Ones(250) + 13 == PRIME
  {
    hide Pow;
    TwoUpTo5();
    TwosOfTen();
    TwoAdd(100, 100);
    TwoAdd(200, 50);
  }

  /** The powers 9 and 11. */
  method SmallPowers(z: array<Int64>, z9: array<Int64>, z11: array<Int64>)
    requires Element(z) && z9.Length == z11.Length == 10 && z !in {z9, z11} && z9 != z11
    modifies z9, z11
    ensures Element(z9) && Element(z11) && IsPower(F(z9), F(z), 9) && IsPower(F(z11), F(z), 11)
  {
    hide Sum, IsPower, Pow;
    var t0, t1, z2 := new Int64[10], new Int64[10], new Int64[10];
    ghost var v := F(z);
    FirstPower(v);
    SquarePower(z2, z, v, 1);
    SquarePower(t1, z2, v, 2);
    SquarePower(t0, t1, v, 4);
    MultiplyPowers(z9, t0, z, v, 8, 1);
    MultiplyPowers(z11, z9, z2, v, 9, 2);
  }

  /** The power of ten ones. */
  method TenOnes(z2_10_0: array<Int64>, z9: array<Int64>, z11: array<Int64>, ghost v: int)
    requires z2_10_0.Length == 10 && Element(z9) && Element(z11) && z2_10_0 !in {z9, z11}
    requires IsPower(F(z9), v, 9) && IsPower(F(z11), v, 11)
    modifies z2_10_0
    ensures Element(z2_10_0) && IsPower(F(z2_10_0), v, Ones(10))
  {
    hide Sum, IsPower, Pow;
    var t0, t1, z2_5_0 := new Int64[10], new Int64[10], new Int64[10];
    SquarePower(t0, z11, v, 11);
    MultiplyPowers(z2_5_0, t0, z9, v, 22, 9);
    SquarePower(t0, z2_5_0, v, 31);
    SquarePower(t1, t0, v, 62);
    SquarePower(t0, t1, v, 124);
    SquarePower(t1, t0, v, 248);
    SquarePower(t0, t1, v, 496);
    MultiplyPowers(z2_10_0, t0, z2_5_0, v, 992, 31);
    TwosOfTen();
  }

  lemma FirstPower(v: int)
    ensures IsPower(v, v, 1)
  {
    assert Power(v, 1) == v * Power(v, 0);
    Reflexive(v);
  }

  /** The reciprocal by an addition chain. */
  method CRecip(output: array<Int64>, z: array<Int64>)
    requires output.Length == 10 && Element(z) && output != z
    modifies output
    ensures Element(output) && IsReciprocal(F(output), F(z))
  {
    hide Sum, IsPower, Pow, Ones;
    var z9, z11, z2_10_0, z2_50_0 := new Int64[10], new Int64[10], new Int64[10], new Int64[10];
    SmallPowers(z, z9, z11);
    TenOnes(z2_10_0, z9, z11, F(z));
    RaiseTo50(z2_50_0, z2_10_0, F(z));
    var t0, t1 := new Int64[10], new Int64[10];
    RaiseTo250(t0, t1, z2_50_0, F(z));
    LastPowers(output, t0, t1, z11, F(z));
  }

  method RaiseTo50(z2_50_0: array<Int64>, z2_10_0: array<Int64>, ghost z: int)
    requires z2_50_0.Length == 10 && Element(z2_10_0) && z2_50_0 != z2_10_0 && IsPower(F(z2_10_0), z, Ones(10))
    modifies z2_50_0
    ensures Element(z2_50_0) && IsPower(F(z2_50_0), z, Ones(50))
  {
    hide Sum, IsPower, Pow, Ones, Two;
    var z2_20_0, t0, t1 := new Int64[10], new Int64[10], new Int64[10];
    Raise(z2_20_0, t0, t1, z2_10_0, z2_10_0, 10, z, Ones(10), Ones(10));
    OnesJoin(10, 10);
    Raise(t0, t0, t1, z2_20_0, z2_20_0, 20, z, Ones(20), Ones(20));
    OnesJoin(20, 20);
    Raise(z2_50_0, t1, t0, t0, z2_10_0, 10, z, Ones(40), Ones(10));
    OnesJoin(40, 10);
  }

  method RaiseTo250(t0: array<Int64>, t1: array<Int64>, z2_50_0: array<Int64>, ghost z: int)
    requires t0.Length == t1.Length == 10 && t0 != t1 && z2_50_0 !in {t0, t1}
    requires Element(z2_50_0) && IsPower(F(z2_50_0), z, Ones(50))
    modifies t0, t1
    ensures Element(t0) && IsPower(F(t0), z, Ones(250))
  {
    hide Sum, IsPower, Pow, Ones, Two;
    var z2_100_0 := new Int64[10];
    Raise(z2_100_0, t0, t1, z2_50_0, z2_50_0, 50, z, Ones(50), Ones(50));
    OnesJoin(50, 50);
    Raise(t1, t1, t0, z2_100_0, z2_100_0, 100, z, Ones(100), Ones(100));
    OnesJoin(100, 100);
    Raise(t0, t0, t1, t1, z2_50_0, 50, z, Ones(200), Ones(50));
    OnesJoin(200, 50);
  }

  /** Five more squares, and a product with the power 11. */
  method LastPowers(output: array<Int64>, t0: array<Int64>, t1: array<Int64>, z11: array<Int64>, ghost z: int)
    requires output.Length == t0.Length == t1.Length == 10 && t0 != t1 && z11 !in {t0, t1}
    requires Element(t0) && IsPower(F(t0), z, Ones(250)) && Element(z11) && IsPower(F(z11), z, 11)
    modifies output, t0, t1
    ensures Element(output) && IsReciprocal(F(output), z)
  {
    hide Sum, IsPower, Pow, Ones, Two;
    ghost var e := Ones(250);
    SquarePower(t1, t0, z, e);
    SquarePower(t0, t1, z, 2 * e);
    SquarePower(t1, t0, z, 4 * e);
    SquarePower(t0, t1, z, 8 * e);
    SquarePower(t1, t0, z, 16 * e);
    MultiplyPowers(output, t1, z11, z, 32 * e, 11);
    LastExponent();
    assert IsReciprocal(F(output), z);
  }

  /** If a power of z is 1, as by Fermat's theorem the power 2^255 - 20 is if z is not 0, then the power
      before is the reciprocal. */
  lemma {:induction false} PowerIsReciprocal(x: int, z: int, e: nat)
    requires e > 0 && IsPower(x, z, e - 1) && Congruent(Power(z, e), 1)
    ensures Congruent(z * x, 1)
  {
    hide Congruent;
    Reflexive(z);
    CongruentMul(z, x, z, Power(z, e - 1));
    Transitive(z * x, z * Power(z, e - 1), 1);
  }
}
