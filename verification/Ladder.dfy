/** The Montgomery ladder of `curve25519_donna` on field elements as limbs. */
module Ladder {
  import opened Arith
  import opened FieldLimbs
  import opened FieldProducts
  import opened FieldReduce

  /** The number ten limbs stand for. */
  ghost function F(a: array<Int64>): int
    reads a
    requires a.Length >= 10
  {
    Sum(a[..], 10)
  }

  /** Limbs that may be multiplied. */
  ghost predicate Factor(a: array<Int64>)
    reads a
  {
    a.Length >= 10 && Below(a[..], 10, TWO_27)
  }

  ghost predicate Element(a: array<Int64>)
    reads a
  {
    a.Length >= 10 && Reduced(a[..])
  }

  // ----- sums and differences

  /** output += in. */
  method FSum(output: array<Int64>, a: array<Int64>)
    requires Element(output) && Element(a) && output != a
    modifies output
    ensures Factor(output) && F(output) == old(F(output)) + old(F(a))
    ensures output[10..] == old(output[10..])
  {
    ghost var s := output[..];
    var i := 0;
    while i < 10
      invariant 0 <= i <= 10
      invariant forall k :: 0 <= k < i ==> output[k] == s[k] + a[k]
      invariant forall k :: i <= k < output.Length ==> output[k] == s[k]
    {
      output[i] := output[i] + a[i];
      i := i + 1;
    }
    SumPlus(output[..], s, a[..], 1, 10);
  }

  /** output = in - output. */
  method FDifference(output: array<Int64>, a: array<Int64>)
    requires Element(output) && Element(a) && output != a
    modifies output
    ensures Factor(output) && F(output) == old(F(a)) - old(F(output))
    ensures output[10..] == old(output[10..])
  {
    ghost var s := output[..];
    var i := 0;
    while i < 10
      invariant 0 <= i <= 10
      invariant forall k :: 0 <= k < i ==> output[k] == a[k] - s[k]
      invariant forall k :: i <= k < output.Length ==> output[k] == s[k]
    {
      output[i] := a[i] - output[i];
      i := i + 1;
    }
    SumPlus(output[..], a[..], s, -1, 10);
  }

  /** output = in * scalar, for the one scalar the ladder uses. */
  method FScalarProduct(output: array<Int64>, a: array<Int64>, scalar: int)
    requires output.Length >= 10 && Factor(a) && output != a && 0 <= scalar <= 121665
    modifies output
    ensures F(output) == scalar * old(F(a))
    ensures forall i :: 0 <= i < 10 ==> -DEGREE <= output[i] <= DEGREE
    ensures output[10..] == old(output[10..])
  {
    ghost var s := output[..];
    var i := 0;
    while i < 10
      invariant 0 <= i <= 10
      invariant forall k :: 0 <= k < i ==> output[k] == scalar * a[k] && -DEGREE <= output[k] <= DEGREE
      invariant forall k :: i <= k < output.Length ==> output[k] == s[k]
    {
      Scaled(a[i], scalar);
      output[i] := a[i] * scalar;
      i := i + 1;
    }
    SumTimes(output[..], a[..], scalar, 10);
  }

  lemma {:induction false} Scaled(x: int, scalar: int)
    requires -TWO_27 < x < TWO_27 && 0 <= scalar <= 121665
    ensures -(TWO_27 * 121665) <= x * scalar <= TWO_27 * 121665
  {
    MulBounds(if x < 0 then -x else x, TWO_27, scalar, 121665);
  }

  lemma {:induction false} SumPlus(t: seq<int>, s: seq<int>, a: seq<int>, c: int, n: nat)
    requires n <= |t| && n <= |s| && n <= |a| && forall k :: 0 <= k < n ==> t[k] == s[k] + c * a[k]
    ensures Sum(t, n) == Sum(s, n) + c * Sum(a, n)
  {
    hide Weight;
    if n > 0 {
      SumPlus(t, s, a, c, n - 1);
      PlusTimes(s[n - 1], c, a[n - 1], Weight(n - 1), Sum(a, n - 1));
    }
  }

  lemma PlusTimes(x: int, c: int, y: int, w: int, v: int)
    ensures (x + c * y) * w + c * v == x * w + c * (v + y * w)
  {
  }

  lemma {:induction false} SumTimes(t: seq<int>, a: seq<int>, c: int, n: nat)
    requires n <= |t| && n <= |a| && forall k :: 0 <= k < n ==> t[k] == c * a[k]
    ensures Sum(t, n) == c * Sum(a, n)
  {
    hide Weight;
    if n > 0 {
      SumTimes(t, a, c, n - 1);
      PlusTimes(0, c, a[n - 1], Weight(n - 1), Sum(a, n - 1));
    }
  }

  // ----- one step of the ladder

  /** The four coordinates of a step, for sums p, p' and differences d, d' of the coordinates of two
      points, and the difference of those points. */
  function DoubleX(p: int, d: int): int { (p * p) * (d * d) }

  function DoubleZ(p: int, d: int): int
  {
    var e := p * p - d * d;
    e * (121665 * e + p * p)
  }

  function AddX(p: int, d: int, p': int, d': int): int
  {
    (p' * d + p * d') * (p' * d + p * d')
  }

  function AddZ(p: int, d: int, p': int, d': int, x1: int): int
  {
    ((p' * d - p * d') * (p' * d - p * d')) * x1
  }

  lemma {:induction false} AddCongruent(a: int, b: int, c: int, e: int, z: int, p: int, d: int, p': int, d': int, x1: int)
    requires Congruent(a, p' * d) && Congruent(b, p * d')
    requires Congruent(c, (a + b) * (a + b)) && Congruent(e, (a - b) * (a - b)) && Congruent(z, e * x1)
    ensures Congruent(c, AddX(p, d, p', d')) && Congruent(z, AddZ(p, d, p', d', x1))
  {
    hide Congruent;
    var u, v := p' * d, p * d';
    CongruentAdd(a, b, u, v);
    CongruentMul(a + b, a + b, u + v, u + v);
    CongruentMul(a - b, a - b, u - v, u - v);
    Transitive(c, (a + b) * (a + b), (u + v) * (u + v));
    Transitive(e, (a - b) * (a - b), (u - v) * (u - v));
    Reflexive(x1);
    CongruentMul(e, x1, (u - v) * (u - v), x1);
    Transitive(z, e * x1, ((u - v) * (u - v)) * x1);
  }

  lemma {:induction false} DoubleCongruent(a: int, b: int, x: int, y: int, z: int, p: int, d: int)
    requires Congruent(a, p * p) && Congruent(b, d * d) && Congruent(x, a * b)
    requires Congruent(y, 121665 * (a - b)) && Congruent(z, (a - b) * (y + a))
    ensures Congruent(x, DoubleX(p, d)) && Congruent(z, DoubleZ(p, d))
  {
    hide Congruent;
    var u, v := p * p, d * d;
    CongruentMul(a, b, u, v);
    Transitive(x, a * b, u * v);
    CongruentAdd(a, b, u, v);
    Reflexive(121665);
    CongruentMul(121665, a - b, 121665, u - v);
    Transitive(y, 121665 * (a - b), 121665 * (u - v));
    CongruentAdd(y, a, 121665 * (u - v), u);
    CongruentMul(a - b, y + a, u - v, 121665 * (u - v) + u);
    Transitive(z, (a - b) * (y + a), (u - v) * (121665 * (u - v) + u));
  }

  /** x, z := x + z, x - z. */
  method SumAndDifference(x: array<Int64>, z: array<Int64>)
    requires Element(x) && Element(z) && x != z
    modifies x, z
    ensures Factor(x) && Factor(z)
    ensures F(x) == old(F(x)) + old(F(z)) && F(z) == old(F(x)) - old(F(z))
  {
    hide Sum;
    var origx := new Int64[10];
    CopyLimbs(origx, x);
    FSum(x, z);
    FDifference(z, origx);
  }

  /** The sum of two points whose difference is known. */
  method DifferentialAdd(x3: array<Int64>, z3: array<Int64>, p: array<Int64>, d: array<Int64>,
                         p': array<Int64>, d': array<Int64>, qmqp: array<Int64>)
    requires Factor(p) && Factor(d) && Factor(p') && Factor(d') && Element(qmqp)
    requires x3.Length >= 10 && z3.Length >= 10
    requires x3 != z3 && x3 !in {p, d, p', d', qmqp} && z3 !in {p, d, p', d', qmqp}
    modifies x3, z3
    ensures Element(x3) && Element(z3)
    ensures Congruent(F(x3), AddX(F(p), F(d), F(p'), F(d')))
    ensures Congruent(F(z3), AddZ(F(p), F(d), F(p'), F(d'), F(qmqp)))
  {
    hide Sum, Congruent, AddX, AddZ;
    var xxprime, zzprime := new Int64[19], new Int64[19];
    Product(xxprime, p', d);
    Product(zzprime, p, d');
    ghost var a, b := F(xxprime), F(zzprime);
    SumAndDifference(xxprime, zzprime);
    ghost var c, e := SquareAndScale(x3, z3, xxprime, zzprime, qmqp);
    AddCongruent(a, b, c, e, F(z3), F(p), F(d), F(p'), F(d'), F(qmqp));
  }

  method SquareAndScale(x3: array<Int64>, z3: array<Int64>, s: array<Int64>, t: array<Int64>, qmqp: array<Int64>)
    returns (ghost c: int, ghost e: int)
    requires Factor(s) && Factor(t) && Element(qmqp) && t.Length == 19
    requires x3.Length >= 10 && z3.Length >= 10
    requires x3 != z3 && x3 !in {s, t, qmqp} && z3 !in {s, t, qmqp} && s != t && qmqp !in {s, t}
    modifies x3, z3, t
    ensures Element(x3) && Element(z3)
    ensures c == F(x3) && Congruent(c, old(F(s)) * old(F(s)))
    ensures Congruent(e, old(F(t)) * old(F(t))) && Congruent(F(z3), e * F(qmqp))
  {
    hide Sum, Congruent;
    var xxxprime, zzzprime := new Int64[19], new Int64[19];
    FSquare(xxxprime, s);
    FSquare(zzzprime, t);
    e := F(zzzprime);
    Product(t, zzzprime, qmqp);
    CopyLimbs(x3, xxxprime);
    CopyLimbs(z3, t);
    c := F(x3);
  }

  /** The double of a point. */
  method Double(x2: array<Int64>, z2: array<Int64>, p: array<Int64>, d: array<Int64>)
    requires Factor(p) && Factor(d) && x2.Length == z2.Length == 19 && x2 != z2 && x2 !in {p, d} && z2 !in {p, d}
    modifies x2, z2
    ensures Element(x2) && Element(z2)
    ensures Congruent(F(x2), DoubleX(F(p), F(d))) && Congruent(F(z2), DoubleZ(F(p), F(d)))
  {
    hide Sum, Congruent, DoubleX, DoubleZ;
    var xx, zz, zzz := new Int64[19], new Int64[19], new Int64[19];
    FSquare(xx, p);
    FSquare(zz, d);
    ghost var a, b := F(xx), F(zz);
    Product(x2, xx, zz);
    FDifference(zz, xx);
    FScalarProduct(zzz, zz, 121665);
    FReduceCoefficients(zzz);
    ghost var y := F(zzz);
    FSum(zzz, xx);
    Product(z2, zz, zzz);
    DoubleCongruent(a, b, F(x2), y, F(z2), F(p), F(d));
  }

  /** From two points and their difference, the double of the first and the sum. */
  method FMonty(x2: array<Int64>, z2: array<Int64>, x3: array<Int64>, z3: array<Int64>,
                x: array<Int64>, z: array<Int64>, xprime: array<Int64>, zprime: array<Int64>, qmqp: array<Int64>)
    requires Element(x) && Element(z) && Element(xprime) && Element(zprime) && Element(qmqp)
    requires x2.Length == z2.Length == 19 && x3.Length >= 10 && z3.Length >= 10
    requires Distinct([x2, z2, x3, z3, x, z, xprime, zprime, qmqp])
    modifies x2, z2, x3, z3, x, z, xprime, zprime
    ensures Element(x2) && Element(z2) && Element(x3) && Element(z3)
    ensures var p, d := old(F(x)) + old(F(z)), old(F(x)) - old(F(z));
            var p', d' := old(F(xprime)) + old(F(zprime)), old(F(xprime)) - old(F(zprime));
            && Congruent(F(x2), DoubleX(p, d)) && Congruent(F(z2), DoubleZ(p, d))
            && Congruent(F(x3), AddX(p, d, p', d')) && Congruent(F(z3), AddZ(p, d, p', d', old(F(qmqp))))
  {
    hide Sum, Congruent, AddX, AddZ, DoubleX, DoubleZ, Distinct;
    NineApart(x2, z2, x3, z3, x, z, xprime, zprime, qmqp);
    SumAndDifference(x, z);
    SumAndDifference(xprime, zprime);
    DifferentialAdd(x3, z3, x, z, xprime, zprime, qmqp);
    Double(x2, z2, x, z);
  }

  /** No array twice. */
  ghost predicate Distinct(s: seq<array<Int64>>)
  {
    forall i, j :: 0 <= i < j < |s| ==> s[i] != s[j]
  }

  lemma NineApart(x2: array<Int64>, z2: array<Int64>, x3: array<Int64>, z3: array<Int64>,
                  x: array<Int64>, z: array<Int64>, xprime: array<Int64>, zprime: array<Int64>, qmqp: array<Int64>)
    requires Distinct([x2, z2, x3, z3, x, z, xprime, zprime, qmqp])
    ensures x2 !in {z2, x3, z3, x, z, xprime, zprime, qmqp} && z2 !in {x3, z3, x, z, xprime, zprime, qmqp}
    ensures x3 !in {z3, x, z, xprime, zprime, qmqp} && z3 !in {x, z, xprime, zprime, qmqp}
    ensures x !in {z, xprime, zprime, qmqp} && z !in {xprime, zprime, qmqp} && xprime !in {zprime, qmqp} && zprime != qmqp
  {
    var s := [x2, z2, x3, z3, x, z, xprime, zprime, qmqp];
    assert s[0] == x2 && s[1] == z2 && s[2] == x3 && s[3] == z3 && s[4] == x && s[5] == z;
    assert s[6] == xprime && s[7] == zprime && s[8] == qmqp;
  }
}
