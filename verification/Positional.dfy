/** Little-endian positional notation: the number a sequence of digits stands for. */
module Positional {
  import opened Arith

  function Pow(base: nat, n: nat): (p: nat)
    ensures 0 < base ==> 0 < p
  {
    if n == 0 then 1 else base * Pow(base, n - 1)
  }

  function Value(base: nat, digits: seq<nat>): nat
  {
    if digits == [] then 0 else digits[0] + base * Value(base, digits[1..])
  }

  lemma ValueEmpty(base: nat, s: seq<nat>)
    ensures Value(base, s[..0]) == 0
  {
    assert s[..0] == [];
  }

  lemma ValueFrom(base: nat, s: seq<nat>, i: nat)
    requires i <= |s|
    ensures i == |s| ==> Value(base, s[i..]) == 0
    ensures i < |s| ==> Value(base, s[i..]) == s[i] + base * Value(base, s[i + 1..])
  {
    if i < |s| {
      assert s[i..][0] == s[i] && s[i..][1..] == s[i + 1..];
    }
  }

  predicate Digits(base: nat, s: seq<nat>)
  {
    forall i :: 0 <= i < |s| ==> s[i] < base
  }

  lemma {:induction false} DigitBelow(base: nat, d: nat, v: nat, w: nat)
    requires d < base && v < w
    ensures d + base * v < base * w
  {
    MulOrder(base, v + 1, w);
    assert base * (v + 1) == base * v + base;
  }

  lemma {:induction false} PowAdd(base: nat, m: nat, n: nat)
    ensures Pow(base, m + n) == Pow(base, m) * Pow(base, n)
  {
    if m == 0 {
    } else {
      PowAdd(base, m - 1, n);
      Shift(base, 0, Pow(base, m - 1), Pow(base, n));
    }
  }

  lemma {:induction false} PowMonotonic(base: nat, m: nat, n: nat)
    requires 0 < base && m <= n
    ensures Pow(base, m) <= Pow(base, n)
  {
    PowAdd(base, m, n - m);
    var p, q := Pow(base, m), Pow(base, n - m);
    assert 1 <= q;
    assert p * 1 <= p * q;
  }

  lemma {:induction false} ValueConcat(base: nat, a: seq<nat>, b: seq<nat>)
    ensures Value(base, a + b) == Value(base, a) + Pow(base, |a|) * Value(base, b)
  {
    if a == [] {
      assert a + b == b;
    } else {
      ValueConcat(base, a[1..], b);
      assert (a + b)[1..] == a[1..] + b;
      Shift(base, Value(base, a[1..]), Pow(base, |a| - 1), Value(base, b));
    }
  }

  lemma {:induction false} Shift(base: int, v: int, p: int, w: int)
    ensures base * (v + p * w) == base * v + (base * p) * w
  {
  }

  /** Splitting at any position: low digits plus the shifted high digits. */
  lemma {:induction false} ValueSplit(base: nat, s: seq<nat>, k: nat)
    requires k <= |s|
    ensures Value(base, s) == Value(base, s[..k]) + Pow(base, k) * Value(base, s[k..])
  {
    assert s == s[..k] + s[k..];
    ValueConcat(base, s[..k], s[k..]);
  }

  lemma {:induction false} ValueSnoc(base: nat, s: seq<nat>, d: nat)
    ensures Value(base, s + [d]) == Value(base, s) + Pow(base, |s|) * d
  {
    ValueConcat(base, s, [d]);
    assert [d][1..] == [];
    assert Value(base, [d]) == d;
  }

  lemma {:induction false} ValueBound(base: nat, s: seq<nat>)
    requires Digits(base, s)
    ensures Value(base, s) < Pow(base, |s|)
  {
    if s == [] {
    } else {
      assert Digits(base, s[1..]);
      ValueBound(base, s[1..]);
      DigitBelow(base, s[0], Value(base, s[1..]), Pow(base, |s| - 1));
    }
  }

  /** Equal numbers written with equally many digits have equal digits. */
  lemma {:induction false} ValueInjective(base: nat, a: seq<nat>, b: seq<nat>)
    requires Digits(base, a) && Digits(base, b) && |a| == |b|
    requires Value(base, a) == Value(base, b)
    ensures a == b
  {
    if a == [] {
    } else {
      var v, w := Value(base, a[1..]), Value(base, b[1..]);
      if v < w {
        DigitBelow(base, a[0], v, w);
      } else if w < v {
        DigitBelow(base, b[0], w, v);
      }
      assert Digits(base, a[1..]) && Digits(base, b[1..]);
      ValueInjective(base, a[1..], b[1..]);
      assert a == [a[0]] + a[1..] && b == [b[0]] + b[1..];
    }
  }

  lemma {:induction false} ValueZeros(base: nat, n: nat)
    ensures Value(base, seq(n, _ => 0)) == 0
  {
    if n == 0 {
    } else {
      ValueZeros(base, n - 1);
      assert seq(n, _ => 0)[1..] == seq(n - 1, _ => 0);
    }
  }

  /** Replacing one digit changes the value by its weight. */
  lemma {:induction false} ValueUpdate(base: nat, s: seq<nat>, k: nat, d: nat)
    requires k < |s|
    ensures Value(base, s[k := d]) == Value(base, s) + Pow(base, k) * (d - s[k])
  {
    var t := s[k := d];
    ValueSplit(base, s, k);
    ValueSplit(base, t, k);
    assert t[..k] == s[..k] && t[k..] == [d] + s[k + 1..] && s[k..] == [s[k]] + s[k + 1..];
    assert t[k..][1..] == s[k + 1..] && s[k..][1..] == s[k + 1..];
    var p, w := Pow(base, k), Value(base, s[k + 1..]);
    assert p * (d + base * w) == p * (s[k] + base * w) + p * (d - s[k]);
  }
}
