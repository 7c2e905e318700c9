/** Numbers written with signed digits, least significant first. */
module SignedDigits {
  import opened Positional

  function SignedValue(base: nat, s: seq<int>): int
  {
    if s == [] then 0 else s[0] + base * SignedValue(base, s[1..])
  }

  function Added(s: seq<int>, i: nat, x: int): (r: seq<int>)
    requires i < |s|
    ensures |r| == |s|
  {
    s[i := s[i] + x]
  }

  lemma {:induction false} AddedSigned(base: nat, s: seq<int>, i: nat, x: int)
    requires i < |s|
    ensures SignedValue(base, Added(s, i, x)) == SignedValue(base, s) + x * Pow(base, i)
  {
    var t := Added(s, i, x);
    if i == 0 {
      assert t[1..] == s[1..];
    } else {
      AddedSigned(base, s[1..], i - 1, x);
      assert t[1..] == Added(s[1..], i - 1, x);
      Distribute(base, SignedValue(base, s[1..]), x, Pow(base, i - 1));
    }
  }

  lemma Distribute(b: int, v: int, x: int, p: int)
    ensures b * (v + x * p) == b * v + x * (b * p)
  {
  }

  lemma {:induction false} SignedConcat(base: nat, a: seq<int>, b: seq<int>)
    ensures SignedValue(base, a + b) == SignedValue(base, a) + Pow(base, |a|) * SignedValue(base, b)
  {
    if a == [] {
      assert a + b == b;
    } else {
      SignedConcat(base, a[1..], b);
      assert (a + b)[1..] == a[1..] + b;
      Distribute(base, SignedValue(base, a[1..]), SignedValue(base, b), Pow(base, |a| - 1));
    }
  }

  lemma {:induction false} SignedSplit(base: nat, s: seq<int>, k: nat)
    requires k <= |s|
    ensures SignedValue(base, s) == SignedValue(base, s[..k]) + Pow(base, k) * SignedValue(base, s[k..])
  {
    assert s == s[..k] + s[k..];
    SignedConcat(base, s[..k], s[k..]);
  }

  lemma {:induction false} SignedZeros(base: nat, s: seq<int>)
    requires forall i :: 0 <= i < |s| ==> s[i] == 0
    ensures SignedValue(base, s) == 0
  {
    if s != [] {
      SignedZeros(base, s[1..]);
    }
  }

  lemma SignedOne(base: nat, d: int)
    ensures SignedValue(base, [d]) == d
  {
    assert SignedValue(base, [d][1..]) == 0;
  }

  /** The digits from k on, one at a time. */
  lemma {:induction false} SignedFrom(base: nat, s: seq<int>, k: nat)
    requires k <= |s|
    ensures k == |s| ==> SignedValue(base, s[k..]) == 0
    ensures k < |s| ==> SignedValue(base, s[k..]) == s[k] + base * SignedValue(base, s[k + 1..])
  {
    if k < |s| {
      assert s[k..][0] == s[k] && s[k..][1..] == s[k + 1..];
    }
  }
}
