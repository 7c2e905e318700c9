/** Scalar multiplication on the curve, taken as an abelian group. */
module GroupElements {
  import opened Positional
  import opened Bytes
  import opened SignedDigits
  import opened Slides
  import opened AbelianGroups

  /** The table entries A, 3A, 5A, ..., 15A. */
  ghost predicate OddMultiples<P(!new)>(g: Group<P>, table: seq<P>, a: P)
  {
    |table| == 8 && forall i :: 0 <= i < 8 ==> table[i] == Mul(g, 2 * i + 1, a)
  }

  /** The table of odd multiples, each made from the one before. */
  method TableOf<P(!new)>(g: Group<P>, a: P) returns (table: seq<P>)
    requires IsGroup(g)
    ensures OddMultiples(g, table, a)
  {
    hide IsGroup, Mul;
    MulOne(g, a);
    MulPlus(g, 1, 1, a);
    var a2 := g.add(a, a);
    table := [a];
    while |table| < 8
      invariant 1 <= |table| <= 8 && forall i :: 0 <= i < |table| ==> table[i] == Mul(g, 2 * i + 1, a)
    {
      MulPlus(g, 2, 2 * (|table| - 1) + 1, a);
      table := table + [g.add(a2, table[|table| - 1])];
    }
  }

  /** Adds the multiple of an element that a digit asks for. */
  method AddDigit<P(!new)>(g: Group<P>, t: P, d: int, table: seq<P>, ghost a: P) returns (u: P)
    requires IsGroup(g) && OddMultiples(g, table, a) && WindowDigit(d)
    ensures u == g.add(t, Mul(g, d, a))
  {
    hide IsGroup, Mul;
    if d > 0 {
      u := g.add(t, table[d / 2]);
    } else if d < 0 {
      MulNeg(g, -d, a);
      u := g.add(t, g.neg(table[(-d) / 2]));
    } else {
      MulOne(g, a);
      Zero(g, t);
      u := t;
    }
  }

  /** `ge_double_scalarmult_vartime`: a times A plus b times B, for scalars below 2^253. */
  method DoubleScalarMult<P(!new)>(g: Group<P>, a: seq<Byte>, pa: P, b: seq<Byte>, tableB: seq<P>, ghost pb: P) returns (r: P)
    requires IsGroup(g) && OddMultiples(g, tableB, pb)
    requires |a| == 32 && Value(256, a) < TWO_253 && |b| == 32 && Value(256, b) < TWO_253
    ensures r == Combined(g, Value(256, a), pa, Value(256, b), pb)
  {
    hide IsGroup, Mul, Value, SignedValue, Combined;
    var aslide, bslide := new SChar[256], new SChar[256];
    Slide(aslide, a);
    Slide(bslide, b);
    var table := TableOf(g, pa);
    var i := 255;
    while i >= 0 && aslide[i] == 0 && bslide[i] == 0
      invariant -1 <= i <= 255 && forall j :: i < j < 256 ==> aslide[j] == 0 && bslide[j] == 0
      decreases i
    {
      i := i - 1;
    }
    r := MultiplyDigits(g, aslide[..], pa, table, bslide[..], pb, tableB, i);
  }

  /** The loop over the digits, from the top one that is not 0. */
  method MultiplyDigits<P(!new)>(g: Group<P>, sa: seq<int>, ghost pa: P, tableA: seq<P>, sb: seq<int>, ghost pb: P, tableB: seq<P>, top: int)
      returns (r: P)
    requires IsGroup(g) && OddMultiples(g, tableA, pa) && OddMultiples(g, tableB, pb)
    requires Recoded(sa) && Recoded(sb) && -1 <= top <= 255
    requires forall j :: top < j < 256 ==> sa[j] == 0 && sb[j] == 0
    ensures r == Combined(g, SignedValue(2, sa), pa, SignedValue(2, sb), pb)
  {
    hide IsGroup, Mul, SignedValue, Combined, OddMultiples, From, Recoded, WindowDigit;
    DigitOf(sa, 0);
    DigitOf(sb, 0);
    r := g.zero;
    var i := top;
    StartFrom(g, sa, sb, i + 1, pa, pb);
    while i >= 0
      invariant -1 <= i <= 255
      invariant r == Combined(g, From(sa, i + 1), pa, From(sb, i + 1), pb)
      decreases i
    {
      DigitOf(sa, i);
      DigitOf(sb, i);
      DigitsFrom(g, sa, sb, i, pa, pb);
      var t := g.add(r, r);
      t := AddDigit(g, t, sa[i], tableA, pa);
      r := AddDigit(g, t, sb[i], tableB, pb);
      i := i - 1;
    }
    FromZero(sa);
    FromZero(sb);
  }

  /** What the digits from i on stand for. */
  ghost function From(s: seq<int>, i: nat): int
    requires i <= |s|
  {
    SignedValue(2, s[i..])
  }

  lemma FromZero(s: seq<int>)
    ensures From(s, 0) == SignedValue(2, s)
  {
    assert s[0..] == s;
  }

  lemma DigitOf(s: seq<int>, i: nat)
    requires Recoded(s) && i < 256
    ensures |s| == 256 && WindowDigit(s[i])
  {
  }

  /** Doubling and adding two digits takes the digits one place further down. */
  lemma {:induction false} DigitsFrom<P(!new)>(g: Group<P>, sa: seq<int>, sb: seq<int>, i: nat, pa: P, pb: P)
    requires IsGroup(g) && i < |sa| == |sb|
    ensures var r := Combined(g, From(sa, i + 1), pa, From(sb, i + 1), pb);
            g.add(g.add(g.add(r, r), Mul(g, sa[i], pa)), Mul(g, sb[i], pb))
            == Combined(g, From(sa, i), pa, From(sb, i), pb)
  {
    hide IsGroup, Mul, SignedValue, Combined;
    var m, n := From(sa, i + 1), From(sb, i + 1);
    CombinedPlus(g, m, n, m, n, pa, pb);
    CombinedWith(g, m + m, n + n, sa[i], pa, pb);
    CombinedWith(g, m + m + sa[i], n + n, sb[i], pa, pb);
    SignedFrom(2, sa, i);
    SignedFrom(2, sb, i);
  }

  lemma {:induction false} StartFrom<P(!new)>(g: Group<P>, sa: seq<int>, sb: seq<int>, k: nat, pa: P, pb: P)
    requires IsGroup(g) && k <= |sa| && k <= |sb|
    requires (forall j :: k <= j < |sa| ==> sa[j] == 0) && forall j :: k <= j < |sb| ==> sb[j] == 0
    ensures g.zero == Combined(g, From(sa, k), pa, From(sb, k), pb)
  {
    hide IsGroup, Mul;
    SignedZeros(2, sa[k..]);
    SignedZeros(2, sb[k..]);
    MulOne(g, pa);
    MulOne(g, pb);
    Zero(g, g.zero);
  }

  // ----- multiples of the base point

  /** The table of the base point: entry [i][j] is (j + 1) * 256^i times the base point. */
  ghost predicate BaseTable<P(!new)>(g: Group<P>, base: seq<seq<P>>, b: P)
  {
    && |base| == 32 && (forall i :: 0 <= i < 32 ==> |base[i]| == 8)
    && forall i, j :: 0 <= i < 32 && 0 <= j < 8 ==> base[i][j] == Mul(g, (j + 1) * Pow(256, i), b)
  }

  /** `select`: the entry for a digit from -8 to 8. */
  method Select<P(!new)>(g: Group<P>, base: seq<seq<P>>, pos: nat, d: int, ghost b: P) returns (t: P)
    requires IsGroup(g) && BaseTable(g, base, b) && pos < 32 && -8 <= d <= 8
    ensures t == Mul(g, d * Pow(256, pos), b)
  {
    hide IsGroup, Mul, Pow;
    var babs := if d < 0 then -d else d;
    MulOne(g, b);
    t := g.zero;
    var j := 0;
    while j < 8
      invariant j <= 8 && t == (if 0 < babs <= j then Mul(g, babs * Pow(256, pos), b) else g.zero)
    {
      if babs == j + 1 {
        t := base[pos][j];
      }
      j := j + 1;
    }
    if d < 0 {
      MulNeg(g, babs * Pow(256, pos), b);
      NegProduct(babs, Pow(256, pos));
      t := g.neg(t);
    }
  }

  lemma NegProduct(x: int, p: int)
    ensures -(x * p) == (-x) * p
  {
  }

  /** The recoding to digits from -8 to 8: a carry goes on when a digit is 8 or more. */
  method Recode(a: seq<Byte>) returns (e: array<SChar>)
    requires |a| == 32 && a[31] <= 127
    ensures fresh(e) && e.Length == 64 && (forall i :: 0 <= i < 64 ==> -8 <= e[i] <= 8)
    ensures SignedValue(16, e[..]) == Value(256, a)
  {
    hide SignedValue, Value, Pow, Recoding;
    e := new SChar[64](_ => 0);
    var i := 0;
    while i < 32
      invariant i <= 32 && forall j :: 0 <= j < i ==> e[2 * j] == (a[j] as int) % 16 && e[2 * j + 1] == (a[j] as int) / 16
    {
      e[2 * i] := (a[i] as int) % 16;
      e[2 * i + 1] := (a[i] as int) / 16;
      i := i + 1;
    }
    ghost var v := Value(256, a);
    StartRecoding(e[..], a);
    var carry: int := 0;
    i := 0;
    while i < 63
      invariant i <= 63 && Recoding(e[..], i, carry, v)
    {
      ghost var s: seq<int> := e[..];
      CarryOn(s, i, carry, v);
      var x: int := e[i] + carry;
      carry := (x + 8) / 16;
      e[i] := x - carry * 16;
      assert e[..] == s[i := x - carry * 16];
      i := i + 1;
    }
    LastDigit(e[..], carry, v);
    ghost var s: seq<int> := e[..];
    e[63] := e[63] + carry;
    assert e[..] == s[63 := s[63] + carry];
  }

  /** Digits below i are done, and a carry is to be added to digit i. */
  ghost predicate Recoding(s: seq<int>, i: nat, carry: int, v: int)
  {
    && |s| == 64 && i <= 63 && 0 <= carry <= 1
    && (forall j :: 0 <= j < i ==> -8 <= s[j] < 8)
    && (forall j :: i <= j < 63 ==> 0 <= s[j] <= 15) && 0 <= s[63] <= 7
    && SignedValue(16, s) + carry * Pow(16, i) == v
  }

  lemma {:induction false} StartRecoding(s: seq<int>, a: seq<Byte>)
    requires |s| == 64 && |a| == 32 && a[31] <= 127
    requires forall j :: 0 <= j < 32 ==> s[2 * j] == (a[j] as int) % 16 && s[2 * j + 1] == (a[j] as int) / 16
    ensures Recoding(s, 0, 0, Value(256, a))
  {
    hide SignedValue, Value, Pow;
    NibblesStandFor(s, a, 0);
    assert s[0..] == s && a[0..] == a;
    Nibbles(s, a);
  }

  lemma {:induction false} CarryOn(s: seq<int>, i: nat, carry: int, v: int)
    requires Recoding(s, i, carry, v) && i < 63
    ensures var x := s[i] + carry;
            -8 <= x - (x + 8) / 16 * 16 < 8 && Recoding(s[i := x - (x + 8) / 16 * 16], i + 1, (x + 8) / 16, v)
  {
    hide SignedValue, Pow;
    var c' := (s[i] + carry + 8) / 16;
    AddedSigned(16, s, i, carry - c' * 16);
    NextCarry(carry, c', Pow(16, i), i);
    assert s[i := s[i] + carry - c' * 16] == Added(s, i, carry - c' * 16);
  }

  lemma {:induction false} LastDigit(s: seq<int>, carry: int, v: int)
    requires Recoding(s, 63, carry, v)
    ensures forall j :: 0 <= j < 63 ==> -8 <= s[j] <= 8
    ensures SignedValue(16, s[63 := s[63] + carry]) == v
    ensures 0 <= s[63] + carry <= 8
  {
    hide SignedValue, Pow;
    AddedSigned(16, s, 63, carry);
    assert s[63 := s[63] + carry] == Added(s, 63, carry);
  }

  lemma NextCarry(c: int, c': int, p: int, i: nat)
    requires p == Pow(16, i)
    ensures (c - c' * 16) * p + c' * Pow(16, i + 1) == c * p
  {
    assert Pow(16, i + 1) == 16 * p;
  }

  lemma Nibbles(e: seq<int>, a: seq<Byte>)
    requires |e| == 64 && |a| == 32 && a[31] <= 127
    requires forall j :: 0 <= j < 32 ==> e[2 * j] == (a[j] as int) % 16 && e[2 * j + 1] == (a[j] as int) / 16
    ensures (forall j :: 0 <= j < 64 ==> 0 <= e[j] <= 15) && e[63] <= 7
  {
    forall j | 0 <= j < 64
      ensures 0 <= e[j] <= 15
    {
      assert j == 2 * (j / 2) || j == 2 * (j / 2) + 1;
      var b := a[j / 2];
    }
    assert e[2 * 31 + 1] == (a[31] as int) / 16;
  }

  lemma {:induction false} NibblesStandFor(e: seq<int>, a: seq<Byte>, k: nat)
    requires k <= |a| && |e| == 2 * |a|
    requires forall j :: 0 <= j < |a| ==> e[2 * j] == (a[j] as int) % 16 && e[2 * j + 1] == (a[j] as int) / 16
    ensures SignedValue(16, e[2 * k..]) == Value(256, a[k..])
    decreases |a| - k
  {
    hide SignedValue, Value;
    ValueFrom(256, a, k);
    SignedFrom(16, e, 2 * k);
    if k < |a| {
      SignedFrom(16, e, 2 * k + 1);
      NibblesStandFor(e, a, k + 1);
    }
  }

  /** The digits at odd (k = 1) or even (k = 0) positions up to n, with the weights of the table. */
  ghost function EveryOtherDigit(e: seq<int>, k: nat, n: nat): int
    requires k < 2 && 2 * n <= |e|
  {
    if n == 0 then 0 else EveryOtherDigit(e, k, n - 1) + e[2 * (n - 1) + k] * Pow(256, n - 1)
  }

  /** Odd positions count sixteen times. */
  lemma {:induction false} DigitsInTurn(e: seq<int>, n: nat)
    requires 2 * n <= |e|
    ensures SignedValue(16, e[..2 * n]) == EveryOtherDigit(e, 0, n) + 16 * EveryOtherDigit(e, 1, n)
  {
    hide SignedValue;
    if n == 0 {
      assert e[..0] == [];
      SignedZeros(16, []);
    } else {
      DigitsInTurn(e, n - 1);
      var k, p := 2 * (n - 1), Pow(256, n - 1);
      assert e[..k + 2] == e[..k] + ([e[k]] + [e[k + 1]]);
      SignedConcat(16, e[..k], [e[k]] + [e[k + 1]]);
      SignedConcat(16, [e[k]], [e[k + 1]]);
      SignedOne(16, e[k]);
      SignedOne(16, e[k + 1]);
      SixteenTwice(n - 1);
      assert Pow(16, 1) == 16 by { assert Pow(16, 0) == 1; }
      PairTerm(p, e[k], e[k + 1]);
    }
  }

  lemma PairTerm(p: int, x: int, y: int)
    ensures p * (x + 16 * y) == x * p + 16 * (y * p)
  {
  }

  lemma {:induction false} SixteenTwice(n: nat)
    ensures Pow(16, 2 * n) == Pow(256, n)
  {
    if n > 0 {
      SixteenTwice(n - 1);
      assert Pow(16, 2 * n) == 16 * (16 * Pow(16, 2 * n - 2));
    }
  }

  /** The additions for every other digit. */
  method AddEveryOther<P(!new)>(g: Group<P>, e: array<SChar>, k: nat, base: seq<seq<P>>, h0: P, ghost m: int, ghost b: P) returns (h: P)
    requires IsGroup(g) && BaseTable(g, base, b) && k < 2
    requires e.Length == 64 && forall i :: 0 <= i < 64 ==> -8 <= e[i] <= 8
    requires h0 == Mul(g, m, b)
    ensures h == Mul(g, m + EveryOtherDigit(e[..], k, 32), b)
  {
    hide IsGroup, Mul, Pow, BaseTable;
    h := h0;
    var i := k;
    ghost var n := 0;
    while i < 64
      invariant i == 2 * n + k && n <= 32 && h == Mul(g, m + EveryOtherDigit(e[..], k, n), b)
    {
      var t := Select(g, base, i / 2, e[i], b);
      MulPlus(g, m + EveryOtherDigit(e[..], k, n), e[i] * Pow(256, n), b);
      h := g.add(h, t);
      i := i + 2;
      n := n + 1;
    }
  }

  /** `ge_scalarmult_base`: a times the base point, for scalars below 2^255. */
  method ScalarMultBase<P(!new)>(g: Group<P>, a: seq<Byte>, base: seq<seq<P>>, ghost b: P) returns (h: P)
    requires IsGroup(g) && BaseTable(g, base, b) && |a| == 32 && a[31] <= 127
    ensures h == Mul(g, Value(256, a), b)
  {
    hide IsGroup, Mul, Pow, BaseTable, SignedValue, Value;
    var e := Recode(a);
    MulOne(g, b);
    h := AddEveryOther(g, e, 1, base, g.zero, 0, b);
    ghost var odd := EveryOtherDigit(e[..], 1, 32);
    MulPlus(g, odd, odd, b);
    h := g.add(h, h);
    MulPlus(g, 2 * odd, 2 * odd, b);
    h := g.add(h, h);
    MulPlus(g, 4 * odd, 4 * odd, b);
    h := g.add(h, h);
    MulPlus(g, 8 * odd, 8 * odd, b);
    h := g.add(h, h);
    h := AddEveryOther(g, e, 0, base, h, 16 * odd, b);
    DigitsInTurn(e[..], 32);
    assert e[..][..64] == e[..];
  }
}
