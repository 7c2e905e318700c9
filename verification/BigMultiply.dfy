/** Multiplication and squaring of multi-precision integers, and shifts by whole components. */
module BigMultiply {
  import opened Arith
  import opened Positional
  import opened BigInts

  /** Where row i of the product starts: the code leaves out low partial products. */
  function RowStart(i: nat, n: nat, outerPartial: nat): (j: nat)
    ensures n > 0 ==> j < n
  {
    if outerPartial != 0 && outerPartial > i && outerPartial < n then outerPartial - i - 1 else 0
  }

  /** What row i keeps: the products from its start on. */
  ghost function KeptRow(a: seq<Comp>, b: Comp, i: nat, outerPartial: nat): nat
    requires |a| > 0
  {
    var start := RowStart(i, |a|, outerPartial);
    Pow(RADIX, i + start) * (b * Value(RADIX, a[start..]))
  }

  /** The sum of the partial products that are kept. */
  ghost function TruncatedProduct(a: seq<Comp>, b: seq<Comp>, outerPartial: nat): nat
    requires |a| > 0
  {
    if b == [] then 0
    else TruncatedProduct(a, b[..|b| - 1], outerPartial) + KeptRow(a, b[|b| - 1], |b| - 1, outerPartial)
  }

  /** A row less what it leaves out is what it keeps. */
  lemma {:induction false} RowKept(a: seq<Comp>, b: Comp, i: nat, outerPartial: nat)
    requires |a| > 0
    ensures Pow(RADIX, i) * (b * (Value(RADIX, a) - Value(RADIX, a[..RowStart(i, |a|, outerPartial)]))) == KeptRow(a, b, i, outerPartial)
  {
    hide Pow, Value;
    var start := RowStart(i, |a|, outerPartial);
    ValueSplit(RADIX, a, start);
    PowAdd(RADIX, i, start);
    var p, q, w := Pow(RADIX, i), Pow(RADIX, start), Value(RADIX, a[start..]);
    assert p * (b * (q * w)) == (p * q) * (b * w);
  }

  lemma {:induction false} TruncatedNext(a: seq<Comp>, b: seq<Comp>, i: nat, outerPartial: nat)
    requires |a| > 0 && i < |b|
    ensures TruncatedProduct(a, b[..i + 1], outerPartial)
            == TruncatedProduct(a, b[..i], outerPartial) + KeptRow(a, b[i], i, outerPartial)
  {
    assert b[..i + 1][..i] == b[..i];
  }

  /** A truncated product is too small by at most one unit of the limit for every row that loses something. */
  lemma {:induction false} TruncatedBounds(a: seq<Comp>, b: seq<Comp>, outerPartial: nat)
    requires |a| > 0
    ensures var exact, t := Value(RADIX, a) * Value(RADIX, b), TruncatedProduct(a, b, outerPartial);
            t <= exact <= t + MinInt(|b|, LossyRows(outerPartial)) * Pow(RADIX, outerPartial)
  {
    hide Pow, Value, KeptRow;
    if b == [] {
      ValueEmpty(RADIX, b);
      assert b[..0] == b;
    } else {
      var i := |b| - 1;
      TruncatedBounds(a, b[..i], outerPartial);
      RowKept(a, b[i], i, outerPartial);
      RowDropped(a, b[i], i, outerPartial);
      ValueNext(b, i);
      assert b[..i + 1] == b;
      var low := Value(RADIX, a[..RowStart(i, |a|, outerPartial)]);
      var exact, t := Value(RADIX, a) * Value(RADIX, b[..i]), TruncatedProduct(a, b[..i], outerPartial);
      RowTotal(Pow(RADIX, i), Value(RADIX, a), low, b[i], Value(RADIX, b[..i]));
      RowsDropped(exact - t, Pow(RADIX, i) * (b[i] * low), i, outerPartial);
    }
  }

  /** Without a limit, with a limit of 1, and when the first factor is no longer than the limit, nothing is left out. */
  lemma {:induction false} NothingDropped(a: seq<Comp>, b: seq<Comp>, outerPartial: nat)
    requires |a| > 0 && (outerPartial <= 1 || |a| <= outerPartial)
    ensures TruncatedProduct(a, b, outerPartial) == Value(RADIX, a) * Value(RADIX, b)
  {
    hide Pow, Value, KeptRow;
    if b == [] {
      ValueEmpty(RADIX, b);
      assert b[..0] == b;
    } else {
      var i := |b| - 1;
      NothingDropped(a, b[..i], outerPartial);
      RowKept(a, b[i], i, outerPartial);
      ValueNext(b, i);
      assert b[..i + 1] == b;
      ValueEmpty(RADIX, a);
      RowTotal(Pow(RADIX, i), Value(RADIX, a), 0, b[i], Value(RADIX, b[..i]));
    }
  }

  /** A limit of 2 leaves out the product of the lowest components, and nothing else. */
  lemma {:induction false} OneDropped(a: seq<Comp>, b: seq<Comp>)
    requires |a| > 2 && |b| > 0
    ensures TruncatedProduct(a, b, 2) + (a[0] as int) * b[0] == Value(RADIX, a) * Value(RADIX, b)
  {
    hide Value, KeptRow, TruncatedProduct;
    var i := |b| - 1;
    RowKept(a, b[i], i, 2);
    ValueNext(b, i);
    TruncatedNext(a, b, i, 2);
    assert b[..i + 1] == b;
    var start := RowStart(i, |a|, 2);
    RowTotal(Pow(RADIX, i), Value(RADIX, a), Value(RADIX, a[..start]), b[i], Value(RADIX, b[..i]));
    ValueEmpty(RADIX, a);
    if i == 0 {
      ValueEmpty(RADIX, b);
      NoRows(a, b, 2);
      ValueNext(a, 0);
      assert Pow(RADIX, 0) == 1;
    } else {
      OneDropped(a, b[..i]);
    }
  }

  /** How many rows of a shortened product leave something out. */
  function LossyRows(outerPartial: nat): nat
  {
    if outerPartial == 0 then 0 else outerPartial - 1
  }

  lemma {:induction false} RowStep(w: seq<Comp>, s: seq<Comp>, a: seq<Comp>, b: Comp, i: nat, j: nat, tmp: nat, was: nat, low: int)
    requires j < |a| && i + j < |w| == |s| && w[i + j] == s[i + j]
    requires tmp == w[i + j] + a[j] * b + was
    requires Value(RADIX, w[..i + j]) + Pow(RADIX, i + j) * was == Value(RADIX, s[..i + j]) + Pow(RADIX, i) * (b * (Value(RADIX, a[..j]) - low))
    ensures Value(RADIX, a[..j + 1]) >= Value(RADIX, a[..j])
    ensures Value(RADIX, w[i + j := tmp % RADIX][..i + j + 1]) + Pow(RADIX, i + j + 1) * (tmp / RADIX)
            == Value(RADIX, s[..i + j + 1]) + Pow(RADIX, i) * (b * (Value(RADIX, a[..j + 1]) - low))
  {
    hide Pow, Value;
    ValueNext(a, j);
    MulBounds(0, Pow(RADIX, j), 0, a[j]);
    var w' := w[i + j := tmp % RADIX];
    ValueNext(w', i + j);
    ValueNext(s, i + j);
    assert w'[..i + j] == w[..i + j];
    PowAdd(RADIX, i, j);
    RowStepValue(Pow(RADIX, i), Pow(RADIX, j), Pow(RADIX, i + j), a[j], b, w[i + j], was, tmp % RADIX, tmp / RADIX, Value(RADIX, a[..j]) - low);
  }

  lemma {:induction false} RowStepValue(pi: int, pj: int, p: int, a: int, b: int, c: int, was: int, r: int, carry: int, done: int)
    requires p == pi * pj && c + a * b + was == r + RADIX * carry
    ensures p * r + (p * RADIX) * carry == p * c + p * was + (pi * (b * (done + pj * a)) - pi * (b * done))
  {
    CarryWeight(p, c, a * b, was, r, carry);
    assert pi * (b * (done + pj * a)) - pi * (b * done) == pi * (b * (pj * a));
    assert pi * (b * (pj * a)) == p * (a * b);
  }

  /** Writing the last carry of a row: what the row misses is a multiple of the weight it stopped at. */
  lemma {:induction false} RowEnd(w: seq<Comp>, s: seq<Comp>, a: seq<Comp>, b: Comp, i: nat, j: nat, carry: Comp, low: nat, inner: nat) returns (excess: int)
    requires j <= |a| && i + j < |w| == |s| && (forall x :: i + j <= x < |s| ==> w[x] == s[x]) && low <= Value(RADIX, a[..j])
    requires inner <= i + j || (j == |a| && s[i + j] == 0)
    requires Value(RADIX, w[..i + j]) + Pow(RADIX, i + j) * carry
             == Value(RADIX, s[..i + j]) + Pow(RADIX, i) * (b * (Value(RADIX, a[..j]) - low))
    ensures Value(RADIX, w[i + j := carry])
            == Value(RADIX, s) + Pow(RADIX, i) * (b * (Value(RADIX, a) - low)) + Pow(RADIX, inner) * excess
    ensures j == |a| && s[i + j] == 0 ==> excess == 0
  {
    hide Pow, Value;
    var e := i + j;
    var w' := w[e := carry];
    ValueAround(w', e);
    ValueAround(s, e);
    assert w'[..e] == w[..e] && w'[e + 1..] == s[e + 1..];
    ValueSplit(RADIX, a, j);
    PowAdd(RADIX, i, j);
    if inner <= e {
      PowAdd(RADIX, inner, e - inner);
      excess := -(Pow(RADIX, e - inner) * (s[e] + b * Value(RADIX, a[j..])));
      RowEndValue(Pow(RADIX, i), Pow(RADIX, j), Pow(RADIX, e), Pow(RADIX, inner), Pow(RADIX, e - inner), s[e], b,
                  Value(RADIX, a[..j]), Value(RADIX, a[j..]), low);
    } else {
      excess := 0;
      RowEndValue(Pow(RADIX, i), Pow(RADIX, j), Pow(RADIX, e), 1, Pow(RADIX, e), s[e], b,
                  Value(RADIX, a[..j]), Value(RADIX, a[j..]), low);
    }
    RowEndTotal(Pow(RADIX, e), Value(RADIX, w[..e]), carry, s[e], Value(RADIX, s[e + 1..]));
    if j == |a| {
      ValueEmpty(RADIX, a[j..]);
      assert a[j..] == a[j..][..0];
    }
  }

  lemma {:induction false} ValueAround(s: seq<Comp>, e: nat)
    requires e < |s|
    ensures Value(RADIX, s) == Value(RADIX, s[..e]) + Pow(RADIX, e) * (s[e] + RADIX * Value(RADIX, s[e + 1..]))
  {
    hide Pow, Value;
    ValueSplit(RADIX, s, e);
    ValueFrom(RADIX, s, e);
  }

  lemma {:induction false} RowEndTotal(p: int, w: int, carry: int, c: int, rest: int)
    ensures w + p * (carry + RADIX * rest) == w + p * carry - p * c + p * (c + RADIX * rest)
  {
  }

  lemma {:induction false} RowEndValue(pi: int, pj: int, p: int, inner: int, over: int, c: int, b: int, va: int, vh: int, low: int)
    requires p == pi * pj && p == inner * over
    ensures pi * (b * (va + pj * vh - low)) == pi * (b * (va - low)) + p * (b * vh)
    ensures inner * -(over * (c + b * vh)) == -(p * c) - p * (b * vh)
  {
    assert pi * (b * (va + pj * vh - low)) == pi * (b * (va - low)) + pi * (b * (pj * vh));
    assert pi * (b * (pj * vh)) == (pi * pj) * (b * vh);
    assert inner * (over * (c + b * vh)) == (inner * over) * (c + b * vh);
  }

  /** One row of the product, added into the result in place. */
  method MultiplyRow(biR: BigInt, a: seq<Comp>, b: Comp, i: nat, outerPartial: nat, innerPartial: nat) returns (ghost excess: int)
    requires 0 < |a| && i + |a| < |biR.comps|
    requires forall x :: i + |a| <= x < |biR.comps| && (innerPartial == 0 || x < innerPartial) ==> biR.comps[x] == 0
    modifies biR
    ensures |biR.comps| == |old(biR.comps)|
    ensures forall x :: i + |a| < x < |biR.comps| && (innerPartial == 0 || x < innerPartial) ==> biR.comps[x] == 0
    ensures biR.Val() == old(biR.Val()) + Pow(RADIX, innerPartial) * excess
            + Pow(RADIX, i) * (b * (Value(RADIX, a) - Value(RADIX, a[..RowStart(i, |a|, outerPartial)])))
    ensures innerPartial == 0 ==> excess == 0
  {
    hide Pow, Value;
    var n := |a|;
    var j := RowStart(i, n, outerPartial);
    var carry: Comp := 0;
    ghost var s, low := biR.comps, Value(RADIX, a[..j]);
    while j < n && !(innerPartial != 0 && i + j >= innerPartial)
      invariant RowStart(i, n, outerPartial) <= j <= n && |biR.comps| == |s|
      invariant forall x :: i + j <= x < |s| ==> biR.comps[x] == s[x]
      invariant low <= Value(RADIX, a[..j])
      invariant Value(RADIX, biR.comps[..i + j]) + Pow(RADIX, i + j) * carry
                == Value(RADIX, s[..i + j]) + Pow(RADIX, i) * (b * (Value(RADIX, a[..j]) - low))
    {
      ghost var w, was := biR.comps, carry;
      var tmp := biR.comps[i + j] + a[j] * b + carry;
      assert tmp <= COMP_MAX by { MulBounds(a[j], RADIX - 1, b, RADIX - 1); }
      RowStep(w, s, a, b, i, j, tmp, was, low);
      biR.comps := biR.comps[i + j := tmp % RADIX];
      carry := tmp / RADIX;
      j := j + 1;
    }
    excess := RowEnd(biR.comps, s, a, b, i, j, carry, low, innerPartial);
    biR.comps := biR.comps[i + j := carry];
  }

  /** What a row leaves out is less than the weight of position `outerPartial`. */
  lemma {:induction false} RowDropped(a: seq<Comp>, b: Comp, i: nat, outerPartial: nat)
    requires |a| > 0
    ensures var low := Value(RADIX, a[..RowStart(i, |a|, outerPartial)]);
            0 <= Pow(RADIX, i) * (b * low) <= Pow(RADIX, outerPartial)
    ensures i >= LossyRows(outerPartial) ==> Pow(RADIX, i) * (b * Value(RADIX, a[..RowStart(i, |a|, outerPartial)])) == 0
  {
    var j := RowStart(i, |a|, outerPartial);
    ValueBound(RADIX, a[..j]);
    var low := Value(RADIX, a[..j]);
    if j > 0 {
      PowAdd(RADIX, i, j);
      PowAdd(RADIX, i + j, 1);
      assert Pow(RADIX, 1) == RADIX * Pow(RADIX, 0);
      DroppedValue(Pow(RADIX, i), Pow(RADIX, j), b, low);
    } else {
      assert a[..j] == [];
      assert b * low == 0;
    }
  }

  lemma {:induction false} DroppedValue(pi: int, pj: int, b: int, low: int)
    requires 0 < pi && 0 < pj && 0 <= b < RADIX && 0 <= low < pj
    ensures 0 <= pi * (b * low) <= (pi * pj) * RADIX
  {
    MulBounds(b, RADIX, low, pj);
    MulOrder(pi, b * low, RADIX * pj);
    MulOrder(pi, 0, b * low);
    assert pi * (RADIX * pj) == (pi * pj) * RADIX;
  }

  /**
   The product of two numbers.  With `outerPartial` it is the sum of the kept partial products.  With
   `innerPartial` only the components below that position are right.
   */
  method RegularMultiply(bia: BigInt, bib: BigInt, innerPartial: nat, outerPartial: nat) returns (biR: BigInt)
    requires |bia.comps| > 0 && |bib.comps| > 0
    ensures fresh(biR) && IsTrimmed(biR.comps) && |biR.comps| <= |bia.comps| + |bib.comps|
    ensures innerPartial == 0 ==> biR.Val() == TruncatedProduct(bia.comps, bib.comps, outerPartial)
    ensures innerPartial > 0 ==>
              biR.Val() % Pow(RADIX, innerPartial)
              == TruncatedProduct(bia.comps, bib.comps, outerPartial) % Pow(RADIX, innerPartial)
    ensures outerPartial == 0 ==> TruncatedProduct(bia.comps, bib.comps, outerPartial) == bia.Val() * bib.Val()
  {
    hide Pow, Value, KeptRow, TruncatedProduct;
    var a, sb := bia.comps, bib.comps;
    var n, t := |a|, |sb|;
    NoRows(a, sb, outerPartial);
    biR := new BigInt(seq(n + t, _ => 0));
    ValueZeros(RADIX, n + t);
    var i := 0;
    ghost var excess := 0;
    while i < t
      invariant 0 <= i <= t && fresh(biR) && |biR.comps| == n + t
      invariant forall x :: i + n <= x < n + t && (innerPartial == 0 || x < innerPartial) ==> biR.comps[x] == 0
      invariant biR.Val() == TruncatedProduct(a, sb[..i], outerPartial) + Pow(RADIX, innerPartial) * excess
      invariant innerPartial == 0 ==> excess == 0
    {
      ghost var more := MultiplyRow(biR, a, sb[i], i, outerPartial, innerPartial);
      RowKept(a, sb[i], i, outerPartial);
      TruncatedNext(a, sb, i, outerPartial);
      MoreExcess(Pow(RADIX, innerPartial), excess, more);
      excess := excess + more;
      i := i + 1;
    }
    assert sb[..t] == sb;
    if innerPartial > 0 {
      ModShift(TruncatedProduct(a, sb, outerPartial), Pow(RADIX, innerPartial), excess);
    }
    if outerPartial == 0 {
      NothingDropped(a, sb, 0);
    }
    biR.Trim();
  }

  lemma NoRows(a: seq<Comp>, b: seq<Comp>, outerPartial: nat)
    requires |a| > 0
    ensures TruncatedProduct(a, b[..0], outerPartial) == 0
  {
  }

  lemma MoreExcess(w: int, excess: int, more: int)
    ensures w * (excess + more) == w * excess + w * more
  {
  }

  function MinInt(x: int, y: int): int
  {
    if x < y then x else y
  }

  lemma {:induction false} RowTotal(p: int, a: int, low: int, b: int, done: int)
    ensures a * (done + p * b) == a * done + p * (b * (a - low)) + p * (b * low)
  {
    assert p * (b * (a - low)) + p * (b * low) == p * (b * a);
    assert a * (p * b) == p * (b * a);
  }

  lemma {:induction false} RowsDropped(dropped: int, row: int, i: nat, outerPartial: nat)
    requires 0 <= dropped <= MinInt(i, LossyRows(outerPartial)) * Pow(RADIX, outerPartial)
    requires 0 <= row <= Pow(RADIX, outerPartial)
    requires i >= LossyRows(outerPartial) ==> row == 0
    ensures dropped + row <= MinInt(i + 1, LossyRows(outerPartial)) * Pow(RADIX, outerPartial)
  {
    if i < LossyRows(outerPartial) {
      assert (i + 1) * Pow(RADIX, outerPartial) == i * Pow(RADIX, outerPartial) + Pow(RADIX, outerPartial);
    }
  }

  // ----- squaring

  /** Doubling a product and adding two words overflows the double word at most once; the code keeps
      the overflow in a flag. */
  lemma {:induction false} SquareWord(xx: nat, w: Comp, carry: nat, sum: nat, tmp: nat, c: bool)
    requires carry < 2 * RADIX && xx <= (RADIX - 1) * (RADIX - 1)
    requires sum == 2 * xx + w + carry
    requires var t1 := (2 * xx) % (COMP_MAX + 1);
             var t2 := (t1 + w) % (COMP_MAX + 1);
             tmp == (t2 + carry) % (COMP_MAX + 1) &&
             c == (COMP_MAX - xx < xx || COMP_MAX - t1 < w || COMP_MAX - t2 < carry)
    ensures sum == tmp + (if c then RADIX * RADIX else 0)
    ensures tmp % RADIX == sum % RADIX
    ensures tmp / RADIX + (if c then RADIX else 0) == sum / RADIX < 2 * RADIX
  {
    var t1 := (2 * xx) % (COMP_MAX + 1);
    var t2 := (t1 + w) % (COMP_MAX + 1);
    AddModulus(xx, xx, t1);
    AddModulus(t1, w, t2);
    AddModulus(t2, carry, tmp);
  }

  lemma {:induction false} AddModulus(x: nat, y: nat, r: nat)
    requires x <= COMP_MAX && y <= COMP_MAX && r == (x + y) % (COMP_MAX + 1)
    ensures x + y == r + (if COMP_MAX - x < y then COMP_MAX + 1 else 0) && r <= COMP_MAX
  {
  }

  /** Twice a product plus a component plus a carry, as a component and the next carry. */
  method DoubledSum(xi: Comp, xj: Comp, w: Comp, carry: nat) returns (low: Comp, high: nat, ghost product: nat)
    requires carry < 2 * RADIX
    ensures product == (xi as int) * (xj as int)
    ensures low + RADIX * high == 2 * product + w + carry && high < 2 * RADIX
  {
    MulBounds(xi, RADIX - 1, xj, RADIX - 1);
    var xx: nat := (xi as int) * (xj as int);
    product := xx;
    var c := COMP_MAX - xx < xx;
    var tmp := (2 * xx) % (COMP_MAX + 1);
    c := c || COMP_MAX - tmp < w;
    tmp := (tmp + w) % (COMP_MAX + 1);
    c := c || COMP_MAX - tmp < carry;
    tmp := (tmp + carry) % (COMP_MAX + 1);
    SquareWord(xx, w, carry, 2 * xx + w + carry, tmp, c);
    low := tmp % RADIX;
    high := tmp / RADIX + (if c then RADIX else 0);
  }

  /** One row of the square, added in place: the diagonal term and twice the products beyond it. */
  method SquareRow(biR: BigInt, x: seq<Comp>, i: nat)
    requires i < |x| && |biR.comps| == 2 * |x| + 1
    requires forall y :: i + |x| + 1 <= y < |biR.comps| ==> biR.comps[y] == 0
    modifies biR
    ensures |biR.comps| == |old(biR.comps)|
    ensures forall y :: i + |x| + 2 <= y < |biR.comps| ==> biR.comps[y] == 0
    ensures biR.Val() == old(biR.Val()) + RowSquare(x, i)
  {
    hide Pow, Value, RowTerm;
    var t := |x|;
    ghost var s := biR.comps;
    ValueEmptyFrom(x, i + 1);
    var xi: nat := x[i];
    var tmp: nat := biR.comps[2 * i] + xi * xi;
    assert tmp <= COMP_MAX by { MulBounds(xi, RADIX - 1, xi, RADIX - 1); }
    SquareFirst(s, x, i, xi, tmp);
    biR.comps := biR.comps[2 * i := tmp % RADIX];
    var carry: nat := tmp / RADIX;
    var j := i + 1;
    while j < t
      invariant i + 1 <= j <= t && |biR.comps| == |s| && carry < 2 * RADIX
      invariant forall y :: i + j <= y < |s| ==> biR.comps[y] == s[y]
      invariant SquareState(biR.comps, s, x, i, j, carry)
    {
      ghost var w := biR.comps;
      var low, high, xx := DoubledSum(xi, x[j], biR.comps[i + j], carry);
      SquareStep(w, s, x, i, j, carry, xx, low, high);
      biR.comps := biR.comps[i + j := low];
      carry := high;
      j := j + 1;
    }
    tmp := biR.comps[i + t] + carry;
    SquareEnd(biR.comps, s, x, i, carry, tmp);
    biR.comps := biR.comps[i + t := tmp % RADIX];
    biR.comps := biR.comps[i + t + 1 := tmp / RADIX];
  }

  /** A digit d of weight p and what stands h above it: the part of the square that involves d. */
  ghost function RowTerm(p: int, d: int, h: int): int
  {
    p * (d * d) + 2 * ((RADIX * p) * (d * h))
  }

  /** What row i contributes: x[i]^2 at position 2i and 2 x[i] x[j] at the positions beyond. */
  ghost function RowSquare(x: seq<Comp>, i: nat): int
    requires i < |x|
  {
    RowTerm(Pow(RADIX, 2 * i), x[i], Value(RADIX, x[i + 1..]))
  }

  /** The part of a row that is in place before position i + j. */
  ghost predicate SquareState(w: seq<Comp>, s: seq<Comp>, x: seq<Comp>, i: nat, j: nat, carry: nat)
    requires i < j <= |x| && i + j <= |w| == |s|
  {
    Value(RADIX, w[..i + j]) + Pow(RADIX, i + j) * carry
    == Value(RADIX, s[..i + j]) + RowTerm(Pow(RADIX, 2 * i), x[i], Value(RADIX, x[i + 1..j]))
  }

  lemma {:induction false} ValueEmptyFrom(x: seq<Comp>, k: nat)
    requires k <= |x|
    ensures Value(RADIX, x[k..k]) == 0
  {
    assert x[k..k] == [];
  }

  lemma {:induction false} SquareFirst(s: seq<Comp>, x: seq<Comp>, i: nat, xi: nat, tmp: nat)
    requires i < |x| && |s| == 2 * |x| + 1 && xi == x[i] && tmp == s[2 * i] + xi * xi
    requires Value(RADIX, x[i + 1..i + 1]) == 0
    ensures tmp / RADIX < 2 * RADIX
    ensures SquareState(s[2 * i := tmp % RADIX], s, x, i, i + 1, tmp / RADIX)
  {
    hide Pow, Value;
    MulBounds(xi, RADIX - 1, xi, RADIX - 1);
    var w := s[2 * i := tmp % RADIX];
    ValueNext(w, 2 * i);
    ValueNext(s, 2 * i);
    assert w[..2 * i] == s[..2 * i];
    CarryWeight(Pow(RADIX, 2 * i), s[2 * i], xi * xi, 0, tmp % RADIX, tmp / RADIX);
  }

  lemma {:induction false} SquareStep(w: seq<Comp>, s: seq<Comp>, x: seq<Comp>, i: nat, j: nat, carry: nat, xx: nat, low: Comp, high: nat)
    requires i < j < |x| && |s| == |w| == 2 * |x| + 1 && w[i + j] == s[i + j]
    requires xx == (x[i] as int) * (x[j] as int) && low + RADIX * high == 2 * xx + w[i + j] + carry
    requires SquareState(w, s, x, i, j, carry)
    ensures SquareState(w[i + j := low], s, x, i, j + 1, high)
  {
    hide Pow, Value, RowTerm;
    var w' := w[i + j := low];
    ValueNext(w', i + j);
    ValueNext(s, i + j);
    assert w'[..i + j] == w[..i + j];
    assert x[i + 1..j + 1] == x[i + 1..j] + [x[j]];
    ValueSnoc(RADIX, x[i + 1..j], x[j]);
    PowAdd(RADIX, 2 * i + 1, j - i - 1);
    PowNext(2 * i);
    CarryWeight(Pow(RADIX, i + j), 2 * xx, w[i + j], carry, low, high);
    RowTermSnoc(Pow(RADIX, 2 * i), Pow(RADIX, j - i - 1), Pow(RADIX, i + j), x[i], x[j], xx, Value(RADIX, x[i + 1..j]));
  }

  lemma {:induction false} PowNext(n: nat)
    ensures Pow(RADIX, n + 1) == RADIX * Pow(RADIX, n)
  {
  }

  lemma {:induction false} RowTermSnoc(p: int, q: int, pq: int, xi: int, xj: int, xx: int, v: int)
    requires pq == (RADIX * p) * q && xx == xi * xj
    ensures RowTerm(p, xi, v + q * xj) == RowTerm(p, xi, v) + pq * (2 * xx)
  {
    var r := RADIX * p;
    assert xi * (v + q * xj) == xi * v + q * xx;
    assert r * (xi * v + q * xx) == r * (xi * v) + r * (q * xx);
    assert r * (q * xx) == pq * xx;
  }

  lemma {:induction false} SquareEnd(w: seq<Comp>, s: seq<Comp>, x: seq<Comp>, i: nat, carry: nat, tmp: nat)
    requires i < |x| && |s| == |w| == 2 * |x| + 1 && carry < 2 * RADIX && tmp == w[i + |x|] + carry
    requires (forall y :: i + |x| <= y < |s| ==> w[y] == s[y]) && s[i + |x| + 1] == 0
    requires SquareState(w, s, x, i, |x|, carry)
    ensures tmp / RADIX < RADIX
    ensures Value(RADIX, w[i + |x| := tmp % RADIX][i + |x| + 1 := tmp / RADIX]) == Value(RADIX, s) + RowSquare(x, i)
  {
    hide Pow, Value, RowTerm;
    var e := i + |x|;
    var w' := w[e := tmp % RADIX][e + 1 := tmp / RADIX];
    ValueAround(w', e);
    ValueFrom(RADIX, w', e + 1);
    ValueAround(s, e);
    ValueFrom(RADIX, s, e + 1);
    assert w'[..e] == w[..e] && w'[e + 2..] == s[e + 2..];
    assert x[i + 1..|x|] == x[i + 1..];
    SquareEndValue(Pow(RADIX, e), s[e], carry, tmp % RADIX, tmp / RADIX, Value(RADIX, s[e + 2..]));
  }

  lemma {:induction false} SquareEndValue(p: int, c: int, carry: int, low: int, high: int, rest: int)
    requires c + carry == low + RADIX * high
    ensures p * (low + RADIX * (high + RADIX * rest)) == p * (c + RADIX * (0 + RADIX * rest)) + p * carry
  {
    assert low + RADIX * (high + RADIX * rest) == c + carry + RADIX * (RADIX * rest);
  }

  /** The square, computed with each mixed product taken once and doubled. */
  method RegularSquare(bi: BigInt) returns (biR: BigInt)
    requires |bi.comps| > 0
    ensures fresh(biR) && IsTrimmed(biR.comps)
    ensures biR.Val() == Square(bi.Val())
  {
    hide Pow, Value, Square, RowTerm;
    var x := bi.comps;
    var t := |x|;
    biR := new BigInt(seq(2 * t + 1, _ => 0));
    ValueZeros(RADIX, 2 * t + 1);
    WholeTail(x);
    var i := 0;
    while i < t
      invariant 0 <= i <= t && fresh(biR) && |biR.comps| == 2 * t + 1
      invariant forall y :: i + t + 1 <= y < |biR.comps| ==> biR.comps[y] == 0
      invariant biR.Val() + TailSquare(x, i) == Square(Value(RADIX, x))
    {
      SquareRow(biR, x, i);
      TailSquareStep(x, i);
      i := i + 1;
    }
    biR.Trim();
  }

  /** The square of what remains from component i on, at its place. */
  ghost function TailSquare(x: seq<Comp>, i: nat): int
    requires i <= |x|
  {
    Pow(RADIX, 2 * i) * Square(Value(RADIX, x[i..]))
  }

  function Square(v: int): int
  {
    v * v
  }

  lemma {:induction false} WholeTail(x: seq<Comp>)
    ensures TailSquare(x, 0) == Square(Value(RADIX, x))
    ensures TailSquare(x, |x|) == 0
  {
    assert x[0..] == x;
    ValueFrom(RADIX, x, |x|);
  }

  lemma {:induction false} TailSquareStep(x: seq<Comp>, i: nat)
    requires i < |x|
    ensures TailSquare(x, i) == RowSquare(x, i) + TailSquare(x, i + 1)
  {
    hide Pow, Value, RowTerm, Square;
    ValueFrom(RADIX, x, i);
    PowNext(2 * i);
    PowNext(2 * i + 1);
    TailSquareValue(Pow(RADIX, 2 * i), x[i], Value(RADIX, x[i + 1..]));
  }

  lemma {:induction false} TailSquareValue(p: int, d: int, h: int)
    ensures p * Square(d + RADIX * h) == RowTerm(p, d, h) + (RADIX * (RADIX * p)) * Square(h)
  {
    var y := RADIX * h;
    assert Square(d + y) == d * d + 2 * (d * y) + y * y;
    assert p * (d * d + 2 * (d * y) + y * y) == p * (d * d) + 2 * (p * (d * y)) + p * (y * y);
    assert d * y == RADIX * (d * h) && y * y == RADIX * (RADIX * (h * h));
    assert p * (RADIX * (d * h)) == (RADIX * p) * (d * h);
    assert p * (RADIX * (RADIX * (h * h))) == (RADIX * (RADIX * p)) * (h * h);
  }

  // ----- shifts by whole components

  /** Drops the low components; a shift past the top leaves zero. */
  method CompRightShift(biR: BigInt, numShifts: nat)
    requires |biR.comps| > 0
    modifies biR
    ensures |biR.comps| > 0
    ensures biR.Val() == old(biR.Val()) / Pow(RADIX, numShifts)
    ensures biR.comps == if numShifts >= |old(biR.comps)| then [0] else old(biR.comps)[numShifts..]
  {
    hide Pow, Value;
    ghost var s := biR.comps;
    var i := |biR.comps| - numShifts;
    ShiftedValue(s, numShifts);
    if i <= 0 {
      biR.comps := biR.comps[0 := 0];
      biR.comps := biR.comps[..1];
      assert biR.comps == [0];
      return;
    }
    var x := 0;
    while x < i
      invariant 0 <= x <= i && |biR.comps| == |s|
      invariant forall y :: 0 <= y < x ==> biR.comps[y] == s[y + numShifts]
      invariant forall y :: x <= y < |s| ==> biR.comps[y] == s[y]
    {
      biR.comps := biR.comps[x := biR.comps[x + numShifts]];
      x := x + 1;
    }
    biR.comps := biR.comps[..|biR.comps| - numShifts];
    assert biR.comps == s[numShifts..];
  }

  lemma {:induction false} ShiftedValue(s: seq<Comp>, k: nat)
    requires |s| > 0
    ensures Value(RADIX, if k >= |s| then [0] else s[k..]) == Value(RADIX, s) / Pow(RADIX, k)
  {
    hide Pow, Value;
    if k >= |s| {
      ValueFrom(RADIX, [0], 0);
      ValueFrom(RADIX, [0], 1);
      assert [0][0..] == [0];
      ValueBound(RADIX, s);
      PowMonotonic(RADIX, |s|, k);
      DivWeighted(Value(RADIX, s), Pow(RADIX, k), 0, Value(RADIX, s));
    } else {
      ValueSplit(RADIX, s, k);
      ValueBound(RADIX, s[..k]);
      DivWeighted(Value(RADIX, s), Pow(RADIX, k), Value(RADIX, s[k..]), Value(RADIX, s[..k]));
    }
  }

  /** Moves the components up and fills the low ones with zeros. */
  method CompLeftShift(biR: BigInt, numShifts: nat)
    requires |biR.comps| > 0
    modifies biR
    ensures biR.comps == seq(numShifts, _ => 0) + old(biR.comps)
    ensures biR.Val() == Pow(RADIX, numShifts) * old(biR.Val())
  {
    hide Pow, Value;
    ghost var s := biR.comps;
    ValueConcat(RADIX, seq(numShifts, _ => 0), s);
    ValueZeros(RADIX, numShifts);
    if numShifts <= 0 {
      assert biR.comps == seq(numShifts, _ => 0) + s;
      return;
    }
    var i := |biR.comps| - 1;
    biR.MoreComps(|biR.comps| + numShifts);
    while i >= 0
      invariant -1 <= i < |s| && |biR.comps| == |s| + numShifts
      invariant forall y :: 0 <= y <= i ==> biR.comps[y] == s[y]
      invariant forall y :: i < y < |s| ==> biR.comps[y + numShifts] == s[y]
      decreases i
    {
      biR.comps := biR.comps[i + numShifts := biR.comps[i]];
      i := i - 1;
    }
    biR.comps := seq(numShifts, _ => 0) + biR.comps[numShifts..];
    assert biR.comps == seq(numShifts, _ => 0) + s;
  }
}
