/**
 The estimate of one quotient digit in long division (Knuth, The Art of Computer Programming,
 volume 2, section 4.3.1, Algorithm D) over plain integers.  P is the weight of the top component
 of the divisor, W the weight of the one below it.
 */
module QuotientDigit {
  import opened Arith

  const R: int := 0x1_0000_0000

  /** The multiplier d = R / (v1 + 1) makes the top component of the divisor at least R / 2,
      without making the divisor longer. */
  lemma {:induction false} Normalised(v: int, v1: int, P: int, d: int)
    requires 1 <= v1 < R - 1 && 0 < P && v1 * P <= v < (v1 + 1) * P
    requires d == R / (v1 + 1)
    ensures 1 <= d && (v1 + 1) * d <= R
    ensures 2 * (v1 * d) >= R
    ensures (v1 * d) * P <= v * d < R * P
  {
    assert d * (v1 + 1) <= R < d * (v1 + 1) + (v1 + 1);
    DivAtLeast(R, v1 + 1, 1);
    HalfRadix(v1, d);
    MulOrder(d, v1 * P, v);
    MulOrder(d, v + 1, (v1 + 1) * P);
    assert d * ((v1 + 1) * P) == ((v1 + 1) * d) * P && d * (v1 * P) == (v1 * d) * P;
    MulOrder(P, (v1 + 1) * d, R);
  }

  lemma {:induction false} HalfRadix(v1: int, d: int)
    requires 1 <= v1 < R - 1 && 1 <= d
    requires d * (v1 + 1) <= R < d * (v1 + 1) + (v1 + 1)
    ensures 2 * (v1 * d) >= R
  {
    if 2 * v1 >= R {
      MulOrder(2 * v1, 1, d);
    } else {
      // 2 v1 d (v1 + 1) >= 2 v1 (R - v1) >= (R - 1) (v1 + 1)
      MulOrder(2 * v1, R - v1, d * (v1 + 1));
      assert 2 * v1 * (R - v1) - (R - 1) * (v1 + 1) == (v1 - 1) * (R - 2 * v1 - 1);
      assert 2 * v1 * (d * (v1 + 1)) == (v1 + 1) * (2 * (v1 * d));
      MulBounds(0, v1 - 1, 0, R - 2 * v1 - 1);
      if 2 * (v1 * d) <= R - 1 {
        if 2 * (v1 * d) <= R - 2 {
          MulOrder(v1 + 1, 2 * (v1 * d), R - 2);
        }
      }
    }
  }

  /** q is the quotient of u by v. */
  predicate IsQuotient(u: int, v: int, q: int)
  {
    0 <= q && q * v <= u < (q + 1) * v
  }

  lemma {:induction false} QuotientBelow(u: int, v: int, q: int, c: int)
    requires 0 < v && IsQuotient(u, v, q) && u < c * v
    ensures q < c
  {
    MulCancel(v, q, c);
  }

  lemma {:induction false} QuotientAtLeast(u: int, v: int, q: int, c: int)
    requires 0 < v && IsQuotient(u, v, q) && c * v <= u
    ensures c <= q
  {
    MulCancel(v, c, q + 1);
  }

  /** Dividing the top two components by the top one never gives too little, and fits a component. */
  lemma {:induction false} TopEstimateAbove(u: int, v: int, q: int, t: int, v1: int, P: int)
    requires 0 < P && 0 < v1 && v1 * P <= v && t * P <= u < (t + 1) * P && 0 <= t < v1 * R
    requires IsQuotient(u, v, q)
    ensures q <= t / v1 < R
  {
    MulOrder(q, v1 * P, v);
    assert q * (v1 * P) == P * (q * v1);
    MulCancel(P, q * v1, t + 1);
    DivAtLeast(t, v1, q);
    DivBelow(t, v1, R);
  }

  /** ... and at most two too much, when the top component of the divisor is at least R / 2. */
  lemma {:induction false} TopEstimateBelow(u: int, v: int, q: int, t: int, v1: int, P: int, qh: int)
    requires 0 < P && R <= 2 * v1 && v1 * P <= v < (v1 + 1) * P && t * P <= u
    requires IsQuotient(u, v, q) && 0 <= qh < R && qh * v1 <= t
    ensures qh <= q + 2
  {
    MulOrder(qh, v, (v1 + 1) * P);
    assert qh * ((v1 + 1) * P) == (qh * v1) * P + qh * P;
    MulOrder(P, qh * v1, t);
    MulOrder(P, qh, 2 * v1);
    assert (qh - 2) * v == qh * v - 2 * v && (2 * v1) * P == 2 * (v1 * P);
    QuotientAtLeast(u, v, q, qh - 2);
  }

  /** The top components are equal: R - 1 is right or one too much. */
  lemma {:induction false} EqualTops(u: int, v: int, q: int, v1: int, P: int)
    requires 0 < P && R <= 2 * v1 && v1 * P <= v < (v1 + 1) * P
    requires (v1 * R) * P <= u < R * v
    requires IsQuotient(u, v, q)
    ensures q <= R - 1 <= q + 1
  {
    QuotientBelow(u, v, q, R);
    MulOrder(R - 2, v, (v1 + 1) * P);
    assert (R - 2) * ((v1 + 1) * P) == ((R - 2) * (v1 + 1)) * P;
    MulOrder(P, (R - 2) * (v1 + 1), v1 * R);
    QuotientAtLeast(u, v, q, R - 2);
  }

  /** The test with the second component of the divisor: when it succeeds the estimate is too large, */
  lemma {:induction false} TestSucceeds(u: int, v: int, q: int, t: int, u2: int, v1: int, v2: int, W: int, qh: int)
    requires 0 < W && 0 < v && (v1 * R + v2) * W <= v && u < (t * R + u2 + 1) * W
    requires IsQuotient(u, v, q) && 0 <= qh
    requires v2 * qh > (t - qh * v1) * R + u2
    ensures q < qh
  {
    var top := v1 * R + v2;
    assert qh * top == (qh * v1) * R + v2 * qh;
    MulOrder(W, t * R + u2 + 1, qh * top);
    MulOrder(qh, top * W, v);
    assert qh * (top * W) == W * (qh * top);
    QuotientBelow(u, v, q, qh);
  }

  /** when it fails the estimate is at most one too large. */
  lemma {:induction false} TestFails(u: int, v: int, q: int, t: int, u2: int, v1: int, v2: int, W: int, qh: int)
    requires 0 < W && 0 <= v2 && R <= 2 * v1 && (t * R + u2) * W <= u
    requires (v1 * R + v2) * W <= v < (v1 * R + v2 + 1) * W
    requires IsQuotient(u, v, q) && 0 <= qh < R
    requires v2 * qh <= (t - qh * v1) * R + u2
    ensures qh <= q + 1
  {
    var top := v1 * R + v2;
    assert qh * top == (qh * v1) * R + v2 * qh;
    MulOrder(W, qh * top, t * R + u2);
    MulOrder(qh, v, (top + 1) * W);
    assert qh * ((top + 1) * W) == W * (qh * top) + qh * W;
    MulOrder(W, qh, top);
    assert (qh - 1) * v == qh * v - v;
    QuotientAtLeast(u, v, q, qh - 1);
  }

  /** The digit the code tries: U(0), U(1), U(2) are the top of the window, V1 and V2 of the divisor. */
  function Estimate(u0: int, u1: int, u2: int, v1: int, v2: int, long: bool): (q: int)
    requires 0 < v1
  {
    if u0 == v1 then
      R - 1
    else
      var q := ((u0 * R + u1) / v1) % R;
      if long && v2 != 0 then
        var inner := (R * u0 + u1 - q * v1) % R;
        if v2 * q > inner * R + u2 then q - 1 else q
      else
        q
  }

  /** A divisor of a single component: the estimate is the digit. */
  lemma {:induction false} ShortEstimate(u0: int, u1: int, v1: int, q: int)
    requires 0 <= u0 && 0 <= u1 < R && R <= 2 * v1 < 2 * R
    requires u0 * R + u1 < R * v1 && IsQuotient(u0 * R + u1, v1, q)
    ensures q <= Estimate(u0, u1, 0, v1, 0, false) <= q + 1
  {
    MulCancel(R, u0, v1);
    var t := u0 * R + u1;
    assert t * 1 <= t < (t + 1) * 1;
    TopEstimateAbove(t, v1, q, t, v1, 1);
    QuotientAtLeast(t, v1, q, t / v1);
  }

  /** The digit tried is never too small and at most one too large. */
  lemma {:induction false} LongEstimate(u: int, v: int, q: int, u0: int, u1: int, u2: int, v1: int, v2: int, W: int)
    requires 0 < W && 0 <= u0 && 0 <= u1 < R && 0 <= u2 < R && 0 <= v2 < R && R <= 2 * v1 < 2 * R
    requires (v1 * R + v2) * W <= v < (v1 * R + v2 + 1) * W
    requires ((u0 * R + u1) * R + u2) * W <= u < ((u0 * R + u1) * R + u2 + 1) * W
    requires u < R * v && IsQuotient(u, v, q)
    ensures q <= Estimate(u0, u1, u2, v1, v2, true) <= q + 1
  {
    var P, t := R * W, u0 * R + u1;
    DropLowComponent(v, v1, v2, W);
    DropLowComponent(u, t, u2, W);
    if u0 == v1 {
      assert (v1 * R) * P + u1 * P == t * P;
      MulBounds(0, u1, 0, P);
      EqualTops(u, v, q, v1, P);
    } else {
      TopComponents(u, v, t, u0, u1, v1, P);
      var qh := TopEstimate(u, v, q, t, v1, P);
      if v2 * qh > (t - qh * v1) * R + u2 {
        TestSucceeds(u, v, q, t, u2, v1, v2, W, qh);
      } else {
        TestFails(u, v, q, t, u2, v1, v2, W, qh);
      }
      if v2 == 0 {
        assert v2 * qh == 0;
      }
    }
  }

  lemma {:induction false} TopEstimate(u: int, v: int, q: int, t: int, v1: int, P: int) returns (qh: int)
    requires 0 < P && R <= 2 * v1 < 2 * R && v1 * P <= v < (v1 + 1) * P
    requires t * P <= u < (t + 1) * P && 0 <= t < v1 * R && IsQuotient(u, v, q)
    ensures qh == (t / v1) % R && 0 <= qh < R && q <= qh <= q + 2
    ensures (t - qh * v1) % R == t - qh * v1 >= 0
  {
    TopEstimateAbove(u, v, q, t, v1, P);
    qh := t / v1;
    assert t == v1 * qh + t % v1;
    TopEstimateBelow(u, v, q, t, v1, P, qh);
  }

  lemma {:induction false} DropLowComponent(n: int, x: int, y: int, W: int)
    requires 0 <= y < R && 0 < W && (x * R + y) * W <= n < (x * R + y + 1) * W
    ensures x * (R * W) <= n < (x + 1) * (R * W)
  {
    MulOrder(W, x * R, x * R + y);
    MulOrder(W, x * R + y + 1, (x + 1) * R);
  }

  lemma {:induction false} TopComponents(u: int, v: int, t: int, u0: int, u1: int, v1: int, P: int)
    requires 0 < P && t == u0 * R + u1 && 0 <= u1 < R && u0 != v1
    requires t * P <= u < R * v && v < (v1 + 1) * P
    ensures t < v1 * R
  {
    MulOrder(R, v, (v1 + 1) * P);
    assert R * ((v1 + 1) * P) == P * (R * (v1 + 1));
    MulCancel(P, t, R * (v1 + 1));
  }
}
