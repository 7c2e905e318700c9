/** Abelian groups and multiples of their elements. */
module AbelianGroups {

  /** The group operations. */
  datatype Group<!P> = Group(zero: P, add: (P, P) -> P, neg: P -> P)

  ghost predicate IsGroup<P(!new)>(g: Group<P>)
  {
    && (forall x, y :: g.add(x, y) == g.add(y, x))
    && (forall x, y, z :: g.add(g.add(x, y), z) == g.add(x, g.add(y, z)))
    && (forall x :: g.add(x, g.zero) == x)
    && (forall x :: g.add(x, g.neg(x)) == g.zero)
  }

  lemma Commutes<P(!new)>(g: Group<P>, x: P, y: P)
    requires IsGroup(g)
    ensures g.add(x, y) == g.add(y, x)
  {
  }

  lemma Associates<P(!new)>(g: Group<P>, x: P, y: P, z: P)
    requires IsGroup(g)
    ensures g.add(g.add(x, y), z) == g.add(x, g.add(y, z))
  {
  }

  lemma Zero<P(!new)>(g: Group<P>, x: P)
    requires IsGroup(g)
    ensures g.add(x, g.zero) == x == g.add(g.zero, x)
  {
  }

  lemma Inverse<P(!new)>(g: Group<P>, x: P)
    requires IsGroup(g)
    ensures g.add(x, g.neg(x)) == g.zero
  {
  }

  /** Sums of four can be regrouped. */
  lemma Exchange<P(!new)>(g: Group<P>, a: P, b: P, c: P, d: P)
    requires IsGroup(g)
    ensures g.add(g.add(a, b), g.add(c, d)) == g.add(g.add(a, c), g.add(b, d))
  {
    hide IsGroup;
    Associates(g, a, b, g.add(c, d));
    Associates(g, b, c, d);
    Commutes(g, b, c);
    Associates(g, c, b, d);
    Associates(g, a, c, g.add(b, d));
  }

  /** What cancels is unique. */
  lemma Cancels<P(!new)>(g: Group<P>, x: P, y: P)
    requires IsGroup(g) && g.add(x, y) == g.zero
    ensures y == g.neg(x)
  {
    hide IsGroup;
    Inverse(g, x);
    Commutes(g, x, g.neg(x));
    Associates(g, g.neg(x), x, y);
    Zero(g, g.neg(x));
    Zero(g, y);
  }

  /** The n-th multiple of x. */
  function Times<P>(g: Group<P>, n: nat, x: P): P
  {
    if n == 0 then g.zero else g.add(Times(g, n - 1, x), x)
  }

  function Mul<P>(g: Group<P>, n: int, x: P): P
  {
    if n >= 0 then Times(g, n, x) else g.neg(Times(g, -n, x))
  }

  lemma {:induction false} TimesPlus<P(!new)>(g: Group<P>, m: nat, n: nat, x: P)
    requires IsGroup(g)
    ensures Times(g, m + n, x) == g.add(Times(g, m, x), Times(g, n, x))
  {
    hide IsGroup;
    if n == 0 {
      Zero(g, Times(g, m, x));
    } else {
      TimesPlus(g, m, n - 1, x);
      Associates(g, Times(g, m, x), Times(g, n - 1, x), x);
    }
  }

  /** Multiples add up, also negative ones. */
  lemma {:induction false} MulPlus<P(!new)>(g: Group<P>, m: int, n: int, x: P)
    requires IsGroup(g)
    ensures Mul(g, m + n, x) == g.add(Mul(g, m, x), Mul(g, n, x))
  {
    hide IsGroup, Times;
    if m >= 0 && n >= 0 {
      TimesPlus(g, m, n, x);
    } else if m < 0 && n < 0 {
      TimesPlus(g, -m, -n, x);
      NegPlus(g, Times(g, -m, x), Times(g, -n, x));
    } else if m >= 0 {
      MulMinus(g, m, -n, x);
    } else {
      MulMinus(g, n, -m, x);
      Commutes(g, Mul(g, m, x), Mul(g, n, x));
    }
  }

  lemma NegPlus<P(!new)>(g: Group<P>, x: P, y: P)
    requires IsGroup(g)
    ensures g.neg(g.add(x, y)) == g.add(g.neg(x), g.neg(y))
  {
    hide IsGroup;
    Exchange(g, x, y, g.neg(x), g.neg(y));
    Inverse(g, x);
    Inverse(g, y);
    Zero(g, g.zero);
    Cancels(g, g.add(x, y), g.add(g.neg(x), g.neg(y)));
  }

  lemma NegNeg<P(!new)>(g: Group<P>, x: P)
    requires IsGroup(g)
    ensures g.neg(g.neg(x)) == x
  {
    hide IsGroup;
    Inverse(g, x);
    Commutes(g, x, g.neg(x));
    Cancels(g, g.neg(x), x);
  }

  lemma NegZero<P(!new)>(g: Group<P>)
    requires IsGroup(g)
    ensures g.neg(g.zero) == g.zero
  {
    hide IsGroup;
    Zero(g, g.zero);
    Cancels(g, g.zero, g.zero);
  }

  lemma {:induction false} MulMinus<P(!new)>(g: Group<P>, m: nat, n: nat, x: P)
    requires IsGroup(g)
    ensures Mul(g, m - n, x) == g.add(Times(g, m, x), g.neg(Times(g, n, x)))
  {
    hide IsGroup, Times;
    if m >= n {
      TimesPlus(g, m - n, n, x);
      var a, b := Times(g, m - n, x), Times(g, n, x);
      Associates(g, a, b, g.neg(b));
      Inverse(g, b);
      Zero(g, a);
    } else {
      TimesPlus(g, n - m, m, x);
      var a, b := Times(g, n - m, x), Times(g, m, x);
      NegPlus(g, a, b);
      Commutes(g, g.neg(a), g.neg(b));
      Associates(g, b, g.neg(b), g.neg(a));
      Inverse(g, b);
      Zero(g, g.neg(a));
    }
  }

  lemma MulOne<P(!new)>(g: Group<P>, x: P)
    requires IsGroup(g)
    ensures Mul(g, 1, x) == x && Mul(g, 0, x) == g.zero
  {
    Zero(g, x);
    assert Times(g, 1, x) == g.add(Times(g, 0, x), x);
  }

  lemma MulNeg<P(!new)>(g: Group<P>, n: int, x: P)
    requires IsGroup(g)
    ensures Mul(g, -n, x) == g.neg(Mul(g, n, x))
  {
    hide IsGroup, Mul;
    MulPlus(g, n, -n, x);
    MulOne(g, x);
    Cancels(g, Mul(g, n, x), Mul(g, -n, x));
  }

  /** Multiples of a negated element. */
  lemma {:induction false} MulOfNeg<P(!new)>(g: Group<P>, n: int, x: P)
    requires IsGroup(g)
    ensures Mul(g, n, g.neg(x)) == Mul(g, -n, x)
  {
    hide IsGroup;
    if n >= 0 {
      TimesOfNeg(g, n, x);
    } else {
      TimesOfNeg(g, -n, x);
      NegNeg(g, Times(g, -n, x));
    }
    if n == 0 {
      NegZero(g);
    }
  }

  lemma {:induction false} TimesOfNeg<P(!new)>(g: Group<P>, n: nat, x: P)
    requires IsGroup(g)
    ensures Times(g, n, g.neg(x)) == g.neg(Times(g, n, x))
  {
    hide IsGroup;
    if n == 0 {
      NegZero(g);
    } else {
      TimesOfNeg(g, n - 1, x);
      NegPlus(g, Times(g, n - 1, x), x);
    }
  }

  /** Multiples of a multiple. */
  lemma {:induction false} MulMul<P(!new)>(g: Group<P>, m: int, n: int, x: P)
    requires IsGroup(g)
    ensures Mul(g, m, Mul(g, n, x)) == Mul(g, m * n, x)
  {
    hide IsGroup, Mul;
    if m >= 0 {
      TimesMul(g, m, n, x);
    } else {
      TimesMul(g, -m, n, x);
      MulNeg(g, -m, Mul(g, n, x));
      MulNeg(g, -m * n, x);
      assert -(-m * n) == m * n;
    }
  }

  lemma {:induction false} TimesMul<P(!new)>(g: Group<P>, m: nat, n: int, x: P)
    requires IsGroup(g)
    ensures Mul(g, m, Mul(g, n, x)) == Mul(g, m * n, x)
  {
    hide IsGroup, Mul;
    if m == 0 {
      MulOne(g, x);
      MulOne(g, Mul(g, n, x));
    } else {
      TimesMul(g, m - 1, n, x);
      MulPlus(g, m - 1, 1, Mul(g, n, x));
      MulOne(g, Mul(g, n, x));
      MulPlus(g, (m - 1) * n, n, x);
      assert (m - 1) * n + n == m * n;
    }
  }

  /** An element of order l: only the remainder by l of a multiple counts. */
  lemma {:induction false} MulModOrder<P(!new)>(g: Group<P>, l: nat, m: int, x: P)
    requires IsGroup(g) && 0 < l && Mul(g, l, x) == g.zero
    ensures Mul(g, m % l, x) == Mul(g, m, x)
  {
    hide IsGroup, Mul;
    var q := m / l;
    assert m == q * l + m % l;
    MulPlus(g, q * l, m % l, x);
    MulMul(g, q, l, x);
    MulOfZero(g, q);
    Zero(g, Mul(g, m % l, x));
  }

  lemma {:induction false} MulOfZero<P(!new)>(g: Group<P>, n: int)
    requires IsGroup(g)
    ensures Mul(g, n, g.zero) == g.zero
  {
    hide IsGroup;
    if n >= 0 {
      TimesOfZero(g, n);
    } else {
      TimesOfZero(g, -n);
      NegZero(g);
    }
  }

  lemma {:induction false} TimesOfZero<P(!new)>(g: Group<P>, n: nat)
    requires IsGroup(g)
    ensures Times(g, n, g.zero) == g.zero
  {
    hide IsGroup;
    if n > 0 {
      TimesOfZero(g, n - 1);
      Zero(g, g.zero);
    }
  }

  /** m times a and n times b. */
  function Combined<P>(g: Group<P>, m: int, a: P, n: int, b: P): P
  {
    g.add(Mul(g, m, a), Mul(g, n, b))
  }

  lemma CombinedPlus<P(!new)>(g: Group<P>, m: int, n: int, m': int, n': int, a: P, b: P)
    requires IsGroup(g)
    ensures g.add(Combined(g, m, a, n, b), Combined(g, m', a, n', b)) == Combined(g, m + m', a, n + n', b)
  {
    hide IsGroup, Mul;
    Exchange(g, Mul(g, m, a), Mul(g, n, b), Mul(g, m', a), Mul(g, n', b));
    MulPlus(g, m, m', a);
    MulPlus(g, n, n', b);
  }

  /** Adding a multiple of one of the two. */
  lemma CombinedWith<P(!new)>(g: Group<P>, m: int, n: int, k: int, a: P, b: P)
    requires IsGroup(g)
    ensures g.add(Combined(g, m, a, n, b), Mul(g, k, a)) == Combined(g, m + k, a, n, b)
    ensures g.add(Combined(g, m, a, n, b), Mul(g, k, b)) == Combined(g, m, a, n + k, b)
  {
    hide IsGroup, Mul;
    CombinedPlus(g, m, n, k, 0, a, b);
    CombinedPlus(g, m, n, 0, k, a, b);
    MulOne(g, a);
    MulOne(g, b);
    Zero(g, Mul(g, k, a));
    Zero(g, Mul(g, k, b));
  }
}
