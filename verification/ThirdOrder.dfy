/** The 1F2 recurrence and its differential equation of third order. */
module ThirdOrder {
  import opened Reals
  import opened Chebyshev
  import opened Gegenbauer
  import opened Luke
  import opened Expansion
  import opened LukeEquations

  function Y3(m: int, x: real): real {
    Over(H(m, x), (2 * m + 3) as real)
  }

  lemma {:induction false} Y3Facts(m: int, x: real)
    requires m >= -3
    ensures Mul((2 * m + 3) as real, Y3(m, x)) == H(m, x)
    ensures Mul(QQ(m - 1), Y3(m - 1, x)) == Y3(m, x) - Y(m, x)
  {
    hide H, Y;
    var d, e := (2 * m + 3) as real, (2 * m + 1) as real;
    assert d != 0.0 && e != 0.0;
    if m < 0 {
      VNegative(m, x);
      VNegative(m - 1, x);
      ZeroRight(d);
      ZeroRight(QQ(m - 1));
      ZeroOver(d);
      ZeroOver(e);
    } else {
      HStep(m, x);
      OverBack(H(m, x), d);
      RatioOver(e, d, H(m, x), H(m - 1, x), Y(m, x));
    }
  }

  lemma {:induction false} ZeroOver(d: real)
    ensures Over(0.0, d) == 0.0
  {
  }

  lemma {:induction false} OverBack(h: real, d: real)
    requires d != 0.0
    ensures Mul(d, Over(h, d)) == h
  {
  }

  lemma {:induction false} RatioOver(e: real, d: real, h: real, h1: real, y: real)
    requires d != 0.0 && e != 0.0 && h - h1 == Mul(d, y)
    ensures Mul(Over(e, d), Over(h1, e)) == Over(h, d) - y
  {
    var q, t, s := e / d, h1 / e, h / d;
    assert q * d == e && t * e == h1 && s * d == h;
    assert (q * t) * d == h1;
    assert (q * t - (s - y)) * d == 0.0;
    ZeroFactorLeft(q * t - (s - y), d);
  }

  // ------------------------------------------------- the terms without z

  /** The sum of the weights without z; p = k + a, and al = p/(k+1), be = (p-2)/(k-1). */
  function Plain(k: real, p: real, al: real, be: real, q1: real, q2: real, q3: real, q4: real,
                 t0: real, t1: real, t2: real, t3: real, t4: real): real {
    -Mul(al, t0) + 2.0 * Mul(p - 1.0 - Mul(q1, p), t1)
    - Mul(Mul(2.0 * k - 3.0, p - 2.0 + be) - 4.0 * Mul(k, Mul(q2, p - 1.0)) + Mul(2.0 * k - 1.0, p - al), t2)
    + 2.0 * Mul(2.0 * k - p - Mul(q3, 2.0 * k - p + 1.0), t3) - Mul(Mul(q4, 2.0 - be), t4)
  }

  lemma {:induction false} PlainCore(k: real, p: real, al: real, be: real, q1: real, q2: real, q3: real, q4: real,
                                     t0: real, t1: real, t2: real, t3: real, t4: real,
                                     h0: real, h1: real, h2: real, h3: real, y0: real, y1: real, y2: real, y3: real)
    requires Mul(k + 1.0, al) == p && Mul(k - 1.0, be) == p - 2.0
    requires Mul(2.0 * k + 3.0, t0) == h0 && Mul(2.0 * k + 1.0, t1) == h1
    requires Mul(2.0 * k - 1.0, t2) == h2 && Mul(2.0 * k - 3.0, t3) == h3
    requires Mul(q1, t1) == t0 - y0 && Mul(q2, t2) == t1 - y1 && Mul(q3, t3) == t2 - y2 && Mul(q4, t4) == t3 - y3
    requires h0 - h1 == Mul(2.0 * k + 3.0, y0) && h1 - h2 == Mul(2.0 * k + 1.0, y1) && h2 - h3 == Mul(2.0 * k - 1.0, y2)
    ensures Plain(k, p, al, be, q1, q2, q3, q4, t0, t1, t2, t3, t4)
            == -Mul(al, y0 - y1) - 2.0 * y1 + 2.0 * y2 - Mul(2.0 - be, y2 - y3)
  {
    hide Mul;
    Substitute1(p, q1, t0, t1, y0);
    Substitute2(k, p, al, be, q2, t1, t2, y1);
    Substitute3(2.0 * k - p, q3, t2, t3, y2);
    Substitute4(2.0 - be, q4, t3, t4, y3);
    Collect0(k, p, al, t0, h0, y0);
    Collect1(k, p, t1, h1);
    Collect2(k, p, al, be, t2, h2);
    Collect3(k, p, be, t3, h3);
    Eliminate(k, p, al, be, h0, h1, h2, h3, y0, y1, y2, y3);
  }

  lemma {:induction false} Substitute1(p: real, q: real, t0: real, t1: real, y0: real)
    requires Mul(q, t1) == t0 - y0
    ensures Mul(p - 1.0 - Mul(q, p), t1) == Mul(p - 1.0, t1) - Mul(p, t0) + Mul(p, y0)
  {
    assert (q * p) * t1 == p * (t0 - y0);
  }

  lemma {:induction false} Substitute2(k: real, p: real, al: real, be: real, q: real, t1: real, t2: real, y1: real)
    requires Mul(q, t2) == t1 - y1
    ensures Mul(Mul(2.0 * k - 3.0, p - 2.0 + be) - 4.0 * Mul(k, Mul(q, p - 1.0)) + Mul(2.0 * k - 1.0, p - al), t2)
            == Mul(Mul(2.0 * k - 3.0, p - 2.0 + be) + Mul(2.0 * k - 1.0, p - al), t2)
               - 4.0 * Mul(Mul(k, p - 1.0), t1) + 4.0 * Mul(Mul(k, p - 1.0), y1)
  {
    hide Mul;
    var u, v := Mul(2.0 * k - 3.0, p - 2.0 + be), Mul(2.0 * k - 1.0, p - al);
    SplitThree(u, Mul(k, Mul(q, p - 1.0)), v, t2);
    MulDistributes(Mul(k, p - 1.0), t1, y1);
    PullMiddle(k, q, p - 1.0, t2);
  }

  lemma {:induction false} PullMiddle(k: real, q: real, s: real, t: real)
    ensures Mul(Mul(k, Mul(q, s)), t) == Mul(Mul(k, s), Mul(q, t))
  {
    assert (k * (q * s)) * t == (k * s) * (q * t);
  }

  lemma {:induction false} SplitThree(u: real, a: real, v: real, t: real)
    ensures Mul(u - 4.0 * a + v, t) == Mul(u + v, t) - 4.0 * Mul(a, t)
  {
  }

  lemma {:induction false} Substitute3(m: real, q: real, t2: real, t3: real, y2: real)
    requires Mul(q, t3) == t2 - y2
    ensures Mul(m - Mul(q, m + 1.0), t3) == Mul(m, t3) - Mul(m + 1.0, t2) + Mul(m + 1.0, y2)
  {
    assert (q * (m + 1.0)) * t3 == (m + 1.0) * (t2 - y2);
  }

  lemma {:induction false} Substitute4(w: real, q: real, t3: real, t4: real, y3: real)
    requires Mul(q, t4) == t3 - y3
    ensures Mul(Mul(q, w), t4) == Mul(w, t3) - Mul(w, y3)
  {
    assert (q * w) * t4 == w * (t3 - y3);
  }

  lemma {:induction false} Collect0(k: real, p: real, al: real, t0: real, h0: real, y0: real)
    requires Mul(k + 1.0, al) == p && Mul(2.0 * k + 3.0, t0) == h0
    ensures Mul(al, t0) + 2.0 * Mul(p, t0) == Mul(al, h0)
  {
    assert al * ((2.0 * k + 3.0) * t0) == al * t0 + 2.0 * (((k + 1.0) * al) * t0);
  }

  lemma {:induction false} Collect1(k: real, p: real, t1: real, h1: real)
    requires Mul(2.0 * k + 1.0, t1) == h1
    ensures 2.0 * Mul(p - 1.0, t1) + 4.0 * Mul(Mul(k, p - 1.0), t1) == 2.0 * Mul(p - 1.0, h1)
  {
    assert (p - 1.0) * ((2.0 * k + 1.0) * t1) == (p - 1.0) * t1 + 2.0 * ((k * (p - 1.0)) * t1);
  }

  lemma {:induction false} Collect2(k: real, p: real, al: real, be: real, t2: real, h2: real)
    requires Mul(k - 1.0, be) == p - 2.0 && Mul(2.0 * k - 1.0, t2) == h2
    ensures Mul(Mul(2.0 * k - 3.0, p - 2.0 + be) + Mul(2.0 * k - 1.0, p - al), t2) + 2.0 * Mul(2.0 * k - p + 1.0, t2)
            == Mul(2.0 * p - al - be, h2)
  {
    var u := (2.0 * k - 3.0) * (p - 2.0 + be) + (2.0 * k - 1.0) * (p - al) + 2.0 * (2.0 * k - p + 1.0);
    Coefficient2(k, p, al, be);
    assert u == (2.0 * p - al - be) * (2.0 * k - 1.0);
    assert u * t2 == (2.0 * p - al - be) * ((2.0 * k - 1.0) * t2);
  }

  lemma {:induction false} Coefficient2(k: real, p: real, al: real, be: real)
    requires Mul(k - 1.0, be) == p - 2.0
    ensures (2.0 * k - 3.0) * (p - 2.0 + be) + (2.0 * k - 1.0) * (p - al) + 2.0 * (2.0 * k - p + 1.0)
            == (2.0 * p - al - be) * (2.0 * k - 1.0)
  {
    assert (2.0 * k - 3.0) * be == 2.0 * ((k - 1.0) * be) - be;
    assert (2.0 * k - 1.0) * be == 2.0 * ((k - 1.0) * be) + be;
  }

  lemma {:induction false} Collect3(k: real, p: real, be: real, t3: real, h3: real)
    requires Mul(k - 1.0, be) == p - 2.0 && Mul(2.0 * k - 3.0, t3) == h3
    ensures 2.0 * Mul(2.0 * k - p, t3) - Mul(2.0 - be, t3) == Mul(2.0 - be, h3)
  {
    assert (2.0 * k - 3.0) * be == 2.0 * ((k - 1.0) * be) - be;
    assert (2.0 - be) * (2.0 * k - 3.0) == 2.0 * (2.0 * k - p) - (2.0 - be);
    assert (2.0 - be) * ((2.0 * k - 3.0) * t3) == ((2.0 - be) * (2.0 * k - 3.0)) * t3;
  }

  lemma {:induction false} Eliminate(k: real, p: real, al: real, be: real, h0: real, h1: real, h2: real, h3: real,
                                     y0: real, y1: real, y2: real, y3: real)
    requires Mul(k + 1.0, al) == p && Mul(k - 1.0, be) == p - 2.0
    requires h0 - h1 == Mul(2.0 * k + 3.0, y0) && h1 - h2 == Mul(2.0 * k + 1.0, y1) && h2 - h3 == Mul(2.0 * k - 1.0, y2)
    ensures -Mul(al, h0) + 2.0 * Mul(p - 1.0, h1) - Mul(2.0 * p - al - be, h2) + Mul(2.0 - be, h3)
            + 2.0 * Mul(p, y0) - 4.0 * Mul(Mul(k, p - 1.0), y1) + 2.0 * Mul(2.0 * k - p + 1.0, y2) + Mul(2.0 - be, y3)
            == -Mul(al, y0 - y1) - 2.0 * y1 + 2.0 * y2 - Mul(2.0 - be, y2 - y3)
  {
    EliminateH0(k, p, al, h0, h1, y0);
    EliminateH2(k, p, al, h1, h2, y1);
    EliminateH3(k, p, be, h2, h3, y2);
    hide Mul;
    EliminateSum(p, al, be, h1, h2);
    MulDistributes(al, y0, y1);
    MulDistributes(2.0 - be, y2, y3);
  }

  lemma {:induction false} EliminateH0(k: real, p: real, al: real, h0: real, h1: real, y0: real)
    requires Mul(k + 1.0, al) == p && h0 - h1 == Mul(2.0 * k + 3.0, y0)
    ensures Mul(al, h0) == Mul(al, h1) + 2.0 * Mul(p, y0) + Mul(al, y0)
  {
    assert al * ((2.0 * k + 3.0) * y0) == 2.0 * (((k + 1.0) * al) * y0) + al * y0;
  }

  lemma {:induction false} EliminateH2(k: real, p: real, al: real, h1: real, h2: real, y1: real)
    requires Mul(k + 1.0, al) == p && h1 - h2 == Mul(2.0 * k + 1.0, y1)
    ensures Mul(2.0 * (p - 1.0) - al, h1) - Mul(2.0 * (p - 1.0) - al, h2)
            == 4.0 * Mul(Mul(k, p - 1.0), y1) - 2.0 * y1 + Mul(al, y1)
  {
    assert al * ((2.0 * k + 1.0) * y1) == 2.0 * (((k + 1.0) * al) * y1) - al * y1;
    assert (p - 1.0) * ((2.0 * k + 1.0) * y1) == 2.0 * ((k * (p - 1.0)) * y1) + p * y1 - y1;
  }

  lemma {:induction false} EliminateH3(k: real, p: real, be: real, h2: real, h3: real, y2: real)
    requires Mul(k - 1.0, be) == p - 2.0 && h2 - h3 == Mul(2.0 * k - 1.0, y2)
    ensures Mul(2.0 - be, h2) - Mul(2.0 - be, h3)
            == 2.0 * Mul(2.0 * k - p + 1.0, y2) - Mul(be, y2)
    ensures Mul(2.0 - be, y2) == 2.0 * y2 - Mul(be, y2)
  {
    assert be * ((2.0 * k - 1.0) * y2) == 2.0 * (((k - 1.0) * be) * y2) + be * y2;
  }

  lemma {:induction false} EliminateSum(p: real, al: real, be: real, h1: real, h2: real)
    ensures -Mul(al, h1) + 2.0 * Mul(p - 1.0, h1) == Mul(2.0 * (p - 1.0) - al, h1)
    ensures Mul(2.0 * p - al - be, h2) == Mul(2.0 * (p - 1.0) - al, h2) + Mul(2.0 - be, h2)
  {
  }

  /** The first two indices, where the terms with a vanishing divisor are 0. */
  lemma {:induction false} PlainLow(k: real, p: real, al: real, be: real, q1: real, q2: real, q3: real, q4: real,
                                    t0: real, t1: real, h0: real, h1: real, y0: real, y1: real)
    requires Mul(k + 1.0, al) == p && Mul(2.0 * k + 3.0, t0) == h0 && Mul(2.0 * k + 1.0, t1) == h1
    requires Mul(q1, t1) == t0 - y0 && h0 - h1 == Mul(2.0 * k + 3.0, y0) && h1 == Mul(2.0 * k + 1.0, y1) && 2.0 * k + 1.0 != 0.0
    ensures Plain(k, p, al, be, q1, q2, q3, q4, t0, t1, 0.0, 0.0, 0.0) == -Mul(al, y0 - y1) - 2.0 * y1
  {
    assert (2.0 * k + 1.0) * (t1 - y1) == 0.0;
    ZeroFactorRight(2.0 * k + 1.0, t1 - y1);
    hide Mul;
    Substitute1(p, q1, t0, t1, y0);
    Collect0(k, p, al, t0, h0, y0);
    EliminateH0(k, p, al, h0, h1, y0);
    EliminateLow(k, p, al, h1, y1);
    MulDistributes(al, y0, y1);
    ZeroRight(Mul(2.0 * k - 3.0, p - 2.0 + be) - 4.0 * Mul(k, Mul(q2, p - 1.0)) + Mul(2.0 * k - 1.0, p - al));
    ZeroRight(2.0 * k - p - Mul(q3, 2.0 * k - p + 1.0));
    ZeroRight(Mul(q4, 2.0 - be));
  }

  lemma {:induction false} ZeroFactorRight(x: real, y: real)
    requires x != 0.0 && x * y == 0.0
    ensures y == 0.0
  {
  }

  lemma {:induction false} EliminateLow(k: real, p: real, al: real, h1: real, y1: real)
    requires Mul(k + 1.0, al) == p && h1 == Mul(2.0 * k + 1.0, y1)
    ensures Mul(al, h1) == 2.0 * Mul(p, y1) - Mul(al, y1) && Mul(p - 1.0, y1) == Mul(p, y1) - y1
  {
    assert al * ((2.0 * k + 1.0) * y1) == 2.0 * (((k + 1.0) * al) * y1) - al * y1;
  }

  // ------------------------------------------------- the terms with z

  lemma {:induction false} ScaledCore(f: Kind, k: real, q2: real, q3: real, t1: real, t2: real, t3: real,
                                      h1: real, h2: real, y1: real, y2: real)
    requires f.F12?
    requires Mul(2.0 * k + 1.0, t1) == h1 && Mul(2.0 * k - 1.0, t2) == h2 && h1 - h2 == Mul(2.0 * k + 1.0, y1)
    requires Mul(q2, t2) == t1 - y1 && Mul(q3, t3) == t2 - y2
    ensures Mul(SS(f, k - 1.0), t1) - 2.0 * Mul(Mul(k, SS(f, k - 2.0) - Mul(q2, SS(f, k - 1.0))), t2)
            + Mul(Mul(q3, SS(f, -(k + 1.0))), t3)
            == 2.0 * Mul(k, h2) + Mul(SS(f, k - 1.0), y1) - Mul(SS(f, -(k + 1.0)), y2)
  {
    var s1, s2, s3 := SS(f, k - 1.0), SS(f, k - 2.0), SS(f, -(k + 1.0));
    ShiftIdentity(f, k);
    hide SS;
    ScaledSubstitute(k, s1, s2, s3, q2, q3, t1, t2, t3, y1, y2);
    ScaledFirst(k, s1, t1, h1, h2, y1);
    ScaledSecond(k, s1, s2, s3, t2, h2);
  }

  lemma {:induction false} ShiftIdentity(f: Kind, k: real)
    requires f.F12?
    ensures (2.0 * k - 1.0) * SS(f, k - 1.0) - 2.0 * k * SS(f, k - 2.0) + SS(f, -(k + 1.0)) == 2.0 * k * (2.0 * k - 1.0)
  {
    var s, t := f.BP + f.CP, f.BP * f.CP;
    assert SS(f, k - 1.0) == (k - 1.0) * (k - 1.0) + (k - 1.0) * s + t;
    assert SS(f, k - 2.0) == (k - 2.0) * (k - 2.0) + (k - 2.0) * s + t;
    assert SS(f, -(k + 1.0)) == (k + 1.0) * (k + 1.0) - (k + 1.0) * s + t;
    hide SS;
    ShiftPolynomial(k, s, t);
  }

  lemma {:induction false} ShiftPolynomial(k: real, s: real, t: real)
    ensures (2.0 * k - 1.0) * ((k - 1.0) * (k - 1.0) + (k - 1.0) * s + t)
            - 2.0 * k * ((k - 2.0) * (k - 2.0) + (k - 2.0) * s + t)
            + ((k + 1.0) * (k + 1.0) - (k + 1.0) * s + t) == 2.0 * k * (2.0 * k - 1.0)
  {
    assert (2.0 * k - 1.0) * ((k - 1.0) * s) - 2.0 * k * ((k - 2.0) * s) - (k + 1.0) * s == 0.0;
    assert (2.0 * k - 1.0) * ((k - 1.0) * (k - 1.0)) - 2.0 * k * ((k - 2.0) * (k - 2.0)) + (k + 1.0) * (k + 1.0)
        == 2.0 * k * (2.0 * k - 1.0);
  }

  lemma {:induction false} ScaledSubstitute(k: real, s1: real, s2: real, s3: real, q2: real, q3: real,
                                            t1: real, t2: real, t3: real, y1: real, y2: real)
    requires Mul(q2, t2) == t1 - y1 && Mul(q3, t3) == t2 - y2
    ensures Mul(Mul(k, s2 - Mul(q2, s1)), t2) == Mul(Mul(k, s2), t2) - Mul(Mul(k, s1), t1) + Mul(Mul(k, s1), y1)
    ensures Mul(Mul(q3, s3), t3) == Mul(s3, t2) - Mul(s3, y2)
  {
    assert (k * (q2 * s1)) * t2 == (k * s1) * (t1 - y1);
    assert (q3 * s3) * t3 == s3 * (t2 - y2);
  }

  lemma {:induction false} ScaledFirst(k: real, s1: real, t1: real, h1: real, h2: real, y1: real)
    requires Mul(2.0 * k + 1.0, t1) == h1 && h1 - h2 == Mul(2.0 * k + 1.0, y1)
    ensures Mul(s1, t1) + 2.0 * Mul(Mul(k, s1), t1) - 2.0 * Mul(Mul(k, s1), y1) == Mul(s1, h2) + Mul(s1, y1)
  {
    assert s1 * ((2.0 * k + 1.0) * t1) == s1 * t1 + 2.0 * ((k * s1) * t1);
    assert s1 * ((2.0 * k + 1.0) * y1) == s1 * y1 + 2.0 * ((k * s1) * y1);
    assert s1 * h2 == s1 * h1 - s1 * ((2.0 * k + 1.0) * y1);
  }

  lemma {:induction false} ScaledSecond(k: real, s1: real, s2: real, s3: real, t2: real, h2: real)
    requires Mul(2.0 * k - 1.0, t2) == h2
    requires (2.0 * k - 1.0) * s1 - 2.0 * k * s2 + s3 == 2.0 * k * (2.0 * k - 1.0)
    ensures Mul(s3, t2) - 2.0 * Mul(Mul(k, s2), t2) == 2.0 * Mul(k, h2) - Mul(s1, h2)
  {
    assert (s3 - 2.0 * k * s2) * t2 == (2.0 * k - s1) * ((2.0 * k - 1.0) * t2);
  }

  // ------------------------------------------------- the image of T_k

  lemma {:induction false} AlphaBeta(k: nat, p: real)
    ensures var al, be := Over(p, k as real + 1.0), Over(p - 2.0, k as real - 1.0);
            Mul(k as real + 1.0, al) == p && (k != 1 ==> Mul(k as real - 1.0, be) == p - 2.0)
  {
    hide Over;
    OverBack(p, k as real + 1.0);
    if k != 1 {
      OverBack(p - 2.0, k as real - 1.0);
    }
  }

  lemma {:induction false} PlainSum(k: nat, p: real, x: real)
    ensures var r, al, be := k as real, Over(p, k as real + 1.0), Over(p - 2.0, k as real - 1.0);
            Plain(r, p, al, be, QQ(k - 1), QQ(k - 2), QQ(k - 3), QQ(k - 4),
                  Y3(k, x), Y3(k - 1, x), Y3(k - 2, x), Y3(k - 3, x), Y3(k - 4, x))
            == -Mul(p, U(k, x)) - 2.0 * Mul(r, U(k - 1, x)) - Mul(2.0 * r - p, U(k - 2, x))
  {
    hide Mul, U, Y, H, Y3, Over, QQ, Plain;
    var r, al, be := k as real, Over(p, k as real + 1.0), Over(p - 2.0, k as real - 1.0);
    AlphaBeta(k, p);
    Y3Facts(k, x);
    Y3Facts(k - 1, x);
    HStep(k, x);
    VStep(k, x);
    VStep(k - 1, x);
    AlphaTimes(r + 1.0, al, p, U(k, x));
    if k <= 1 {
      Y3Negative(k - 2, x);
      Y3Negative(k - 3, x);
      Y3Negative(k - 4, x);
      VNegative(k - 2, x);
      HLow(k, x);
      PlainLow(r, p, al, be, QQ(k - 1), QQ(k - 2), QQ(k - 3), QQ(k - 4),
               Y3(k, x), Y3(k - 1, x), H(k, x), H(k - 1, x), Y(k, x), Y(k - 1, x));
      ZeroRight(2.0 * r - p);
    } else {
      Y3Facts(k - 2, x);
      Y3Facts(k - 3, x);
      HStep(k - 1, x);
      HStep(k - 2, x);
      VStep(k - 2, x);
      PlainCore(r, p, al, be, QQ(k - 1), QQ(k - 2), QQ(k - 3), QQ(k - 4),
                Y3(k, x), Y3(k - 1, x), Y3(k - 2, x), Y3(k - 3, x), Y3(k - 4, x),
                H(k, x), H(k - 1, x), H(k - 2, x), H(k - 3, x), Y(k, x), Y(k - 1, x), Y(k - 2, x), Y(k - 3, x));
      BetaTimes(r, be, p, U(k - 2, x));
    }
  }

  lemma {:induction false} Y3Negative(m: int, x: real)
    requires m < 0
    ensures Y3(m, x) == 0.0
  {
    hide H;
    VNegative(m, x);
    ZeroOver((2 * m + 3) as real);
  }

  lemma {:induction false} HLow(k: nat, x: real)
    requires k <= 1
    ensures H(k - 1, x) == Mul(2.0 * k as real + 1.0, Y(k - 1, x))
  {
    hide Mul, Y, H;
    HStep(k - 1, x);
    VNegative(k - 2, x);
  }

  lemma {:induction false} AlphaTimes(d: real, al: real, p: real, u: real)
    requires Mul(d, al) == p
    ensures Mul(al, Mul(d, u)) == Mul(p, u)
  {
    assert al * (d * u) == (d * al) * u;
  }

  lemma {:induction false} BetaTimes(k: real, be: real, p: real, u: real)
    requires Mul(k - 1.0, be) == p - 2.0
    ensures Mul(2.0 - be, Mul(k - 1.0, u)) == Mul(2.0 * k - p, u)
  {
    assert (2.0 - be) * ((k - 1.0) * u) == 2.0 * ((k - 1.0) * u) - ((k - 1.0) * be) * u;
  }

  lemma {:induction false} ScaledSum(f: Kind, k: nat, x: real)
    requires f.F12?
    ensures var r := k as real;
            Mul(SS(f, r - 1.0), Y3(k - 1, x)) - 2.0 * Mul(Mul(r, SS(f, r - 2.0) - Mul(QQ(k - 2), SS(f, r - 1.0))), Y3(k - 2, x))
            + Mul(Mul(QQ(k - 3), SS(f, -(r + 1.0))), Y3(k - 3, x))
            == B(k, x) + Mul(f.BP + f.CP, A(k, x)) + Mul(f.BP * f.CP, DT(k, x))
  {
    hide Mul, U, Y, H, Y3, QQ, SS, DT, A, B;
    var r := k as real;
    Y3Facts(k - 1, x);
    Y3Facts(k - 2, x);
    BInBasis(k, x);
    AInBasis(k, x);
    FirstDerivative(k, x);
    if k == 0 {
      VNegative(-1, x);
      VNegative(-2, x);
    } else {
      HStep(k - 1, x);
    }
    HStep0(k, x);
    ScaledCore(f, r, QQ(k - 2), QQ(k - 3), Y3(k - 1, x), Y3(k - 2, x), Y3(k - 3, x),
               H(k - 1, x), H(k - 2, x), Y(k - 1, x), Y(k - 2, x));
    SplitShift(f, r, Y(k - 1, x), Y(k - 2, x), H(k - 2, x));
  }

  lemma {:induction false} HStep0(k: nat, x: real)
    ensures H(k - 1, x) - H(k - 2, x) == Mul(2.0 * k as real + 1.0, Y(k - 1, x))
  {
    hide Mul, Y, H;
    HStep(k - 1, x);
  }

  lemma {:induction false} SplitShift(f: Kind, r: real, y1: real, y2: real, h: real)
    requires f.F12?
    ensures 2.0 * Mul(r, h) + Mul(SS(f, r - 1.0), y1) - Mul(SS(f, -(r + 1.0)), y2)
            == Mul(Square(r - 1.0), y1) - Mul(Square(r + 1.0), y2) + Mul(2.0 * r, h)
               + Mul(f.BP + f.CP, Mul(r - 1.0, y1) + Mul(r + 1.0, y2)) + Mul(f.BP * f.CP, y1 - y2)
  {
    hide SS, Square, Mul;
    var s, t := f.BP + f.CP, f.BP * f.CP;
    ShiftedSquares(f, r, y1, y2);
    MulDistributes(s, Mul(r - 1.0, y1), Mul(r + 1.0, y2));
    MulDistributes(t, y1, y2);
    Negated(r + 1.0, y2, s);
    Fold(r, h);
  }

  lemma {:induction false} Negated(n: real, y: real, s: real)
    ensures Mul(s, Mul(-n, y)) == -Mul(s, Mul(n, y))
  {
    assert s * ((-n) * y) == -(s * (n * y));
  }

  lemma {:induction false} ShiftedSquares(f: Kind, r: real, y1: real, y2: real)
    requires f.F12?
    ensures var s, t := f.BP + f.CP, f.BP * f.CP;
            && Mul(SS(f, r - 1.0), y1) == Mul(Square(r - 1.0), y1) + Mul(s, Mul(r - 1.0, y1)) + Mul(t, y1)
            && Mul(SS(f, -(r + 1.0)), y2) == Mul(Square(r + 1.0), y2) + Mul(s, Mul(-(r + 1.0), y2)) + Mul(t, y2)
  {
    hide SS, Square, Mul;
    ShiftedProduct(f, r - 1.0, y1);
    ShiftedProduct(f, -(r + 1.0), y2);
    SquareOfNegative(r + 1.0);
  }

  lemma {:induction false} SquareOfNegative(n: real)
    ensures Square(-n) == Square(n)
  {
  }

  lemma {:induction false} ShiftedProduct(f: Kind, n: real, y: real)
    requires f.F12?
    ensures Mul(SS(f, n), y) == Mul(Square(n), y) + Mul(f.BP + f.CP, Mul(n, y)) + Mul(f.BP * f.CP, y)
  {
    var b, c := f.BP, f.CP;
    assert (n + b) * (n + c) == n * n + (b + c) * n + b * c;
    assert ((n + b) * (n + c)) * y == (n * n) * y + (b + c) * (n * y) + (b * c) * y;
  }

  // ------------------------------------------------- the weights

  /** The z part of the weighted sum. */
  function ZSum(f: Kind, r: real, q2: real, q3: real, t1: real, t2: real, t3: real): real
    requires f.F12?
  {
    Mul(SS(f, r - 1.0), t1) - 2.0 * Mul(Mul(r, SS(f, r - 2.0) - Mul(q2, SS(f, r - 1.0))), t2)
    + Mul(Mul(q3, SS(f, -(r + 1.0))), t3)
  }

  lemma {:induction false} Weight2Split(z: real, r: real, p: real, al: real, be: real, q2: real, sz: real)
    requires Mul(r + 1.0, al) == p && Mul(r - 1.0, be) == p - 2.0 && r + 1.0 != 0.0 && r - 1.0 != 0.0
    ensures Mul(r, Mul(Mul(2.0 * r - 3.0, p - 2.0), Over(1.0, r - 1.0)) - 4.0 * Mul(q2, p - 1.0)
                   + Mul(Mul(2.0 * r - 1.0, p), Over(1.0, r + 1.0)) + 2.0 * Mul(z, sz))
            == Mul(2.0 * r - 3.0, p - 2.0 + be) - 4.0 * Mul(r, Mul(q2, p - 1.0)) + Mul(2.0 * r - 1.0, p - al)
               + 2.0 * Mul(z, Mul(r, sz))
  {
    SplitBy(r, r - 1.0, 2.0 * r - 3.0, p - 2.0, be);
    SplitBy(r, r + 1.0, 2.0 * r - 1.0, p, al);
    hide Over;
    var u, v := Mul(Mul(2.0 * r - 3.0, p - 2.0), Over(1.0, r - 1.0)), Mul(Mul(2.0 * r - 1.0, p), Over(1.0, r + 1.0));
    SplitFour(r, u, Mul(q2, p - 1.0), v, Mul(z, sz));
    MulSwap(r, z, sz);
  }

  lemma {:induction false} SplitFour(r: real, u: real, a: real, v: real, b: real)
    ensures Mul(r, u - 4.0 * a + v + 2.0 * b) == Mul(r, u) - 4.0 * Mul(r, a) + Mul(r, v) + 2.0 * Mul(r, b)
  {
  }

  /** r w p / d, where e = p / d and d is r + 1 or r - 1. */
  lemma {:induction false} SplitBy(r: real, d: real, w: real, p: real, e: real)
    requires d != 0.0 && Mul(d, e) == p
    ensures Mul(r, Mul(Mul(w, p), Over(1.0, d))) == Mul(w, p + Mul(r - d, e))
  {
    var i := 1.0 / d;
    assert i * d == 1.0;
    assert (d * e) * i == (i * d) * e;
    assert p * i == e;
    assert r * ((w * p) * i) == w * (r * (p * i));
    assert w * (r * e) == w * (d * e + (r - d) * e);
  }

  lemma {:induction false} Weight4Split(r: real, p: real, be: real)
    requires Mul(r - 1.0, be) == p - 2.0 && r - 1.0 != 0.0
    ensures Mul(2.0 * r - p, Over(1.0, r - 1.0)) == 2.0 - be
  {
    var d := r - 1.0;
    var i := 1.0 / d;
    assert i * d == 1.0;
    assert (2.0 * d - d * be) * i == (i * d) * (2.0 - be);
    assert 2.0 * r - p == 2.0 * d - d * be;
  }

  lemma {:induction false} WeightsAt(f: Kind, W: real, k: nat)
    requires W != 0.0 && f.F12?
    ensures var z, r, p := 4.0 / W, k as real, k as real + f.AP;
            var al, be := Over(p, r + 1.0), Over(p - 2.0, r - 1.0);
            && W0(f, W, k) == -al
            && W1(f, W, k - 1) == 2.0 * (p - 1.0 - Mul(QQ(k - 1), p)) + Mul(z, SS(f, r - 1.0))
            && W3(f, W, k - 3) == 2.0 * (2.0 * r - p - Mul(QQ(k - 3), 2.0 * r - p + 1.0)) + Mul(z, Mul(QQ(k - 3), SS(f, -(r + 1.0))))
  {
    hide SS, QQ, Over;
    assert (k - 1) as real == k as real - 1.0 && (k - 3) as real == k as real - 3.0;
    assert (k - 1) as real + f.AP + 1.0 == k as real + f.AP;
    assert -((k - 3) as real + 4.0) == -(k as real + 1.0);
  }

  lemma {:induction false} WeightsAt2(f: Kind, W: real, k: nat)
    requires W != 0.0 && f.F12? && k != 1
    ensures var z, r, p := 4.0 / W, k as real, k as real + f.AP;
            var al, be := Over(p, r + 1.0), Over(p - 2.0, r - 1.0);
            && W2(f, W, k - 2) == -(Mul(2.0 * r - 3.0, p - 2.0 + be) - 4.0 * Mul(r, Mul(QQ(k - 2), p - 1.0)) + Mul(2.0 * r - 1.0, p - al))
                                  - 2.0 * Mul(z, Mul(r, SS(f, r - 2.0) - Mul(QQ(k - 2), SS(f, r - 1.0))))
            && W4(f, W, k - 4) == -Mul(QQ(k - 4), 2.0 - be)
  {
    hide SS, QQ, Over, Mul;
    var z, r, p := 4.0 / W, k as real, k as real + f.AP;
    var al, be := Over(p, r + 1.0), Over(p - 2.0, r - 1.0);
    AlphaBeta(k, p);
    W2Is(f, W, k);
    Weight2Split(z, r, p, al, be, QQ(k - 2), SS(f, r - 2.0) - Mul(QQ(k - 2), SS(f, r - 1.0)));
    Weight4Split(r, p, be);
    W4Is(f, W, k);
  }

  lemma {:induction false} W4Is(f: Kind, W: real, k: nat)
    requires W != 0.0 && f.F12?
    ensures W4(f, W, k - 4) == -Mul(QQ(k - 4), Mul(2.0 * k as real - (k as real + f.AP), Over(1.0, k as real - 1.0)))
  {
    hide QQ, Over, Mul;
    assert (k - 4) as real == k as real - 4.0;
    assert (k - 4) as real + 4.0 - f.AP == 2.0 * k as real - (k as real + f.AP);
    assert (k - 4) as real + 3.0 == k as real - 1.0;
  }

  lemma {:induction false} W2Is(f: Kind, W: real, k: nat)
    requires W != 0.0 && f.F12?
    ensures var z, r, p := 4.0 / W, k as real, k as real + f.AP;
            W2(f, W, k - 2)
            == -Mul(r, Mul(Mul(2.0 * r - 3.0, p - 2.0), Over(1.0, r - 1.0)) - 4.0 * Mul(QQ(k - 2), p - 1.0)
                       + Mul(Mul(2.0 * r - 1.0, p), Over(1.0, r + 1.0))
                       + 2.0 * Mul(z, SS(f, r - 2.0) - Mul(QQ(k - 2), SS(f, r - 1.0))))
  {
    hide SS, QQ, Over, Mul;
    var r, s, p := k as real, (k - 2) as real, k as real + f.AP;
    assert s == r - 2.0;
    assert s + 2.0 == r && s + 1.0 == r - 1.0 && s + 3.0 == r + 1.0;
    assert s + f.AP + 1.0 == p - 1.0 && s + f.AP + 2.0 == p && s + f.AP == p - 2.0;
    assert 2.0 * s + 1.0 == 2.0 * r - 3.0 && 2.0 * s + 3.0 == 2.0 * r - 1.0;
  }

  lemma {:induction false} CombineWeights(z: real, al: real, w1: real, s1: real, w2: real, s2: real, w3: real, s3: real, w4: real,
                                          t0: real, t1: real, t2: real, t3: real, t4: real)
    ensures Mul(-al, t0) + Mul(2.0 * w1 + Mul(z, s1), t1) + Mul(-w2 - 2.0 * Mul(z, s2), t2) + Mul(2.0 * w3 + Mul(z, s3), t3) + Mul(-w4, t4)
            == (-Mul(al, t0) + 2.0 * Mul(w1, t1) - Mul(w2, t2) + 2.0 * Mul(w3, t3) - Mul(w4, t4))
               + Mul(z, Mul(s1, t1) - 2.0 * Mul(s2, t2) + Mul(s3, t3))
  {
    assert (z * s1) * t1 == z * (s1 * t1);
    assert (z * s2) * t2 == z * (s2 * t2);
    assert (z * s3) * t3 == z * (s3 * t3);
  }

  /** The weighted sum is a part without z and z times a part. */
  lemma {:induction false} WeightedSum12(f: Kind, W: real, k: nat, x: real)
    requires W != 0.0 && f.F12?
    ensures var z, r, p := 4.0 / W, k as real, k as real + f.AP;
            var al, be := Over(p, r + 1.0), Over(p - 2.0, r - 1.0);
            Mul(W0(f, W, k), Y3(k, x)) + Mul(W1(f, W, k - 1), Y3(k - 1, x)) + Mul(W2(f, W, k - 2), Y3(k - 2, x))
            + Mul(W3(f, W, k - 3), Y3(k - 3, x)) + Mul(W4(f, W, k - 4), Y3(k - 4, x))
            == Plain(r, p, al, be, QQ(k - 1), QQ(k - 2), QQ(k - 3), QQ(k - 4), Y3(k, x), Y3(k - 1, x), Y3(k - 2, x), Y3(k - 3, x), Y3(k - 4, x))
               + Mul(z, ZSum(f, r, QQ(k - 2), QQ(k - 3), Y3(k - 1, x), Y3(k - 2, x), Y3(k - 3, x)))
  {
    hide SS, QQ, Over, Mul, W0, W1, W2, W3, W4, Y3;
    var z, r, p := 4.0 / W, k as real, k as real + f.AP;
    var al, be := Over(p, r + 1.0), Over(p - 2.0, r - 1.0);
    var q1, q2, q3, q4 := QQ(k - 1), QQ(k - 2), QQ(k - 3), QQ(k - 4);
    var w1, s1 := p - 1.0 - Mul(q1, p), SS(f, r - 1.0);
    var w2 := Mul(2.0 * r - 3.0, p - 2.0 + be) - 4.0 * Mul(r, Mul(q2, p - 1.0)) + Mul(2.0 * r - 1.0, p - al);
    var s2 := Mul(r, SS(f, r - 2.0) - Mul(q2, SS(f, r - 1.0)));
    var w3, s3 := 2.0 * r - p - Mul(q3, 2.0 * r - p + 1.0), Mul(q3, SS(f, -(r + 1.0)));
    WeightsAt(f, W, k);
    if k == 1 {
      Y3Negative(k - 2, x);
      Y3Negative(k - 4, x);
      ZeroRight(W2(f, W, k - 2));
      ZeroRight(W4(f, W, k - 4));
      ZeroRight(-w2 - 2.0 * Mul(z, s2));
      ZeroRight(-Mul(q4, 2.0 - be));
    } else {
      WeightsAt2(f, W, k);
    }
    CombineWeights(z, al, w1, s1, w2, s2, w3, s3, Mul(q4, 2.0 - be), Y3(k, x), Y3(k - 1, x), Y3(k - 2, x), Y3(k - 3, x), Y3(k - 4, x));
  }

  lemma {:induction false} Expands12(f: Kind, W: real, x: real, k: int)
    requires W != 0.0 && f.F12? && k >= 0
    ensures Image(f, W, x, k) == Mul(W0(f, W, k), Y3(k, x)) + Mul(W1(f, W, k - 1), Y3(k - 1, x)) + Mul(W2(f, W, k - 2), Y3(k - 2, x))
                                 + Mul(W3(f, W, k - 3), Y3(k - 3, x)) + Mul(W4(f, W, k - 4), Y3(k - 4, x))
  {
    hide SS, QQ, Over, Mul, W0, W1, W2, W3, W4, Y3, Plain, A, B, T, DT, DDT, DDDT, U, Image;
    var r, p := k as real, k as real + f.AP;
    WeightedSum12(f, W, k, x);
    PlainSum(k, p, x);
    ScaledSum(f, k, x);
    ImageIs12(f, W, x, k);
  }

  lemma {:induction false} ImageIs12(f: Kind, W: real, x: real, k: nat)
    requires W != 0.0 && f.F12?
    ensures var r, p := k as real, k as real + f.AP;
            Image(f, W, x, k) == -Mul(p, U(k, x)) - 2.0 * Mul(r, U(k - 1, x)) - Mul(2.0 * r - p, U(k - 2, x))
                                 + Mul(4.0 / W, B(k, x) + Mul(f.BP + f.CP, A(k, x)) + Mul(f.BP * f.CP, DT(k, x)))
  {
    hide Mul, T, DT, DDT, DDDT, U, Operator;
    var r, a := k as real, f.AP;
    if k == 0 {
      ImageAtZero12(f, W, x);
    } else {
      FirstBySecond(k, x);
      DTTimesX(k, x);
      PlainImage(r, a, U(k, x), U(k - 1, x), U(k - 2, x), 2.0 * T(k, x));
      OperatorIs12(f, W, x, T(k, x), DT(k, x), DDT(k, x), DDDT(k, x), A(k, x), B(k, x));
    }
  }

  lemma {:induction false} ImageAtZero12(f: Kind, W: real, x: real)
    requires W != 0.0 && f.F12?
    ensures Image(f, W, x, 0) == -Mul(0.0 + f.AP, U(0, x)) - 2.0 * Mul(0.0, U(-1, x)) - Mul(2.0 * 0.0 - (0.0 + f.AP), U(-2, x))
                                 + Mul(4.0 / W, B(0, x) + Mul(f.BP + f.CP, A(0, x)) + Mul(f.BP * f.CP, DT(0, x)))
  {
    UBase(x);
    assert DT(0, x) == 0.0 && A(0, x) == 0.0 && B(0, x) == 0.0;
    ZeroRight(1.0 + x);
    ZeroRight(f.BP + f.CP);
    ZeroRight(f.BP * f.CP);
    ZeroRight(4.0 / W);
    assert Image(f, W, x, 0) == -f.AP;
  }

  lemma {:induction false} OperatorIs12(f: Kind, W: real, x: real, y: real, y1: real, y2: real, y3: real, a: real, b: real)
    requires W != 0.0 && f.F12? && a == Mul(1.0 + x, y2) && b == a + Mul(1.0 + x, Mul(1.0 + x, y3))
    ensures Operator(f, W, x, y, y1, y2, y3)
            == Mul(4.0 / W, b + Mul(f.BP + f.CP, a) + Mul(f.BP * f.CP, y1)) - 2.0 * Mul(1.0 + x, y1) - Mul(f.AP, 2.0 * y)
  {
  }

  lemma {:induction false} PlainImage(r: real, a: real, u0: real, u1: real, u2: real, twice: real)
    requires twice == u0 - u2
    ensures -Mul(r, u0 + 2.0 * u1 + u2) - Mul(a, twice) == -Mul(r + a, u0) - 2.0 * Mul(r, u1) - Mul(2.0 * r - (r + a), u2)
  {
  }

  // ------------------------------------------------- the recurrence

  lemma {:induction false} Solves12(f: Kind, W: real, x: nat, l: seq<real>)
    requires W != 0.0 && f.F12? && x as real + f.AP != 0.0
    ensures Annihilates(AllWeights(f, W), x, Term(f, W, x, l), l)
  {
    hide SS, Mul, Over, Quotient, Weight12, W0, W1, W2, W3, W4;
    var z, r := 4.0 / W, x as real;
    var PP, q, s := r + f.AP, Ratio12(r), Shift12(f, r);
    var A1, A2, A3, A4 := Nth(l, 0), Nth(l, 1), Nth(l, 2), Nth(l, 3);
    var sum := Sum12(f, z, r, PP, q, s, A1, A2, A3, A4);
    SolveWeights12(f, W, x);
    SolveCore12(PP, r + 1.0, sum);
    SolveSum12(f, z, r, PP, q, s, A1, A2, A3, A4);
  }

  lemma {:induction false} SolveCore12(PP: real, X1: real, sum: real)
    requires PP != 0.0 && X1 != 0.0
    ensures Mul(-Over(PP, X1), Quotient(Mul(sum, X1), PP)) == -sum
  {
    var p, q := PP / X1, (sum * X1) / PP;
    assert p * X1 == PP && q * PP == sum * X1;
    assert (p * q - sum) * X1 == 0.0 by {
      assert (p * q) * X1 == q * (p * X1);
    }
    ZeroFactorLeft(p * q - sum, X1);
  }

  /** The weights, as the factors of the source. */
  lemma {:induction false} SolveWeights12(f: Kind, W: real, x: nat)
    requires W != 0.0 && f.F12?
    ensures var z, r := 4.0 / W, x as real;
            var PP, q, s := r + f.AP, Ratio12(r), Shift12(f, r);
            && W0(f, W, x) == -Over(PP, r + 1.0)
            && W1(f, W, x) == Weight12(f, z, r, PP, q, s, 1)
            && W2(f, W, x) == -Mul(r + 2.0, Weight12(f, z, r, PP, q, s, 2))
            && W3(f, W, x) == Weight12(f, z, r, PP, q, s, 3)
            && W4(f, W, x) == -Mul(q, Quotient(r + 4.0 - f.AP, r + 3.0))
  {
    hide QQ, SS, Ratio12, Shift12, Weight12, Over, Mul, Quotient;
    var z, r := 4.0 / W, x as real;
    var PP, q, s := r + f.AP, Ratio12(r), Shift12(f, r);
    RatiosAre(f, x);
    SolveWeight1(f, z, r, PP, q, s);
    SolveWeight2(f, z, r, PP, q, s);
    SolveWeight3(f, z, r, PP, q, s);
    SolveWeight4(r + 4.0 - f.AP, r + 3.0);
  }

  lemma {:induction false} RatiosAre(f: Kind, x: nat)
    requires f.F12?
    ensures QQ(x) == Ratio12(x as real) && SS(f, x as real) == Shift12(f, x as real)
  {
    assert (2 * x + 3) as real == 2.0 * x as real + 3.0 && (2 * x + 5) as real == 2.0 * x as real + 5.0;
  }

  lemma {:induction false} SolveWeight1(f: Kind, z: real, r: real, PP: real, q: real, s: real)
    requires f.F12? && r >= 0.0 && PP == r + f.AP
    ensures 2.0 * (PP - Mul(q, PP + 1.0)) + Mul(z, s) == Weight12(f, z, r, PP, q, s, 1)
  {
  }

  lemma {:induction false} SolveWeight4(p: real, d: real)
    requires d != 0.0
    ensures Mul(p, Over(1.0, d)) == Quotient(p, d)
  {
    var i := 1.0 / d;
    assert i * d == 1.0;
    QuotientUnique(p, d, p * i);
  }

  lemma {:induction false} SolveWeight2(f: Kind, z: real, r: real, PP: real, q: real, s: real)
    requires f.F12? && r >= 0.0 && PP == r + f.AP
    ensures Mul(Mul(2.0 * r + 1.0, PP), Over(1.0, r + 1.0)) - 4.0 * Mul(q, PP + 1.0)
            + Mul(Mul(2.0 * r + 3.0, PP + 2.0), Over(1.0, r + 3.0)) + 2.0 * Mul(z, s - Mul(q, SS(f, r + 1.0)))
            == Weight12(f, z, r, PP, q, s, 2)
  {
    SolveWeight4((2.0 * r + 1.0) * PP, r + 1.0);
    SolveWeight4((2.0 * r + 3.0) * (PP + 2.0), r + 3.0);
    hide Over;
    var u, v := r + 1.0 + f.BP, r + 1.0 + f.CP;
    assert (z * 2.0) * (s - (q * u) * v) == 2.0 * (z * (s - q * (u * v)));
    assert (q * 4.0) * (PP + 1.0) == 4.0 * (q * (PP + 1.0));
  }

  lemma {:induction false} SolveWeight3(f: Kind, z: real, r: real, PP: real, q: real, s: real)
    requires f.F12? && r >= 0.0 && PP == r + f.AP
    ensures 2.0 * (r + 3.0 - f.AP - Mul(q, r + 4.0 - f.AP)) + Mul(z, Mul(q, SS(f, -(r + 4.0)))) == Weight12(f, z, r, PP, q, s, 3)
  {
    var u, v := r + 4.0 - f.BP, r + 4.0 - f.CP;
    assert SS(f, -(r + 4.0)) == u * v by {
      assert (-u) * (-v) == u * v;
    }
    hide SS;
    assert z * (q * (u * v)) == ((q * z) * u) * v;
  }

  lemma {:induction false} SolveSum12(f: Kind, z: real, r: real, PP: real, q: real, s: real,
                                      A1: real, A2: real, A3: real, A4: real)
    requires f.F12? && r >= 0.0
    ensures Mul(Weight12(f, z, r, PP, q, s, 1), A1) + (Mul(-Mul(r + 2.0, Weight12(f, z, r, PP, q, s, 2)), A2)
            + (Mul(Weight12(f, z, r, PP, q, s, 3), A3) + Mul(-Mul(q, Quotient(r + 4.0 - f.AP, r + 3.0)), A4)))
            == Sum12(f, z, r, PP, q, s, A1, A2, A3, A4)
  {
    hide Weight12;
    var w := Weight12(f, z, r, PP, q, s, 2);
    assert (A2 * (r + 2.0)) * w == ((r + 2.0) * w) * A2;
    var t, d := r + 4.0 - f.AP, r + 3.0;
    var p := t / d;
    assert t == p * d;
    QuotientUnique((A4 * q) * t, d, (q * p) * A4);
  }
}
