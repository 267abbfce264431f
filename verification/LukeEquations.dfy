/** Luke's backward recurrences solve the hypergeometric differential equations, up to one explicit
    polynomial that the truncation leaves. The argument x of this module is 2z/w - 1. */
module LukeEquations {
  import opened Reals
  import opened Chebyshev
  import opened Gegenbauer
  import opened Luke
  import opened Expansion

  /** Division that gives 0 where the divisor is 0; such terms are multiplied by 0 below. */
  function Over(p: real, d: real): real {
    if d == 0.0 then 0.0 else p / d
  }

  lemma {:induction false} OverTimes(p: real, d: real, u: real)
    requires d != 0.0
    ensures Mul(Over(p, d), Mul(d, u)) == Mul(p, u)
  {
    var q := p / d;
    assert p == q * d;
    assert q * (d * u) == (q * d) * u;
  }

  // ------------------------------------------------- the equations in x

  /** The parameters of the equations of second order: sigma, s and lambda are the coefficients of
      2 (1+x)^2 y'', 2 (1+x) y' and 2 y. */
  datatype Order2 = Order2(c: real, sg: real, s: real, lam: real)

  function Parameters(f: Kind): Order2
    requires f.F01? || f.F11? || f.F21?
  {
    match f
    case F01(c) => Order2(c, 0.0, 0.0, 1.0)
    case F11(a, c) => Order2(c, 0.0, 1.0, a)
    case F21(a, b, c) => Order2(c, 1.0, a + b + 1.0, a * b)
  }

  /** Twice the differential operator, applied to a function with values y, y', y'', y''' at x. */
  function Operator(f: Kind, W: real, x: real, y: real, y1: real, y2: real, y3: real): real
    requires W != 0.0
  {
    if f.F10? then
      Mul(x + (1.0 - 2.0 / W), y1) + Mul(f.AP, y)
    else if f.F12? then
      var a := Mul(1.0 + x, y2);
      Mul(4.0 / W, a + Mul(1.0 + x, Mul(1.0 + x, y3)) + Mul(f.BP + f.CP, a) + Mul(f.BP * f.CP, y1))
      - 2.0 * Mul(1.0 + x, y1) - Mul(f.AP, 2.0 * y)
    else
      var o := Parameters(f);
      Mul(4.0 / W, Mul(1.0 + x, y2) + Mul(o.c, y1)) - Mul(o.sg, 2.0 * Mul(1.0 + x, Mul(1.0 + x, y2)))
      - Mul(o.s, 2.0 * Mul(1.0 + x, y1)) - Mul(o.lam, 2.0 * y)
  }

  /** The operator on T_k, with the half that goes with the first coefficient. */
  function Image(f: Kind, W: real, x: real, k: int): real
    requires W != 0.0
  {
    if k < 0 then 0.0
    else if k == 0 then Operator(f, W, x, 0.5, 0.0, 0.0, 0.0)
    else Operator(f, W, x, T(k, x), DT(k, x), DDT(k, x), DDDT(k, x))
  }

  /** The polynomials in which the image has as few terms as the recurrence. */
  function Basis(f: Kind, k: int, x: real): real {
    if f.F10? then U(k, x) else if f.F12? then Over(H(k, x), (2 * k + 3) as real) else Y(k, x)
  }

  // ------------------------------------------------- the weights

  function Q(o: Order2, k: real): real {
    Mul(o.sg, Falling(k)) + Mul(o.s, k) + o.lam
  }

  function E1(o: Order2, z: real, k: real): real {
    Mul(z, k - 1.0 + o.c) - 4.0 * Mul(o.sg, k - 1.0) - 2.0 * o.s
  }

  function E2(o: Order2, z: real, k: real): real {
    Mul(z, k + 1.0 - o.c) - 4.0 * Mul(o.sg, k + 1.0) + 2.0 * o.s
  }

  function QQ(x: int): real {
    Over((2 * x + 3) as real, (2 * x + 5) as real)
  }

  function SS(f: Kind, x: real): real
    requires f.F12?
  {
    (x + f.BP) * (x + f.CP)
  }

  function W0(f: Kind, W: real, x: int): real
    requires W != 0.0
  {
    if f.F10? then (x as real + f.AP) / 2.0
    else if f.F12? then -Over(x as real + f.AP, x as real + 1.0)
    else -Over(Q(Parameters(f), x as real), x as real + 1.0)
  }

  function W1(f: Kind, W: real, x: int): real
    requires W != 0.0
  {
    var r := x as real;
    if f.F10? then Mul(1.0 - 2.0 / W, r + 1.0)
    else if f.F12? then 2.0 * (r + f.AP - Mul(QQ(x), r + f.AP + 1.0)) + Mul(4.0 / W, SS(f, r))
    else E1(Parameters(f), 4.0 / W, r + 1.0) + Over(Q(Parameters(f), r + 1.0), r + 2.0)
  }

  function W2(f: Kind, W: real, x: int): real
    requires W != 0.0
  {
    var r := x as real;
    if f.F10? then (r + 2.0 - f.AP) / 2.0
    else if f.F12? then
      -Mul(r + 2.0, Mul(Mul(2.0 * r + 1.0, r + f.AP), Over(1.0, r + 1.0)) - 4.0 * Mul(QQ(x), r + f.AP + 1.0)
                    + Mul(Mul(2.0 * r + 3.0, r + f.AP + 2.0), Over(1.0, r + 3.0))
                    + 2.0 * Mul(4.0 / W, SS(f, r) - Mul(QQ(x), SS(f, r + 1.0))))
    else E2(Parameters(f), 4.0 / W, r + 2.0) + Over(Q(Parameters(f), -(r + 2.0)), r + 1.0)
  }

  function W3(f: Kind, W: real, x: int): real
    requires W != 0.0
  {
    var r := x as real;
    if f.F10? then 0.0
    else if f.F12? then
      2.0 * (r + 3.0 - f.AP - Mul(QQ(x), r + 4.0 - f.AP)) + Mul(4.0 / W, Mul(QQ(x), SS(f, -(r + 4.0))))
    else -Over(Q(Parameters(f), -(r + 3.0)), r + 2.0)
  }

  function W4(f: Kind, W: real, x: int): real
    requires W != 0.0
  {
    var r := x as real;
    if f.F12? then -Mul(QQ(x), Mul(r + 4.0 - f.AP, Over(1.0, r + 3.0))) else 0.0
  }

  function AllWeights(f: Kind, W: real): Weights
    requires W != 0.0
  {
    Weights(k => W0(f, W, k), k => W1(f, W, k), k => W2(f, W, k), k => W3(f, W, k), k => W4(f, W, k))
  }

  // ------------------------------------------------- first order

  lemma {:induction false} Expands10(f: Kind, W: real, x: real, k: int)
    requires W != 0.0 && f.F10? && k >= 0
    ensures Image(f, W, x, k) == Mul(W0(f, W, k), U(k, x)) + Mul(W1(f, W, k - 1), U(k - 1, x)) + Mul(W2(f, W, k - 2), U(k - 2, x))
  {
    hide U, T, DT, DDT, DDDT, Y;
    UBase(x);
    if k == 0 {
      VNegative(-1, x);
      Image10Zero(x + (1.0 - 2.0 / W), f.AP, 1.0 - 2.0 / W);
    } else {
      FirstBySecond(k, x);
      FirstDerivative(k, x);
      UNext(k - 1, x);
      Core10(x, 1.0 - 2.0 / W, f.AP, k as real, T(k, x), U(k, x), U(k - 1, x), U(k - 2, x));
    }
  }

  lemma {:induction false} Image10Zero(p: real, a: real, b: real)
    ensures Mul(p, 0.0) + Mul(a, 0.5) == Mul((0.0 + a) / 2.0, 1.0) + Mul(Mul(b, 0.0), 0.0) + Mul((0.0 - a) / 2.0, 0.0)
  {
  }

  lemma {:induction false} Core10(x: real, b: real, a: real, k: real, t: real, u0: real, u1: real, u2: real)
    requires 2.0 * t == u0 - u2 && u0 + u2 == 2.0 * Mul(x, u1)
    ensures Mul(x + b, Mul(k, u1)) + Mul(a, t) == Mul((k + a) / 2.0, u0) + Mul(Mul(b, k), u1) + Mul((k - a) / 2.0, u2)
  {
    assert (x + b) * (k * u1) == k * (x * u1) + (b * k) * u1;
    assert k * (2.0 * (x * u1)) == k * u0 + k * u2;
  }

  lemma {:induction false} Solves10(f: Kind, W: real, x: nat, l: seq<real>)
    requires W != 0.0 && f.F10? && x as real + f.AP != 0.0
    ensures Mul(W0(f, W, x), Term(f, W, x, l)) + (Mul(W1(f, W, x), Nth(l, 0)) + Mul(W2(f, W, x), Nth(l, 1))) == 0.0
  {
    var r := x as real;
    SolvesCore10(f.AP, 1.0 - 2.0 / W, 2.0 - 4.0 / W, r, Nth(l, 0), Nth(l, 1));
  }

  lemma {:induction false} SolvesCore10(a: real, b: real, afac: real, r: real, A1: real, A2: real)
    requires r + a != 0.0 && afac == 2.0 * b
    ensures Mul((r + a) / 2.0, Quotient(-(Mul(Mul(r + 1.0, afac), A1) + Mul(r + 1.0 + (1.0 - a), A2)), r + 1.0 - (1.0 - a)))
            + (Mul(Mul(b, r + 1.0), A1) + Mul((r + 2.0 - a) / 2.0, A2)) == 0.0
  {
    var n := -(Mul(Mul(r + 1.0, afac), A1) + Mul(r + 1.0 + (1.0 - a), A2));
    var d := r + 1.0 - (1.0 - a);
    HalfTimes(n, d);
    assert ((r + 1.0) * (2.0 * b)) * A1 == 2.0 * ((b * (r + 1.0)) * A1);
  }

  lemma {:induction false} HalfTimes(n: real, d: real)
    requires d != 0.0
    ensures Mul(d / 2.0, Quotient(n, d)) == n / 2.0
  {
    var q := n / d;
    assert n == q * d;
  }

  // ------------------------------------------------- second order

  lemma {:induction false} Expands2(f: Kind, W: real, x: real, k: int)
    requires W != 0.0 && (f.F01? || f.F11? || f.F21?) && k >= 0
    ensures Image(f, W, x, k) == Mul(W0(f, W, k), Y(k, x)) + Mul(W1(f, W, k - 1), Y(k - 1, x))
                                 + Mul(W2(f, W, k - 2), Y(k - 2, x)) + Mul(W3(f, W, k - 3), Y(k - 3, x))
  {
    hide U, T, DT, DDT, DDDT, Y, A, Mul, Over, Q, E1, E2, Falling, Rising;
    var o, z, r := Parameters(f), 4.0 / W, k as real;
    ImageInBasis2(f, W, x, k);
    VStep(k, x);
    OverTimes(Q(o, r), r + 1.0, U(k, x));
    TailTerm(o, x, k);
    GroupTerms(Over(Q(o, r), r + 1.0), Over(Q(o, -r), r - 1.0), E1(o, z, r), E2(o, z, r),
               Y(k, x), Y(k - 1, x), Y(k - 2, x), Y(k - 3, x));
  }

  lemma {:induction false} GroupTerms(p: real, q: real, e1: real, e2: real, y0: real, y1: real, y2: real, y3: real)
    ensures Mul(-p, y0) + Mul(e1 + p, y1) + Mul(e2 + q, y2) + Mul(-q, y3)
            == -Mul(p, y0 - y1) + Mul(e1, y1) + Mul(e2, y2) + Mul(q, y2 - y3)
  {
  }

  lemma {:induction false} TailTerm(o: Order2, x: real, k: nat)
    ensures Mul(Over(Q(o, -(k as real)), k as real - 1.0), Y(k - 2, x) - Y(k - 3, x)) == Mul(Q(o, -(k as real)), U(k - 2, x))
  {
    hide U, Y, Over, Q, Mul;
    if k <= 1 {
      VNegative(k - 2, x);
      VNegative(k - 3, x);
      ZeroRight(Q(o, -(k as real)));
      ZeroRight(Over(Q(o, -(k as real)), k as real - 1.0));
    } else {
      VStep(k - 2, x);
      OverTimes(Q(o, -(k as real)), k as real - 1.0, U(k - 2, x));
    }
  }

  lemma {:induction false} ImageInBasis2(f: Kind, W: real, x: real, k: nat)
    requires W != 0.0 && (f.F01? || f.F11? || f.F21?)
    ensures var o, z, r := Parameters(f), 4.0 / W, k as real;
            Image(f, W, x, k) == -Mul(Q(o, r), U(k, x)) + Mul(E1(o, z, r), Y(k - 1, x)) + Mul(E2(o, z, r), Y(k - 2, x))
                                 + Mul(Q(o, -r), U(k - 2, x))
  {
    hide U, T, DT, DDT, DDDT, Y, Mul, Q, E1, E2, Falling, Rising, Parameters;
    var o, z, r := Parameters(f), 4.0 / W, k as real;
    if k == 0 {
      UBase(x);
      VNegative(-1, x);
      VNegative(-2, x);
      ImageZero2(o, z, x);
    } else {
      FirstBySecond(k, x);
      FirstDerivative(k, x);
      DTTimesX(k, x);
      AInBasis(k, x);
      ATimesX(k, x);
      ZPart(o, z, r, DT(k, x), Y(k - 1, x), Y(k - 2, x));
      SgPart(o.sg, A(k, x), r, Y(k - 1, x), Y(k - 2, x), U(k, x), U(k - 2, x), 2.0 * Mul(1.0 + x, A(k, x)));
      SPart(o.s, r, U(k, x), U(k - 1, x), U(k - 2, x), Y(k - 1, x) - Y(k - 2, x), 2.0 * Mul(1.0 + x, DT(k, x)));
      MulDistributes(o.lam, U(k, x), U(k - 2, x));
      SplitQ(o, r, U(k, x));
      SplitQ(o, -r, U(k - 2, x));
      NegatedIndex(o, r, U(k - 2, x));
      SplitE(o, z, r, Y(k - 1, x), Y(k - 2, x));
    }
  }

  lemma {:induction false} ImageZero2(o: Order2, z: real, x: real)
    ensures Mul(z, Mul(1.0 + x, 0.0) + Mul(o.c, 0.0)) - Mul(o.sg, 2.0 * Mul(1.0 + x, Mul(1.0 + x, 0.0)))
            - Mul(o.s, 2.0 * Mul(1.0 + x, 0.0)) - Mul(o.lam, 2.0 * 0.5)
            == -Mul(Q(o, 0.0), 1.0) + Mul(E1(o, z, 0.0), 0.0) + Mul(E2(o, z, 0.0), 0.0) + Mul(Q(o, -0.0), 0.0)
  {
  }

  lemma {:induction false} ZPart(o: Order2, z: real, r: real, d: real, y1: real, y2: real)
    requires d == y1 - y2
    ensures Mul(z, Mul(r - 1.0, y1) + Mul(r + 1.0, y2) + Mul(o.c, d))
            == Mul(Mul(z, r - 1.0 + o.c), y1) + Mul(Mul(z, r + 1.0 - o.c), y2)
  {
    assert (r - 1.0) * y1 + (r + 1.0) * y2 + o.c * (y1 - y2) == (r - 1.0 + o.c) * y1 + (r + 1.0 - o.c) * y2;
    assert z * ((r - 1.0 + o.c) * y1 + (r + 1.0 - o.c) * y2) == (z * (r - 1.0 + o.c)) * y1 + (z * (r + 1.0 - o.c)) * y2;
  }

  lemma {:induction false} SgPart(sg: real, a: real, r: real, y1: real, y2: real, u0: real, u2: real, twice: real)
    requires a == Mul(r - 1.0, y1) + Mul(r + 1.0, y2)
    requires twice == 4.0 * a + Mul(Falling(r), u0) - Mul(Rising(r), u2)
    ensures Mul(sg, twice) == 4.0 * Mul(Mul(sg, r - 1.0), y1) + 4.0 * Mul(Mul(sg, r + 1.0), y2)
                              + Mul(Mul(sg, Falling(r)), u0) - Mul(Mul(sg, Rising(r)), u2)
  {
    hide Falling, Rising;
    assert sg * ((r - 1.0) * y1) == (sg * (r - 1.0)) * y1;
    assert sg * ((r + 1.0) * y2) == (sg * (r + 1.0)) * y2;
    assert sg * (Falling(r) * u0) == (sg * Falling(r)) * u0;
    assert sg * (Rising(r) * u2) == (sg * Rising(r)) * u2;
    assert sg * twice == 4.0 * (sg * a) + sg * (Falling(r) * u0) - sg * (Rising(r) * u2);
    assert sg * a == sg * ((r - 1.0) * y1) + sg * ((r + 1.0) * y2);
  }

  lemma {:induction false} SPart(s: real, r: real, u0: real, u1: real, u2: real, d: real, twice: real)
    requires d == Mul(r, u1) && twice == Mul(r, u0 + 2.0 * u1 + u2)
    ensures Mul(s, twice) == Mul(Mul(s, r), u0) + Mul(Mul(s, r), u2) + 2.0 * Mul(s, d)
  {
    assert twice == r * u0 + 2.0 * d + r * u2;
    assert s * (r * u0) == (s * r) * u0;
    assert s * (r * u2) == (s * r) * u2;
  }

  lemma {:induction false} SplitQ(o: Order2, k: real, u: real)
    ensures Mul(Q(o, k), u) == Mul(Mul(o.sg, Falling(k)), u) + Mul(Mul(o.s, k), u) + Mul(o.lam, u)
  {
    hide Falling, Mul;
    MulAdds3(Mul(o.sg, Falling(k)), Mul(o.s, k), o.lam, u);
  }

  lemma {:induction false} MulAdds3(a: real, b: real, c: real, u: real)
    ensures Mul(a + b + c, u) == Mul(a, u) + Mul(b, u) + Mul(c, u)
    ensures Mul(a - b - c, u) == Mul(a, u) - Mul(b, u) - Mul(c, u)
    ensures Mul(a - b + c, u) == Mul(a, u) - Mul(b, u) + Mul(c, u)
  {
  }

  lemma {:induction false} NegatedIndex(o: Order2, k: real, u: real)
    ensures Mul(Mul(o.sg, Falling(-k)), u) == Mul(Mul(o.sg, Rising(k)), u)
    ensures Mul(Mul(o.s, -k), u) == -Mul(Mul(o.s, k), u)
  {
    assert Falling(-k) == Rising(k);
  }

  lemma {:induction false} SplitE(o: Order2, z: real, r: real, y1: real, y2: real)
    ensures Mul(E1(o, z, r), y1) == Mul(Mul(z, r - 1.0 + o.c), y1) - 4.0 * Mul(Mul(o.sg, r - 1.0), y1) - 2.0 * Mul(o.s, y1)
    ensures Mul(E2(o, z, r), y2) == Mul(Mul(z, r + 1.0 - o.c), y2) - 4.0 * Mul(Mul(o.sg, r + 1.0), y2) + 2.0 * Mul(o.s, y2)
    ensures Mul(o.s, y1 - y2) == Mul(o.s, y1) - Mul(o.s, y2)
  {
    hide Mul;
    MulAdds3(Mul(z, r - 1.0 + o.c), 4.0 * Mul(o.sg, r - 1.0), 2.0 * o.s, y1);
    MulAdds3(Mul(z, r + 1.0 - o.c), 4.0 * Mul(o.sg, r + 1.0), 2.0 * o.s, y2);
    Fold(Mul(o.sg, r - 1.0), y1);
    Fold(Mul(o.sg, r + 1.0), y2);
    Fold(o.s, y1);
    Fold(o.s, y2);
    MulDistributes(o.s, y1, y2);
  }

  lemma {:induction false} Fold(a: real, y: real)
    ensures Mul(4.0 * a, y) == 4.0 * Mul(a, y) && Mul(2.0 * a, y) == 2.0 * Mul(a, y)
  {
  }

  /** The weights of the second-order equations, written out. */
  lemma {:induction false} Weights2(f: Kind, W: real, x: nat)
    requires W != 0.0 && (f.F01? || f.F11? || f.F21?)
    ensures var o, z, r := Parameters(f), 4.0 / W, x as real;
            && W0(f, W, x) == -Quotient(Q(o, r), r + 1.0)
            && W1(f, W, x) == E1(o, z, r + 1.0) + Quotient(Q(o, r + 1.0), r + 2.0)
            && W2(f, W, x) == E2(o, z, r + 2.0) + Quotient(Q(o, -(r + 2.0)), r + 1.0)
            && W3(f, W, x) == -Quotient(Q(o, -(r + 3.0)), r + 2.0)
  {
    hide Q, E1, E2;
  }

  lemma {:induction false} Over1(p: real, d: real)
    requires d != 0.0
    ensures Mul(Quotient(p, d), d) == p
  {
  }

  // 0F1

  lemma {:induction false} Weights01(c: real, z: real, r: real)
    requires r >= 0.0
    ensures var o := Order2(c, 0.0, 0.0, 1.0);
            && Q(o, r) == 1.0 && Q(o, r + 1.0) == 1.0 && Q(o, -(r + 2.0)) == 1.0 && Q(o, -(r + 3.0)) == 1.0
            && E1(o, z, r + 1.0) == Mul(z, r + c) && E2(o, z, r + 2.0) == Mul(z, r + 3.0 - c)
  {
  }

  lemma {:induction false} Core01(c: real, z: real, r: real, e: real, d: real, A1: real, A2: real, A3: real)
    requires Mul(e, r + 1.0) == 1.0
    ensures Mul(-e, Sum01(1.0 - c, z, r + 1.0, d, A1, A2, A3))
            + (Mul(Mul(z, r + c) + d, A1) + (Mul(Mul(z, r + 3.0 - c) + e, A2) + (Mul(-d, A3) + 0.0))) == 0.0
  {
    var X1 := r + 1.0;
    var u, v := Weight01(1.0 - c, z, X1, d, 2), Weight01(1.0 - c, z, X1, d, 1);
    assert u == z * (r + 3.0 - c);
    assert v == d + z * (r + c);
    hide Weight01;
    Cancel(e, X1, A2, u);
    Cancel(e, X1, A1, v);
    Cancel(e, X1, A3, d);
    assert Mul(Mul(A3, d), X1) == Mul(Mul(A3, X1), d);
    NegatedSum(e, A2, Mul(Mul(A3, X1), d), Mul(Mul(A2, X1), u), Mul(Mul(A1, X1), v));
  }

  lemma {:induction false} Cancel(e: real, X1: real, A: real, u: real)
    requires Mul(e, X1) == 1.0
    ensures Mul(e, Mul(Mul(A, X1), u)) == Mul(A, u)
  {
    assert e * ((A * X1) * u) == (e * X1) * (A * u);
  }

  lemma {:induction false} NegatedSum(e: real, a: real, b: real, c: real, d: real)
    ensures Mul(-e, a - b + c + d) == -Mul(e, a) + Mul(e, b) - Mul(e, c) - Mul(e, d)
  {
  }

  lemma {:induction false} Solves01(f: Kind, W: real, x: nat, l: seq<real>)
    requires W != 0.0 && f.F01?
    ensures Annihilates(AllWeights(f, W), x, Term(f, W, x, l), l)
  {
    hide Sum01, Mul, Quotient, Q, E1, E2, W0, W1, W2, W3;
    var z, r := 4.0 / W, x as real;
    var e, d := Quotient(1.0, r + 1.0), Quotient(1.0, r + 2.0);
    Weights2(f, W, x);
    Weights01(f.CP, z, r);
    Over1(1.0, r + 1.0);
    QuotientIs(1.0, r + 2.0);
    Core01(f.CP, z, r, e, d, Nth(l, 0), Nth(l, 1), Nth(l, 2));
    MulZero(Nth(l, 3));
  }

  lemma {:induction false} QuotientIs(p: real, d: real)
    requires d != 0.0
    ensures Quotient(p, d) == p / d
  {
  }

  // 1F1

  lemma {:induction false} Weights11(a: real, c: real, z: real, r: real, p: real, XA: real)
    requires r >= 0.0 && p == Ratio11(a, r) && XA == r + a
    ensures var o := Order2(c, 0.0, 1.0, a);
            && Q(o, r) == XA
            && E1(o, z, r + 1.0) + Quotient(Q(o, r + 1.0), r + 2.0) == Weight11(c, z, r, r + 1.0, XA, p, 1)
            && E2(o, z, r + 2.0) + Quotient(Q(o, -(r + 2.0)), r + 1.0) == Weight11(c, z, r, r + 1.0, XA, p, 2)
            && -Quotient(Q(o, -(r + 3.0)), r + 2.0) == p
  {
    var o := Order2(c, 0.0, 1.0, a);
    assert Q(o, r + 1.0) == (r + 2.0) - (1.0 - a) && Q(o, -(r + 2.0)) == XA - 2.0 * (r + 1.0) && Q(o, -(r + 3.0)) == -(r + 3.0 - a);
    Shift(1.0 - a, r + 2.0);
    Shift(XA, r + 1.0);
    Shift(r + 3.0 - a, r + 2.0);
    assert (1.0 - a) + (r + 2.0) == r + 3.0 - a;
    Shift2(1.0 - a, r + 2.0);
  }

  /** Quotients that differ by a whole number, and their negatives. */
  lemma {:induction false} Shift(p: real, d: real)
    requires d != 0.0
    ensures Quotient(d - p, d) == 1.0 - p / d
    ensures Quotient(p - 2.0 * d, d) == p / d - 2.0
    ensures Quotient(-p, d) == -(p / d)
  {
    var q := p / d;
    assert p == q * d;
    QuotientUnique(d - p, d, 1.0 - q);
    QuotientUnique(p - 2.0 * d, d, q - 2.0);
    QuotientUnique(-p, d, -q);
  }

  lemma {:induction false} QuotientUnique(p: real, d: real, q: real)
    requires d != 0.0 && p == q * d
    ensures Quotient(p, d) == q
  {
    assert (p / d) * d == p;
    assert (p / d - q) * d == 0.0;
    ZeroFactorLeft(p / d - q, d);
  }

  lemma {:induction false} Shift2(p: real, d: real)
    requires d != 0.0
    ensures (p + d) / d == p / d + 1.0
  {
    var q := p / d;
    assert p == q * d;
    QuotientUnique(p + d, d, q + 1.0);
  }

  lemma {:induction false} Core11(w0: real, sum: real, X1: real, XA: real)
    requires X1 != 0.0 && XA != 0.0 && w0 == -Quotient(XA, X1)
    ensures Mul(w0, Quotient(Mul(sum, X1), XA)) == -sum
  {
    var p, q := XA / X1, (sum * X1) / XA;
    assert p * X1 == XA && q * XA == sum * X1;
    assert q * (p * X1) == sum * X1;
    assert (q * p - sum) * X1 == 0.0;
    ZeroFactorLeft(q * p - sum, X1);
  }

  lemma {:induction false} ZeroFactorLeft(x: real, y: real)
    requires y != 0.0 && x * y == 0.0
    ensures x == 0.0
  {
  }

  lemma {:induction false} Solves11(f: Kind, W: real, x: nat, l: seq<real>)
    requires W != 0.0 && f.F11? && x as real + f.AP != 0.0
    ensures Annihilates(AllWeights(f, W), x, Term(f, W, x, l), l)
  {
    hide Weight11, Ratio11, Mul, Quotient, Q, E1, E2, W0, W1, W2, W3;
    var z, r := 4.0 / W, x as real;
    var X1, XA, p := r + 1.0, r + f.AP, Ratio11(f.AP, r);
    Weights2(f, W, x);
    Weights11(f.AP, f.CP, z, r, p, XA);
    Core11(W0(f, W, x), Sum11(f.CP, z, r, X1, XA, p, Nth(l, 0), Nth(l, 1), Nth(l, 2)), X1, XA);
    MulZero(Nth(l, 3));
    MulCommutes(Nth(l, 0), Weight11(f.CP, z, r, X1, XA, p, 1));
    MulCommutes(Nth(l, 1), Weight11(f.CP, z, r, X1, XA, p, 2));
    MulCommutes(Nth(l, 2), p);
  }

  // 2F1

  lemma {:induction false} Weight21Zero(f: Kind, r: real, g: real)
    requires f.F21? && r >= 0.0 && g == Mul(r + f.AP, r + f.BP)
    ensures Quotient(Q(Parameters(f), r), r + 1.0) == Quotient(g, r + 1.0)
  {
    FactorQ(f, r);
  }

  lemma {:induction false} Weight21One(f: Kind, z: real, r: real, g: real, h: real)
    requires f.F21? && r >= 0.0 && g == Mul(r + f.AP, r + f.BP) && h == Mul(f.AP + (r + 1.0), f.BP + (r + 1.0))
    ensures E1(Parameters(f), z, r + 1.0) + Quotient(Q(Parameters(f), r + 1.0), r + 2.0)
            == 2.0 * g - 2.0 * h + Quotient(h, r + 2.0) + Mul(z, f.CP + r)
  {
    hide Quotient, Q;
    FactorQ(f, r + 1.0);
    assert g - h == -(2.0 * r + 1.0 + f.AP + f.BP);
  }

  lemma {:induction false} Weight21Two(f: Kind, z: real, r: real, h: real)
    requires f.F21? && r >= 0.0
    requires h == Mul(r + 3.0 - f.AP, r + 3.0 - f.BP) - Mul(2.0 * r + 3.0, (r + 3.0 - f.AP) + (r + 3.0 - f.BP) - 1.0)
    ensures E2(Parameters(f), z, r + 2.0) + Quotient(Q(Parameters(f), -(r + 2.0)), r + 1.0)
            == Mul(z, 3.0 - f.CP + r) + Quotient(h, r + 1.0)
  {
    var u, v, d := r + 3.0 - f.AP, r + 3.0 - f.BP, r + 1.0;
    var t := u + v - 1.0;
    FactorQ(f, -(r + 2.0));
    assert Mul(u - 1.0, v - 1.0) == Mul(f.AP - (r + 2.0), f.BP - (r + 2.0));
    TwoFactors(r, u, v, h);
    hide Q;
    SplitQuotient(h, 2.0 * t, d);
    assert E2(Parameters(f), z, r + 2.0) == Mul(z, 3.0 - f.CP + r) - 2.0 * t;
  }

  lemma {:induction false} TwoFactors(r: real, u: real, v: real, h: real)
    requires h == Mul(u, v) - Mul(2.0 * r + 3.0, u + v - 1.0)
    ensures Mul(u - 1.0, v - 1.0) == h + Mul(2.0 * (u + v - 1.0), r + 1.0)
  {
    var t := u + v - 1.0;
    assert (2.0 * r + 3.0) * t == t + (2.0 * t) * (r + 1.0);
  }

  lemma {:induction false} SplitQuotient(h: real, t: real, d: real)
    requires d != 0.0
    ensures Quotient(h + Mul(t, d), d) == Quotient(h, d) + t
  {
    var q := h / d;
    assert h == q * d;
    QuotientUnique(h + t * d, d, q + t);
  }

  lemma {:induction false} Weight21Three(f: Kind, r: real)
    requires f.F21? && r >= 0.0
    ensures Quotient(Q(Parameters(f), -(r + 3.0)), r + 2.0) == Quotient(Mul(r + 3.0 - f.AP, r + 3.0 - f.BP), r + 2.0)
  {
    FactorQ(f, -(r + 3.0));
    assert Mul(f.AP - (r + 3.0), f.BP - (r + 3.0)) == Mul(r + 3.0 - f.AP, r + 3.0 - f.BP);
  }

  lemma {:induction false} FactorQ(f: Kind, k: real)
    requires f.F21?
    ensures Q(Parameters(f), k) == Mul(f.AP + k, f.BP + k)
  {
    assert Falling(k) + (f.AP + f.BP + 1.0) * k + f.AP * f.BP == (f.AP + k) * (f.BP + k);
  }

  /** g = 1/v times the sum of the source, term by term, over X1. */
  lemma {:induction false} Core21(f: Kind, z: real, r: real, g: real, v: real, A1: real, A2: real, A3: real)
    requires f.F21? && r >= 0.0 && Mul(g, v) == 1.0
    ensures var X1, X3, X3A, X3B := r + 1.0, 2.0 * r + 3.0, r + 3.0 - f.AP, r + 3.0 - f.BP;
            var h := Mul(f.AP + X1, f.BP + X1);
            var k := Mul(X3A, X3B) - Mul(X3, (X3A + X3B) - 1.0);
            Mul(Quotient(g, X1), Sum21(f, z, r, X1, X3, X3A, X3B, v, A1, A2, A3))
            == Mul(2.0 * g - 2.0 * h + Quotient(h, r + 2.0) + Mul(z, f.CP + r), A1)
               + Mul(Mul(z, 3.0 - f.CP + r) + Quotient(k, X1), A2) - Mul(Quotient(Mul(X3A, X3B), r + 2.0), A3)
  {
    var X1, X3, X3A, X3B := r + 1.0, 2.0 * r + 3.0, r + 3.0 - f.AP, r + 3.0 - f.BP;
    var w1 := Weight21(f, z, r, X1, X3, X3A, X3B, v, 1);
    var w2 := Weight21(f, z, r, X1, X3, X3A, X3B, v, 2);
    var w3 := Weight21(f, z, r, X1, X3, X3A, X3B, v, 3);
    Times21One(f, z, r, g, v, w1);
    Times21Two(f, z, r, v, w2);
    Times21Three(f, z, r, v, w3);
    hide Weight21, Quotient, Mul;
    var q := Quotient(g, X1);
    Over1(g, X1);
    MulCommutes(q, X1);
    Term21One(q, g, X1, A1, w1);
    Term21Two(q, g, X1, v, A2, w2);
    Term21Three(q, g, X1, v, A3, w3, X3B);
    DistributeThree(q, Mul(Mul(A1, X1), w1), Mul(Mul(A2, v), w2), Mul(Mul(Mul(A3, X1), w3), Mul(X3B, v)));
  }

  lemma {:induction false} DistributeThree(q: real, a: real, b: real, c: real)
    ensures Mul(q, a + b - c) == Mul(q, a) + Mul(q, b) - Mul(q, c)
  {
  }

  lemma {:induction false} Term21One(q: real, g: real, X1: real, A1: real, w1: real)
    requires Mul(q, X1) == g
    ensures Mul(q, Mul(Mul(A1, X1), w1)) == Mul(Mul(g, w1), A1)
  {
    assert q * ((A1 * X1) * w1) == ((q * X1) * w1) * A1;
  }

  lemma {:induction false} Term21Two(q: real, g: real, X1: real, v: real, A2: real, w2: real)
    requires Mul(q, X1) == g && Mul(g, v) == 1.0 && X1 != 0.0
    ensures Mul(q, Mul(Mul(A2, v), w2)) == Mul(Quotient(w2, X1), A2)
  {
    assert (q * X1) * v == 1.0;
    assert (q * v) * X1 == 1.0;
    var p := w2 / X1;
    assert w2 == p * X1;
    assert q * ((A2 * v) * w2) == ((q * v) * w2) * A2;
    assert (q * v) * (p * X1) == ((q * v) * X1) * p;
  }

  lemma {:induction false} Term21Three(q: real, g: real, X1: real, v: real, A3: real, w3: real, X3B: real)
    requires Mul(q, X1) == g && Mul(g, v) == 1.0
    ensures Mul(q, Mul(Mul(Mul(A3, X1), w3), Mul(X3B, v))) == Mul(Mul(w3, X3B), A3)
  {
    var p := q * X1;
    assert p * v == 1.0;
    assert q * (((A3 * X1) * w3) * (X3B * v)) == ((q * X1) * v) * ((w3 * X3B) * A3);
  }

  lemma {:induction false} Times21One(f: Kind, z: real, r: real, g: real, v: real, w1: real)
    requires f.F21? && r >= 0.0 && Mul(g, v) == 1.0
    requires w1 == Weight21(f, z, r, r + 1.0, 2.0 * r + 3.0, r + 3.0 - f.AP, r + 3.0 - f.BP, v, 1)
    ensures var h := Mul(f.AP + (r + 1.0), f.BP + (r + 1.0));
            Mul(g, w1) == 2.0 * g - 2.0 * h + Quotient(h, r + 2.0) + Mul(z, f.CP + r)
  {
    var h := Mul(f.AP + (r + 1.0), f.BP + (r + 1.0));
    var d := Quotient(1.0, r + 2.0);
    Over1(1.0, r + 2.0);
    QuotientUnique(2.0 * r + 3.0, r + 2.0, 2.0 - d);
    QuotientUnique(h, r + 2.0, h * d);
    WeightOne(f, z, r, v, h, d);
    hide Weight21, Quotient;
    TimesOneCore(g, v, h, d, f.CP + r, z);
  }

  lemma {:induction false} WeightOne(f: Kind, z: real, r: real, v: real, h: real, d: real)
    requires f.F21? && r >= 0.0 && h == Mul(f.AP + (r + 1.0), f.BP + (r + 1.0))
    requires Quotient(2.0 * r + 3.0, r + 2.0) == 2.0 - d
    ensures Weight21(f, z, r, r + 1.0, 2.0 * r + 3.0, r + 3.0 - f.AP, r + 3.0 - f.BP, v, 1)
            == 2.0 - Mul(h, Mul(2.0 - d, v)) + Mul(f.CP + r, Mul(v, z))
  {
  }

  lemma {:induction false} TimesOneCore(g: real, v: real, h: real, d: real, c: real, z: real)
    requires Mul(g, v) == 1.0
    ensures Mul(g, 2.0 - Mul(h, Mul(2.0 - d, v)) + Mul(c, Mul(v, z))) == 2.0 * g - 2.0 * h + h * d + Mul(z, c)
  {
    assert g * (h * ((2.0 - d) * v)) == (g * v) * (h * (2.0 - d));
    assert g * (c * (v * z)) == (g * v) * (c * z);
  }

  lemma {:induction false} Times21Two(f: Kind, z: real, r: real, v: real, w2: real)
    requires f.F21? && r >= 0.0
    requires w2 == Weight21(f, z, r, r + 1.0, 2.0 * r + 3.0, r + 3.0 - f.AP, r + 3.0 - f.BP, v, 2)
    ensures var X3, X3A, X3B := 2.0 * r + 3.0, r + 3.0 - f.AP, r + 3.0 - f.BP;
            var k := Mul(X3A, X3B) - Mul(X3, (X3A + X3B) - 1.0);
            Quotient(w2, r + 1.0) == Mul(z, 3.0 - f.CP + r) + Quotient(k, r + 1.0)
  {
    var X3, X3A, X3B := 2.0 * r + 3.0, r + 3.0 - f.AP, r + 3.0 - f.BP;
    var k := Mul(X3A, X3B) - Mul(X3, (X3A + X3B) - 1.0);
    WeightTwo(f, z, r, v, k);
    hide Weight21;
    SplitQuotient(k, Mul(z, 3.0 - f.CP + r), r + 1.0);
  }

  lemma {:induction false} WeightTwo(f: Kind, z: real, r: real, v: real, k: real)
    requires f.F21? && r >= 0.0
    requires k == Mul(r + 3.0 - f.AP, r + 3.0 - f.BP) - Mul(2.0 * r + 3.0, ((r + 3.0 - f.AP) + (r + 3.0 - f.BP)) - 1.0)
    ensures Weight21(f, z, r, r + 1.0, 2.0 * r + 3.0, r + 3.0 - f.AP, r + 3.0 - f.BP, v, 2)
            == k + Mul(Mul(z, 3.0 - f.CP + r), r + 1.0)
  {
    assert (3.0 - f.CP + r) * ((r + 1.0) * z) == (z * (3.0 - f.CP + r)) * (r + 1.0);
  }

  lemma {:induction false} Times21Three(f: Kind, z: real, r: real, v: real, w3: real)
    requires f.F21? && r >= 0.0
    requires w3 == Weight21(f, z, r, r + 1.0, 2.0 * r + 3.0, r + 3.0 - f.AP, r + 3.0 - f.BP, v, 3)
    ensures Mul(w3, r + 3.0 - f.BP) == Quotient(Mul(r + 3.0 - f.AP, r + 3.0 - f.BP), r + 2.0)
  {
    QuotientTimes(r + 3.0 - f.AP, r + 2.0, r + 3.0 - f.BP);
  }

  lemma {:induction false} QuotientTimes(p: real, d: real, y: real)
    requires d != 0.0
    ensures Mul(p / d, y) == Quotient(Mul(p, y), d)
  {
    var q := p / d;
    assert p == q * d;
    QuotientUnique(p * y, d, q * y);
  }

  lemma {:induction false} Solves21(f: Kind, W: real, x: nat, l: seq<real>)
    requires W != 0.0 && f.F21? && x as real + f.AP != 0.0 && x as real + f.BP != 0.0
    ensures Annihilates(AllWeights(f, W), x, Term(f, W, x, l), l)
  {
    hide Sum21, Mul, Quotient, Q, E1, E2, W0, W1, W2, W3, Inverse21, Parameters;
    var z, r := 4.0 / W, x as real;
    var g, v := Mul(r + f.AP, r + f.BP), Inverse21(f.AP, f.BP, r);
    var h := Mul(f.AP + (r + 1.0), f.BP + (r + 1.0));
    var k := Mul(r + 3.0 - f.AP, r + 3.0 - f.BP) - Mul(2.0 * r + 3.0, (r + 3.0 - f.AP) + (r + 3.0 - f.BP) - 1.0);
    InverseTimes(f.AP, f.BP, r);
    Weights2(f, W, x);
    Weight21Zero(f, r, g);
    Weight21One(f, z, r, g, h);
    Weight21Two(f, z, r, k);
    Weight21Three(f, r);
    Core21(f, z, r, g, v, Nth(l, 0), Nth(l, 1), Nth(l, 2));
    MulZero(Nth(l, 3));
    Negate(Quotient(g, r + 1.0), Term(f, W, x, l));
    Negate(Quotient(Mul(r + 3.0 - f.AP, r + 3.0 - f.BP), r + 2.0), Nth(l, 2));
  }

  lemma {:induction false} InverseTimes(a: real, b: real, x: real)
    requires x + a != 0.0 && x + b != 0.0
    ensures Mul(Mul(x + a, x + b), Inverse21(a, b, x)) == 1.0
  {
    NonzeroProduct(x + a, x + b);
    Over1(1.0, Mul(x + a, x + b));
    MulCommutes(Mul(x + a, x + b), Inverse21(a, b, x));
  }

  lemma {:induction false} Negate(x: real, y: real)
    ensures Mul(-x, y) == -Mul(x, y)
  {
  }
}
