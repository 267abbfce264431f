/** The series that ccoef and series compute satisfies the hypergeometric differential equation up
    to one explicit polynomial, and takes the value 1 at 0. */
module LukeResidual {
  import opened Reals
  import opened Chebyshev
  import opened Gegenbauer
  import opened Luke
  import opened Expansion
  import opened LukeEquations
  import opened ThirdOrder

  // ------------------------------------------------- the hypothesis of WholeSum

  function ImageOf(f: Kind, W: real, x: real): int -> real
    requires W != 0.0
  {
    k => Image(f, W, x, k)
  }

  function BasisOf(f: Kind, x: real): int -> real {
    k => Basis(f, k, x)
  }

  lemma {:induction false} ExpandsEverywhere(f: Kind, W: real, x: real, n: nat)
    requires W != 0.0
    ensures Expands(ImageOf(f, W, x), BasisOf(f, x), AllWeights(f, W), n)
  {
    hide Image, Mul, W0, W1, W2, W3, W4, U, Y, H, Over;
    forall k | 0 <= k <= n + 1
      ensures ExpandsAt(ImageOf(f, W, x), BasisOf(f, x), AllWeights(f, W), k)
    {
      NoFourth(f, W, k);
      MulZero(Basis(f, k - 3, x));
      MulZero(Basis(f, k - 4, x));
      if f.F10? {
        Expands10(f, W, x, k);
      } else if f.F12? {
        Expands12(f, W, x, k);
      } else {
        Expands2(f, W, x, k);
      }
    }
  }

  lemma {:induction false} NoFourth(f: Kind, W: real, k: int)
    requires W != 0.0
    ensures !f.F12? ==> W4(f, W, k - 4) == 0.0
    ensures f.F10? ==> W3(f, W, k - 3) == 0.0
  {
  }

  lemma {:induction false} SolvesEverywhere(f: Kind, W: real, n: nat)
    requires W != 0.0 && NoZeroDivisor(f, n)
    ensures Solves(f, W, AllWeights(f, W), n)
  {
    hide Annihilates, Term;
    forall x: nat, l: seq<real> | x <= n
      ensures Divides(f, x) && Annihilates(AllWeights(f, W), x, Term(f, W, x, l), l)
    {
      assert Divides(f, x);
      match f
      case F01(_) => Solves01(f, W, x, l);
      case F10(_) => AnnihilatesFirst(f, W, x, l);
      case F11(_, _) => Solves11(f, W, x, l);
      case F12(_, _, _) => Solves12(f, W, x, l);
      case F21(_, _, _) => Solves21(f, W, x, l);
    }
  }

  lemma {:induction false} AnnihilatesFirst(f: Kind, W: real, x: nat, l: seq<real>)
    requires W != 0.0 && f.F10? && Divides(f, x)
    ensures Annihilates(AllWeights(f, W), x, Term(f, W, x, l), l)
  {
    Solves10(f, W, x, l);
    hide Term, W0, W1, W2, Mul;
    MulZero(Nth(l, 2));
    MulZero(Nth(l, 3));
  }

  lemma {:induction false} BasisNegative(f: Kind, x: real)
    ensures Basis(f, -1, x) == 0.0 && Basis(f, -2, x) == 0.0 && Basis(f, -3, x) == 0.0 && Basis(f, -4, x) == 0.0
  {
    VNegative(-1, x);
    VNegative(-2, x);
    VNegative(-3, x);
    VNegative(-4, x);
  }

  // ------------------------------------------------- derivatives of the series

  function Derivative(i: nat, k: nat, x: real): real {
    if i == 0 then T(k, x) else if i == 1 then DT(k, x) else if i == 2 then DDT(k, x) else DDDT(k, x)
  }

  /** The i-th derivative of the Chebyshev sum, i = 0..3, term by term. */
  function DerivativeSum(C: seq<real>, i: nat, x: real, n: nat): real
    requires n <= |C|
  {
    if n == 0 then 0.0 else DerivativeSum(C, i, x, n - 1) + Mul(C[n - 1], Derivative(i, n - 1, x))
  }

  lemma {:induction false} ZerothDerivative(C: seq<real>, x: real, n: nat)
    requires n <= |C|
    ensures DerivativeSum(C, 0, x, n) == ChebyshevSum(C, x, n)
  {
    hide Mul;
    if n > 0 {
      ZerothDerivative(C, x, n - 1);
    }
  }

  /** The operator on the first n terms of the series with coefficients C. */
  function OperatorOn(f: Kind, W: real, x: real, C: seq<real>, n: nat): real
    requires W != 0.0 && n <= |C|
  {
    Operator(f, W, x, DerivativeSum(C, 0, x, n), DerivativeSum(C, 1, x, n), DerivativeSum(C, 2, x, n), DerivativeSum(C, 3, x, n))
  }

  /** The operator is linear. */
  lemma {:induction false} OperatorLinear(f: Kind, W: real, x: real, c: real, y: real, y1: real, y2: real, y3: real,
                                          z: real, z1: real, z2: real, z3: real)
    requires W != 0.0
    ensures Operator(f, W, x, y + Mul(c, z), y1 + Mul(c, z1), y2 + Mul(c, z2), y3 + Mul(c, z3))
            == Operator(f, W, x, y, y1, y2, y3) + Mul(c, Operator(f, W, x, z, z1, z2, z3))
  {
    hide Mul, Parameters;
    var p := 1.0 + x;
    LinearIn(p, c, y1, z1);
    LinearIn(p, c, y2, z2);
    LinearIn(p, c, y3, z3);
    if f.F10? {
      LinearIn(x + (1.0 - 2.0 / W), c, y1, z1);
      LinearIn(f.AP, c, y, z);
      MulDistributes(c, Mul(x + (1.0 - 2.0 / W), z1), Mul(f.AP, z));
    } else if f.F12? {
      LinearThird(f.BP + f.CP, f.BP * f.CP, f.AP, 4.0 / W, p, c, y, y1, y2, y3, z, z1, z2, z3);
    } else {
      LinearSecond(Parameters(f), 4.0 / W, p, c, y, y1, y2, z, z1, z2);
    }
  }

  lemma {:induction false} LinearIn(a: real, c: real, y: real, z: real)
    ensures Mul(a, y + Mul(c, z)) == Mul(a, y) + Mul(c, Mul(a, z))
    ensures Mul(a, 2.0 * (y + Mul(c, z))) == Mul(a, 2.0 * y) + Mul(c, Mul(a, 2.0 * z))
  {
    assert a * (c * z) == c * (a * z);
  }

  lemma {:induction false} LinearSecond(o: Order2, w: real, p: real, c: real, y: real, y1: real, y2: real, z: real, z1: real, z2: real)
    ensures Mul(w, Mul(p, y2 + Mul(c, z2)) + Mul(o.c, y1 + Mul(c, z1))) - Mul(o.sg, 2.0 * Mul(p, Mul(p, y2 + Mul(c, z2))))
            - Mul(o.s, 2.0 * Mul(p, y1 + Mul(c, z1))) - Mul(o.lam, 2.0 * (y + Mul(c, z)))
            == (Mul(w, Mul(p, y2) + Mul(o.c, y1)) - Mul(o.sg, 2.0 * Mul(p, Mul(p, y2))) - Mul(o.s, 2.0 * Mul(p, y1)) - Mul(o.lam, 2.0 * y))
               + Mul(c, Mul(w, Mul(p, z2) + Mul(o.c, z1)) - Mul(o.sg, 2.0 * Mul(p, Mul(p, z2))) - Mul(o.s, 2.0 * Mul(p, z1)) - Mul(o.lam, 2.0 * z))
  {
    hide Mul;
    LinearIn(p, c, y2, z2);
    LinearIn(p, c, y1, z1);
    LinearIn(o.c, c, y1, z1);
    LinearIn(p, c, Mul(p, y2), Mul(p, z2));
    MulDistributes(c, Mul(p, z2), Mul(o.c, z1));
    LinearIn(w, c, Mul(p, y2) + Mul(o.c, y1), Mul(p, z2) + Mul(o.c, z1));
    LinearIn(o.sg, c, Mul(p, Mul(p, y2)), Mul(p, Mul(p, z2)));
    LinearIn(o.s, c, Mul(p, y1), Mul(p, z1));
    LinearIn(o.lam, c, y, z);
    MulFour(c, Mul(w, Mul(p, z2) + Mul(o.c, z1)), Mul(o.sg, 2.0 * Mul(p, Mul(p, z2))), Mul(o.s, 2.0 * Mul(p, z1)), Mul(o.lam, 2.0 * z));
  }

  lemma {:induction false} MulFour(c: real, u: real, v: real, w: real, t: real)
    ensures Mul(c, u - v - w - t) == Mul(c, u) - Mul(c, v) - Mul(c, w) - Mul(c, t)
    ensures Mul(c, u + v + w + t) == Mul(c, u) + Mul(c, v) + Mul(c, w) + Mul(c, t)
    ensures Mul(c, u - 2.0 * v - t) == Mul(c, u) - 2.0 * Mul(c, v) - Mul(c, t)
  {
  }

  lemma {:induction false} LinearThird(bc: real, b: real, a: real, w: real, p: real, c: real, y: real, y1: real, y2: real, y3: real,
                                       z: real, z1: real, z2: real, z3: real)
    ensures var e := Mul(p, y2 + Mul(c, z2));
            Mul(w, e + Mul(p, Mul(p, y3 + Mul(c, z3))) + Mul(bc, e) + Mul(b, y1 + Mul(c, z1)))
            - 2.0 * Mul(p, y1 + Mul(c, z1)) - Mul(a, 2.0 * (y + Mul(c, z)))
            == (Mul(w, Mul(p, y2) + Mul(p, Mul(p, y3)) + Mul(bc, Mul(p, y2)) + Mul(b, y1)) - 2.0 * Mul(p, y1) - Mul(a, 2.0 * y))
               + Mul(c, Mul(w, Mul(p, z2) + Mul(p, Mul(p, z3)) + Mul(bc, Mul(p, z2)) + Mul(b, z1)) - 2.0 * Mul(p, z1) - Mul(a, 2.0 * z))
  {
    hide Mul;
    LinearIn(p, c, y1, z1);
    LinearIn(p, c, y2, z2);
    LinearIn(p, c, y3, z3);
    LinearIn(p, c, Mul(p, y3), Mul(p, z3));
    LinearIn(bc, c, Mul(p, y2), Mul(p, z2));
    LinearIn(b, c, y1, z1);
    var g := Mul(p, y2) + Mul(p, Mul(p, y3)) + Mul(bc, Mul(p, y2)) + Mul(b, y1);
    var h := Mul(p, z2) + Mul(p, Mul(p, z3)) + Mul(bc, Mul(p, z2)) + Mul(b, z1);
    MulFour(c, Mul(p, z2), Mul(p, Mul(p, z3)), Mul(bc, Mul(p, z2)), Mul(b, z1));
    LinearIn(w, c, g, h);
    LinearIn(a, c, y, z);
    MulFour(c, Mul(w, h), Mul(p, z1), 0.0, Mul(a, 2.0 * z));
  }

  // ------------------------------------------------- the sum of the images

  /** The operator on the whole series is the combination of the images, the first one halved. */
  lemma {:induction false} OperatorIsCombination(f: Kind, W: real, x: real, l: seq<real>, C: seq<real>, n: nat)
    requires W != 0.0 && 0 < n <= |l| && C == l[0 := l[0] / 2.0]
    ensures OperatorOn(f, W, x, C, n) == Combination(l[..n], ImageOf(f, W, x), 0)
  {
    hide Operator, Mul, Image;
    ghost var t := ImageOf(f, W, x);
    CombinationSnoc(l[..n - 1], l[n - 1], t, 0);
    assert l[..n] == l[..n - 1] + [l[n - 1]];
    if n == 1 {
      FirstImage(f, W, x, C, l[0]);
      assert l[..0] == [];
      assert Combination(l[..0], t, 0) == 0.0;
    } else {
      OperatorIsCombination(f, W, x, l, C, n - 1);
      NextImage(f, W, x, C, n);
    }
  }

  lemma {:induction false} CombinationSnoc(l: seq<real>, c: real, g: int -> real, k: int)
    ensures Combination(l + [c], g, k) == Combination(l, g, k) + Mul(c, g(k + |l|))
  {
    hide Mul;
    if l == [] {
      assert (l + [c])[1..] == [];
    } else {
      assert (l + [c])[1..] == l[1..] + [c];
      CombinationSnoc(l[1..], c, g, k + 1);
    }
  }

  lemma {:induction false} FirstImage(f: Kind, W: real, x: real, C: seq<real>, c: real)
    requires W != 0.0 && |C| > 0 && C[0] == c / 2.0
    ensures OperatorOn(f, W, x, C, 1) == Mul(c, Image(f, W, x, 0))
  {
    hide Operator;
    OperatorLinear(f, W, x, c, 0.0, 0.0, 0.0, 0.0, 0.5, 0.0, 0.0, 0.0);
    OperatorZero(f, W, x);
    assert DerivativeSum(C, 0, x, 0) == 0.0;
    assert DerivativeSum(C, 0, x, 1) == c / 2.0 by {
      assert Derivative(0, 0, x) == 1.0;
    }
    FirstDerivativesVanish(C, 1, x);
    FirstDerivativesVanish(C, 2, x);
    FirstDerivativesVanish(C, 3, x);
  }

  lemma {:induction false} FirstDerivativesVanish(C: seq<real>, i: nat, x: real)
    requires |C| > 0 && i > 0
    ensures DerivativeSum(C, i, x, 1) == 0.0
  {
    assert Derivative(i, 0, x) == 0.0;
    assert DerivativeSum(C, i, x, 0) == 0.0;
  }

  lemma {:induction false} OperatorZero(f: Kind, W: real, x: real)
    requires W != 0.0
    ensures Operator(f, W, x, 0.0, 0.0, 0.0, 0.0) == 0.0
  {
    if !f.F10? && !f.F12? {
      hide Parameters;
      assert Operator(f, W, x, 0.0, 0.0, 0.0, 0.0) == 0.0;
    }
  }

  lemma {:induction false} NextImage(f: Kind, W: real, x: real, C: seq<real>, n: nat)
    requires W != 0.0 && 1 < n <= |C|
    ensures OperatorOn(f, W, x, C, n) == OperatorOn(f, W, x, C, n - 1) + Mul(C[n - 1], Image(f, W, x, n - 1))
  {
    hide Operator, Mul, T, DT, DDT, DDDT;
    OperatorLinear(f, W, x, C[n - 1], DerivativeSum(C, 0, x, n - 1), DerivativeSum(C, 1, x, n - 1),
                   DerivativeSum(C, 2, x, n - 1), DerivativeSum(C, 3, x, n - 1),
                   T(n - 1, x), DT(n - 1, x), DDT(n - 1, x), DDDT(n - 1, x));
  }

  /** The operator on the series is one multiple of the next basis polynomial. */
  lemma {:induction false} OperatorOnSeries(f: Kind, W: real, n: nat, start: real, x: real)
    requires W != 0.0 && NoZeroDivisor(f, n)
    ensures OperatorOn(f, W, x, Coefficients(f, W, n, start), n + 2) == Mul(Mul(W0(f, W, n + 1), start), Basis(f, n + 1, x))
  {
    hide OperatorOn, Expands, Solves, Mul, Image, Basis, W0, W1, W2, W3, W4, Backward;
    var l := Backward(f, W, n, n + 1, start);
    ExpandsEverywhere(f, W, x, n);
    SolvesEverywhere(f, W, n);
    BasisNegative(f, x);
    WholeSum(f, W, n, start, ImageOf(f, W, x), BasisOf(f, x), AllWeights(f, W));
    OperatorIsCombination(f, W, x, l, Coefficients(f, W, n, start), n + 2);
    assert l[..n + 2] == l;
  }

  // ------------------------------------------------- the classical equations

  /** The hypergeometric differential equations, as expressions that vanish on a solution with
      values F0, F1, F2, F3 of the function and its derivatives at z. */
  function Equation(f: Kind, z: real, F0: real, F1: real, F2: real, F3: real): real {
    match f
    case F01(c) => Mul(z, F2) + Mul(c, F1) - F0
    case F10(a) => Mul(1.0 - z, F1) - Mul(a, F0)
    case F11(a, c) => Mul(z, F2) + Mul(c - z, F1) - Mul(a, F0)
    case F12(a, b, c) => Mul(Mul(z, z), F3) + Mul(Mul(b + c + 1.0, z), F2) + Mul(Mul(b, c) - z, F1) - Mul(a, F0)
    case F21(a, b, c) => Mul(Mul(z, 1.0 - z), F2) + Mul(c - Mul(a + b + 1.0, z), F1) - Mul(Mul(a, b), F0)
  }

  /** The chain rule's factor u^i. */
  function Chain(u: real, i: nat): real {
    if i == 0 then 1.0 else if i == 1 then u else if i == 2 then u * u else u * u * u
  }

  /** In terms of x = 2z/W - 1, where a derivative by z is u = 2/W times one by x. */
  lemma {:induction false} EquationInX(f: Kind, W: real, z: real, u: real, y: real, y1: real, y2: real, y3: real)
    requires W != 0.0 && u == 2.0 / W
    ensures var e := Equation(f, z, y, Mul(u, y1), Mul(Chain(u, 2), y2), Mul(Chain(u, 3), y3));
            Operator(f, W, ShiftedArgument(z, W), y, y1, y2, y3) == if f.F10? then -e else 2.0 * e
  {
    hide Mul, Equation, Operator, ShiftedArgument, Chain;
    var p := 1.0 + ShiftedArgument(z, W);
    ScaledArgument(W, z);
    if f.F10? {
      EquationInX10(f, W, z, u, p, y, y1, Mul(Chain(u, 2), y2), Mul(Chain(u, 3), y3), y2, y3);
    } else if f.F12? {
      EquationInX12(f, W, z, u, p, y, y1, y2, y3);
    } else if f.F01? {
      EquationInX01(f, W, z, u, p, y, y1, y2, y3, Mul(Chain(u, 3), y3));
    } else if f.F11? {
      EquationInX11(f, W, z, u, p, y, y1, y2, y3, Mul(Chain(u, 3), y3));
    } else {
      EquationInX21(f, W, z, u, p, y, y1, y2, y3, Mul(Chain(u, 3), y3));
    }
  }

  lemma {:induction false} EquationInX10(f: Kind, W: real, z: real, u: real, p: real, y: real, y1: real, F2: real, F3: real, y2: real, y3: real)
    requires W != 0.0 && f.F10? && u == 2.0 / W && p == z * u
    ensures Operator(f, W, p - 1.0, y, y1, y2, y3) == -Equation(f, z, y, Mul(u, y1), F2, F3)
  {
    Change10(f.AP, z, u, p, y, y1);
  }

  lemma {:induction false} EquationInX01(f: Kind, W: real, z: real, u: real, p: real, y: real, y1: real, y2: real, y3: real, F3: real)
    requires W != 0.0 && f.F01? && u == 2.0 / W && p == z * u
    ensures Operator(f, W, p - 1.0, y, y1, y2, y3) == 2.0 * Equation(f, z, y, Mul(u, y1), Mul(Chain(u, 2), y2), F3)
  {
    Change01(f.CP, z, u, p, y, y1, y2);
    assert 4.0 / W == 2.0 * u;
    hide Mul;
  }

  lemma {:induction false} EquationInX11(f: Kind, W: real, z: real, u: real, p: real, y: real, y1: real, y2: real, y3: real, F3: real)
    requires W != 0.0 && f.F11? && u == 2.0 / W && p == z * u
    ensures Operator(f, W, p - 1.0, y, y1, y2, y3) == 2.0 * Equation(f, z, y, Mul(u, y1), Mul(Chain(u, 2), y2), F3)
  {
    Change11(f.AP, f.CP, z, u, p, y, y1, y2);
    assert 4.0 / W == 2.0 * u;
    hide Mul;
  }

  lemma {:induction false} EquationInX12(f: Kind, W: real, z: real, u: real, p: real, y: real, y1: real, y2: real, y3: real)
    requires W != 0.0 && f.F12? && u == 2.0 / W && p == z * u
    ensures Operator(f, W, p - 1.0, y, y1, y2, y3) == 2.0 * Equation(f, z, y, Mul(u, y1), Mul(Chain(u, 2), y2), Mul(Chain(u, 3), y3))
  {
    Change12(f.AP, f.BP, f.CP, z, u, p, y, y1, y2, y3);
    assert 4.0 / W == 2.0 * u;
    hide Mul;
  }

  lemma {:induction false} EquationInX21(f: Kind, W: real, z: real, u: real, p: real, y: real, y1: real, y2: real, y3: real, F3: real)
    requires W != 0.0 && f.F21? && u == 2.0 / W && p == z * u
    ensures Operator(f, W, p - 1.0, y, y1, y2, y3) == 2.0 * Equation(f, z, y, Mul(u, y1), Mul(Chain(u, 2), y2), F3)
  {
    Change21(f.AP, f.BP, f.CP, z, u, p, y, y1, y2);
    assert 4.0 / W == 2.0 * u;
    hide Mul;
  }

  lemma {:induction false} ScaledArgument(W: real, z: real)
    requires W != 0.0
    ensures 1.0 + ShiftedArgument(z, W) == z * (2.0 / W)
  {
    var q, u := z / W, 2.0 / W;
    assert q * W == z && u * W == 2.0;
    assert (z * u) * W == (q * 2.0) * W;
    assert (z * u - q * 2.0) * W == 0.0;
    ZeroFactorLeft(z * u - q * 2.0, W);
  }

  lemma {:induction false} Change10(a: real, z: real, u: real, p: real, y: real, y1: real)
    requires p == z * u
    ensures Mul(p - 1.0 + (1.0 - u), y1) + Mul(a, y) == -(Mul(1.0 - z, Mul(u, y1)) - Mul(a, y))
  {
    assert (z * u) * y1 == z * (u * y1);
  }

  lemma {:induction false} Change01(c: real, z: real, u: real, p: real, y: real, y1: real, y2: real)
    requires p == z * u
    ensures Mul(2.0 * u, Mul(p, y2) + Mul(c, y1)) - Mul(0.0, 2.0 * Mul(p, Mul(p, y2))) - Mul(0.0, 2.0 * Mul(p, y1)) - Mul(1.0, 2.0 * y)
            == 2.0 * (Mul(z, Mul(u * u, y2)) + Mul(c, Mul(u, y1)) - y)
  {
    SecondTerm(z, u, p, y2);
    assert u * (c * y1) == c * (u * y1);
  }

  /** u (1+x) y'' = z F'' */
  lemma {:induction false} SecondTerm(z: real, u: real, p: real, y2: real)
    requires p == z * u
    ensures u * (p * y2) == z * (u * u * y2)
  {
    assert u * ((z * u) * y2) == z * (u * u * y2);
  }

  lemma {:induction false} Change11(a: real, c: real, z: real, u: real, p: real, y: real, y1: real, y2: real)
    requires p == z * u
    ensures Mul(2.0 * u, Mul(p, y2) + Mul(c, y1)) - Mul(0.0, 2.0 * Mul(p, Mul(p, y2))) - Mul(1.0, 2.0 * Mul(p, y1)) - Mul(a, 2.0 * y)
            == 2.0 * (Mul(z, Mul(u * u, y2)) + Mul(c - z, Mul(u, y1)) - Mul(a, y))
  {
    hide Mul;
    var F1, F2 := Mul(u, y1), Mul(u * u, y2);
    LeadingTerms(c, z, u, p, y1, y2);
    MulZero(2.0 * Mul(p, Mul(p, y2)));
    ScaledDerivative(z, u, p, y1);
    MulOne(2.0 * Mul(p, y1));
    MulTwice(a, y);
    MulCommutes(c - z, F1);
    MulCommutes(c, F1);
    MulCommutes(z, F1);
    MulDistributes(F1, c, z);
  }

  lemma {:induction false} LeadingTerms(c: real, z: real, u: real, p: real, y1: real, y2: real)
    requires p == z * u
    ensures Mul(2.0 * u, Mul(p, y2) + Mul(c, y1)) == 2.0 * Mul(z, Mul(u * u, y2)) + 2.0 * Mul(c, Mul(u, y1))
  {
    SecondTerm(z, u, p, y2);
    assert u * (c * y1) == c * (u * y1);
  }

  lemma {:induction false} ScaledDerivative(z: real, u: real, p: real, y1: real)
    requires p == z * u
    ensures Mul(p, y1) == Mul(z, Mul(u, y1))
  {
  }

  lemma {:induction false} MulTwice(a: real, y: real)
    ensures Mul(a, 2.0 * y) == 2.0 * Mul(a, y)
  {
  }

  lemma {:induction false} Change21(a: real, b: real, c: real, z: real, u: real, p: real, y: real, y1: real, y2: real)
    requires p == z * u
    ensures Mul(2.0 * u, Mul(p, y2) + Mul(c, y1)) - Mul(1.0, 2.0 * Mul(p, Mul(p, y2))) - Mul(a + b + 1.0, 2.0 * Mul(p, y1))
            - Mul(a * b, 2.0 * y)
            == 2.0 * (Mul(Mul(z, 1.0 - z), Mul(u * u, y2)) + Mul(c - Mul(a + b + 1.0, z), Mul(u, y1)) - Mul(Mul(a, b), y))
  {
    var s, F1, F2 := a + b + 1.0, u * y1, u * u * y2;
    SecondTerm(z, u, p, y2);
    assert u * (c * y1) == c * F1;
    assert p * y1 == z * F1;
    assert p * (p * y2) == z * z * F2 by {
      assert (z * u) * ((z * u) * y2) == z * z * (u * u * y2);
    }
    assert z * (1.0 - z) * F2 == z * F2 - z * z * F2;
    assert (c - s * z) * F1 == c * F1 - s * (z * F1);
    hide Mul;
    Change21Mul(u, p, c, s, a * b, y, y1, y2);
  }

  lemma {:induction false} Change21Mul(u: real, p: real, c: real, s: real, ab: real, y: real, y1: real, y2: real)
    ensures Mul(2.0 * u, Mul(p, y2) + Mul(c, y1)) == 2.0 * (u * (p * y2)) + 2.0 * (u * (c * y1))
    ensures Mul(1.0, 2.0 * Mul(p, Mul(p, y2))) == 2.0 * (p * (p * y2))
    ensures Mul(s, 2.0 * Mul(p, y1)) == 2.0 * (s * (p * y1))
    ensures Mul(ab, 2.0 * y) == 2.0 * (ab * y)
  {
  }

  lemma {:induction false} Change12(a: real, b: real, c: real, z: real, u: real, p: real, y: real, y1: real, y2: real, y3: real)
    requires p == z * u
    ensures var e := Mul(p, y2);
            Mul(2.0 * u, e + Mul(p, Mul(p, y3)) + Mul(b + c, e) + Mul(b * c, y1)) - 2.0 * Mul(p, y1) - Mul(a, 2.0 * y)
            == 2.0 * (Mul(Mul(z, z), Mul(u * u * u, y3)) + Mul(Mul(b + c + 1.0, z), Mul(u * u, y2)) + Mul(Mul(b, c) - z, Mul(u, y1)) - Mul(a, y))
  {
    hide Mul;
    var F1, F2, F3 := Mul(u, y1), Mul(u * u, y2), Mul(u * u * u, y3);
    Change12Terms(z, u, p, y1, y2, y3, F1, F2, F3);
    Change12Mul(u, p, b + c, b * c, a, y, y1, y2, y3);
    Change12Right(z, b, c, a, y, F1, F2, F3);
  }

  lemma {:induction false} Change12Terms(z: real, u: real, p: real, y1: real, y2: real, y3: real, F1: real, F2: real, F3: real)
    requires p == z * u && F1 == Mul(u, y1) && F2 == Mul(u * u, y2) && F3 == Mul(u * u * u, y3)
    ensures p * y1 == z * F1 && u * (p * y2) == z * F2 && u * (p * (p * y3)) == z * z * F3 && u * y1 == F1
  {
    FirstTerm(z, u, p, y1);
    SecondTerm(z, u, p, y2);
    ThirdTerm(z, u, p, y3);
  }

  /** (1+x) y' = z F' */
  lemma {:induction false} FirstTerm(z: real, u: real, p: real, y1: real)
    requires p == z * u
    ensures p * y1 == z * (u * y1)
  {
  }

  lemma {:induction false} ThirdTerm(z: real, u: real, p: real, y3: real)
    requires p == z * u
    ensures u * (p * (p * y3)) == z * z * (u * u * u * y3)
  {
    assert u * ((z * u) * ((z * u) * y3)) == z * z * (u * u * u * y3);
  }

  lemma {:induction false} Change12Right(z: real, b: real, c: real, a: real, y: real, F1: real, F2: real, F3: real)
    ensures Mul(Mul(z, z), F3) + Mul(Mul(b + c + 1.0, z), F2) + Mul(Mul(b, c) - z, F1) - Mul(a, y)
            == z * z * F3 + (b + c) * (z * F2) + z * F2 + b * c * F1 - z * F1 - a * y
  {
    assert ((b + c + 1.0) * z) * F2 == (b + c) * (z * F2) + z * F2;
  }

  lemma {:induction false} Change12Mul(u: real, p: real, s: real, t: real, a: real, y: real, y1: real, y2: real, y3: real)
    ensures var e := Mul(p, y2);
            Mul(2.0 * u, e + Mul(p, Mul(p, y3)) + Mul(s, e) + Mul(t, y1))
            == 2.0 * (u * (p * y2)) + 2.0 * (u * (p * (p * y3))) + 2.0 * (s * (u * (p * y2))) + 2.0 * (t * (u * y1))
    ensures Mul(p, y1) == p * y1 && Mul(a, 2.0 * y) == 2.0 * (a * y)
  {
    var e := p * y2;
    assert u * (s * e) == s * (u * e);
    assert u * (t * y1) == t * (u * y1);
  }

  // ------------------------------------------------- the theorem

  /** The factor of the remaining polynomial, for the start value 1. */
  function ResidualFactor(f: Kind, n: nat): real {
    var m := (n + 1) as real;
    match f
    case F01(_) => -1.0 / (2.0 * (m + 1.0))
    case F10(a) => -(m + a) / 2.0
    case F11(a, _) => -(m + a) / (2.0 * (m + 1.0))
    case F12(a, _, _) => -(m + a) / (2.0 * (m + 1.0))
    case F21(a, b, _) => -(m + a) * (m + b) / (2.0 * (m + 1.0))
  }

  lemma {:induction false} ResidualWeight(f: Kind, W: real, n: nat)
    requires W != 0.0
    ensures W0(f, W, n + 1) == if f.F10? then -ResidualFactor(f, n) else 2.0 * ResidualFactor(f, n)
  {
    var m := (n + 1) as real;
    if f.F21? {
      FactorQ(f, m);
    }
  }

  /** The i-th derivative by z, i = 0..3, of the value that series() returns. */
  function SeriesDerivative(C: seq<real>, i: nat, z: real, W: real): real
    requires W != 0.0 && AlternatingSum(C, |C|) != 0.0
  {
    Mul(Chain(2.0 / W, i), DerivativeSum(C, i, ShiftedArgument(z, W), |C|)) / AlternatingSum(C, |C|)
  }

  /** With C the coefficients that the recurrence leaves: the series is 1 at 0, and it satisfies the
      differential equation of f up to a multiple of one polynomial of degree n + 1 in z. */
  lemma {:induction false} SeriesSolvesEquation(f: Kind, W: real, n: nat, start: real, z: real)
    requires W != 0.0 && NoZeroDivisor(f, n)
    requires AlternatingSum(Coefficients(f, W, n, start), n + 2) != 0.0
    ensures var C := Coefficients(f, W, n, start);
            && Series(C, 0.0, W) == 1.0
            && SeriesDerivative(C, 0, z, W) == Series(C, z, W)
            && Equation(f, z, SeriesDerivative(C, 0, z, W), SeriesDerivative(C, 1, z, W),
                        SeriesDerivative(C, 2, z, W), SeriesDerivative(C, 3, z, W))
               == Mul(Mul(ResidualFactor(f, n), start), Basis(f, n + 1, ShiftedArgument(z, W))) / AlternatingSum(C, n + 2)
  {
    hide Coefficients, AlternatingSum, DerivativeSum, ChebyshevSum, Basis, Equation, Operator, W0, ResidualFactor, ShiftedArgument, Mul;
    var C := Coefficients(f, W, n, start);
    var s, u, x := AlternatingSum(C, n + 2), 2.0 / W, ShiftedArgument(z, W);
    SeriesAtZero(C, W);
    ZerothDerivative(C, x, n + 2);
    OperatorOnSeries(f, W, n, start, x);
    ResidualWeight(f, W, n);
    var y, y1, y2, y3 := DerivativeSum(C, 0, x, n + 2), DerivativeSum(C, 1, x, n + 2), DerivativeSum(C, 2, x, n + 2), DerivativeSum(C, 3, x, n + 2);
    EquationInX(f, W, z, u, y, y1, y2, y3);
    ResidualValue(f.F10?, W0(f, W, n + 1), ResidualFactor(f, n), start, Basis(f, n + 1, x));
    MulOne(y);
    assert SeriesDerivative(C, 0, z, W) == y / s && SeriesDerivative(C, 1, z, W) == Mul(u, y1) / s;
    assert SeriesDerivative(C, 2, z, W) == Mul(Chain(u, 2), y2) / s && SeriesDerivative(C, 3, z, W) == Mul(Chain(u, 3), y3) / s;
    EquationScales(f, z, s, y, Mul(u, y1), Mul(Chain(u, 2), y2), Mul(Chain(u, 3), y3));
  }

  lemma {:induction false} ResidualValue(first: bool, w: real, r: real, start: real, b: real)
    requires w == if first then -r else 2.0 * r
    ensures Mul(Mul(w, start), b) == (if first then -Mul(Mul(r, start), b) else 2.0 * Mul(Mul(r, start), b))
  {
    if first {
      assert (-r * start) * b == -(r * start * b);
    } else {
      assert ((2.0 * r) * start) * b == 2.0 * (r * start * b);
    }
  }

  lemma {:induction false} EquationScales(f: Kind, z: real, s: real, F0: real, F1: real, F2: real, F3: real)
    requires s != 0.0
    ensures Equation(f, z, F0 / s, F1 / s, F2 / s, F3 / s) == Equation(f, z, F0, F1, F2, F3) / s
  {
    hide Mul, Equation;
    var c := 1.0 / s;
    ByReciprocal(F0, s);
    ByReciprocal(F1, s);
    ByReciprocal(F2, s);
    ByReciprocal(F3, s);
    ByReciprocal(Equation(f, z, F0, F1, F2, F3), s);
    EquationLinear(f, z, c, F0, F1, F2, F3);
  }

  lemma {:induction false} ByReciprocal(F: real, s: real)
    requires s != 0.0
    ensures F / s == Mul(1.0 / s, F)
  {
    var c := 1.0 / s;
    assert c * s == 1.0;
    assert (c * F) * s == (c * s) * F;
    QuotientUnique(F, s, c * F);
  }

  lemma {:induction false} EquationLinear(f: Kind, z: real, c: real, F0: real, F1: real, F2: real, F3: real)
    ensures Equation(f, z, Mul(c, F0), Mul(c, F1), Mul(c, F2), Mul(c, F3)) == Mul(c, Equation(f, z, F0, F1, F2, F3))
  {
    hide Mul;
    match f
    case F01(d) => LinearTerms(c, 0.0, z, d, 1.0, F0, F1, F2, F3);
    case F10(a) => LinearTerms(c, 0.0, 0.0, 1.0 - z, a, F0, F1, F2, F3);
    case F11(a, d) => LinearTerms(c, 0.0, z, d - z, a, F0, F1, F2, F3);
    case F12(a, b, d) => LinearTerms(c, Mul(z, z), Mul(b + d + 1.0, z), Mul(b, d) - z, a, F0, F1, F2, F3);
    case F21(a, b, d) => LinearTerms(c, 0.0, Mul(z, 1.0 - z), d - Mul(a + b + 1.0, z), Mul(a, b), F0, F1, F2, F3);
  }

  lemma {:induction false} LinearTerms(c: real, p3: real, p2: real, p1: real, p0: real, F0: real, F1: real, F2: real, F3: real)
    ensures Mul(p3, Mul(c, F3)) + Mul(p2, Mul(c, F2)) + Mul(p1, Mul(c, F1)) - Mul(p0, Mul(c, F0))
            == Mul(c, Mul(p3, F3) + Mul(p2, F2) + Mul(p1, F1) - Mul(p0, F0))
    ensures Mul(1.0, Mul(c, F0)) == Mul(c, F0) && Mul(1.0, F0) == F0
    ensures Mul(0.0, Mul(c, F3)) == 0.0 && Mul(0.0, F3) == 0.0 && Mul(0.0, Mul(c, F2)) == 0.0 && Mul(0.0, F2) == 0.0
  {
    MulSwap(p3, c, F3);
    MulSwap(p2, c, F2);
    MulSwap(p1, c, F1);
    MulSwap(p0, c, F0);
    var a3, a2, a1, a0 := Mul(p3, F3), Mul(p2, F2), Mul(p1, F1), Mul(p0, F0);
    assert Mul(c, a3 + a2 + a1 - a0) == Mul(c, a3) + Mul(c, a2) + Mul(c, a1) - Mul(c, a0);
  }
}
