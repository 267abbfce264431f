/** The two cubically convergent iterations for pi of
    example/pi_millions_with_boost_multiprecision.cpp. The roots are parameters. */
module CubicBorwein {
  import opened Reals
  import opened Powers

  ghost predicate IsCbrt(cbrt: real -> real) {
    forall v :: cbrt(v) * cbrt(v) * cbrt(v) == v
  }

  predicate IsRootOfThree(r: real) {
    r >= 0.0 && r * r == 3.0
  }

  /** a_n, s_n and pow_3 */
  datatype State = State(a: real, s: real, p: real)

  /** 3 / (1 + 2 cbrt(1 - s^3)); the divisor is positive by Divisor. */
  function NextR(c: real): real
    requires 1.0 + 2.0 * c != 0.0
  {
    3.0 / (1.0 + 2.0 * c)
  }

  /** r^2 (a - p) + p */
  function NextA(r: real, a: real, p: real): real {
    r * r * (a - p) + p
  }

  /** One pass, with c the cube root of 1 - s^3. */
  function Step(c: real, u: State): State
    requires 1.0 + 2.0 * c != 0.0
  {
    var r := NextR(c);
    State(NextA(r, u.a, u.p), (r - 1.0) / 2.0, u.p * 3.0)
  }

  // ------------------------------------------------- the invariant

  /** s stays in (0, 2/5], and a stays above 1/4 by more than what later passes can take away. */
  predicate Invariant(u: State) {
    0.0 < u.s <= 0.4 && u.p > 0.0 && u.a >= 0.25 + 0.2 * (u.p * u.s)
  }

  lemma {:induction false} StartInvariant(root: real)
    requires IsRootOfThree(root)
    ensures Invariant(State(1.0 / 3.0, (root - 1.0) / 2.0, 1.0))
  {
    if root <= 1.0 {
      SquareOrder(root, 1.0);
    }
    if root > 1.75 {
      SquareOrder(1.75, root);
    }
  }

  lemma {:induction false} CubeOrder(x: real, y: real)
    requires 0.0 <= x <= y
    ensures Cube(x) <= Cube(y)
  {
    CubeIsMul(x);
    CubeIsMul(y);
    hide Mul, Cube;
    MulOrder(x, y, x, y);
    MulOrder(x, y, Mul(x, x), Mul(y, y));
  }

  lemma {:induction false} CubeIsMul(x: real)
    ensures Cube(x) == Mul(x, Mul(x, x))
  {
  }

  lemma {:induction false} CubeNegative(x: real)
    requires x < 0.0
    ensures Cube(x) <= 0.0
  {
    assert x * x >= 0.0;
  }

  lemma {:induction false} CubeIs(x: real)
    ensures Cube(x) == x * x * x
  {
  }

  lemma {:induction false} SmallCube(s: real)
    requires 0.0 < s <= 0.4
    ensures 0.0 < Cube(s) <= 0.064 && Cube(s) <= 0.16 * s
  {
    CubeOrder(s, 0.4);
    SquareOrder(s, 0.4);
    Ordered(s, s * s, 0.16);
    PositiveProduct(s, s);
    PositiveProduct(s * s, s);
  }

  /** The cube root of 1 - s^3 lies between 0.95 and 1. */
  lemma {:induction false} RootRange(s: real, c: real)
    requires 0.0 < s <= 0.4 && Cube(c) == 1.0 - Cube(s)
    ensures 0.95 <= c < 1.0
  {
    SmallCube(s);
    hide Cube;
    CubeValues();
    if c < 0.0 {
      CubeNegative(c);
    } else if c < 0.95 {
      CubeOrder(c, 0.95);
    } else if c >= 1.0 {
      CubeOrder(1.0, c);
    }
  }

  lemma {:induction false} CubeValues()
    ensures Cube(0.95) == 0.857375 && Cube(1.0) == 1.0
  {
  }

  /** The new s is (1-c)/(1+2c), at most an eighth of the old s cubed. */
  lemma {:induction false} NextS(s: real, c: real, s': real)
    requires 0.0 < s <= 0.4 && Cube(c) == 1.0 - Cube(s) && 0.95 <= c < 1.0
    requires s' == (NextR(c) - 1.0) / 2.0
    ensures 0.0 < s' && 8.0 * s' <= Cube(s) && 8.0 * s' <= 0.16 * s
  {
    SmallCube(s);
    var d := 1.0 + 2.0 * c;
    RIs(c, NextR(c));
    assert s' * d == 1.0 - c;
    var q := 1.0 + c + c * c;
    assert (1.0 - c) * q == 1.0 - Cube(c);
    SquareOrder(0.95, c);
    hide Cube, NextR;
    SharpBound(s', d, q, Cube(s));
  }

  lemma {:induction false} RIs(c: real, r: real)
    requires c >= 0.0 && r == NextR(c)
    ensures r * (1.0 + 2.0 * c) == 3.0
  {
  }

  lemma {:induction false} SharpBound(s: real, d: real, q: real, v: real)
    requires d >= 2.9 && q >= 2.85 && v > 0.0 && (s * d) * q == v
    ensures s > 0.0 && 8.0 * s <= v
  {
    PositiveProduct(d, q);
    Ordered(d, 2.85, q);
    assert s * (d * q) == v;
    if s <= 0.0 {
      Ordered(d * q, s, 0.0);
    }
    Ordered(s, 8.0, d * q);
  }

  /** a' = a r^2 - p (r^2 - 1) loses at most 4 p s'(1+s'). */
  lemma {:induction false} ALoss(u: State, r: real, s': real)
    requires Invariant(u) && 0.0 < s' && 8.0 * s' <= 0.16 * u.s && r == 2.0 * s' + 1.0
    ensures r * r * (u.a - u.p) + u.p >= 0.25 + 0.2 * ((u.p * 3.0) * s')
  {
    var g := r * r - 1.0;
    Growth(s', r, g);
    Ordered(u.p, 0.0, u.s);
    Ordered(g, 0.0, u.a);
    Regroup(r, u.a, u.p, g);
    Ordered(u.p, g, 4.04 * s');
    Ordered(u.p, 50.0 * s', u.s);
    Multiples(u.p, s');
    var q := u.p * s';
    assert g * u.a >= 0.0;
    assert u.p * g <= 4.04 * q;
    assert u.p * u.s >= 50.0 * q && q >= 0.0;
  }

  lemma {:induction false} Multiples(p: real, s: real)
    ensures p * (50.0 * s) == 50.0 * (p * s) && p * (4.04 * s) == 4.04 * (p * s) && (p * 3.0) * s == 3.0 * (p * s)
  {
  }

  lemma {:induction false} Regroup(r: real, a: real, p: real, g: real)
    requires g == r * r - 1.0
    ensures r * r * (a - p) + p == a + g * a - p * g
  {
    assert (g + 1.0) * (a - p) == g * a - p * g + a - p;
  }

  lemma {:induction false} Growth(s: real, r: real, g: real)
    requires 0.0 < s <= 0.008 && r == 2.0 * s + 1.0 && g == r * r - 1.0
    ensures 0.0 < g <= 4.04 * s
  {
    GrowthProduct(s, r);
    hide Mul;
    GrowthFactor(s, r + 1.0);
  }

  lemma {:induction false} GrowthProduct(s: real, r: real)
    requires r == 2.0 * s + 1.0
    ensures r * r - 1.0 == 2.0 * Mul(s, r + 1.0)
  {
  }

  lemma {:induction false} GrowthFactor(s: real, t: real)
    requires s > 0.0 && 2.0 <= t <= 2.02
    ensures 2.0 * s <= Mul(s, t) <= 2.02 * s
  {
    Ordered(s, 2.0, t);
    Ordered(s, t, 2.02);
  }

  lemma {:induction false} StepInvariant(c: real, u: State)
    requires Invariant(u) && Cube(c) == 1.0 - Cube(u.s)
    ensures 1.0 + 2.0 * c > 0.0 && Invariant(Step(c, u))
  {
    hide Cube, NextR;
    RootRange(u.s, c);
    var s' := (NextR(c) - 1.0) / 2.0;
    NextS(u.s, c, s');
    ALoss(u, NextR(c), s');
  }

  // ------------------------------------------------- the runs

  /** The state after n passes, for a cube root function. */
  ghost function After(root: real, cbrt: real -> real, n: nat): (u: State)
    requires IsRootOfThree(root) && IsCbrt(cbrt)
    ensures Invariant(u)
  {
    if n == 0 then (StartInvariant(root); State(1.0 / 3.0, (root - 1.0) / 2.0, 1.0))
    else
      var v := After(root, cbrt, n - 1);
      RootOf(cbrt, v.s);
      StepInvariant(cbrt(1.0 - Cube(v.s)), v);
      Step(cbrt(1.0 - Cube(v.s)), v)
  }

  lemma {:induction false} RootOf(cbrt: real -> real, s: real)
    requires IsCbrt(cbrt)
    ensures Cube(cbrt(1.0 - Cube(s))) == 1.0 - Cube(s)
  {
  }

  lemma {:induction false} AfterNext(root: real, cbrt: real -> real, n: nat)
    requires IsRootOfThree(root) && IsCbrt(cbrt)
    ensures var v := After(root, cbrt, n);
            var c := cbrt(1.0 - Cube(v.s));
            1.0 + 2.0 * c > 0.0 && After(root, cbrt, n + 1) == Step(c, v)
  {
    var v := After(root, cbrt, n);
    hide Invariant, Step, IsCbrt;
    RootOf(cbrt, v.s);
    StepInvariant(cbrt(1.0 - Cube(v.s)), v);
  }

  /** Cubic convergence: every pass takes s to at most an eighth of its cube. */
  lemma {:induction false} CubicConvergence(root: real, cbrt: real -> real, n: nat)
    requires IsRootOfThree(root) && IsCbrt(cbrt)
    ensures 0.0 < 8.0 * After(root, cbrt, n + 1).s <= Cube(After(root, cbrt, n).s)
  {
    var v := After(root, cbrt, n);
    hide IsCbrt;
    AfterNext(root, cbrt, n);
    RootOf(cbrt, v.s);
    var c := cbrt(1.0 - Cube(v.s));
    RootRange(v.s, c);
    NextS(v.s, c, (NextR(c) - 1.0) / 2.0);
  }

  // ------------------------------------------------- the programs

  lemma {:induction false} SameA(r2: real, a: real, p: real)
    ensures r2 * a - p * (r2 - 1.0) == r2 * (a - p) + p
  {
  }

  lemma {:induction false} PositiveA(u: State)
    requires Invariant(u)
    ensures u.a >= 0.25
  {
    PositiveProduct(u.p, u.s);
  }

  /** The digits of pi that n passes give. */
  predicate PiDigits(r: real, n: nat) {
    && (n >= 1 ==> 3.14159 <= r <= 3.14163)
    && (n >= 2 ==> Abs(r - 3.14159265358979323846) <= 0.0000000000000000001)
  }

  method CubicBorweinForPi(root: real, cbrt: real -> real, maxIter: nat) returns (r: real)
    requires IsRootOfThree(root) && IsCbrt(cbrt)
    ensures After(root, cbrt, maxIter).a >= 0.25 && r == 1.0 / After(root, cbrt, maxIter).a
    ensures PiDigits(r, maxIter)
  {
    hide IsCbrt, Invariant, After, Cube;
    var three := 3.0;
    var a_n, s_n, pow_3 := 1.0 / three, (root - 1.0) / 2.0, 1.0;
    AfterNone(root, cbrt);
    for i := 0 to maxIter
      invariant After(root, cbrt, i) == State(a_n, s_n, pow_3)
    {
      AfterNext(root, cbrt, i);
      var r_n := 3.0 / (1.0 + 2.0 * cbrt(1.0 - Cube(s_n)));
      s_n := (r_n - 1.0) / 2.0;
      r_n := r_n * r_n;
      a_n := r_n * (a_n - pow_3) + pow_3;
      pow_3 := pow_3 * 3.0;
    }
    PositiveA(After(root, cbrt, maxIter));
    r := 1.0 / a_n;
    DigitsOfResult(root, cbrt, maxIter);
  }

  lemma {:induction false} AfterNone(root: real, cbrt: real -> real)
    requires IsRootOfThree(root) && IsCbrt(cbrt)
    ensures After(root, cbrt, 0) == State(1.0 / 3.0, (root - 1.0) / 2.0, 1.0)
  {
  }

  method Unleashed(root: real, cbrt: real -> real, maxIter: nat) returns (valPi: real)
    requires IsRootOfThree(root) && IsCbrt(cbrt)
    ensures After(root, cbrt, maxIter).a >= 0.25 && valPi == 1.0 / After(root, cbrt, maxIter).a
    ensures PiDigits(valPi, maxIter)
  {
    hide IsCbrt, Invariant, After, Cube;
    valPi := 1.0;
    var a_n, s_n, pow_3 := 1.0 / 3.0, (root - 1.0) / 2.0, 1.0;
    AfterNone(root, cbrt);
    for i := 0 to maxIter
      invariant After(root, cbrt, i) == State(a_n, s_n, pow_3)
    {
      AfterNext(root, cbrt, i);
      CubeIs(s_n);
      var sCubed := (s_n * s_n) * s_n;
      var r_n := 3.0 / (1.0 + (2.0 * cbrt(1.0 - sCubed)));
      var rSquared := r_n * r_n;
      s_n := (r_n - 1.0) / 2.0;
      SameA(rSquared, a_n, pow_3);
      a_n := (rSquared * a_n) - (pow_3 * (rSquared - 1.0));
      pow_3 := pow_3 * 3.0;
    }
    PositiveA(After(root, cbrt, maxIter));
    valPi := 1.0 / a_n;
    DigitsOfResult(root, cbrt, maxIter);
  }

  /** The static result of cubic_borwein_pi_unleashed. */
  class UnleashedCache {
    var isInit: bool
    var valPi: real

    constructor ()
      ensures !isInit
    {
      isInit := false;
      valPi := 0.0;
    }

    /** The first call returns what cubic_borwein_for_pi returns, later calls the same value. */
    method CubicBorweinPiUnleashed(root: real, cbrt: real -> real, maxIter: nat) returns (r: real)
      requires IsRootOfThree(root) && IsCbrt(cbrt)
      modifies this
      ensures isInit && valPi == r
      ensures old(isInit) ==> r == old(valPi)
      ensures !old(isInit) ==> After(root, cbrt, maxIter).a >= 0.25 && r == 1.0 / After(root, cbrt, maxIter).a
      ensures !old(isInit) ==> PiDigits(r, maxIter)
    {
      if !isInit {
        isInit := true;
        valPi := Unleashed(root, cbrt, maxIter);
      }
      r := valPi;
    }
  }

  // ------------------------------------------------- the rate of convergence

  function Pow3(n: nat): (p: nat)
    ensures p >= 1
  {
    if n == 0 then 1 else 3 * Pow3(n - 1)
  }

  lemma {:induction false} PowerIsP(root: real, cbrt: real -> real, n: nat)
    requires IsRootOfThree(root) && IsCbrt(cbrt)
    ensures After(root, cbrt, n).p == Pow3(n) as real
  {
    hide IsCbrt, Cube, NextR;
    if n == 0 {
      AfterNone(root, cbrt);
    } else {
      PowerIsP(root, cbrt, n - 1);
      hide After;
      AfterNext(root, cbrt, n - 1);
    }
  }

  /** s after n passes is at most 7^(-3^n) / 0.36. */
  lemma {:induction false} SBound(root: real, cbrt: real -> real, n: nat)
    requires IsRootOfThree(root) && IsCbrt(cbrt)
    ensures 0.0 < 0.36 * After(root, cbrt, n).s <= Pow(1.0 / 7.0, Pow3(n))
  {
    hide IsCbrt, After, Pow;
    if n == 0 {
      AfterNone(root, cbrt);
      FirstS(root);
    } else {
      var x, m := 1.0 / 7.0, Pow3(n - 1);
      SBound(root, cbrt, n - 1);
      CubicConvergence(root, cbrt, n - 1);
      PowTriple(x, m);
      SCore(After(root, cbrt, n - 1).s, After(root, cbrt, n).s, Pow(x, m));
    }
  }

  lemma {:induction false} FirstS(root: real)
    requires IsRootOfThree(root)
    ensures 0.0 < 0.36 * ((root - 1.0) / 2.0) <= Pow(1.0 / 7.0, Pow3(0))
  {
    StartInvariant(root);
    assert Pow(1.0 / 7.0, 1) == Mul(1.0 / 7.0, Pow(1.0 / 7.0, 0));
    if root > 1.75 {
      SquareOrder(1.75, root);
    }
  }

  lemma {:induction false} PowTriple(x: real, m: nat)
    ensures Pow(x, 3 * m) == Mul(Pow(x, m), Mul(Pow(x, m), Pow(x, m)))
  {
    PowAdds(x, m, 2 * m);
    PowAdds(x, m, m);
  }

  lemma {:induction false} SCore(s: real, s': real, q: real)
    requires 0.0 < s && 0.36 * s <= q && 0.0 < 8.0 * s' <= Cube(s)
    ensures 0.0 < 0.36 * s' <= Mul(q, Mul(q, q))
  {
    CubeOrder(0.36 * s, q);
    assert Cube(0.36 * s) == 0.046656 * Cube(s);
    assert Cube(q) == q * (q * q);
  }

  /** a falls from one pass to the next, by at most 4.04 p s'. */
  lemma {:induction false} AFalls(root: real, cbrt: real -> real, n: nat)
    requires IsRootOfThree(root) && IsCbrt(cbrt)
    requires After(root, cbrt, n).a <= 1.0 / 3.0
    ensures var u, v := After(root, cbrt, n), After(root, cbrt, n + 1);
            0.0 <= u.a - v.a <= 4.04 * Mul(u.p, v.s)
  {
    hide IsCbrt, After;
    var u, v := After(root, cbrt, n), After(root, cbrt, n + 1);
    AfterNext(root, cbrt, n);
    CubicConvergence(root, cbrt, n);
    PowerIsP(root, cbrt, n);
    SmallCube(u.s);
    var c := cbrt(1.0 - Cube(u.s));
    hide Cube, NextR;
    FallCore(u.a, u.p, NextR(c), v.s, v.a);
  }

  lemma {:induction false} FallCore(a: real, p: real, r: real, s: real, a': real)
    requires a' == r * r * (a - p) + p && s == (r - 1.0) / 2.0 && 0.0 < s <= 0.008
    requires 0.25 <= a <= 1.0 / 3.0 && p >= 1.0
    ensures 0.0 <= a - a' <= 4.04 * Mul(p, s)
  {
    var g := r * r - 1.0;
    Growth(s, r, g);
    Regroup(r, a, p, g);
    Ordered(g, a, p);
    Ordered(g, 0.0, a);
    Ordered(p, g, 4.04 * s);
    assert p * (4.04 * s) == 4.04 * (p * s);
  }

  lemma {:induction false} UpperA(root: real, cbrt: real -> real, n: nat)
    requires IsRootOfThree(root) && IsCbrt(cbrt)
    ensures 0.25 <= After(root, cbrt, n).a <= 1.0 / 3.0
  {
    hide IsCbrt, After;
    PositiveA(After(root, cbrt, n));
    if n == 0 {
      AfterNone(root, cbrt);
    } else {
      UpperA(root, cbrt, n - 1);
      AFalls(root, cbrt, n - 1);
    }
  }

  /** The value that both functions return after n passes. */
  ghost function Value(root: real, cbrt: real -> real, n: nat): real
    requires IsRootOfThree(root) && IsCbrt(cbrt)
  {
    UpperA(root, cbrt, n);
    1.0 / After(root, cbrt, n).a
  }

  /** 3^n 7^(-3^(n+1)), the size of what a pass changes. */
  function Rest(n: nat): real {
    Mul(Pow3(n) as real, Pow(1.0 / 7.0, Pow3(n + 1)))
  }

  /** A pass raises the result by at most 180 * 3^n 7^(-3^(n+1)). */
  lemma {:induction false} PassGain(root: real, cbrt: real -> real, n: nat)
    requires IsRootOfThree(root) && IsCbrt(cbrt)
    ensures 0.0 <= Value(root, cbrt, n + 1) - Value(root, cbrt, n) <= 180.0 * Rest(n)
  {
    hide IsCbrt, After, Pow, Mul, Invariant;
    UpperA(root, cbrt, n);
    UpperA(root, cbrt, n + 1);
    AFalls(root, cbrt, n);
    SBound(root, cbrt, n + 1);
    PowerIsP(root, cbrt, n);
    var u, v := After(root, cbrt, n), After(root, cbrt, n + 1);
    GainCore(u.a, v.a, u.p, v.s, Pow(1.0 / 7.0, Pow3(n + 1)));
  }

  lemma {:induction false} GainCore(a: real, b: real, p: real, s: real, q: real)
    requires 0.25 <= a && 0.25 <= b && 0.0 <= a - b <= 4.04 * Mul(p, s) && p >= 0.0 && 0.0 <= 0.36 * s <= q
    ensures 0.0 <= 1.0 / b - 1.0 / a <= 180.0 * Mul(p, q)
  {
    hide Mul;
    MulOrder(p, p, 0.36 * s, q);
    PullScale(p, s);
    InverseDifference(a, b);
    MulOrder(0.25, a, 0.25, b);
    MulIs(0.25, 0.25);
    FactorSize(1.0 / b - 1.0 / a, Mul(a, b));
  }

  lemma {:induction false} PullScale(p: real, s: real)
    ensures Mul(p, 0.36 * s) == 0.36 * Mul(p, s)
  {
  }

  lemma {:induction false} InverseDifference(a: real, b: real)
    requires a > 0.0 && b > 0.0
    ensures Mul(1.0 / b - 1.0 / a, Mul(a, b)) == a - b
  {
    var x, y := 1.0 / a, 1.0 / b;
    assert x * a == 1.0 && y * b == 1.0;
    assert (y - x) * (a * b) == (y * b) * a - (x * a) * b;
  }

  lemma {:induction false} RestShrinks(n: nat)
    ensures 0.0 <= 2.0 * Rest(n + 1) <= Rest(n)
  {
    hide Pow, Mul;
    var x, m := 1.0 / 7.0, Pow3(n + 1);
    PowTriple(x, m);
    PowDecreases(x, 1, m);
    PowBelowOne(x, m);
    PowSeventh();
    assert Pow3(n + 2) == 3 * m;
    HalfOfRest(Pow3(n) as real, Pow(x, m));
  }

  lemma {:induction false} PowSeventh()
    ensures Pow(1.0 / 7.0, 1) == 1.0 / 7.0
  {
    assert Pow(1.0 / 7.0, 0) == 1.0;
  }

  lemma {:induction false} HalfOfRest(c: real, q: real)
    requires c >= 0.0 && 0.0 < q <= 1.0 / 7.0
    ensures 0.0 <= 2.0 * Mul(3.0 * c, Mul(q, Mul(q, q))) <= Mul(c, q)
  {
    var y, z := c * q, q * q;
    assert y >= 0.0;
    SquareOrder(q, 1.0 / 7.0);
    assert (3.0 * c) * (q * z) == 3.0 * (y * z);
    Ordered(y, z, 1.0 / 49.0);
    Ordered(y, 0.0, z);
  }

  /** All further passes together raise the result by at most twice that. */
  lemma {:induction false} LaterPasses(root: real, cbrt: real -> real, n: nat, k: nat)
    requires IsRootOfThree(root) && IsCbrt(cbrt)
    ensures 0.0 <= Value(root, cbrt, n + k) - Value(root, cbrt, n) <= 360.0 * Rest(n)
    decreases k
  {
    hide Rest, Value, IsCbrt;
    RestShrinks(n);
    if k > 0 {
      PassGain(root, cbrt, n);
      LaterPasses(root, cbrt, n + 1, k - 1);
      assert n + 1 + (k - 1) == n + k;
    }
  }

  /** The pass count of the source for d digits, 1 + floor(log3(d / 2)). */
  predicate PassCount(d: nat, n: nat) {
    n >= 1 && 2 * Pow3(n - 1) <= d < 2 * Pow3(n)
  }

  /** With the pass count of the source no number of further passes changes the result by more than
      36 units of the last of d digits. */
  lemma {:induction false} PassesSuffice(root: real, cbrt: real -> real, d: nat, n: nat, k: nat)
    requires IsRootOfThree(root) && IsCbrt(cbrt) && PassCount(d, n)
    ensures 0.0 <= Value(root, cbrt, n + k) - Value(root, cbrt, n) <= 36.0 * Pow(0.1, d)
  {
    hide Pow, Value, IsCbrt, Mul;
    LaterPasses(root, cbrt, n, k);
    var x, e := 1.0 / 15.0, Pow3(n);
    SeventhsToFifteenths(e);
    assert Pow3(n + 1) == 3 * e && d + 1 <= 2 * e && 2 * e <= 3 * d;
    PowDecreases(x, d + 1, 2 * e);
    PowBelowOne(1.0 / 7.0, 3 * e);
    PowFirst(x, d);
    CountTimesPower(d);
    DigitsCore(e as real, d as real, Pow(1.0 / 7.0, 3 * e), Pow(x, d), Pow(0.1, d));
  }

  /** 7^3 is more than 15^2. */
  lemma {:induction false} SeventhsToFifteenths(e: nat)
    ensures Pow(1.0 / 7.0, 3 * e) <= Pow(1.0 / 15.0, 2 * e)
  {
    PowOfPow(1.0 / 7.0, 3, e);
    PowOfPow(1.0 / 15.0, 2, e);
    SmallPowers();
    hide Pow;
    PowOrder(Pow(1.0 / 7.0, 3), Pow(1.0 / 15.0, 2), e);
  }

  lemma {:induction false} SmallPowers()
    ensures 0.0 <= Pow(1.0 / 7.0, 3) <= Pow(1.0 / 15.0, 2)
  {
    var x, y := 1.0 / 7.0, 1.0 / 15.0;
    assert Pow(x, 3) == Mul(x, Mul(x, Mul(x, Pow(x, 0))));
    assert Pow(y, 2) == Mul(y, Mul(y, Pow(y, 0)));
  }

  lemma {:induction false} DigitsCore(c: real, d: real, r: real, q: real, u: real)
    requires 0.0 <= 2.0 * c <= 3.0 * d && 0.0 < r <= Mul(1.0 / 15.0, q) && Mul(d, q) <= u
    ensures 360.0 * Mul(c, r) <= 36.0 * u
  {
    Ordered(r, c, 1.5 * d);
    Ordered(1.5 * d, r, q / 15.0);
    assert (1.5 * d) * (q / 15.0) == 0.1 * (d * q);
  }

  // ------------------------------------------------- where the iteration goes

  /** Enclosures of s and a. */
  predicate Enclosed(u: State, slo: real, shi: real, alo: real, ahi: real, p: real) {
    Inside(u.s, slo, shi) && Inside(u.a, alo, ahi) && u.p == p
  }

  /** clo and chi enclose the cube root of 1 - s^3 for every s between slo and shi. */
  predicate RootBounds(slo: real, shi: real, clo: real, chi: real) {
    && 0.0 <= slo && 0.0 <= clo && 0.0 <= chi
    && Cube(clo) < 1.0 - Cube(shi) && 1.0 - Cube(slo) < Cube(chi)
  }

  lemma {:induction false} RootInside(s: real, c: real, slo: real, shi: real, clo: real, chi: real)
    requires Inside(s, slo, shi) && c >= 0.0 && Cube(c) == 1.0 - Cube(s) && RootBounds(slo, shi, clo, chi)
    ensures Inside(c, clo, chi)
  {
    hide Cube;
    CubeOrder(slo, s);
    CubeOrder(s, shi);
    if c < clo {
      CubeOrder(c, clo);
    }
    if c > chi {
      CubeOrder(chi, c);
    }
  }

  /** rlo and rhi enclose 3 / (1 + 2c) for every c between clo and chi. */
  predicate NextRBounds(clo: real, chi: real, rlo: real, rhi: real) {
    0.0 <= clo && 0.0 <= rlo && 0.0 <= rhi && rlo * (1.0 + 2.0 * chi) <= 3.0 <= rhi * (1.0 + 2.0 * clo)
  }

  lemma {:induction false} NextRInside(c: real, clo: real, chi: real, rlo: real, rhi: real)
    requires Inside(c, clo, chi) && NextRBounds(clo, chi, rlo, rhi)
    ensures 1.0 + 2.0 * c > 0.0 && Inside(NextR(c), rlo, rhi)
  {
    Ordered(rlo, 1.0 + 2.0 * c, 1.0 + 2.0 * chi);
    Ordered(rhi, 1.0 + 2.0 * clo, 1.0 + 2.0 * c);
    QuotientInside(3.0, 1.0 + 2.0 * c, rlo, rhi);
  }

  /** alo' and ahi' enclose the new a for all r and a between their bounds. */
  predicate NextABounds(p: real, rlo: real, rhi: real, alo: real, ahi: real, alo': real, ahi': real) {
    0.0 <= rlo && ahi <= p && alo' <= p - rhi * rhi * (p - alo) && p - rlo * rlo * (p - ahi) <= ahi'
  }

  lemma {:induction false} NextAInside(r: real, a: real, p: real, rlo: real, rhi: real, alo: real, ahi: real, alo': real, ahi': real)
    requires Inside(r, rlo, rhi) && Inside(a, alo, ahi) && NextABounds(p, rlo, rhi, alo, ahi, alo', ahi')
    ensures Inside(NextA(r, a, p), alo', ahi')
  {
    SquareInside(r, rlo, rhi);
    var q, ql, qh := r * r, rlo * rlo, rhi * rhi;
    assert ql >= 0.0;
    MulOrder(ql, q, p - ahi, p - a);
    MulOrder(q, qh, p - a, p - alo);
    assert q * (a - p) == -Mul(q, p - a);
  }

  /** One pass carries enclosures over. */
  lemma {:induction false} PassInside(root: real, cbrt: real -> real, n: nat, slo: real, shi: real, alo: real, ahi: real, p: real,
                                      clo: real, chi: real, rlo: real, rhi: real, alo': real, ahi': real)
    requires IsRootOfThree(root) && IsCbrt(cbrt) && Enclosed(After(root, cbrt, n), slo, shi, alo, ahi, p)
    requires RootBounds(slo, shi, clo, chi) && NextRBounds(clo, chi, rlo, rhi)
    requires NextABounds(p, rlo, rhi, alo, ahi, alo', ahi')
    ensures Enclosed(After(root, cbrt, n + 1), (rlo - 1.0) / 2.0, (rhi - 1.0) / 2.0, alo', ahi', 3.0 * p)
  {
    hide *;
    var u := After(root, cbrt, n);
    AfterNext(root, cbrt, n);
    var c := cbrt(1.0 - Cube(u.s));
    RootOf(cbrt, u.s);
    EnclosedParts(u, slo, shi, alo, ahi, p);
    SRange(u);
    RootRange(u.s, c);
    RootInside(u.s, c, slo, shi, clo, chi);
    NextRInside(c, clo, chi, rlo, rhi);
    NextAInside(NextR(c), u.a, p, rlo, rhi, alo, ahi, alo', ahi');
    StepEnclosed(c, u, p, rlo, rhi, alo', ahi');
  }

  lemma {:induction false} EnclosedParts(u: State, slo: real, shi: real, alo: real, ahi: real, p: real)
    requires Enclosed(u, slo, shi, alo, ahi, p)
    ensures Inside(u.s, slo, shi) && Inside(u.a, alo, ahi) && u.p == p
  {
  }

  lemma {:induction false} StepEnclosed(c: real, u: State, p: real, rlo: real, rhi: real, alo: real, ahi: real)
    requires 1.0 + 2.0 * c > 0.0 && u.p == p && Inside(NextR(c), rlo, rhi)
    requires Inside(NextA(NextR(c), u.a, p), alo, ahi)
    ensures Enclosed(Step(c, u), (rlo - 1.0) / 2.0, (rhi - 1.0) / 2.0, alo, ahi, 3.0 * p)
  {
    hide NextR, NextA;
  }

  lemma {:induction false} SRange(u: State)
    requires Invariant(u)
    ensures 0.0 < u.s <= 0.4
  {
  }

  lemma {:induction false} StartInside(root: real, cbrt: real -> real)
    requires IsRootOfThree(root) && IsCbrt(cbrt)
    ensures Enclosed(After(root, cbrt, 0), 0.366025403784438646763723, 0.366025403784438646763724,
                     0.333333333333333333333333, 0.333333333333333333333334, 1.0)
  {
    hide After;
    AfterNone(root, cbrt);
    RootOfThreeInside(root);
  }

  lemma {:induction false} RootOfThreeInside(root: real)
    requires IsRootOfThree(root)
    ensures Inside(root, 1.732050807568877293527446, 1.732050807568877293527447)
  {
    if root < 1.732050807568877293527446 {
      SquareOrder(root, 1.732050807568877293527446);
    }
    if root > 1.732050807568877293527447 {
      SquareOrder(1.732050807568877293527447, root);
    }
  }

  lemma {:induction false} FirstPass(root: real, cbrt: real -> real)
    requires IsRootOfThree(root) && IsCbrt(cbrt)
    ensures Enclosed(After(root, cbrt, 1), 0.005602328012700623405453, 0.005602328012700623405454,
                     0.318310095755033297275042, 0.318310095755033297275047, 3.0)
  {
    hide After, IsCbrt;
    StartInside(root, cbrt);
    PassInside(root, cbrt, 0, 0.366025403784438646763723, 0.366025403784438646763724,
               0.333333333333333333333333, 0.333333333333333333333334, 1.0,
               0.983379245795640717128351, 0.983379245795640717128352,
               1.011204656025401246810906, 1.011204656025401246810908,
               0.318310095755033297275042, 0.318310095755033297275047);
  }

  lemma {:induction false} SecondPass(root: real, cbrt: real -> real)
    requires IsRootOfThree(root) && IsCbrt(cbrt)
    ensures Enclosed(After(root, cbrt, 2), 0.000000019537236408239702, 0.000000019537236408239703,
                     0.31830988618379067153779, 0.318309886183790671537801, 9.0)
  {
    hide After, IsCbrt;
    FirstPass(root, cbrt);
    PassInside(root, cbrt, 1, 0.005602328012700623405453, 0.005602328012700623405454,
               0.318310095755033297275042, 0.318310095755033297275047, 3.0,
               0.999999941388293065502442, 0.999999941388293065502443,
               1.000000039074472816479404, 1.000000039074472816479405,
               0.31830988618379067153779, 0.318309886183790671537801);
  }

  /** The first two results in digits. */
  lemma {:induction false} FirstResults(root: real, cbrt: real -> real)
    requires IsRootOfThree(root) && IsCbrt(cbrt)
    ensures Inside(Value(root, cbrt, 1), 3.1415905852, 3.1415905853)
    ensures Inside(Value(root, cbrt, 2), 3.14159265358979323846, 3.14159265358979323847)
  {
    hide After, IsCbrt;
    UpperA(root, cbrt, 1);
    UpperA(root, cbrt, 2);
    FirstPass(root, cbrt);
    SecondPass(root, cbrt);
    QuotientInside(1.0, After(root, cbrt, 1).a, 3.1415905852, 3.1415905853);
    QuotientInside(1.0, After(root, cbrt, 2).a, 3.14159265358979323846, 3.14159265358979323847);
  }

  lemma {:induction false} RestValues()
    ensures Rest(1) == 3.0 / 40353607.0 && Rest(2) <= 0.000000000000000000000137
  {
    PowSeventh();
    hide Pow;
    var x := 1.0 / 7.0;
    PowTriple(x, 1);
    PowTriple(x, 3);
    PowTriple(x, 9);
    assert Pow3(0) == 1 && Pow3(1) == 3 && Pow3(2) == 9 && Pow3(3) == 27;
    assert Pow(x, 3) == 1.0 / 343.0;
    assert Pow(x, 9) == 1.0 / 40353607.0;
  }

  /** Where the results are: after one pass between 3.14159 and 3.14163, and after two or more within
      10^-19 of 3.14159265358979323846. */
  lemma {:induction false} ResultInDigits(root: real, cbrt: real -> real, n: nat)
    requires IsRootOfThree(root) && IsCbrt(cbrt) && n >= 1
    ensures 3.14159 <= Value(root, cbrt, n) <= 3.14163
    ensures n >= 2 ==> Abs(Value(root, cbrt, n) - 3.14159265358979323846) <= 0.0000000000000000001
  {
    hide Value, Rest, IsCbrt;
    FirstResults(root, cbrt);
    RestValues();
    LaterPasses(root, cbrt, 1, n - 1);
    if n >= 2 {
      LaterPasses(root, cbrt, 2, n - 2);
    }
  }

  lemma {:induction false} DigitsOfResult(root: real, cbrt: real -> real, n: nat)
    requires IsRootOfThree(root) && IsCbrt(cbrt)
    ensures After(root, cbrt, n).a >= 0.25 && PiDigits(1.0 / After(root, cbrt, n).a, n)
  {
    hide After, IsCbrt;
    UpperA(root, cbrt, n);
    assert Value(root, cbrt, n) == 1.0 / After(root, cbrt, n).a;
    hide Value;
    if n >= 1 {
      ResultInDigits(root, cbrt, n);
    }
  }
}
