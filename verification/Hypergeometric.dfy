/** hypergeometric_pfq_base and its five derived classes: the deque of coefficients filled by
    ccoef() and summed by series(). */
module Hypergeometric {
  import opened Reals
  import opened Chebyshev
  import opened Luke

  /** C after ccoef(): resize(1, A1) keeps an old first element, so only an empty deque starts
      the list with A1. */
  function Filled(l: seq<real>, C: seq<real>): (r: seq<real>)
    requires |l| > 0
    ensures |r| == |l|
  {
    if C == [] then l else l[|l| - 1 := C[0]]
  }

  // ------------------------------------------------- one backward step

  /** C and the saved coefficients after j steps; last is what resize left. */
  ghost predicate Running(C: seq<real>, f: Kind, w: real, n: nat, start: real, last: real, j: nat,
                          A1: real, A2: real, A3: real, A4: real)
    requires w != 0.0 && NoZeroDivisor(f, n) && j <= n + 1
  {
    var l := Backward(f, w, n, j, start);
    && C == l[..j] + [last]
    && A1 == Nth(l, 0) && A2 == Nth(l, 1) && A3 == Nth(l, 2) && A4 == Nth(l, 3)
  }

  lemma {:induction false} Start(f: Kind, w: real, n: nat, start: real, last: real)
    requires w != 0.0 && NoZeroDivisor(f, n)
    ensures Running([last], f, w, n, start, last, 0, start, 0.0, 0.0, 0.0)
  {
  }

  lemma {:induction false} Advance(C: seq<real>, f: Kind, w: real, n: nat, start: real, last: real, j: nat,
                                   A1: real, A2: real, A3: real, A4: real)
    requires w != 0.0 && NoZeroDivisor(f, n) && j <= n
    requires Running(C, f, w, n, start, last, j, A1, A2, A3, A4)
    ensures var t := NextTerm(f, w, n - j, A1, A2, A3, A4);
            Running([t] + C, f, w, n, start, last, j + 1, t, A1, A2, A3)
  {
    hide Term01, Term10, Term11, Term12, Term21;
    var l := Backward(f, w, n, j, start);
    assert Backward(f, w, n, j + 1, start) == [Term(f, w, n - j, l)] + l;
  }

  lemma {:induction false} Finish(C: seq<real>, f: Kind, w: real, n: nat, start: real, C0: seq<real>,
                                  A1: real, A2: real, A3: real, A4: real)
    requires w != 0.0 && NoZeroDivisor(f, n)
    requires Running(C, f, w, n, start, if C0 == [] then start else C0[0], n + 1, A1, A2, A3, A4)
    ensures |C| > 0 && C[0 := C[0] / 2.0] == Filled(Coefficients(f, w, n, start), C0)
  {
    BackwardEnds(f, w, n, n + 1, start);
  }

  /** The start value stays at the back. */
  lemma {:induction false} BackwardEnds(f: Kind, w: real, n: nat, j: nat, start: real)
    requires w != 0.0 && NoZeroDivisor(f, n) && j <= n + 1
    ensures Backward(f, w, n, j, start)[j] == start
  {
    if j > 0 {
      BackwardEnds(f, w, n, j - 1, start);
    }
  }

  // ------------------------------------------------- ccoef() on a deque that is not empty

  /** ccoef() leaves the coefficients exactly when the deque was empty or began with the start value. */
  lemma {:induction false} FilledIsRight(f: Kind, w: real, n: nat, start: real, C0: seq<real>)
    requires w != 0.0 && NoZeroDivisor(f, n)
    ensures var l := Coefficients(f, w, n, start);
            Filled(l, C0) == l <==> C0 == [] || C0[0] == start
  {
    hide Coefficients, NoZeroDivisor;
    LastIsStart(f, w, n, start);
    var l := Coefficients(f, w, n, start);
    if C0 != [] {
      assert Filled(l, C0)[n + 1] == C0[0];
    }
  }

  /** The 1F0 coefficients for a positive start value, 0 < a <= 1 and negative w alternate in sign and
      do not fall in modulus, and from the first step on exceed twice the start value. */
  lemma {:induction false} FrontGrows(a: real, w: real, n: nat, j: nat, start: real)
    requires 0.0 < a <= 1.0 && w < 0.0 && start > 0.0 && j <= n + 1
    ensures NoZeroDivisor(F10(a), n)
    ensures var l := Backward(F10(a), w, n, j, start);
            var c, p := if j % 2 == 0 then l[0] else -l[0], if j % 2 == 0 then -Nth(l, 1) else Nth(l, 1);
            0.0 <= p <= c && if j == 0 then c == start && p == 0.0 else c > 2.0 * start
  {
    hide Term10;
    if j > 0 {
      FrontGrows(a, w, n, j - 1, start);
      var l := Backward(F10(a), w, n, j - 1, start);
      if j % 2 == 1 {
        GrowingTerm(a, w, (n - (j - 1)) as real, l[0], -Nth(l, 1), start);
        assert Nth(l, 1) == -(-Nth(l, 1));
      } else {
        NegatedTerm(a, w, (n - (j - 1)) as real, l[0], Nth(l, 1));
        GrowingTerm(a, w, (n - (j - 1)) as real, -l[0], Nth(l, 1), start);
      }
    }
  }

  lemma {:induction false} NegatedTerm(a: real, w: real, x: real, A1: real, A2: real)
    requires w != 0.0 && x + a != 0.0
    ensures Term10(a, w, x, A1, A2) == -Term10(a, w, x, -A1, -A2)
  {
    var u, v := Mul(x + 1.0, 2.0 - 4.0 / w), x + 1.0 + (1.0 - a);
    assert u * -A1 == -(u * A1) && v * -A2 == -(v * A2);
    QuotientSign(u * A1 + v * A2, x + a);
  }

  lemma {:induction false} QuotientSign(x: real, y: real)
    requires y != 0.0
    ensures -x / y == -(x / y)
  {
  }

  /** One step: c and p are the moduli of the last two coefficients. */
  lemma {:induction false} GrowingTerm(a: real, w: real, x: real, c: real, p: real, start: real)
    requires 0.0 < a <= 1.0 && w < 0.0 && x >= 0.0 && 0.0 <= p <= c && start > 0.0
    requires (c == start && p == 0.0) || c > 2.0 * start
    ensures var t := -Term10(a, w, x, c, -p); c <= t && t > 2.0 * start
  {
    var f := 2.0 - 4.0 / w;
    FactorAboveTwo(w);
    var t := -Term10(a, w, x, c, -p);
    StepValue(a, x, f, c, p, t);
    hide *;
    StepGrows(a, x, f, c, p, t);
    if p == 0.0 && c == start {
      FirstStep(a, x, f, c, t);
    }
  }

  lemma {:induction false} FactorAboveTwo(w: real)
    requires w < 0.0
    ensures 2.0 - 4.0 / w > 2.0
  {
    var q := 4.0 / w;
    assert q * w == 4.0;
  }

  lemma {:induction false} StepValue(a: real, x: real, f: real, c: real, p: real, t: real)
    requires x + a != 0.0 && x + 1.0 - (1.0 - a) == x + a
    requires t == -Quotient(-(Mul(Mul(x + 1.0, f), c) + Mul(x + 1.0 + (1.0 - a), -p)), x + 1.0 - (1.0 - a))
    ensures Mul(t, x + a) == Mul(Mul(x + 1.0, f), c) - Mul(x + 2.0 - a, p)
  {
    var v := Mul(Mul(x + 1.0, f), c) + Mul(x + 1.0 + (1.0 - a), -p);
    assert t * (x + a) == v;
    assert Mul(x + 1.0 + (1.0 - a), -p) == -Mul(x + 2.0 - a, p);
  }

  lemma {:induction false} StepGrows(a: real, x: real, f: real, c: real, p: real, t: real)
    requires 0.0 < a <= 1.0 && f > 2.0 && x >= 0.0 && 0.0 <= p <= c
    requires Mul(t, x + a) == Mul(Mul(x + 1.0, f), c) - Mul(x + 2.0 - a, p)
    ensures t >= c
  {
    hide Mul;
    MulOrder(x + 1.0, x + 1.0, 2.0, f);
    MulTwo(x + 1.0);
    MulOrder(2.0 * (x + 1.0), Mul(x + 1.0, f), c, c);
    MulOrder(x + 2.0 - a, x + 2.0 - a, p, c);
    MulCommutes(2.0 * (x + 1.0), c);
    MulCommutes(x + 2.0 - a, c);
    MulDistributes(c, 2.0 * (x + 1.0), x + 2.0 - a);
    MulCommutes(c, x + a);
    QuotientOrder(c, t, x + a);
  }

  lemma {:induction false} MulTwo(x: real)
    ensures Mul(x, 2.0) == 2.0 * x
  {
  }

  lemma {:induction false} QuotientOrder(x: real, y: real, s: real)
    requires s > 0.0 && Mul(s, x) <= Mul(y, s)
    ensures x <= y
  {
    MulCommutes(s, x);
    CancelLess(x, y, s);
  }

  lemma {:induction false} FirstStep(a: real, x: real, f: real, c: real, t: real)
    requires 0.0 < a <= 1.0 && f > 2.0 && x >= 0.0 && c > 0.0
    requires Mul(t, x + a) == Mul(Mul(x + 1.0, f), c) - Mul(x + 2.0 - a, 0.0)
    ensures t > 2.0 * c
  {
    hide Mul;
    MulCommutes(x + 2.0 - a, 0.0);
    MulZero(x + 2.0 - a);
    PositiveProduct(x + 1.0, f - 2.0);
    MulDistributes(x + 1.0, f, 2.0);
    MulTwo(x + 1.0);
    PositiveProduct(Mul(x + 1.0, f) - 2.0 * (x + 1.0), c);
    MulCommutes(c, Mul(x + 1.0, f));
    MulCommutes(c, 2.0 * (x + 1.0));
    MulCommutes(c, Mul(x + 1.0, f) - 2.0 * (x + 1.0));
    MulDistributes(c, Mul(x + 1.0, f), 2.0 * (x + 1.0));
    MulOrder(2.0 * (x + a), 2.0 * (x + 1.0), c, c);
    StrictQuotient(c, t, x + a);
  }

  lemma {:induction false} StrictQuotient(c: real, t: real, s: real)
    requires s > 0.0 && Mul(2.0 * s, c) < Mul(t, s)
    ensures t > 2.0 * c
  {
    assert Mul(2.0 * s, c) == Mul(2.0 * c, s);
    hide Mul;
    if t < 2.0 * c {
      StrictOrder(t, 2.0 * c, s);
    }
  }

  /** A second ccoef() on a 1F0 object is wrong for every N and every positive start value, if w is
      negative, as in all calls of the source, and 0 < a <= 1. */
  lemma {:induction false} SecondCallFails(a: real, w: real, n: nat, start: real)
    requires 0.0 < a <= 1.0 && w < 0.0 && start > 0.0
    ensures NoZeroDivisor(F10(a), n)
    ensures var l := Coefficients(F10(a), w, n, start); Filled(l, l) != l
  {
    hide Backward, Filled;
    FrontGrows(a, w, n, n + 1, start);
    hide NoZeroDivisor;
    FilledIsRight(F10(a), w, n, start, Coefficients(F10(a), w, n, start));
  }

  /** What series() then returns: both sums change by the same multiple d of the last polynomial, and
      the quotient is the right one only if d is 0 or the wrong summand has the right quotient itself. */
  lemma {:induction false} SeriesOfFilled(f: Kind, w: real, n: nat, start: real, C0: seq<real>, Z: real)
    requires w != 0.0 && NoZeroDivisor(f, n) && C0 != []
    requires var l := Coefficients(f, w, n, start);
             AlternatingSum(l, n + 2) != 0.0 && AlternatingSum(Filled(l, C0), n + 2) != 0.0
    ensures var l, x, d := Coefficients(f, w, n, start), ShiftedArgument(Z, w), C0[0] - start;
            var r := Series(Filled(l, C0), Z, w);
            && Mul(r, AlternatingSum(l, n + 2) + Mul(d, T(n + 1, -1.0)))
               == ChebyshevSum(l, x, n + 2) + Mul(d, T(n + 1, x))
            && (r == Series(l, Z, w) <==> d == 0.0 || T(n + 1, x) == Mul(Series(l, Z, w), T(n + 1, -1.0)))
  {
    hide Coefficients, NoZeroDivisor, ShiftedArgument, ChebyshevSum, AlternatingSum, T, Mul;
    var l, x := Coefficients(f, w, n, start), ShiftedArgument(Z, w);
    LastIsStart(f, w, n, start);
    var C := Filled(l, C0);
    SumAtMinusOne(l, n + 2);
    SumAtMinusOne(C, n + 2);
    LastCoefficient(l, C0[0], -1.0);
    LastCoefficient(l, C0[0], x);
    QuotientOfSums(ChebyshevSum(l, x, n + 2), AlternatingSum(l, n + 2), C0[0] - start, T(n + 1, x), T(n + 1, -1.0));
  }

  lemma {:induction false} LastIsStart(f: Kind, w: real, n: nat, start: real)
    requires w != 0.0 && NoZeroDivisor(f, n)
    ensures Coefficients(f, w, n, start)[n + 1] == start
  {
    hide Backward, NoZeroDivisor;
    BackwardEnds(f, w, n, n + 1, start);
  }

  lemma {:induction false} QuotientOfSums(s: real, a: real, d: real, t: real, u: real)
    requires a != 0.0 && a + Mul(d, u) != 0.0
    ensures var r := (s + Mul(d, t)) / (a + Mul(d, u));
            && Mul(r, a + Mul(d, u)) == s + Mul(d, t)
            && (r == s / a <==> d == 0.0 || t == Mul(s / a, u))
  {
    hide Mul;
    var b := a + Mul(d, u);
    var q, r := s / a, (s + Mul(d, t)) / b;
    DivisionUndone(s, a);
    DivisionUndone(s + Mul(d, t), b);
    MulDistributes(q, a, Mul(d, u));
    MulLeft(q, d, u);
    MulDistributes(d, t, Mul(q, u));
    assert Mul(q, b) == s + Mul(d, Mul(q, u));
    if r == q {
      assert Mul(d, t - Mul(q, u)) == 0.0;
      ZeroProduct(d, t - Mul(q, u));
    }
    if d == 0.0 || t == Mul(q, u) {
      MulZero(t);
      MulZero(Mul(q, u));
      assert Mul(r, b) == Mul(q, b);
      MulCancels(r, q, b);
    }
  }

  lemma {:induction false} DivisionUndone(x: real, y: real)
    requires y != 0.0
    ensures Mul(x / y, y) == x
  {
  }

  lemma {:induction false} MulLeft(q: real, d: real, u: real)
    ensures Mul(q, Mul(d, u)) == Mul(d, Mul(q, u))
  {
    assert q * (d * u) == d * (q * u);
  }

  lemma {:induction false} ZeroProduct(x: real, y: real)
    requires Mul(x, y) == 0.0
    ensures x == 0.0 || y == 0.0
  {
  }

  // ------------------------------------------------- the rearranged terms of the source

  lemma {:induction false} Code01(C1: real, z: real, X1: real, DIVFAC: real, A1: real, A2: real, A3: real)
    ensures (A2 - ((A3 * DIVFAC) * X1))
            + ((A2 * X1) * ((1.0 + (C1 + X1)) * z))
            + ((A1 * X1) * ((DIVFAC - (C1 * z)) + (X1 * z))) == Sum01(C1, z, X1, DIVFAC, A1, A2, A3)
  {
    hide Mul;
    MulIs(A3, DIVFAC);
    MulIs(A3 * DIVFAC, X1);
    MulIs(A2, X1);
    MulIs(A2 * X1, (1.0 + (C1 + X1)) * z);
    MulIs(A1, X1);
    MulIs(A1 * X1, (DIVFAC - (C1 * z)) + (X1 * z));
  }

  lemma {:induction false} Code10(X1: real, V1: real, AFAC: real, A1: real, A2: real)
    requires X1 - V1 != 0.0
    ensures -(((X1 * AFAC) * A1) + ((X1 + V1) * A2)) / (X1 - V1)
            == Quotient(-(Mul(Mul(X1, AFAC), A1) + Mul(X1 + V1, A2)), X1 - V1)
  {
    hide Mul;
    MulIs(X1, AFAC);
    MulIs(X1 * AFAC, A1);
    MulIs(X1 + V1, A2);
  }

  lemma {:induction false} ThirdFactorIs(f: Kind, z: real, x: real, X1: real, X3: real, X3A: real, X3B: real, XAB: real)
    requires f.F21? && x >= 0.0
    ensures X3A / (x + 2.0) == Weight21(f, z, x, X1, X3, X3A, X3B, XAB, 3)
  {
  }

  lemma {:induction false} RatioIs11(a: real, x: real, X3A: real)
    requires x >= 0.0 && X3A == x + 3.0 - a
    ensures X3A / (x + 2.0) == Ratio11(a, x)
  {
  }

  lemma {:induction false} RatiosIs12(f: Kind, x: real)
    requires f.F12? && x >= 0.0
    ensures (2.0 * x + 3.0) / (2.0 * x + 5.0) == Ratio12(x) && (x + f.BP) * (x + f.CP) == Shift12(f, x)
  {
  }

  lemma {:induction false} DividesAt(f: Kind, n: nat, x: nat)
    requires NoZeroDivisor(f, n) && x <= n
    ensures Divides(f, x)
  {
  }

  // ------------------------------------------------- the class

  class HypergeometricPfq {
    const f: Kind
    const Z: real
    const W: real
    const N: nat
    const rootEpsilon: real
    var C: seq<real>

    constructor (f: Kind, z: real, w: real, n: nat, rootEpsilon: real)
      ensures this.f == f && Z == z && W == w && N == n && this.rootEpsilon == rootEpsilon
      ensures C == []
    {
      this.f, Z, W, N, this.rootEpsilon := f, z, w, n, rootEpsilon;
      C := [];
    }

    /** What the source expects of the parameters. */
    predicate Ready() {
      W != 0.0 && NoZeroDivisor(f, N)
    }

    ghost function Result(C0: seq<real>): seq<real>
      requires Ready()
    {
      Filled(Coefficients(f, W, N, rootEpsilon), C0)
    }

    /** C.resize(1, A1) */
    method Resize(A1: real)
      modifies `C
      ensures C == [if old(C) == [] then A1 else old(C)[0]]
    {
      C := if |C| == 0 then [A1] else C[..1];
    }

    /** The virtual function. */
    method Ccoef()
      requires Ready()
      modifies `C
      ensures C == Result(old(C))
    {
      match f
      case F01(_) => Ccoef4();
      case F10(_) => Ccoef1();
      case F11(_, _) => Ccoef3();
      case F12(_, _, _) => Ccoef6();
      case F21(_, _, _) => Ccoef2();
    }

    method Ccoef4()
      requires f.F01? && Ready()
      modifies `C
      ensures C == Result(old(C))
    {
      hide Backward, Running, Term01, NoZeroDivisor, Coefficients, Filled;
      var N1, N2 := N + 1, N + 2;
      var A3, A2, A1 := 0.0, 0.0, rootEpsilon;
      Resize(A1);
      ghost var last := C[0];
      Start(f, W, N, rootEpsilon, last);
      var X1 := N2;
      var C1 := 1.0 - f.CP;
      var Z1 := 4.0 / W;
      var k := 0;
      ghost var A4 := 0.0;
      while k < N1
        invariant 0 <= k <= N1 && X1 == N2 - k && Z1 == 4.0 / W && C1 == 1.0 - f.CP
        invariant Running(C, f, W, N, rootEpsilon, last, k, A1, A2, A3, A4)
      {
        var DIVFAC := 1.0 / X1 as real;
        X1 := X1 - 1;
        DividesAt(f, N, N - k);
        var term := Term4((N - k) as real, X1 as real, DIVFAC, C1, Z1, A1, A2, A3);
        Advance(C, f, W, N, rootEpsilon, last, k, A1, A2, A3, A4);
        C := [term] + C;
        A4 := A3;
        A3 := A2;
        A2 := A1;
        A1 := C[0];
        k := k + 1;
      }
      Finish(C, f, W, N, rootEpsilon, old(C), A1, A2, A3, A4);
      C := C[0 := C[0] / 2.0];
    }

    /** The body of the 0F1 loop. */
    method Term4(ghost x: real, X1: real, DIVFAC: real, C1: real, Z1: real, A1: real, A2: real, A3: real)
      returns (term: real)
      requires f.F01? && x >= 0.0 && X1 == x + 1.0 && DIVFAC == 1.0 / (x + 2.0) && C1 == 1.0 - f.CP
      ensures term == Term01(f.CP, Z1, x, A1, A2, A3)
    {
      hide Sum01;
      Code01(C1, Z1, X1, DIVFAC, A1, A2, A3);
      term := (A2 - ((A3 * DIVFAC) * X1))
              + ((A2 * X1) * ((1.0 + (C1 + X1)) * Z1))
              + ((A1 * X1) * ((DIVFAC - (C1 * Z1)) + (X1 * Z1)));
    }

    method Ccoef1()
      requires f.F10? && Ready()
      modifies `C
      ensures C == Result(old(C))
    {
      hide Backward, Running, Term10, NoZeroDivisor, Coefficients, Filled;
      var N1, N2 := N + 1, N + 2;
      var A2, A1 := 0.0, rootEpsilon;
      Resize(A1);
      ghost var last := C[0];
      Start(f, W, N, rootEpsilon, last);
      var X1 := N2;
      var V1 := 1.0 - f.AP;
      var AFAC := 2.0 - (4.0 / W);
      var k := 0;
      ghost var A3, A4 := 0.0, 0.0;
      while k < N1
        invariant 0 <= k <= N1 && X1 == N2 - k && AFAC == 2.0 - (4.0 / W) && V1 == 1.0 - f.AP
        invariant Running(C, f, W, N, rootEpsilon, last, k, A1, A2, A3, A4)
      {
        X1 := X1 - 1;
        DividesAt(f, N, N - k);
        var term := Term1((N - k) as real, X1 as real, V1, AFAC, A1, A2);
        Advance(C, f, W, N, rootEpsilon, last, k, A1, A2, A3, A4);
        C := [term] + C;
        A4, A3 := A3, A2;
        A2 := A1;
        A1 := C[0];
        k := k + 1;
      }
      Finish(C, f, W, N, rootEpsilon, old(C), A1, A2, A3, A4);
      C := C[0 := C[0] / 2.0];
    }

    /** The body of the 1F0 loop. */
    method Term1(ghost x: real, X1: real, V1: real, AFAC: real, A1: real, A2: real) returns (term: real)
      requires f.F10? && x + f.AP != 0.0 && W != 0.0
      requires X1 == x + 1.0 && V1 == 1.0 - f.AP && AFAC == 2.0 - (4.0 / W)
      ensures term == Term10(f.AP, W, x, A1, A2)
    {
      hide Mul, Quotient;
      Code10(X1, V1, AFAC, A1, A2);
      term := -(((X1 * AFAC) * A1) + ((X1 + V1) * A2)) / (X1 - V1);
    }

    method Ccoef3()
      requires f.F11? && Ready()
      modifies `C
      ensures C == Result(old(C))
    {
      hide Backward, Running, Term11, NoZeroDivisor, Coefficients, Filled;
      var N1, N2 := N + 1, N + 2;
      var A3, A2, A1 := 0.0, 0.0, rootEpsilon;
      Resize(A1);
      ghost var last := C[0];
      Start(f, W, N, rootEpsilon, last);
      var X, X1 := N1, N2;
      var XA := X as real + f.AP;
      var X3A := (X + 3) as real - f.AP;
      var Z1 := 4.0 / W;
      var k := 0;
      ghost var A4 := 0.0;
      while k < N1
        invariant 0 <= k <= N1 && X == N1 - k && X1 == N2 - k && Z1 == 4.0 / W
        invariant XA == X as real + f.AP && X3A == X as real + 3.0 - f.AP
        invariant Running(C, f, W, N, rootEpsilon, last, k, A1, A2, A3, A4)
      {
        X := X - 1;
        X1 := X1 - 1;
        XA := XA - 1.0;
        X3A := X3A - 1.0;
        DividesAt(f, N, N - k);
        var term := Term3(X as real, X1 as real, XA, X3A, Z1, A1, A2, A3);
        Advance(C, f, W, N, rootEpsilon, last, k, A1, A2, A3, A4);
        C := [term] + C;
        A4 := A3;
        A3 := A2;
        A2 := A1;
        A1 := C[0];
        k := k + 1;
      }
      Finish(C, f, W, N, rootEpsilon, old(C), A1, A2, A3, A4);
      C := C[0 := C[0] / 2.0];
    }

    /** The body of the 1F1 loop; x stands for X. */
    method Term3(x: real, X1: real, XA: real, X3A: real, Z1: real, A1: real, A2: real, A3: real) returns (term: real)
      requires f.F11? && x >= 0.0 && XA != 0.0
      requires X1 == x + 1.0 && XA == x + f.AP && X3A == x + 3.0 - f.AP
      ensures term == Term11(f.AP, f.CP, Z1, x, A1, A2, A3)
    {
      hide Sum11, Mul, Quotient, Ratio11;
      RatioIs11(f.AP, x, X3A);
      var r := X3A / (x + 2.0);
      var sum := Sum3(x, X1, XA, r, Z1, A1, A2, A3);
      term := PartOver(sum, X1, XA);
    }

    method Sum3(x: real, X1: real, XA: real, r: real, Z1: real, A1: real, A2: real, A3: real) returns (sum: real)
      requires f.F11? && X1 != 0.0
      ensures sum == Sum11(f.CP, Z1, x, X1, XA, r, A1, A2, A3)
    {
      hide Mul;
      var PART1 := Part(A1, ((x + f.CP) * Z1) - r);
      var PART2 := Part(A2, Z1 * ((x + 3.0) - f.CP) + (XA / X1));
      var PART3 := Part(A3, r);
      sum := (PART1 + PART2) + PART3;
    }

    method Ccoef6()
      requires f.F12? && Ready()
      modifies `C
      ensures C == Result(old(C))
    {
      hide Backward, Running, Term12, NoZeroDivisor, Coefficients, Filled;
      var N1 := N + 1;
      var A4, A3, A2, A1 := 0.0, 0.0, 0.0, rootEpsilon;
      Resize(A1);
      ghost var last := C[0];
      Start(f, W, N, rootEpsilon, last);
      var X := N1;
      var PP := X as real + f.AP;
      var Z1 := 4.0 / W;
      var k := 0;
      while k < N1
        invariant 0 <= k <= N1 && X == N1 - k && Z1 == 4.0 / W && PP == X as real + f.AP
        invariant Running(C, f, W, N, rootEpsilon, last, k, A1, A2, A3, A4)
      {
        X := X - 1;
        PP := PP - 1.0;
        DividesAt(f, N, N - k);
        var term := Term6(X as real, PP, Z1, A1, A2, A3, A4);
        Advance(C, f, W, N, rootEpsilon, last, k, A1, A2, A3, A4);
        C := [term] + C;
        A4 := A3;
        A3 := A2;
        A2 := A1;
        A1 := C[0];
        k := k + 1;
      }
      Finish(C, f, W, N, rootEpsilon, old(C), A1, A2, A3, A4);
      C := C[0 := C[0] / 2.0];
    }

    /** The body of the 1F2 loop; x stands for X. */
    method Term6(x: real, PP: real, Z1: real, A1: real, A2: real, A3: real, A4: real) returns (term: real)
      requires f.F12? && x >= 0.0 && PP == x + f.AP && PP != 0.0
      ensures term == Term12(f, Z1, x, A1, A2, A3, A4)
    {
      hide Mul, Quotient, Ratio12, Shift12, Sum12;
      RatiosIs12(f, x);
      var QQ := (2.0 * x + 3.0) / (2.0 * x + 5.0);
      var SS := (x + f.BP) * (x + f.CP);
      var sum := Sum6(x, PP, QQ, SS, Z1, A1, A2, A3, A4);
      term := PartOver(sum, x + 1.0, PP);
    }

    method Sum6(x: real, PP: real, QQ: real, SS: real, Z1: real, A1: real, A2: real, A3: real, A4: real)
      returns (sum: real)
      requires f.F12? && x >= 0.0
      ensures sum == Sum12(f, Z1, x, PP, QQ, SS, A1, A2, A3, A4)
    {
      hide Mul, Quotient, Weight12;
      var w1 := FirstFactor6(x, PP, QQ, SS, Z1);
      var w2 := SecondFactor6(x, PP, QQ, SS, Z1);
      var w3 := ThirdFactor6(x, PP, QQ, SS, Z1);
      var PART1 := Part(A1, w1);
      var PART2 := Part(A2, x + 2.0);
      PART2 := Part(PART2, w2);
      var PART3 := Part(A3, w3);
      var PART4 := Part(A4, QQ);
      PART4 := PartOver(PART4, x + 4.0 - f.AP, x + 3.0);
      sum := (PART1 - PART2) + (PART3 - PART4);
    }

    method FirstFactor6(x: real, PP: real, QQ: real, SS: real, Z1: real) returns (w: real)
      requires f.F12? && x >= 0.0
      ensures w == Weight12(f, Z1, x, PP, QQ, SS, 1)
    {
      w := ((PP - (QQ * (PP + 1.0))) * 2.0) + (SS * Z1);
    }

    method SecondFactor6(x: real, PP: real, QQ: real, SS: real, Z1: real) returns (w: real)
      requires f.F12? && x >= 0.0
      ensures w == Weight12(f, Z1, x, PP, QQ, SS, 2)
    {
      w := ((((2.0 * x + 1.0) * PP) / (x + 1.0)) - ((QQ * 4.0) * (PP + 1.0)) + (((2.0 * x + 3.0) * (PP + 2.0)) / (x + 3.0)))
           + ((Z1 * 2.0) * (SS - (QQ * (x + 1.0 + f.BP)) * (x + 1.0 + f.CP)));
    }

    method ThirdFactor6(x: real, PP: real, QQ: real, SS: real, Z1: real) returns (w: real)
      requires f.F12? && x >= 0.0
      ensures w == Weight12(f, Z1, x, PP, QQ, SS, 3)
    {
      w := (((x + 3.0 - f.AP) - (QQ * (x + 4.0 - f.AP))) * 2.0) + (((QQ * Z1) * (x + 4.0 - f.BP)) * (x + 4.0 - f.CP));
    }

    method Ccoef2()
      requires f.F21? && Ready()
      modifies `C
      ensures C == Result(old(C))
    {
      hide Backward, Running, Term21, NoZeroDivisor, Coefficients, Filled;
      var N1, N2 := N + 1, N + 2;
      var A3, A2, A1 := 0.0, 0.0, rootEpsilon;
      Resize(A1);
      ghost var last := C[0];
      Start(f, W, N, rootEpsilon, last);
      var X, X1, X3 := N1, N2, N1 * 2 + 3;
      var X3A := (X + 3) as real - f.AP;
      var X3B := (X + 3) as real - f.BP;
      var Z1 := 4.0 / W;
      var k := 0;
      ghost var A4 := 0.0;
      while k < N1
        invariant 0 <= k <= N1 && X == N1 - k && X1 == N2 - k && X3 == 2 * X + 3 && Z1 == 4.0 / W
        invariant X3A == X as real + 3.0 - f.AP && X3B == X as real + 3.0 - f.BP
        invariant Running(C, f, W, N, rootEpsilon, last, k, A1, A2, A3, A4)
      {
        X := X - 1;
        X1 := X1 - 1;
        X3A := X3A - 1.0;
        X3B := X3B - 1.0;
        X3 := X3 - 2;
        DividesAt(f, N, N - k);
        var term := Term2(X as real, X1 as real, X3 as real, X3A, X3B, Z1, A1, A2, A3);
        Advance(C, f, W, N, rootEpsilon, last, k, A1, A2, A3, A4);
        C := [term] + C;
        A4 := A3;
        A3 := A2;
        A2 := A1;
        A1 := C[0];
        k := k + 1;
      }
      Finish(C, f, W, N, rootEpsilon, old(C), A1, A2, A3, A4);
      C := C[0 := C[0] / 2.0];
    }

    /** The body of the 2F1 loop; x stands for X. */
    method Term2(x: real, X1: real, X3: real, X3A: real, X3B: real, Z1: real, A1: real, A2: real, A3: real)
      returns (term: real)
      requires f.F21? && x >= 0.0 && x + f.AP != 0.0 && x + f.BP != 0.0
      requires X1 == x + 1.0 && X3 == 2.0 * x + 3.0 && X3A == x + 3.0 - f.AP && X3B == x + 3.0 - f.BP
      ensures term == Term21(f, Z1, x, A1, A2, A3)
    {
      hide Sum21, Mul, Quotient;
      var XAB := Reciprocal(x + f.AP, x + f.BP);
      term := Sum2(x, X1, X3, X3A, X3B, XAB, Z1, A1, A2, A3);
    }

    method Sum2(x: real, X1: real, X3: real, X3A: real, X3B: real, XAB: real, Z1: real, A1: real, A2: real, A3: real)
      returns (sum: real)
      requires f.F21? && x >= 0.0
      ensures sum == Sum21(f, Z1, x, X1, X3, X3A, X3B, XAB, A1, A2, A3)
    {
      hide Mul, Weight21;
      var w1 := FirstFactor2(x, X1, X3, X3A, X3B, XAB, Z1);
      var w2 := SecondFactor2(x, X1, X3, X3A, X3B, XAB, Z1);
      var w3 := X3A / (x + 2.0);
      ThirdFactorIs(f, Z1, x, X1, X3, X3A, X3B, XAB);
      MulIs(A1, X1);
      MulIs(A2, XAB);
      MulIs(A3, X1);
      MulIs(X3B, XAB);
      var PART1 := Part(A1 * X1, w1);
      var PART2 := Part(A2 * XAB, w2);
      var PART3 := Part(A3 * X1, w3);
      PART3 := Part(PART3, X3B * XAB);
      sum := (PART1 + PART2) - PART3;
    }

    method FirstFactor2(x: real, X1: real, X3: real, X3A: real, X3B: real, XAB: real, Z1: real) returns (w: real)
      requires f.F21? && x >= 0.0
      ensures w == Weight21(f, Z1, x, X1, X3, X3A, X3B, XAB, 1)
    {
      w := 2.0 - (((f.AP + X1) * (f.BP + X1)) * ((X3 / (x + 2.0)) * XAB)) + ((f.CP + x) * (XAB * Z1));
    }

    method SecondFactor2(x: real, X1: real, X3: real, X3A: real, X3B: real, XAB: real, Z1: real) returns (w: real)
      requires f.F21? && x >= 0.0
      ensures w == Weight21(f, Z1, x, X1, X3, X3A, X3B, XAB, 2)
    {
      w := (X3A * X3B) - (X3 * ((X3A + X3B) - 1.0)) + (((3.0 - f.CP) + x) * (X1 * Z1));
    }

    /** The summation with alternating signs. */
    method ScaleFactor() returns (scale: real)
      ensures scale == AlternatingSum(C, |C|)
    {
      var neg := false;
      scale := 0.0;
      for k := 0 to |C|
        invariant neg == (k % 2 == 1) && scale == AlternatingSum(C, k)
      {
        scale := if !neg then scale + C[k] else scale - C[k];
        neg := !neg;
      }
    }

    /** The sum of the coefficients times the values of the polynomials. */
    method InnerProduct(values: seq<real>, ghost x: real) returns (sum: real)
      requires values == Values(|C| + 1, x)
      ensures sum == ChebyshevSum(C, x, |C|)
    {
      hide T, Mul;
      sum := 0.0;
      for k := 0 to |C|
        invariant sum == ChebyshevSum(C, x, k)
      {
        MulIs(C[k], values[k]);
        sum := sum + C[k] * values[k];
      }
    }

    /** series(): the Chebyshev sum divided by the scale factor. */
    method ComputeSeries() returns (r: real)
      requires W != 0.0 && |C| < 0x7FFF_FFFF && AlternatingSum(C, |C|) != 0.0
      ensures r == Series(C, Z, W)
    {
      hide T, Mul, ShiftedArgument;
      var values := new Vector();
      var zShifted := ((Z / W) * 2.0) - 1.0;
      ShiftedIs(Z, W, zShifted);
      var y, overflow := OrthogonalPolynomialTemplate(zShifted, |C|, values, 0.0);
      assert values.items == Values(|C| + 1, zShifted);
      var scale := ScaleFactor();
      var sum := InnerProduct(values.items, zShifted);
      r := sum / scale;
    }
  }

  lemma {:induction false} ShiftedIs(Z: real, W: real, x: real)
    requires W != 0.0 && x == ((Z / W) * 2.0) - 1.0
    ensures ShiftedArgument(Z, W) == x
  {
  }

  method Reciprocal(p: real, q: real) returns (v: real)
    requires p != 0.0 && q != 0.0
    ensures Mul(p, q) != 0.0 && v == Quotient(1.0, Mul(p, q))
  {
    NonzeroProduct(p, q);
    v := 1.0 / (p * q);
  }

  /** a * b, for a factor b that proofs need not look into. */
  method Part(a: real, b: real) returns (p: real)
    ensures p == Mul(a, b)
  {
    p := a * b;
  }

  /** (a * b) / d */
  method PartOver(a: real, b: real, d: real) returns (p: real)
    requires d != 0.0
    ensures p == Quotient(Mul(a, b), d)
  {
    p := (a * b) / d;
  }

  /** luke_ccoef4_hypergeometric_0f1 and its four siblings: a fresh object, ccoef, series, with
      w = -20. The value is that of any other nonzero start of the recurrence, and 1 at z = 0. */
  method LukeSeries(f: Kind, z: real, n: nat, rootEpsilon: real) returns (r: real)
    requires NoZeroDivisor(f, n) && rootEpsilon != 0.0 && n < 0x7FFF_FFF0
    requires AlternatingSum(Coefficients(f, -20.0, n, rootEpsilon), n + 2) != 0.0
    ensures forall s | s != 0.0 ::
              var C := Coefficients(f, -20.0, n, s);
              AlternatingSum(C, n + 2) != 0.0 && r == Series(C, z, -20.0)
    ensures z == 0.0 ==> r == 1.0
  {
    hide NoZeroDivisor, Coefficients, AlternatingSum, Series;
    var h := new HypergeometricPfq(f, z, -20.0, n, rootEpsilon);
    h.Ccoef();
    r := h.ComputeSeries();
    forall s | s != 0.0
      ensures var C := Coefficients(f, -20.0, n, s);
              AlternatingSum(C, n + 2) != 0.0 && r == Series(C, z, -20.0)
    {
      SeriesIndependentOfStart(f, -20.0, n, rootEpsilon, s, z);
    }
    if z == 0.0 {
      SeriesAtZero(h.C, -20.0);
    }
  }
}
