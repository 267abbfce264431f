/** The two arithmetic-geometric mean iterations for pi of
    example/pi_millions_with_boost_multiprecision.cpp. The square root is a parameter. */
module GaussLegendre {
  import opened Reals
  import opened Powers
  import Residues

  ghost predicate IsSqrt(sqrt: real -> real) {
    forall v | v >= 0.0 :: sqrt(v) >= 0.0 && sqrt(v) * sqrt(v) == v
  }

  /** The variables of gauss_legendre_for_pi. */
  datatype Agm = Agm(a: real, b: real, t: real, p: real)

  function Start(sqrt: real -> real): Agm
    requires sqrt(2.0) != 0.0
  {
    Agm(1.0, 1.0 / sqrt(2.0), 0.25, 1.0)
  }

  /** The geometric mean. */
  function Mean(sqrt: real -> real, a: real, b: real): real {
    sqrt(a * b)
  }

  /** p d^2, what a pass takes off t. */
  function Taken(p: real, d: real): real {
    p * (d * d)
  }

  function Step(sqrt: real -> real, s: Agm): Agm {
    var a := (s.a + s.b) / 2.0;
    Agm(a, Mean(sqrt, s.a, s.b), s.t - Taken(s.p, a - s.a), s.p * 2.0)
  }

  lemma {:induction false} RootOfTwo(sqrt: real -> real)
    requires IsSqrt(sqrt)
    ensures sqrt(2.0) > 1.0 && sqrt(2.0) * sqrt(2.0) == 2.0
  {
    var r := sqrt(2.0);
    assert r >= 0.0 && r * r == 2.0;
    if r <= 1.0 {
      SquareOrder(r, 1.0);
    }
  }

  /** The state after n passes. */
  ghost function After(sqrt: real -> real, n: nat): Agm
    requires IsSqrt(sqrt)
  {
    if n == 0 then (RootOfTwo(sqrt); Start(sqrt)) else Step(sqrt, After(sqrt, n - 1))
  }

  lemma {:induction false} AfterNext(sqrt: real -> real, n: nat)
    requires IsSqrt(sqrt)
    ensures After(sqrt, n + 1) == Step(sqrt, After(sqrt, n))
  {
  }

  // ------------------------------------------------- the invariant

  /** The means are ordered and bounded away from 0, and t stays above 1/8. */
  predicate Invariant(s: Agm) {
    0.7 <= s.b <= s.a <= 1.0 && s.p > 0.0 && s.t - Taken(s.p, s.a - s.b) >= 0.125
  }

  lemma {:induction false} StartInvariant(sqrt: real -> real)
    requires IsSqrt(sqrt)
    ensures Invariant(After(sqrt, 0)) && After(sqrt, 0).a - After(sqrt, 0).b <= 1.0 / 3.0
    ensures After(sqrt, 0).b * After(sqrt, 0).b == 0.5
  {
    RootOfTwo(sqrt);
    InverseRoot(sqrt(2.0), 1.0 / sqrt(2.0));
  }

  lemma {:induction false} InverseRoot(r: real, b: real)
    requires r > 1.0 && r * r == 2.0 && b == 1.0 / r
    ensures 0.7 <= b <= 1.0 && b * b == 0.5 && (1.0 - b) * (1.0 - b) <= 0.125
  {
    assert b * r == 1.0;
    assert (b * b) * (r * r) == (b * r) * (b * r);
    assert b > 0.0;
    if b < 0.7 {
      SquareOrder(b, 0.7);
    }
    if b > 1.0 {
      SquareOrder(1.0, b);
    }
    SquareOrder(1.0 - b, 0.3);
  }

  /** The geometric mean lies between b and the arithmetic mean. */
  lemma {:induction false} MeanInequality(a: real, b: real, g: real)
    requires 0.0 < b <= a && g >= 0.0 && g * g == a * b
    ensures b <= g <= (a + b) / 2.0
    ensures ((a + b) / 2.0 - g) * ((a + b) / 2.0 + g) == (a - b) * (a - b) / 4.0
  {
    var m := (a + b) / 2.0;
    assert m * m - g * g == (a - b) * (a - b) / 4.0;
    assert (m - g) * (m + g) == m * m - g * g;
    assert b * b <= a * b;
    if g < b {
      StrictSquare(g, b);
    }
    if g > m {
      StrictSquare(m, g);
    }
  }

  lemma {:induction false} MeanFacts(sqrt: real -> real, a: real, b: real)
    requires IsSqrt(sqrt) && 0.0 < b <= a
    ensures var g := Mean(sqrt, a, b);
            && b <= g <= (a + b) / 2.0 && g * g == a * b
            && ((a + b) / 2.0 - g) * ((a + b) / 2.0 + g) == (a - b) * (a - b) / 4.0
  {
    Positive(a, b);
    var v := a * b;
    assert v >= 0.0;
    MeanInequality(a, b, sqrt(v));
  }

  lemma {:induction false} StrictSquare(x: real, y: real)
    requires 0.0 <= x < y
    ensures x * x < y * y
  {
    PositiveProduct(y - x, y + x);
    assert Mul(y - x, y + x) == y * y - x * x;
  }

  lemma {:induction false} Positive(d: real, x: real)
    requires d > 0.0 && x >= 0.0
    ensures d * x >= 0.0 && (x > 0.0 ==> d * x > 0.0)
  {
  }

  lemma {:induction false} StepInvariant(sqrt: real -> real, s: Agm)
    requires IsSqrt(sqrt) && Invariant(s)
    ensures Invariant(Step(sqrt, s))
  {
    var u := Step(sqrt, s);
    hide IsSqrt, Mean, Taken;
    MeanFacts(sqrt, s.a, s.b);
    Consumption(s.t, s.p, s.a - s.b, u.a - s.a, u.a - u.b);
  }

  lemma {:induction false} Consumption(t: real, p: real, d: real, c: real, e: real)
    requires p > 0.0 && t - Taken(p, d) >= 0.125 && 0.0 <= e <= d / 2.0 && c == -d / 2.0
    ensures t - Taken(p, c) - Taken(p * 2.0, e) >= 0.125
  {
    SquareOrder(e, d / 2.0);
    assert c * c == d * d / 4.0;
    Positive(p, d * d / 4.0 - e * e);
    Positive(p, d * d);
    assert p * (d * d / 4.0) == Taken(p, d) / 4.0;
  }

  lemma {:induction false} InvariantAfter(sqrt: real -> real, n: nat)
    requires IsSqrt(sqrt)
    ensures Invariant(After(sqrt, n))
  {
    hide Invariant, Step;
    if n == 0 {
      StartInvariant(sqrt);
    } else {
      InvariantAfter(sqrt, n - 1);
      StepInvariant(sqrt, After(sqrt, n - 1));
    }
  }

  // ------------------------------------------------- quadratic convergence

  lemma {:induction false} FourTimes(x: real, y: real, d: real)
    requires x * y == d * d / 4.0
    ensures x * (4.0 * y) == d * d
  {
    assert x * (4.0 * y) == 4.0 * (x * y);
  }

  /** The gap a - b after a pass is its square before, over 4 (a' + b'). */
  lemma {:induction false} GapSquares(sqrt: real -> real, n: nat)
    requires IsSqrt(sqrt)
    ensures var s, u := After(sqrt, n), After(sqrt, n + 1);
            (u.a - u.b) * (4.0 * (u.a + u.b)) == (s.a - s.b) * (s.a - s.b)
  {
    hide After, Invariant, Step, IsSqrt;
    InvariantAfter(sqrt, n);
    AfterNext(sqrt, n);
    GapAfterStep(sqrt, After(sqrt, n));
  }

  lemma {:induction false} GapAfterStep(sqrt: real -> real, s: Agm)
    requires IsSqrt(sqrt) && Invariant(s)
    ensures var u := Step(sqrt, s); (u.a - u.b) * (4.0 * (u.a + u.b)) == (s.a - s.b) * (s.a - s.b)
  {
    hide IsSqrt, Mean, Taken;
    MeanFacts(sqrt, s.a, s.b);
    FourTimes((s.a + s.b) / 2.0 - Mean(sqrt, s.a, s.b), (s.a + s.b) / 2.0 + Mean(sqrt, s.a, s.b), s.a - s.b);
  }

  /** After n passes a - b is at most 5 * 15^(-2^n). */
  lemma {:induction false} GapBound(sqrt: real -> real, n: nat)
    requires IsSqrt(sqrt)
    ensures var s := After(sqrt, n); 0.0 <= s.a - s.b <= 5.0 * Pow(1.0 / 15.0, Residues.Pow2(n))
  {
    hide Pow, Step;
    InvariantAfter(sqrt, n);
    if n == 0 {
      StartInvariant(sqrt);
      PowFifteenth();
    } else {
      GapBound(sqrt, n - 1);
      GapSquares(sqrt, n - 1);
      PowAdds(1.0 / 15.0, Residues.Pow2(n - 1), Residues.Pow2(n - 1));
      var s, u := After(sqrt, n - 1), After(sqrt, n);
      Shrink(s.a - s.b, u.a - u.b, u.a + u.b, Pow(1.0 / 15.0, Residues.Pow2(n - 1)));
    }
  }

  lemma {:induction false} PowFifteenth()
    ensures Pow(1.0 / 15.0, 1) == 1.0 / 15.0
  {
    assert Pow(1.0 / 15.0, 0) == 1.0;
  }

  lemma {:induction false} Shrink(d: real, e: real, sum: real, q: real)
    requires 0.0 <= d <= 5.0 * q && sum >= 1.4 && e >= 0.0 && e * (4.0 * sum) == d * d
    ensures e <= 5.0 * Mul(q, q)
  {
    SquareOrder(d, 5.0 * q);
    assert (5.0 * q) * (5.0 * q) == 25.0 * Mul(q, q);
    assert e * (4.0 * sum) >= e * 5.6;
  }

  // ------------------------------------------------- the Schoenhage variant

  /** a, bB, s and t of gauss_legendre_pi_unleashed after i passes. */
  datatype Unleashed = Unleashed(a: real, bB: real, s: real, t: real)

  /** What they are in terms of the other iteration. */
  predicate Tracks(u: Unleashed, g: Agm) {
    u.a == g.a && u.bB == g.b * g.b && u.s == 2.0 * g.t && u.t == (g.a * g.a + g.b * g.b) / 4.0
  }

  lemma {:induction false} PassTracks(sqrt: real -> real, g: Agm, u: Unleashed, root: real, shift: real, v: Unleashed)
    requires IsSqrt(sqrt) && Invariant(g) && Tracks(u, g) && root >= 0.0 && root * root == u.bB && shift == 2.0 * g.p
    requires v.a == (u.a + root) / 2.0 && v.bB == (v.a * v.a - u.t) * 2.0
    requires v.s == u.s + (v.bB - v.a * v.a) * shift && v.t == (v.a * v.a + v.bB) / 4.0
    ensures Tracks(v, Step(sqrt, g))
  {
    hide IsSqrt, Mean;
    SameRoot(root, g.b);
    var h := Step(sqrt, g);
    MeanFacts(sqrt, g.a, g.b);
    assert v.bB == g.a * g.b == h.b * h.b;
    assert v.bB - v.a * v.a == -((v.a - g.a) * (v.a - g.a));
    MinusTerm((v.a - g.a) * (v.a - g.a), g.p, shift);
  }

  lemma {:induction false} MinusTerm(d: real, p: real, shift: real)
    requires shift == 2.0 * p
    ensures (-d) * shift == -2.0 * (p * d)
  {
  }

  lemma {:induction false} SameRoot(x: real, y: real)
    requires x >= 0.0 && y >= 0.0 && x * x == y * y
    ensures x == y
  {
    if x < y {
      StrictSquare(x, y);
    } else if y < x {
      StrictSquare(y, x);
    }
  }

  lemma {:induction false} PowerIsP(sqrt: real -> real, n: nat)
    requires IsSqrt(sqrt)
    ensures After(sqrt, n).p == Residues.Pow2(n) as real
  {
    if n > 0 {
      PowerIsP(sqrt, n - 1);
    }
  }

  /** The value that gauss_legendre_for_pi returns after n passes. */
  function Value(g: Agm): real
    requires g.t != 0.0
  {
    (g.a + g.b) * (g.a + g.b) / (4.0 * g.t)
  }

  /** The value that the Schoenhage variant returns. */
  function UnleashedValue(g: Agm): real
    requires g.t != 0.0
  {
    (g.a * g.a + g.b * g.b) / (2.0 * g.t)
  }

  lemma {:induction false} AfterNone(sqrt: real -> real)
    requires IsSqrt(sqrt) && sqrt(2.0) != 0.0
    ensures After(sqrt, 0) == Start(sqrt)
  {
  }

  lemma {:induction false} PassIs(sqrt: real -> real, a: real, b: real, p: real, d: real)
    ensures sqrt(a * b) == Mean(sqrt, a, b) && p * (d * d) == Taken(p, d)
  {
  }

  method GaussLegendreForPi(sqrt: real -> real, maxIter: nat) returns (r: real)
    requires IsSqrt(sqrt)
    ensures After(sqrt, maxIter).t > 0.0 && r == Value(After(sqrt, maxIter))
    ensures maxIter >= 4 ==> 3.14159265358979323846264338327950 < r < 3.14159265358979323846264338327951
  {
    hide IsSqrt, After, Invariant, Mean, Taken;
    RootOfTwo(sqrt);
    AfterNone(sqrt);
    var a_n, b_n, t_n, p_n := 1.0, 1.0 / sqrt(2.0), 0.25, 1.0;
    for i := 0 to maxIter
      invariant After(sqrt, i) == Agm(a_n, b_n, t_n, p_n)
    {
      AfterNext(sqrt, i);
      var new_a_n := (a_n + b_n) / 2.0;
      PassIs(sqrt, a_n, b_n, p_n, new_a_n - a_n);
      t_n := t_n - p_n * ((new_a_n - a_n) * (new_a_n - a_n));
      b_n := sqrt(a_n * b_n);
      a_n := new_a_n;
      p_n := p_n * 2.0;
    }
    InvariantAfter(sqrt, maxIter);
    PositiveT(After(sqrt, maxIter));
    r := (a_n + b_n) * (a_n + b_n) / (4.0 * t_n);
    if maxIter >= 4 {
      ResultsInDigits(sqrt, maxIter);
    }
  }

  lemma {:induction false} PositiveT(g: Agm)
    requires Invariant(g)
    ensures g.t >= 0.125
  {
    var d := g.a - g.b;
    Positive(g.p, d * d);
  }

  /** The function's static result. */
  class UnleashedCache {
    var isInit: bool
    var valPi: real

    constructor ()
      ensures !isInit
    {
      isInit := false;
      valPi := 0.0;
    }

    /** gauss_legendre_pi_unleashed: the first call computes, later calls return the same value. The
        bound on maxIter keeps the shift inside 64 bits. */
    method GaussLegendrePiUnleashed(sqrt: real -> real, maxIter: nat) returns (r: real)
      requires IsSqrt(sqrt) && 0 < maxIter <= 63
      modifies this
      ensures isInit && valPi == r
      ensures old(isInit) ==> r == old(valPi)
      ensures !old(isInit) ==> After(sqrt, maxIter).t > 0.0 && r == UnleashedValue(After(sqrt, maxIter))
      ensures !old(isInit) && maxIter >= 4 ==> 3.14159265358979323846264338327950 < r < 3.14159265358979323846264338327951
    {
      if !isInit {
        isInit := true;
        valPi := Compute(sqrt, maxIter);
      }
      r := valPi;
    }
  }

  /** The loop body; root is sqrt(bB), and shift is 1ULL << (i + 1). */
  method Pass(sqrt: real -> real, ghost g: Agm, a: real, bB: real, s: real, t: real, root: real, shift: nat)
    returns (a': real, bB': real, s': real, t': real, valPi: real)
    requires IsSqrt(sqrt) && Invariant(g) && Tracks(Unleashed(a, bB, s, t), g)
    requires root >= 0.0 && root * root == bB && shift as real == 2.0 * g.p
    ensures Tracks(Unleashed(a', bB', s', t'), Step(sqrt, g)) && valPi == a' * a'
  {
    hide IsSqrt, Invariant, Tracks, Step;
    a' := a + root;
    a' := a' / 2.0;
    valPi := a';
    valPi := valPi * valPi;
    bB' := valPi - t;
    bB' := bB' * 2.0;
    var iterateTerm := (bB' - valPi) * (shift as real);
    s' := s + iterateTerm;
    t' := valPi;
    t' := t' + bB';
    t' := t' / 4.0;
    PassTracks(sqrt, g, Unleashed(a, bB, s, t), root, shift as real, Unleashed(a', bB', s', t'));
  }

  method Compute(sqrt: real -> real, maxIter: nat) returns (valPi: real)
    requires IsSqrt(sqrt) && 0 < maxIter <= 63
    ensures After(sqrt, maxIter).t > 0.0 && valPi == UnleashedValue(After(sqrt, maxIter))
    ensures maxIter >= 4 ==> 3.14159265358979323846264338327950 < valPi < 3.14159265358979323846264338327951
  {
    hide Step, Invariant, After, IsSqrt, Tracks, UnleashedValue;
    var a, bB, s, t := 1.0, 0.5, 0.5, 0.375;
    valPi := 0.0;
    StartTracks(sqrt);
    for i := 0 to maxIter
      invariant Tracks(Unleashed(a, bB, s, t), After(sqrt, i))
      invariant i > 0 ==> valPi == a * a
    {
      AfterNext(sqrt, i);
      InvariantAfter(sqrt, i);
      PowerIsP(sqrt, i);
      RootExists(sqrt, Unleashed(a, bB, s, t), After(sqrt, i));
      a, bB, s, t, valPi := Pass(sqrt, After(sqrt, i), a, bB, s, t, sqrt(bB), Residues.Pow2(i + 1));
    }
    InvariantAfter(sqrt, maxIter);
    PositiveT(After(sqrt, maxIter));
    FinalValue(Unleashed(a, bB, s, t), After(sqrt, maxIter));
    valPi := valPi + bB;
    valPi := valPi / s;
    if maxIter >= 4 {
      ResultsInDigits(sqrt, maxIter);
    }
  }

  lemma {:induction false} FinalValue(u: Unleashed, g: Agm)
    requires Tracks(u, g) && g.t > 0.0
    ensures u.s > 0.0 && (u.a * u.a + u.bB) / u.s == UnleashedValue(g)
  {
  }

  lemma {:induction false} StartTracks(sqrt: real -> real)
    requires IsSqrt(sqrt)
    ensures Tracks(Unleashed(1.0, 0.5, 0.5, 0.375), After(sqrt, 0))
  {
    StartInvariant(sqrt);
  }

  lemma {:induction false} RootExists(sqrt: real -> real, u: Unleashed, g: Agm)
    requires IsSqrt(sqrt) && Tracks(u, g)
    ensures sqrt(u.bB) >= 0.0 && sqrt(u.bB) * sqrt(u.bB) == u.bB
  {
    assert g.b * g.b >= 0.0;
  }

  // ------------------------------------------------- the difference

  /** The two results differ by (a-b)^2 / (4t), at most 50 * 15^(-2^(n+1)). */
  lemma {:induction false} ResultsDiffer(sqrt: real -> real, n: nat)
    requires IsSqrt(sqrt)
    ensures var g := After(sqrt, n);
            && g.t > 0.0
            && UnleashedValue(g) - Value(g) == (g.a - g.b) * (g.a - g.b) / (4.0 * g.t)
            && 0.0 <= UnleashedValue(g) - Value(g) <= 50.0 * Pow(1.0 / 15.0, Residues.Pow2(n + 1))
  {
    hide Pow, Step;
    var g := After(sqrt, n);
    InvariantAfter(sqrt, n);
    PositiveT(g);
    GapBound(sqrt, n);
    PowAdds(1.0 / 15.0, Residues.Pow2(n), Residues.Pow2(n));
    Difference(g.a, g.b, g.t);
    DifferenceBound(g.a - g.b, g.t, Pow(1.0 / 15.0, Residues.Pow2(n)));
  }

  lemma {:induction false} Difference(a: real, b: real, t: real)
    requires t > 0.0
    ensures (a * a + b * b) / (2.0 * t) - (a + b) * (a + b) / (4.0 * t) == (a - b) * (a - b) / (4.0 * t)
  {
    var i := 1.0 / (4.0 * t);
    var x, y := a * a + b * b, (a + b) * (a + b);
    assert 2.0 * x - y == (a - b) * (a - b);
    Over4(x, t);
    assert (2.0 * x) / (4.0 * t) - y / (4.0 * t) == (2.0 * x - y) / (4.0 * t);
  }

  lemma {:induction false} Over4(x: real, t: real)
    requires t > 0.0
    ensures x / (2.0 * t) == (2.0 * x) / (4.0 * t)
  {
    var q := x / (2.0 * t);
    assert q * (2.0 * t) == x;
    assert q * (4.0 * t) == 2.0 * x;
  }

  lemma {:induction false} DifferenceBound(d: real, t: real, q: real)
    requires t >= 0.125 && 0.0 <= d <= 5.0 * q
    ensures 0.0 <= d * d / (4.0 * t) <= 50.0 * Mul(q, q)
  {
    SquareOrder(d, 5.0 * q);
    var v := d * d / (4.0 * t);
    assert v * (4.0 * t) == d * d;
    assert d * d >= 0.0;
    assert v >= 0.0;
    assert v * (4.0 * t) >= v * 0.5;
  }

  // ------------------------------------------------- successive passes

  /** Every pass puts both means between the old ones. */
  lemma {:induction false} NestedMeans(sqrt: real -> real, n: nat)
    requires IsSqrt(sqrt)
    ensures var s, u := After(sqrt, n), After(sqrt, n + 1); s.b <= u.b <= u.a <= s.a
  {
    hide After, IsSqrt, Mean, Taken;
    InvariantAfter(sqrt, n);
    AfterNext(sqrt, n);
    var s := After(sqrt, n);
    MeanFacts(sqrt, s.a, s.b);
  }

  lemma {:induction false} UpperT(sqrt: real -> real, n: nat)
    requires IsSqrt(sqrt)
    ensures After(sqrt, n).t <= 0.25 && After(sqrt, n).p >= 1.0
  {
    PowerIsP(sqrt, n);
    if n > 0 {
      UpperT(sqrt, n - 1);
      var s := After(sqrt, n - 1);
      TakenPositive(s.p, (s.a + s.b) / 2.0 - s.a);
    }
  }

  lemma {:induction false} TakenPositive(p: real, d: real)
    requires p >= 1.0
    ensures Taken(p, d) >= 0.0
  {
    assert d * d >= 0.0;
  }

  /** A pass raises the result by at most 16 p (a-b)^2. */
  lemma {:induction false} PassRaises(sqrt: real -> real, n: nat)
    requires IsSqrt(sqrt)
    ensures var g, h := After(sqrt, n), After(sqrt, n + 1);
            && g.t > 0.0 && h.t > 0.0
            && 0.0 <= Value(h) - Value(g) <= 16.0 * Taken(g.p, g.a - g.b)
  {
    hide After, IsSqrt, Step, Invariant, Value, Taken;
    InvariantAfter(sqrt, n);
    InvariantAfter(sqrt, n + 1);
    UpperT(sqrt, n);
    AfterNext(sqrt, n);
    StepRaises(sqrt, After(sqrt, n));
  }

  lemma {:induction false} StepRaises(sqrt: real -> real, g: Agm)
    requires IsSqrt(sqrt) && Invariant(g) && Invariant(Step(sqrt, g)) && g.t <= 0.25 && g.p >= 1.0
    ensures var h := Step(sqrt, g);
            && g.t > 0.0 && h.t > 0.0
            && 0.0 <= Value(h) - Value(g) <= 16.0 * Taken(g.p, g.a - g.b)
  {
    hide *;
    var h := Step(sqrt, g);
    PositiveT(g);
    PositiveT(h);
    StepMeans(sqrt, g);
    TakenIs(g.p, g.a - g.b);
    ValueIs(h);
    HalfSum(g, h.a);
    RiseCore(g.t, g.p, h.a, h.b, h.t, Mul(g.a - g.b, g.a - g.b));
  }

  lemma {:induction false} StepMeans(sqrt: real -> real, g: Agm)
    requires IsSqrt(sqrt) && Invariant(g) && Invariant(Step(sqrt, g))
    ensures var h, d2 := Step(sqrt, g), Mul(g.a - g.b, g.a - g.b);
            && 0.7 <= h.b <= h.a <= 1.0 && 2.0 * h.a == g.a + g.b
            && Mul(h.a - h.b, h.a + h.b) == d2 / 4.0 && d2 >= 0.0
            && h.t == g.t - Mul(g.p, d2) / 4.0
  {
    hide IsSqrt, Mean, Taken, Mul;
    MeanFacts(sqrt, g.a, g.b);
    var h := Step(sqrt, g);
    MulIs(h.a - h.b, h.a + h.b);
    MulIs(g.a - g.b, g.a - g.b);
    TakenHalf(g.p, g.a, g.b);
    MulOrder(0.0, g.a - g.b, 0.0, g.a - g.b);
  }

  lemma {:induction false} HalfSum(g: Agm, m: real)
    requires g.t > 0.0 && 2.0 * m == g.a + g.b
    ensures Value(g) == Mul(m, m) / g.t
  {
    assert (g.a + g.b) * (g.a + g.b) == 4.0 * (m * m);
    Reduced(m * m, g.t);
  }

  lemma {:induction false} ValueIs(g: Agm)
    requires g.t != 0.0
    ensures Value(g) == Mul(g.a + g.b, g.a + g.b) / (4.0 * g.t)
  {
  }

  lemma {:induction false} TakenIs(p: real, d: real)
    ensures Taken(p, d) == Mul(p, Mul(d, d))
  {
  }

  lemma {:induction false} TakenHalf(p: real, a: real, b: real)
    ensures Taken(p, (a + b) / 2.0 - a) == Mul(p, Mul(a - b, a - b)) / 4.0
  {
    var d := a - b;
    assert ((a + b) / 2.0 - a) * ((a + b) / 2.0 - a) == d * d / 4.0;
    assert p * (d * d / 4.0) == p * (d * d) / 4.0;
  }

  /** With m and c the new means, t0 and t the old and the new t, and d2 the square of the old gap. */
  lemma {:induction false} RiseCore(t0: real, p: real, m: real, c: real, t: real, d2: real)
    requires 0.7 <= c <= m <= 1.0 && Mul(m - c, m + c) == d2 / 4.0
    requires 0.125 <= t0 <= 0.25 && t >= 0.125 && t == t0 - Mul(p, d2) / 4.0 && p >= 1.0 && d2 >= 0.0
    ensures 0.0 <= Mul(m + c, m + c) / (4.0 * t) - Mul(m, m) / t0 <= 16.0 * Mul(p, d2)
  {
    hide *;
    var w, v := Mul(m + c, m + c), Mul(m, m);
    MeanSquares(m, c, d2, w, v);
    var e := Mul(w, t0) - 4.0 * Mul(v, t);
    QuotientDifference(w, v, t0, t, e);
    Numerator(w, v, t0, t, p, d2, e);
    Denominator(t0, t);
    FactorSize(w / (4.0 * t) - v / t0, 4.0 * Mul(t0, t));
  }

  /** 4 m^2 - (m+c)^2 is at most 3/4 of the squared gap. */
  lemma {:induction false} MeanSquares(m: real, c: real, d2: real, w: real, v: real)
    requires 0.7 <= c <= m <= 1.0 && Mul(m - c, m + c) == d2 / 4.0 && w == Mul(m + c, m + c) && v == Mul(m, m)
    ensures 4.0 * v - 0.75 * d2 <= w <= 4.0 * v && 0.49 <= v <= 1.0
  {
    hide *;
    MulOrder(0.7, m, 0.7, m);
    MulOrder(m, 1.0, m, 1.0);
    MulIs(0.7, 0.7);
    MulOne(1.0);
    SquaresDifference(m, c);
    GapShare(m - c, m + c, 3.0 * m + c, d2);
  }

  lemma {:induction false} SquaresDifference(m: real, c: real)
    ensures 4.0 * Mul(m, m) - Mul(m + c, m + c) == Mul(m - c, 3.0 * m + c)
  {
  }

  lemma {:induction false} GapShare(e: real, sum: real, f: real, d2: real)
    requires e >= 0.0 && sum >= 1.4 && 0.0 <= f <= 4.0 && Mul(e, sum) == d2 / 4.0
    ensures 0.0 <= Mul(e, f) <= 0.75 * d2
  {
    hide Mul;
    MulOrder(e, e, 1.4, sum);
    MulOrder(e, e, f, 4.0);
    MulOrder(e, e, 0.0, f);
    MulIs(e, 1.4);
    MulIs(e, 4.0);
  }

  lemma {:induction false} Reduced(v: real, t: real)
    requires t > 0.0
    ensures 4.0 * v / (4.0 * t) == v / t
  {
    var q := v / t;
    assert q * t == v;
    assert q * (4.0 * t) == 4.0 * v;
  }

  lemma {:induction false} QuotientDifference(w: real, v: real, t0: real, t1: real, e: real)
    requires t0 > 0.0 && t1 > 0.0 && e == Mul(w, t0) - 4.0 * Mul(v, t1)
    ensures Mul(w / (4.0 * t1) - v / t0, 4.0 * Mul(t0, t1)) == e
  {
    var x, y := w / (4.0 * t1), v / t0;
    assert x * (4.0 * t1) == w && y * t0 == v;
    assert (x * (4.0 * t1)) * t0 == x * (4.0 * (t0 * t1));
    assert 4.0 * ((y * t0) * t1) == y * (4.0 * (t0 * t1));
    assert (x - y) * (4.0 * (t0 * t1)) == x * (4.0 * (t0 * t1)) - y * (4.0 * (t0 * t1));
  }

  lemma {:induction false} Numerator(w: real, v: real, t0: real, t1: real, p: real, d2: real, e: real)
    requires 4.0 * v - 0.75 * d2 <= w <= 4.0 * v && 0.49 <= v <= 1.0
    requires 0.125 <= t0 <= 0.25 && t1 == t0 - Mul(p, d2) / 4.0 && p >= 1.0 && d2 >= 0.0
    requires e == Mul(w, t0) - 4.0 * Mul(v, t1)
    ensures 0.0 <= e <= Mul(p, d2)
  {
    NumeratorIs(w, v, t0, t1, Mul(p, d2), e);
    AtLeast(d2, p);
    hide Mul;
    var x, u := Mul(p, d2), 4.0 * v - w;
    MulOrder(0.49, v, x, x);
    MulOrder(v, 1.0, x, x);
    MulOne(x);
    MulOrder(t0, 0.25, u, u);
    Quarter(u);
    Share(x);
  }

  lemma {:induction false} Quarter(u: real)
    ensures Mul(0.25, u) == 0.25 * u
  {
  }

  lemma {:induction false} Share(x: real)
    ensures Mul(0.49, x) == 0.49 * x
  {
  }

  lemma {:induction false} AtLeast(d2: real, p: real)
    requires d2 >= 0.0 && p >= 1.0
    ensures Mul(p, d2) >= d2
  {
    Ordered(d2, 1.0, p);
  }

  lemma {:induction false} NumeratorIs(w: real, v: real, t0: real, t1: real, x: real, e: real)
    requires t1 == t0 - x / 4.0 && e == Mul(w, t0) - 4.0 * Mul(v, t1)
    ensures e == Mul(v, x) - Mul(t0, 4.0 * v - w)
  {
    assert 4.0 * (v * (t0 - x / 4.0)) == 4.0 * (v * t0) - v * x;
    assert t0 * (4.0 * v - w) == 4.0 * (v * t0) - w * t0;
  }

  lemma {:induction false} Denominator(t0: real, t1: real)
    requires t0 >= 0.125 && t1 >= 0.125
    ensures 4.0 * Mul(t0, t1) >= 0.0625
  {
    Ordered(t0, 0.125, t1);
  }

  /** 2^n 15^(-2^(n+1)), the size of what a pass changes. */
  function Rest(n: nat): real {
    Mul(Residues.Pow2(n) as real, Pow(1.0 / 15.0, Residues.Pow2(n + 1)))
  }

  lemma {:induction false} RestShrinks(n: nat)
    ensures 0.0 <= 2.0 * Rest(n + 1) <= Rest(n)
  {
    hide Pow, Mul;
    var x := 1.0 / 15.0;
    var q := Pow(x, Residues.Pow2(n + 1));
    PowAdds(x, Residues.Pow2(n + 1), Residues.Pow2(n + 1));
    PowDecreases(x, 1, Residues.Pow2(n + 1));
    PowBelowOne(x, Residues.Pow2(n + 1));
    PowFifteenth();
    assert Residues.Pow2(n + 2) == Residues.Pow2(n + 1) + Residues.Pow2(n + 1);
    HalfOfRest(Residues.Pow2(n) as real, q);
  }

  lemma {:induction false} HalfOfRest(c: real, q: real)
    requires c >= 0.0 && 0.0 < q <= 1.0 / 15.0
    ensures 0.0 <= 2.0 * Mul(2.0 * c, Mul(q, q)) <= Mul(c, q)
  {
    var y := c * q;
    assert y >= 0.0;
    assert (2.0 * c) * (q * q) == 2.0 * (y * q);
    Ordered(y, q, 1.0 / 15.0);
  }

  lemma {:induction false} PassGain(sqrt: real -> real, n: nat)
    requires IsSqrt(sqrt)
    ensures var g, h := After(sqrt, n), After(sqrt, n + 1);
            g.t > 0.0 && h.t > 0.0 && 0.0 <= Value(h) - Value(g) <= 400.0 * Rest(n)
  {
    hide Pow, Step, After, Mul, Value, IsSqrt, Taken;
    var g := After(sqrt, n);
    PassRaises(sqrt, n);
    GapBound(sqrt, n);
    PowerIsP(sqrt, n);
    PowAdds(1.0 / 15.0, Residues.Pow2(n), Residues.Pow2(n));
    assert Residues.Pow2(n + 1) == Residues.Pow2(n) + Residues.Pow2(n);
    TakenBound(g.p, g.a - g.b, Pow(1.0 / 15.0, Residues.Pow2(n)));
  }

  lemma {:induction false} TakenBound(p: real, d: real, q: real)
    requires p >= 0.0 && 0.0 <= d <= 5.0 * q
    ensures Taken(p, d) <= 25.0 * Mul(p, Mul(q, q))
  {
    SquareOrder(d, 5.0 * q);
    assert (5.0 * q) * (5.0 * q) == 25.0 * (q * q);
    Ordered(p, d * d, 25.0 * (q * q));
    assert p * (25.0 * (q * q)) == 25.0 * (p * (q * q));
  }

  /** All further passes together raise the result by at most 800 * 2^n 15^(-2^(n+1)). */
  lemma {:induction false} LaterPasses(sqrt: real -> real, n: nat, k: nat)
    requires IsSqrt(sqrt)
    ensures var g, h := After(sqrt, n), After(sqrt, n + k);
            g.t > 0.0 && h.t > 0.0 && 0.0 <= Value(h) - Value(g) <= 800.0 * Rest(n)
    decreases k
  {
    hide Rest, Step, After, Value, IsSqrt;
    RestShrinks(n);
    PassGain(sqrt, n);
    if k > 0 {
      LaterPasses(sqrt, n + 1, k - 1);
      assert n + 1 + (k - 1) == n + k;
    }
  }

  /** The pass count of the source for d digits, 1 + floor(log2(d / 2)). */
  predicate PassCount(d: nat, n: nat) {
    n >= 1 && 2 * Residues.Pow2(n - 1) <= d < 2 * Residues.Pow2(n)
  }

  /** With the pass count of the source no number of further passes changes the result by more than
      54 units of the last of d digits, and the two variants agree within 4. */
  lemma {:induction false} PassesSuffice(sqrt: real -> real, d: nat, n: nat, k: nat)
    requires IsSqrt(sqrt) && PassCount(d, n)
    ensures var g, h := After(sqrt, n), After(sqrt, n + k);
            && g.t > 0.0 && h.t > 0.0
            && 0.0 <= Value(h) - Value(g) <= 54.0 * Pow(0.1, d)
            && 0.0 <= UnleashedValue(g) - Value(g) <= 4.0 * Pow(0.1, d)
  {
    hide Pow, Step, After, Value, UnleashedValue, IsSqrt, Mul;
    LaterPasses(sqrt, n, k);
    ResultsDiffer(sqrt, n);
    var x, e := 1.0 / 15.0, Residues.Pow2(n + 1);
    assert d + 1 <= e && Residues.Pow2(n) <= d;
    PowDecreases(x, d + 1, e);
    PowBelowOne(x, e);
    PowFirst(x, d);
    CountTimesPower(d);
    PowOrder(x, 0.1, d);
    DigitsCore(Residues.Pow2(n) as real, d as real, Pow(x, e), Pow(x, d), Pow(0.1, d));
  }

  lemma {:induction false} DigitsCore(c: real, d: real, r: real, q: real, u: real)
    requires 0.0 <= c <= d && 0.0 < r <= Mul(1.0 / 15.0, q) && Mul(d, q) <= u && q <= u
    ensures 800.0 * Mul(c, r) <= 54.0 * u && 50.0 * r <= 4.0 * u
  {
    Ordered(r, c, d);
    Ordered(d, r, q / 15.0);
    assert d * (q / 15.0) == d * q / 15.0;
  }

  // ------------------------------------------------- where the iteration goes

  /** Enclosures of a, b and t. */
  predicate Enclosed(g: Agm, alo: real, ahi: real, blo: real, bhi: real, tlo: real, thi: real, p: real) {
    Inside(g.a, alo, ahi) && Inside(g.b, blo, bhi) && Inside(g.t, tlo, thi) && g.p == p
  }

  /** glo and ghi enclose the geometric mean for all a and b between their bounds. */
  predicate MeanBounds(alo: real, ahi: real, blo: real, bhi: real, glo: real, ghi: real) {
    0.0 <= alo && 0.0 <= blo && 0.0 <= glo && 0.0 <= ghi && glo * glo < alo * blo && ahi * bhi < ghi * ghi
  }

  lemma {:induction false} MeanInside(a: real, b: real, g: real, alo: real, ahi: real, blo: real, bhi: real, glo: real, ghi: real)
    requires Inside(a, alo, ahi) && Inside(b, blo, bhi) && g >= 0.0 && g * g == a * b
    requires MeanBounds(alo, ahi, blo, bhi, glo, ghi)
    ensures Inside(g, glo, ghi)
  {
    MulOrder(alo, a, blo, b);
    MulOrder(a, ahi, b, bhi);
    MulIs(a, b);
    MulIs(alo, blo);
    MulIs(ahi, bhi);
    if g < glo {
      SquareOrder(g, glo);
    }
    if g > ghi {
      SquareOrder(ghi, g);
    }
  }

  /** tlo' and thi' enclose t - p (a-b)^2 / 4. */
  predicate TBounds(p: real, dlo: real, dhi: real, tlo: real, thi: real, tlo': real, thi': real) {
    p >= 0.0 && 0.0 <= dlo && tlo' <= tlo - p * (dhi * dhi) / 4.0 && thi - p * (dlo * dlo) / 4.0 <= thi'
  }

  lemma {:induction false} TInside(p: real, d: real, t: real, dlo: real, dhi: real, tlo: real, thi: real, tlo': real, thi': real)
    requires Inside(d, dlo, dhi) && Inside(t, tlo, thi) && TBounds(p, dlo, dhi, tlo, thi, tlo', thi')
    ensures Inside(t - Mul(p, Mul(d, d)) / 4.0, tlo', thi')
  {
    MulOrder(dlo, d, dlo, d);
    MulOrder(d, dhi, d, dhi);
    MulOrder(p, p, Mul(dlo, dlo), Mul(d, d));
    MulOrder(p, p, Mul(d, d), Mul(dhi, dhi));
    assert Mul(p, Mul(dlo, dlo)) == p * (dlo * dlo) && Mul(p, Mul(dhi, dhi)) == p * (dhi * dhi);
  }

  /** One pass carries enclosures over. */
  lemma {:induction false} PassInside(sqrt: real -> real, n: nat, alo: real, ahi: real, blo: real, bhi: real, tlo: real, thi: real, p: real,
                                      alo': real, ahi': real, glo: real, ghi: real, tlo': real, thi': real)
    requires IsSqrt(sqrt) && Enclosed(After(sqrt, n), alo, ahi, blo, bhi, tlo, thi, p)
    requires MeanBounds(alo, ahi, blo, bhi, glo, ghi) && TBounds(p, alo - bhi, ahi - blo, tlo, thi, tlo', thi')
    requires 2.0 * alo' <= alo + blo && ahi + bhi <= 2.0 * ahi'
    ensures Enclosed(After(sqrt, n + 1), alo', ahi', glo, ghi, tlo', thi', 2.0 * p)
  {
    hide *;
    InvariantAfter(sqrt, n);
    InvariantAfter(sqrt, n + 1);
    AfterNext(sqrt, n);
    var g, h := After(sqrt, n), After(sqrt, n + 1);
    EnclosedParts(g, alo, ahi, blo, bhi, tlo, thi, p);
    StepParts(sqrt, g);
    StepMeans(sqrt, g);
    MeanInside(g.a, g.b, h.b, alo, ahi, blo, bhi, glo, ghi);
    GapInside(g.a, g.b, alo, ahi, blo, bhi);
    TInside(p, g.a - g.b, g.t, alo - bhi, ahi - blo, tlo, thi, tlo', thi');
    NextEnclosed(h, g, alo, ahi, blo, bhi, p, alo', ahi', glo, ghi, tlo', thi');
  }

  lemma {:induction false} EnclosedParts(g: Agm, alo: real, ahi: real, blo: real, bhi: real, tlo: real, thi: real, p: real)
    requires Enclosed(g, alo, ahi, blo, bhi, tlo, thi, p)
    ensures Inside(g.a, alo, ahi) && Inside(g.b, blo, bhi) && Inside(g.t, tlo, thi) && g.p == p
  {
  }

  lemma {:induction false} StepParts(sqrt: real -> real, g: Agm)
    requires IsSqrt(sqrt) && Invariant(g)
    ensures var h := Step(sqrt, g); h.b >= 0.0 && h.b * h.b == g.a * g.b && h.p == 2.0 * g.p
  {
    hide IsSqrt, Mean, Taken;
    MeanFacts(sqrt, g.a, g.b);
  }

  lemma {:induction false} GapInside(a: real, b: real, alo: real, ahi: real, blo: real, bhi: real)
    requires Inside(a, alo, ahi) && Inside(b, blo, bhi)
    ensures Inside(a - b, alo - bhi, ahi - blo)
  {
  }

  lemma {:induction false} NextEnclosed(h: Agm, g: Agm, alo: real, ahi: real, blo: real, bhi: real, p: real,
                                        alo': real, ahi': real, glo: real, ghi: real, tlo': real, thi': real)
    requires Inside(g.a, alo, ahi) && Inside(g.b, blo, bhi) && g.p == p && h.p == 2.0 * g.p && 2.0 * h.a == g.a + g.b
    requires 2.0 * alo' <= alo + blo && ahi + bhi <= 2.0 * ahi' && Inside(h.b, glo, ghi)
    requires h.t == g.t - Mul(g.p, Mul(g.a - g.b, g.a - g.b)) / 4.0
    requires Inside(g.t - Mul(p, Mul(g.a - g.b, g.a - g.b)) / 4.0, tlo', thi')
    ensures Enclosed(h, alo', ahi', glo, ghi, tlo', thi', 2.0 * p)
  {
    hide Mul;
  }

  lemma {:induction false} StartInside(sqrt: real -> real)
    requires IsSqrt(sqrt)
    ensures Enclosed(After(sqrt, 0), 1.0, 1.0,
                     0.707106781186547524400844362104849039, 0.70710678118654752440084436210484904,
                     0.25, 0.25, 1.0)
  {
    RootOfTwo(sqrt);
    RootOfTwoInside(sqrt(2.0));
    QuotientInside(1.0, sqrt(2.0), 0.707106781186547524400844362104849039, 0.70710678118654752440084436210484904);
    hide IsSqrt;
    AfterNone(sqrt);
  }

  lemma {:induction false} RootOfTwoInside(r: real)
    requires r > 1.0 && r * r == 2.0
    ensures Inside(r, 1.414213562373095048801688724209698078, 1.414213562373095048801688724209698079)
  {
    if r < 1.414213562373095048801688724209698078 {
      SquareOrder(r, 1.414213562373095048801688724209698078);
    }
    if r > 1.414213562373095048801688724209698079 {
      SquareOrder(1.414213562373095048801688724209698079, r);
    }
  }

  lemma {:induction false} FirstPass(sqrt: real -> real)
    requires IsSqrt(sqrt)
    ensures Enclosed(After(sqrt, 1), 0.853553390593273762200422181052424519, 0.85355339059327376220042218105242452,
                     0.840896415253714543031125476233214894, 0.840896415253714543031125476233214896,
                     0.228553390593273762200422181052424519, 0.22855339059327376220042218105242452, 2.0)
  {
    hide After, IsSqrt;
    StartInside(sqrt);
    PassInside(sqrt, 0, 1.0, 1.0,
               0.707106781186547524400844362104849039, 0.70710678118654752440084436210484904,
               0.25, 0.25, 1.0,
               0.853553390593273762200422181052424519, 0.85355339059327376220042218105242452,
               0.840896415253714543031125476233214894, 0.840896415253714543031125476233214896,
               0.228553390593273762200422181052424519, 0.22855339059327376220042218105242452);
  }

  lemma {:induction false} SecondPass(sqrt: real -> real)
    requires IsSqrt(sqrt)
    ensures Enclosed(After(sqrt, 2), 0.847224902923494152615773828642819706, 0.847224902923494152615773828642819708,
                     0.847201266746891460403631453693352397, 0.847201266746891460403631453693352399,
                     0.228473291080900657094726640230514165, 0.228473291080900657094726640230514167, 4.0)
  {
    hide After, IsSqrt;
    FirstPass(sqrt);
    PassInside(sqrt, 1, 0.853553390593273762200422181052424519, 0.85355339059327376220042218105242452,
               0.840896415253714543031125476233214894, 0.840896415253714543031125476233214896,
               0.228553390593273762200422181052424519, 0.22855339059327376220042218105242452, 2.0,
               0.847224902923494152615773828642819706, 0.847224902923494152615773828642819708,
               0.847201266746891460403631453693352397, 0.847201266746891460403631453693352399,
               0.228473291080900657094726640230514165, 0.228473291080900657094726640230514167);
  }

  lemma {:induction false} ThirdPass(sqrt: real -> real)
    requires IsSqrt(sqrt)
    ensures Enclosed(After(sqrt, 3), 0.847213084835192806509702641168086051, 0.847213084835192806509702641168086054,
                     0.847213084752765366704298051779902069, 0.847213084752765366704298051779902072,
                     0.22847329052223181270107187693958886, 0.228473290522231812701071876939588863, 8.0)
  {
    hide After, IsSqrt;
    SecondPass(sqrt);
    PassInside(sqrt, 2, 0.847224902923494152615773828642819706, 0.847224902923494152615773828642819708,
               0.847201266746891460403631453693352397, 0.847201266746891460403631453693352399,
               0.228473291080900657094726640230514165, 0.228473291080900657094726640230514167, 4.0,
               0.847213084835192806509702641168086051, 0.847213084835192806509702641168086054,
               0.847213084752765366704298051779902069, 0.847213084752765366704298051779902072,
               0.22847329052223181270107187693958886, 0.228473290522231812701071876939588863);
  }

  lemma {:induction false} FourthPass(sqrt: real -> real)
    requires IsSqrt(sqrt)
    ensures Enclosed(After(sqrt, 4), 0.84721308479397908660700034647399406, 0.847213084793979086607000346473994063,
                     0.847213084793979086605997900490389209, 0.847213084793979086605997900490389213,
                     0.228473290522231812687483311273841666, 0.22847329052223181268748331127384167, 16.0)
  {
    hide After, IsSqrt;
    ThirdPass(sqrt);
    PassInside(sqrt, 3, 0.847213084835192806509702641168086051, 0.847213084835192806509702641168086054,
               0.847213084752765366704298051779902069, 0.847213084752765366704298051779902072,
               0.22847329052223181270107187693958886, 0.228473290522231812701071876939588863, 8.0,
               0.84721308479397908660700034647399406, 0.847213084793979086607000346473994063,
               0.847213084793979086605997900490389209, 0.847213084793979086605997900490389213,
               0.228473290522231812687483311273841666, 0.22847329052223181268748331127384167);
  }

  lemma {:induction false} ValueInside(g: Agm, alo: real, ahi: real, blo: real, bhi: real, tlo: real, thi: real, p: real, lo: real, hi: real)
    requires Enclosed(g, alo, ahi, blo, bhi, tlo, thi, p) && g.t > 0.0
    requires ValueBounds(alo + blo, ahi + bhi, tlo, thi, lo, hi)
    ensures Inside(Value(g), lo, hi)
  {
    hide *;
    EnclosedParts(g, alo, ahi, blo, bhi, tlo, thi, p);
    SumInside(g.a, g.b, alo, ahi, blo, bhi);
    ValueIs(g);
    QuotientOfSquare(g.a + g.b, g.t, alo + blo, ahi + bhi, tlo, thi, lo, hi);
  }

  /** lo and hi enclose s^2 / (4t) for all s and t between their bounds. */
  predicate ValueBounds(slo: real, shi: real, tlo: real, thi: real, lo: real, hi: real) {
    0.0 <= slo && 0.0 <= lo && 0.0 <= hi && lo * (4.0 * thi) <= slo * slo && shi * shi <= hi * (4.0 * tlo)
  }

  lemma {:induction false} SumInside(a: real, b: real, alo: real, ahi: real, blo: real, bhi: real)
    requires Inside(a, alo, ahi) && Inside(b, blo, bhi)
    ensures Inside(a + b, alo + blo, ahi + bhi)
  {
  }

  lemma {:induction false} QuotientOfSquare(s: real, t: real, slo: real, shi: real, tlo: real, thi: real, lo: real, hi: real)
    requires Inside(s, slo, shi) && Inside(t, tlo, thi) && t > 0.0 && ValueBounds(slo, shi, tlo, thi, lo, hi)
    ensures Inside(Mul(s, s) / (4.0 * t), lo, hi)
  {
    SquareInside(s, slo, shi);
    MulIs(s, s);
    Ordered(lo, 4.0 * t, 4.0 * thi);
    Ordered(hi, 4.0 * tlo, 4.0 * t);
    QuotientInside(Mul(s, s), 4.0 * t, lo, hi);
  }

  lemma {:induction false} FourthResult(sqrt: real -> real)
    requires IsSqrt(sqrt)
    ensures After(sqrt, 4).t > 0.0
    ensures Inside(Value(After(sqrt, 4)), 3.141592653589793238462643383279502, 3.141592653589793238462643383279503)
  {
    hide After, IsSqrt, Value;
    FourthPass(sqrt);
    InvariantAfter(sqrt, 4);
    PositiveT(After(sqrt, 4));
    ValueInside(After(sqrt, 4), 0.84721308479397908660700034647399406, 0.847213084793979086607000346473994063,
               0.847213084793979086605997900490389209, 0.847213084793979086605997900490389213,
               0.228473290522231812687483311273841666, 0.22847329052223181268748331127384167, 16.0,
                3.141592653589793238462643383279502, 3.141592653589793238462643383279503);
  }

  lemma {:induction false} RestValues()
    ensures Pow(1.0 / 15.0, 32) == 1.0 / 43143988327398919500410556793212890625.0
    ensures Rest(4) == 16.0 / 43143988327398919500410556793212890625.0
  {
    PowFifteenth();
    hide Pow;
    var x := 1.0 / 15.0;
    PowAdds(x, 1, 1);
    PowAdds(x, 2, 2);
    PowAdds(x, 4, 4);
    PowAdds(x, 8, 8);
    PowAdds(x, 16, 16);
    assert Pow(x, 2) == 1.0 / 225.0;
    assert Pow(x, 4) == 1.0 / 50625.0;
    assert Pow(x, 8) == 1.0 / 2562890625.0;
    assert Pow(x, 16) == 1.0 / 6568408355712890625.0;
    assert Residues.Pow2(2) == 4;
    assert Residues.Pow2(4) == 16 && Residues.Pow2(5) == 32;
  }

  /** From the fourth pass on both results agree with pi in 32 decimals. */
  lemma {:induction false} ResultsInDigits(sqrt: real -> real, n: nat)
    requires IsSqrt(sqrt) && n >= 4
    ensures var g := After(sqrt, n);
            && g.t > 0.0
            && 3.14159265358979323846264338327950 < Value(g) < 3.14159265358979323846264338327951
            && 3.14159265358979323846264338327950 < UnleashedValue(g) < 3.14159265358979323846264338327951
  {
    hide After, IsSqrt, Value, UnleashedValue, Rest, Pow;
    FourthResult(sqrt);
    RestValues();
    LaterPasses(sqrt, 4, n - 4);
    ResultsDiffer(sqrt, n);
    Residues.Pow2Monotone(5, n + 1);
    assert Residues.Pow2(2) == 4 && Residues.Pow2(5) == 32;
    PowDecreases(1.0 / 15.0, 32, Residues.Pow2(n + 1));
  }
}
