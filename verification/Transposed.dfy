/** dgesl_ with a nonzero job: the transposed system, solved with the adjoint stages. */
module Transposed {
  import opened Reals
  import opened Matrices
  import opened Elimination
  import opened Solving

  /** Forward substitution through columns 0..k-1 of the transposed triangular factor. */
  function ForwardSub(m: Mat, n: nat, k: nat, b: Vec): (y: Vec)
    requires Square(m, n) && |b| == n && k <= n && Pivots(m, n, k)
    ensures |y| == n && y[k..] == b[k..]
  {
    if k == 0 then b
    else
      var y := ForwardSub(m, n, k - 1, b);
      y[k - 1 := (y[k - 1] - Dot(m[k - 1], y, 0, k - 1)) / m[k - 1][k - 1]]
  }

  /** The adjoint of a stage: collect the multiples first, then interchange. */
  function StageT(v: Vec, mult: Vec, k: nat, l: nat): (w: Vec)
    requires k < |v| == |mult| && l < |v|
    ensures |w| == |v|
  {
    Swap(v[k := v[k] + Dot(mult, v, k + 1, |v|)], k, l)
  }

  /** The adjoint stages, last stage first. */
  function Backward(cs: seq<Vec>, ps: seq<nat>, v: Vec): (w: Vec)
    requires Stages(cs, ps, |v|)
    ensures |w| == |v|
    decreases |cs|
  {
    if |cs| == 0 then v
    else
      var k := |cs| - 1;
      Backward(cs[..k], ps[..k], StageT(v, cs[k], k, ps[k]))
  }

  /** dgesl_ with job != 0. */
  function SolutionT(f: Factors, n: nat, b: Vec): (x: Vec)
    requires n >= 1 && Square(f.m, n) && |b| == n && Pivots(f.m, n, n)
    requires Stages(f.m[..n - 1], f.piv, n)
    ensures |x| == n
  {
    Backward(f.m[..n - 1], f.piv, ForwardSub(f.m, n, n, b))
  }

  // ------------------------------------------------- adjointness

  lemma {:induction false} SwapAdjoint(u: Vec, v: Vec, k: nat, l: nat)
    requires |u| == |v| && k < |u| && l < |u|
    ensures Dot(Swap(u, k, l), v, 0, |u|) == Dot(u, Swap(v, k, l), 0, |u|)
  {
    hide Mul;
    if k != l {
      SwapDot(v, u, k, l);
      SwapDot(u, v, k, l);
      DotSymmetric(Swap(u, k, l), v, 0, |u|);
      DotSymmetric(u, v, 0, |u|);
      SwapShare(u[k], u[l], v[k], v[l]);
    } else {
      assert Swap(u, k, l) == u && Swap(v, k, l) == v;
    }
  }

  lemma {:induction false} SwapShare(uk: real, ul: real, vk: real, vl: real)
    ensures Mul(vk, ul) - Mul(vk, uk) + Mul(vl, uk) - Mul(vl, ul) == Mul(uk, vl) - Mul(uk, vk) + Mul(ul, vk) - Mul(ul, vl)
  {
  }

  lemma {:induction false} SwapDot(u: Vec, v: Vec, k: nat, l: nat)
    requires |u| == |v| && k < |u| && l < |u| && k != l
    ensures Dot(u, Swap(v, k, l), 0, |u|) == Dot(u, v, 0, |u|) + Mul(u[k], v[l]) - Mul(u[k], v[k]) + Mul(u[l], v[k]) - Mul(u[l], v[l])
  {
    hide Dot, Mul;
    DotUpdate(u, v, k, v[l], 0, |u|);
    DotUpdate(u, v[k := v[l]], l, v[k], 0, |u|);
  }

  lemma {:induction false} EliminateAdjoint(u: Vec, v: Vec, mult: Vec, k: nat, n: nat)
    requires |u| == n && |v| == n && |mult| == n && k < n
    ensures Dot(Eliminate(u, mult, k), v, 0, n) == Dot(u, v[k := v[k] + Dot(mult, v, k + 1, n)], 0, n)
  {
    hide Dot, Mul;
    var d := Dot(mult, v, k + 1, n);
    EliminateDot(u, v, mult, k, Eliminate(u, mult, k), n);
    hide Eliminate;
    DotUpdate(u, v, k, v[k] + d, 0, n);
    MulDistributes(u[k], v[k], d);
  }

  lemma {:induction false} EliminateDot(u: Vec, v: Vec, mult: Vec, k: nat, w: Vec, n: nat)
    requires |u| == n && |v| == n && |mult| == n && |w| == n && k < n
    requires forall i | 0 <= i <= k :: w[i] == u[i]
    requires forall i | k < i < n :: w[i] == u[i] + Mul(u[k], mult[i])
    ensures Dot(w, v, 0, n) == Dot(u, v, 0, n) + Mul(u[k], Dot(mult, v, k + 1, n))
  {
    hide Dot, Mul;
    DotSamePrefix(u, w, v, k + 1, n);
    EliminateTail(u, v, mult, k, w, n);
    assert Dot(w, v, 0, n) == Dot(u, v, 0, n) + Mul(u[k], Dot(mult, v, k + 1, n));
  }

  lemma {:induction false} DotSamePrefix(u: Vec, w: Vec, v: Vec, k: nat, n: nat)
    requires |u| == n && |v| == n && |w| == n && k <= n
    requires forall i | 0 <= i < k :: w[i] == u[i]
    ensures Dot(w, v, 0, n) - Dot(w, v, k, n) == Dot(u, v, 0, n) - Dot(u, v, k, n)
  {
    hide Dot, Mul;
    DotSplit(w, v, 0, k, n);
    DotSplit(u, v, 0, k, n);
    DotCongruent(w, v, u, v, 0, k);
  }

  lemma {:induction false} EliminateTail(u: Vec, v: Vec, mult: Vec, k: nat, w: Vec, n: nat)
    requires |u| == n && |v| == n && |mult| == n && |w| == n && k < n
    requires forall i | k < i < n :: w[i] == u[i] + Mul(u[k], mult[i])
    ensures Dot(w, v, k + 1, n) == Dot(u, v, k + 1, n) + Mul(u[k], Dot(mult, v, k + 1, n))
  {
    hide Dot, Mul;
    DotAxpy(v, u, u[k], mult, w, k + 1, n);
    DotSymmetric(w, v, k + 1, n);
    DotSymmetric(u, v, k + 1, n);
    DotSymmetric(mult, v, k + 1, n);
  }

  lemma {:induction false} StageAdjoint(u: Vec, v: Vec, mult: Vec, k: nat, l: nat)
    requires |u| == |v| == |mult| && k < |u| && l < |u|
    ensures Dot(Stage(u, mult, k, l), v, 0, |u|) == Dot(u, StageT(v, mult, k, l), 0, |u|)
  {
    EliminateAdjoint(Swap(u, k, l), v, mult, k, |u|);
    SwapAdjoint(u, v[k := v[k] + Dot(mult, v, k + 1, |v|)], k, l);
  }

  lemma {:induction false} ForwardAdjoint(cs: seq<Vec>, ps: seq<nat>, u: Vec, v: Vec)
    requires |u| == |v| && Stages(cs, ps, |u|)
    ensures Dot(Forward(cs, ps, u), v, 0, |u|) == Dot(u, Backward(cs, ps, v), 0, |u|)
    decreases |cs|
  {
    if |cs| > 0 {
      var k := |cs| - 1;
      StageAdjoint(Forward(cs[..k], ps[..k], u), v, cs[k], k, ps[k]);
      ForwardAdjoint(cs[..k], ps[..k], u, StageT(v, cs[k], k, ps[k]));
    }
  }

  // ------------------------------------------------- every vector is an adjoint image

  function UnstageT(v: Vec, mult: Vec, k: nat, l: nat): (w: Vec)
    requires k < |v| == |mult| && l < |v|
    ensures |w| == |v|
  {
    var s := Swap(v, k, l);
    s[k := s[k] - Dot(mult, s, k + 1, |v|)]
  }

  lemma {:induction false} UnstageInverse(v: Vec, mult: Vec, k: nat, l: nat)
    requires k < |v| == |mult| && l < |v|
    ensures StageT(UnstageT(v, mult, k, l), mult, k, l) == v
  {
    hide Mul;
    var s, w := Swap(v, k, l), UnstageT(v, mult, k, l);
    DotCongruent(mult, w, mult, s, k + 1, |v|);
    assert w[k := w[k] + Dot(mult, w, k + 1, |v|)] == s;
    assert Swap(s, k, l) == v;
  }

  lemma {:induction false} BackwardSurjective(cs: seq<Vec>, ps: seq<nat>, x: Vec) returns (y: Vec)
    requires Stages(cs, ps, |x|)
    ensures |y| == |x| && Backward(cs, ps, y) == x
  {
    if |cs| == 0 {
      y := x;
    } else {
      var k := |cs| - 1;
      var z := BackwardSurjective(cs[..k], ps[..k], x);
      y := UnstageT(z, cs[k], k, ps[k]);
      UnstageInverse(z, cs[k], k, ps[k]);
    }
  }

  // ------------------------------------------------- forward substitution

  lemma {:induction false} ClearedColumn(c: Vec, j: nat, y: Vec)
    requires |y| == |c| && j < |c|
    ensures Dot(Clear(c, j), y, 0, |c|) == Dot(c, y, 0, j) + Mul(c[j], y[j])
  {
    hide Mul;
    var u, n := Clear(c, j), |c|;
    assert Dot(u, y, 0, n) == Dot(u, y, 0, j + 1) by {
      hide Dot, Mul;
      DotSplit(u, y, 0, j + 1, n);
      DotZero(u, y, j + 1, n);
    }
    DotCongruent(u, y, c, y, 0, j);
  }

  lemma {:induction false} ForwardSubSolves(m: Mat, n: nat, k: nat, b: Vec, j: nat)
    requires Square(m, n) && |b| == n && j < k <= n && Pivots(m, n, k)
    ensures var y := ForwardSub(m, n, k, b);
            Dot(m[j], y, 0, j) + Mul(m[j][j], y[j]) == b[j]
  {
    hide Mul;
    var y', y := ForwardSub(m, n, k - 1, b), ForwardSub(m, n, k, b);
    DotCongruent(m[j], y, m[j], y', 0, j);
    if j < k - 1 {
      ForwardSubSolves(m, n, k - 1, b, j);
    } else {
      assert y'[k - 1] == y'[k - 1..][0] == b[k - 1..][0];
      var d := y'[j] - Dot(m[j], y', 0, j);
      assert y[j] == d / m[j][j];
      QuotientTimes(d, m[j][j]);
    }
  }

  lemma {:induction false} TransposedUnique(m: Mat, n: nat, y: Vec, z: Vec, k: nat)
    requires Square(m, n) && |y| == |z| == n && k <= n && Pivots(m, n, k)
    requires forall j | 0 <= j < k :: Dot(m[j], y, 0, j) + Mul(m[j][j], y[j]) == Dot(m[j], z, 0, j) + Mul(m[j][j], z[j])
    ensures forall j | 0 <= j < k :: y[j] == z[j]
  {
    hide Mul;
    if k > 0 {
      TransposedUnique(m, n, y, z, k - 1);
      DotCongruent(m[k - 1], y, m[k - 1], z, 0, k - 1);
      var p, d := m[k - 1][k - 1], Dot(m[k - 1], y, 0, k - 1);
      CancelRow(d, p, y[k - 1], z[k - 1]);
    }
  }

  lemma {:induction false} CancelRow(d: real, p: real, y: real, z: real)
    requires p != 0.0 && d + Mul(p, y) == d + Mul(p, z)
    ensures y == z
  {
    MulCommutes(p, y);
    MulCommutes(p, z);
    MulCancels(y, z, p);
  }

  lemma {:induction false} QuotientTimes(d: real, p: real)
    requires p != 0.0
    ensures Mul(p, d / p) == d
  {
  }

  /** One equation of the transposed system in terms of the triangular factor. */
  lemma {:induction false} TransposedEquivalent(cs: seq<Vec>, ps: seq<nat>, v: Vec, c: Vec, j: nat, y: Vec)
    requires |v| == |c| == |y| && j < |v| && Stages(cs, ps, |v|)
    requires Clear(c, j) == Forward(cs, ps, v)
    ensures Dot(v, Backward(cs, ps, y), 0, |v|) == Dot(c, y, 0, j) + Mul(c[j], y[j])
  {
    ForwardAdjoint(cs, ps, v, y);
    ClearedColumn(c, j, y);
  }

  /** The factor data f belongs to the matrix a. */
  predicate Factored(a: Mat, n: nat, f: Factors) {
    && n >= 1 && Square(a, n) && Square(f.m, n)
    && Stages(f.m[..n - 1], f.piv, n)
    && forall j | 0 <= j < n :: Clear(f.m[j], j) == Forward(f.m[..n - 1], f.piv, a[j])
  }

  lemma {:induction false} SolutionTSolves(a: Mat, n: nat, f: Factors, b: Vec)
    requires Factored(a, n, f) && |b| == n && Pivots(f.m, n, n)
    ensures SolvesTransposed(a, SolutionT(f, n, b), b)
  {
    var y, x := ForwardSub(f.m, n, n, b), SolutionT(f, n, b);
    forall j | 0 <= j < n ensures Dot(a[j], x, 0, n) == b[j] {
      ForwardSubSolves(f.m, n, n, b, j);
      TransposedEquivalent(f.m[..n - 1], f.piv, a[j], f.m[j], j, y);
    }
  }

  lemma {:induction false} SolutionTUnique(a: Mat, n: nat, f: Factors, b: Vec, x: Vec, z: Vec)
    requires Factored(a, n, f) && |b| == n && Pivots(f.m, n, n)
    requires SolvesTransposed(a, x, b) && SolvesTransposed(a, z, b)
    ensures x == z
  {
    hide Dot, Mul, Clear, Forward, Backward;
    var y := BackwardSurjective(f.m[..n - 1], f.piv, x);
    var w := BackwardSurjective(f.m[..n - 1], f.piv, z);
    forall j | 0 <= j < n
      ensures Dot(f.m[j], y, 0, j) + Mul(f.m[j][j], y[j]) == Dot(f.m[j], w, 0, j) + Mul(f.m[j][j], w[j])
    {
      TransposedEquivalent(f.m[..n - 1], f.piv, a[j], f.m[j], j, y);
      TransposedEquivalent(f.m[..n - 1], f.piv, a[j], f.m[j], j, w);
    }
    TransposedUnique(f.m, n, y, w, n);
    assert y == w;
  }

  /** If the transposed triangular system has a solution w, dgesl_ comes to its first zero on the
      diagonal with the numerator zero. */
  lemma {:induction false} TransposedNumerator(m: Mat, n: nat, k: nat, b: Vec, w: Vec)
    requires Square(m, n) && |b| == |w| == n && k < n && Pivots(m, n, k) && m[k][k] == 0.0
    requires forall j | 0 <= j <= k :: Dot(m[j], w, 0, j) + Mul(m[j][j], w[j]) == b[j]
    ensures var y := ForwardSub(m, n, k, b); y[k] - Dot(m[k], y, 0, k) == 0.0
  {
    hide Mul, Dot;
    var y := ForwardSub(m, n, k, b);
    forall j | 0 <= j < k ensures Dot(m[j], y, 0, j) + Mul(m[j][j], y[j]) == b[j] {
      ForwardSubSolves(m, n, k, b, j);
    }
    TransposedUnique(m, n, y, w, k);
    assert y[k] == y[k..][0] == b[k..][0];
    DotCongruent(m[k], y, m[k], w, 0, k);
    MulZero(w[k]);
  }

  /** job != 0 and a zero on the diagonal: if the transposed system has a solution all the same, the
      first division by zero is one of zero by zero. */
  lemma {:induction false} TransposedStopsAtZeroOverZero(a: Mat, n: nat, b: Vec, z: Vec, k: nat)
    requires Square(a, n) && n >= 1 && |b| == n && SolvesTransposed(a, z, b) && k < n
    requires var f := Factor(a, n); Pivots(f.m, n, k) && f.m[k][k] == 0.0
    ensures var m := Factor(a, n).m;
            var y := ForwardSub(m, n, k, b);
            y[k] - Dot(m[k], y, 0, k) == 0.0
  {
    hide Dot, Mul, Clear, Forward, Backward, Factor, ForwardSub, Upper;
    var f := Factor(a, n);
    FactorIsFactored(a, n);
    var w := BackwardSurjective(f.m[..n - 1], f.piv, z);
    forall j | 0 <= j <= k ensures Dot(f.m[j], w, 0, j) + Mul(f.m[j][j], w[j]) == b[j] {
      TransposedEquivalent(f.m[..n - 1], f.piv, a[j], f.m[j], j, w);
    }
    TransposedNumerator(f.m, n, k, b, w);
  }

  lemma {:induction false} FactorIsFactored(a: Mat, n: nat)
    requires Square(a, n) && n >= 1
    ensures Factored(a, n, Factor(a, n))
  {
    FactorizationHolds(a, n);
  }

  /** dgefa_ followed by dgesl_ with job != 0 yields the one and only solution of the
      transposed system. */
  lemma {:induction false} TransposedSolutionIsUnique(a: Mat, n: nat, b: Vec)
    requires Square(a, n) && n >= 1 && |b| == n && Pivots(Factor(a, n).m, n, n)
    ensures var f := Factor(a, n);
            && Stages(f.m[..n - 1], f.piv, n)
            && SolvesTransposed(a, SolutionT(f, n, b), b)
            && forall z: Vec | SolvesTransposed(a, z, b) :: z == SolutionT(f, n, b)
  {
    var f := Factor(a, n);
    FactorizationHolds(a, n);
    assert Factored(a, n, f);
    SolutionTSolves(a, n, f, b);
    forall z: Vec | SolvesTransposed(a, z, b) ensures z == SolutionT(f, n, b) {
      SolutionTUnique(a, n, f, b, SolutionT(f, n, b), z);
    }
  }
}
