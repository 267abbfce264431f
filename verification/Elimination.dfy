/** What dgefa_ computes, as functions on matrices, and the algebra of its
    elimination stages. Stage k swaps entry k with entry l of a vector and adds
    multiples of the new entry k to the entries below it. LINPACK applies the
    swap of stage k only to columns k and later, so stored multipliers stay where
    they were produced and the stages have to be replayed in order. */
module Elimination {
  import opened Reals
  import opened Matrices

  /** Index l is the first position of an entry of largest modulus in c[k..]. */
  predicate IsPivot(c: Vec, k: nat, l: nat) {
    && k <= l < |c|
    && (forall i | k <= i < |c| :: Abs(c[i]) <= Abs(c[l]))
    && (forall i | k <= i < l :: Abs(c[i]) < Abs(c[l]))
  }

  function PivotUpTo(c: Vec, k: nat, m: nat): (l: nat)
    requires k < m <= |c|
    ensures k <= l < m
    ensures forall i | k <= i < m :: Abs(c[i]) <= Abs(c[l])
    ensures forall i | k <= i < l :: Abs(c[i]) < Abs(c[l])
  {
    if m == k + 1 then k
    else
      var l := PivotUpTo(c, k, m - 1);
      if Abs(c[m - 1]) <= Abs(c[l]) then l else m - 1
  }

  function Pivot(c: Vec, k: nat): (l: nat)
    requires k < |c|
    ensures IsPivot(c, k, l)
  {
    PivotUpTo(c, k, |c|)
  }

  function Swap(v: Vec, k: nat, l: nat): (w: Vec)
    requires k < |v| && l < |v|
    ensures |w| == |v|
  {
    v[k := v[l]][l := v[k]]
  }

  /** Adds v[k] times the multipliers to the entries below k. */
  function Eliminate(v: Vec, mult: Vec, k: nat): (w: Vec)
    requires k < |v| == |mult|
    ensures |w| == |v|
  {
    seq(|v|, i requires 0 <= i < |v| => if i <= k then v[i] else v[i] + Mul(v[k], mult[i]))
  }

  /** One stage: interchange, then eliminate. */
  function Stage(v: Vec, mult: Vec, k: nat, l: nat): (w: Vec)
    requires k < |v| == |mult| && l < |v|
    ensures |w| == |v|
  {
    Eliminate(Swap(v, k, l), mult, k)
  }

  /** The pivot column after the interchange, its tail turned into multipliers. */
  function Multipliers(c: Vec, k: nat): (w: Vec)
    requires k < |c| && c[k] != 0.0
    ensures |w| == |c|
  {
    seq(|c|, i requires 0 <= i < |c| => if i <= k then c[i] else Mul(-1.0 / c[k], c[i]))
  }

  /** The matrix after one pass of the outer loop of dgefa_. */
  function Pass(m: Mat, n: nat, k: nat): (r: Mat)
    requires Square(m, n) && k < n
    ensures Square(r, n)
    ensures r[..k] == m[..k]
  {
    var l := Pivot(m[k], k);
    if m[k][l] == 0.0 then m
    else
      var mult := Multipliers(Swap(m[k], k, l), k);
      seq(n, j requires 0 <= j < n =>
        if j < k then m[j] else if j == k then mult else Stage(m[j], mult, k, l))
  }

  datatype Factors = Factors(m: Mat, piv: seq<nat>)

  /** Matrix and pivot rows after the first k passes over a. */
  function Run(a: Mat, n: nat, k: nat): (f: Factors)
    requires Square(a, n) && k <= n
    ensures Square(f.m, n) && |f.piv| == k
    ensures forall i | 0 <= i < k :: i <= f.piv[i] < n
  {
    if k == 0 then Factors(a, [])
    else
      var f := Run(a, n, k - 1);
      Factors(Pass(f.m, n, k - 1), f.piv + [Pivot(f.m[k - 1], k - 1)])
  }

  /** The factorization dgefa_ leaves behind: n - 1 passes. */
  function Factor(a: Mat, n: nat): (f: Factors)
    requires Square(a, n) && n >= 1
    ensures Square(f.m, n) && |f.piv| == n - 1
    ensures forall i | 0 <= i < n - 1 :: i <= f.piv[i] < n
  {
    Run(a, n, n - 1)
  }

  /** The largest 1-based index below k + 1 of a zero on the diagonal, or 0. */
  function LastZero(m: Mat, n: nat, k: nat): (info: nat)
    requires Square(m, n) && k <= n
    ensures info <= k
    ensures info > 0 ==> m[info - 1][info - 1] == 0.0
    ensures forall i | info <= i < k :: m[i][i] != 0.0
  {
    if k == 0 then 0
    else if m[k - 1][k - 1] == 0.0 then k
    else LastZero(m, n, k - 1)
  }

  /** Sizes of the stage data: stage i has multipliers cs[i] and pivot row ps[i]. */
  predicate Stages(cs: seq<Vec>, ps: seq<nat>, n: nat) {
    && |cs| == |ps| <= n
    && (forall i | 0 <= i < |cs| :: |cs[i]| == n)
    && (forall i | 0 <= i < |ps| :: i <= ps[i] < n)
  }

  /** All stages replayed on v, first stage first. */
  function Forward(cs: seq<Vec>, ps: seq<nat>, v: Vec): (w: Vec)
    requires Stages(cs, ps, |v|)
    ensures |w| == |v|
  {
    if |cs| == 0 then v
    else
      var k := |cs| - 1;
      Stage(Forward(cs[..k], ps[..k], v), cs[k], k, ps[k])
  }

  /** Column j with the multipliers below its diagonal replaced by zeros. */
  function Clear(c: Vec, j: nat): (w: Vec)
    ensures |w| == |c|
  {
    seq(|c|, i requires 0 <= i < |c| => if i <= j then c[i] else 0.0)
  }

  /** The upper triangular factor stored in m. */
  function Upper(m: Mat, n: nat): (u: Mat)
    requires Square(m, n)
    ensures Square(u, n)
  {
    seq(n, j requires 0 <= j < n => Clear(m[j], j))
  }

  // ---------------------------------------------------------------- one stage

  /** An already triangular column passes through a later stage unchanged. */
  lemma {:induction false} StageKeepsTriangular(c: Vec, mult: Vec, j: nat, k: nat, l: nat)
    requires j < k < |c| == |mult| && k <= l < |c|
    ensures Stage(Clear(c, j), mult, k, l) == Clear(c, j)
  {
    var z := Clear(c, j);
    assert forall i | k < i < |c| :: Mul(z[k], mult[i]) == 0.0;
    assert Swap(z, k, l) == z;
  }

  /** Stage k clears the pivot column below the diagonal. */
  lemma {:induction false} StageClearsPivotColumn(c: Vec, k: nat, l: nat)
    requires k < |c| && k <= l < |c| && c[l] != 0.0
    ensures var mult := Multipliers(Swap(c, k, l), k);
            Stage(c, mult, k, l) == Clear(mult, k)
  {
    hide Mul;
    var s := Swap(c, k, l);
    var mult := Multipliers(s, k);
    forall i | 0 <= i < |c| ensures Stage(c, mult, k, l)[i] == Clear(mult, k)[i] {
      if i > k {
        MultiplierCancels(s[k], s[i]);
        assert mult[i] == Mul(-1.0 / s[k], s[i]);
      }
    }
  }

  lemma {:induction false} MultiplierCancels(p: real, x: real)
    requires p != 0.0
    ensures x + Mul(p, Mul(-1.0 / p, x)) == 0.0
  {
    assert p * ((-1.0 / p) * x) == (p * (-1.0 / p)) * x;
  }

  /** The zero-pivot branch: the stage that a zero column encodes does nothing. */
  lemma {:induction false} ZeroStageIsIdentity(v: Vec, mult: Vec, k: nat)
    requires k < |v| == |mult|
    requires forall i | k < i < |v| :: mult[i] == 0.0
    ensures Stage(v, mult, k, k) == v
  {
  }

  lemma {:induction false} ZeroPivotColumn(c: Vec, k: nat)
    requires k < |c| && c[Pivot(c, k)] == 0.0
    ensures Pivot(c, k) == k
    ensures forall i | k <= i < |c| :: c[i] == 0.0
  {
    var l := Pivot(c, k);
    var x, y := Abs(c[k]), Abs(c[l]);
    assert k < l ==> x < y;
    assert forall i | k <= i < |c| :: Abs(c[i]) <= Abs(c[l]);
  }

  /** Pass k in every case, zero pivot included, is stage k applied to the columns from k on. */
  lemma {:induction false} PassIsStage(m: Mat, n: nat, k: nat)
    requires Square(m, n) && k < n
    ensures var r, l := Pass(m, n, k), Pivot(m[k], k);
            && (forall j | k < j < n :: r[j] == Stage(m[j], r[k], k, l))
            && Clear(r[k], k) == Stage(m[k], r[k], k, l)
  {
    var r, l := Pass(m, n, k), Pivot(m[k], k);
    if m[k][l] == 0.0 {
      ZeroPivotColumn(m[k], k);
      forall j | k <= j < n ensures Stage(m[j], m[k], k, l) == m[j] {
        ZeroStageIsIdentity(m[j], m[k], k);
      }
      assert Clear(m[k], k) == m[k];
    } else {
      StageClearsPivotColumn(m[k], k, l);
    }
  }

  /** The loop invariant of dgefa_: after k passes the buffer holds, in columns k and later,
      the original columns with stages 0..k-1 applied; in columns before k the same with the
      multipliers stored where elimination made zeros. */
  lemma {:induction false} RunInvariant(a: Mat, n: nat, k: nat)
    requires Square(a, n) && k <= n
    ensures var f := Run(a, n, k);
            && Stages(f.m[..k], f.piv, n)
            && (forall j | k <= j < n :: f.m[j] == Forward(f.m[..k], f.piv, a[j]))
            && (forall j | 0 <= j < k :: Clear(f.m[j], j) == Forward(f.m[..k], f.piv, a[j]))
  {
    if k > 0 {
      hide Pass, Pivot, Stage, Clear, Forward;
      var p := k - 1;
      var f := Run(a, n, p);
      RunInvariant(a, n, p);
      PassIsStage(f.m, n, p);
      InvariantStep(a, n, p, f, Pass(f.m, n, p), Pivot(f.m[p], p));
    }
  }

  /** The invariant carries over one pass. */
  lemma {:induction false} InvariantStep(a: Mat, n: nat, p: nat, f: Factors, r: Mat, l: nat)
    requires Square(a, n) && Square(f.m, n) && Square(r, n) && p < n && p <= l < n && |f.piv| == p
    requires Stages(f.m[..p], f.piv, n) && r[..p] == f.m[..p]
    requires forall j | p <= j < n :: f.m[j] == Forward(f.m[..p], f.piv, a[j])
    requires forall j | 0 <= j < p :: Clear(f.m[j], j) == Forward(f.m[..p], f.piv, a[j])
    requires forall j | p < j < n :: r[j] == Stage(f.m[j], r[p], p, l)
    requires Clear(r[p], p) == Stage(f.m[p], r[p], p, l)
    ensures Stages(r[..p + 1], f.piv + [l], n)
    ensures forall j | p < j < n :: r[j] == Forward(r[..p + 1], f.piv + [l], a[j])
    ensures forall j | 0 <= j <= p :: Clear(r[j], j) == Forward(r[..p + 1], f.piv + [l], a[j])
  {
    hide Stage, Clear;
    var cs, ps := r[..p + 1], f.piv + [l];
    assert cs[..p] == f.m[..p] && ps[..p] == f.piv;
    forall j | 0 <= j < n
      ensures Forward(cs, ps, a[j]) == Stage(Forward(f.m[..p], f.piv, a[j]), r[p], p, l)
    {}
    forall j | 0 <= j < p ensures Clear(r[j], j) == Forward(cs, ps, a[j]) {
      assert r[j] == r[..p][j] == f.m[..p][j] == f.m[j];
      StageKeepsTriangular(f.m[j], r[p], j, p, l);
    }
  }

  /** LINPACK's factorization theorem: replaying the stages on A gives the stored U. */
  lemma {:induction false} FactorizationHolds(a: Mat, n: nat)
    requires Square(a, n) && n >= 1
    ensures var f := Factor(a, n);
            && Stages(f.m[..n - 1], f.piv, n)
            && forall j | 0 <= j < n :: Upper(f.m, n)[j] == Forward(f.m[..n - 1], f.piv, a[j])
  {
    RunInvariant(a, n, n - 1);
    var f := Factor(a, n);
    hide Factor, Run, Forward;
    assert Clear(f.m[n - 1], n - 1) == f.m[n - 1];
  }
}
