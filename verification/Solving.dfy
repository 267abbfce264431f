/** What dgesl_ computes from the factors that dgefa_ leaves, and why it solves the system. */
module Solving {
  import opened Reals
  import opened Matrices
  import opened Elimination

  /** A usable triangular factor: no zero on the first k diagonal entries. */
  predicate Pivots(m: Mat, n: nat, k: nat)
    requires Square(m, n) && k <= n
  {
    forall i | 0 <= i < k :: m[i][i] != 0.0
  }

  // ------------------------------------------------- job = 0: U x = y, column by column

  function BackStep(m: Mat, n: nat, k: nat, b: Vec): (r: Vec)
    requires Square(m, n) && |b| == n && k < n && m[k][k] != 0.0
    ensures |r| == n
  {
    var t := b[k] / m[k][k];
    seq(n, i requires 0 <= i < n => if i < k then b[i] + Mul(-t, m[k][i]) else if i == k then t else b[i])
  }

  /** Back substitution through columns k - 1 down to 0. */
  function BackSub(m: Mat, n: nat, k: nat, b: Vec): (x: Vec)
    requires Square(m, n) && |b| == n && k <= n && Pivots(m, n, k)
    ensures |x| == n
  {
    if k == 0 then b else BackSub(m, n, k - 1, BackStep(m, n, k - 1, b))
  }

  /** Back substitution through the columns n - 1 down to s only. */
  function BackTo(m: Mat, n: nat, s: nat, b: Vec): (x: Vec)
    requires Square(m, n) && |b| == n && s <= n && forall i | s <= i < n :: m[i][i] != 0.0
    ensures |x| == n
    decreases n - s
  {
    if s == n then b else BackStep(m, n, s, BackTo(m, n, s + 1, b))
  }

  /** dgesl_ with job = 0. */
  function Solution(f: Factors, n: nat, b: Vec): (x: Vec)
    requires n >= 1 && Square(f.m, n) && |b| == n && Pivots(f.m, n, n)
    requires Stages(f.m[..n - 1], f.piv, n)
    ensures |x| == n
  {
    BackSub(f.m, n, n, Forward(f.m[..n - 1], f.piv, b))
  }

  /** Row i of the system half way through back substitution: entries from k on are already
      unknowns, entries before k are still right-hand side. */
  function Balance(m: Mat, n: nat, k: nat, b: Vec, i: nat): real
    requires Square(m, n) && |b| == n && k <= n && i < n
  {
    (if i < k then b[i] else 0.0) + Dot(b, Row(Upper(m, n), i), k, n)
  }

  lemma {:induction false} BackStepBalance(m: Mat, n: nat, k: nat, b: Vec, i: nat)
    requires Square(m, n) && |b| == n && k < n && i < n && m[k][k] != 0.0
    ensures Balance(m, n, k, BackStep(m, n, k, b), i) == Balance(m, n, k + 1, b, i)
  {
    hide Mul;
    var r := Row(Upper(m, n), i);
    var b', t := BackStep(m, n, k, b), b[k] / m[k][k];
    assert Dot(b', r, k, n) == Mul(t, r[k]) + Dot(b, r, k + 1, n) by {
      DotHead(b', r, k, n);
      DotCongruent(b', r, b, r, k + 1, n);
    }
    assert r[k] == if i <= k then m[k][i] else 0.0;
    BackStepShare(b[k], m[k][k], m[k][i]);
  }

  lemma {:induction false} BackStepShare(b: real, p: real, c: real)
    requires p != 0.0
    ensures Mul(b / p, p) == b
    ensures Mul(b / p, 0.0) == 0.0
    ensures Mul(-(b / p), c) + Mul(b / p, c) == 0.0
  {
  }

  lemma {:induction false} DotHead(u: Vec, v: Vec, lo: nat, hi: nat)
    requires lo < hi <= |u| && hi <= |v|
    ensures Dot(u, v, lo, hi) == Mul(u[lo], v[lo]) + Dot(u, v, lo + 1, hi)
  {
    hide Mul;
    DotSplit(u, v, lo, lo + 1, hi);
    assert Dot(u, v, lo, lo) == 0.0;
  }

  lemma {:induction false} BackSubBalance(m: Mat, n: nat, k: nat, b: Vec)
    requires Square(m, n) && |b| == n && k <= n && Pivots(m, n, k)
    ensures var x := BackSub(m, n, k, b);
            && x[k..] == b[k..]
            && forall i | 0 <= i < n :: MulVec(Upper(m, n), x)[i] == Balance(m, n, k, b, i)
  {
    if k > 0 {
      var b' := BackStep(m, n, k - 1, b);
      BackSubBalance(m, n, k - 1, b');
      forall i | 0 <= i < n
        ensures MulVec(Upper(m, n), BackSub(m, n, k, b))[i] == Balance(m, n, k, b, i)
      {
        BackStepBalance(m, n, k - 1, b, i);
      }
      var x := BackSub(m, n, k, b);
      assert x[k..] == x[k - 1..][1..] == b'[k - 1..][1..] == b'[k..] == b[k..];
    }
  }

  /** Back substitution solves the triangular system. */
  lemma {:induction false} BackSubSolves(m: Mat, n: nat, b: Vec)
    requires Square(m, n) && |b| == n && Pivots(m, n, n)
    ensures Solves(Upper(m, n), BackSub(m, n, n, b), b)
  {
    BackSubBalance(m, n, n, b);
    var x := BackSub(m, n, n, b);
    assert forall i | 0 <= i < n :: MulVec(Upper(m, n), x)[i] == b[i];
  }

  /** Stopping half way loses nothing: the remaining columns complete the back substitution. */
  lemma {:induction false} BackToContinues(m: Mat, n: nat, s: nat, b: Vec)
    requires Square(m, n) && |b| == n && s <= n && Pivots(m, n, n)
    ensures BackSub(m, n, s, BackTo(m, n, s, b)) == BackSub(m, n, n, b)
    decreases n - s
  {
    hide BackStep;
    if s < n {
      BackToContinues(m, n, s + 1, b);
    }
  }

  /** With the columns from s on done, every row of the system is still the row of the right-hand side. */
  lemma {:induction false} BackToBalance(m: Mat, n: nat, s: nat, b: Vec, i: nat)
    requires Square(m, n) && |b| == n && s <= n && (forall j | s <= j < n :: m[j][j] != 0.0) && i < n
    ensures Balance(m, n, s, BackTo(m, n, s, b), i) == b[i]
    decreases n - s
  {
    hide BackStep, Upper, Mul;
    if s < n {
      BackToBalance(m, n, s + 1, b, i);
      BackStepBalance(m, n, s, BackTo(m, n, s + 1, b), i);
    }
  }

  /** If a triangular system has a solution and column k is the first whose diagonal entry is zero
      on the way up, then dgesl_ is about to divide zero by zero. */
  lemma {:induction false} NumeratorVanishes(m: Mat, n: nat, k: nat, b: Vec, z: Vec)
    requires Square(m, n) && |b| == n && Solves(Upper(m, n), z, b)
    requires k < n && m[k][k] == 0.0 && forall j | k < j < n :: m[j][j] != 0.0
    ensures BackTo(m, n, k + 1, b)[k] == 0.0
  {
    var x := BackTo(m, n, k + 1, b);
    hide BackTo, Mul;
    TrailingFrom(m, n, k, b, x, z, k + 1);
    BackToBalance(m, n, k + 1, b, k);
    var r := Row(Upper(m, n), k);
    TriangularRow(r, z, k);
    assert MulVec(Upper(m, n), z)[k] == b[k] && r[k] == 0.0;
    DotCongruent(x, r, z, r, k + 1, n);
    MulCommutes(z[k], 0.0);
    MulZero(z[k]);
  }

  /** The entries behind the zero are those of any solution. */
  lemma {:induction false} TrailingFrom(m: Mat, n: nat, k: nat, b: Vec, x: Vec, z: Vec, i: nat)
    requires Square(m, n) && |b| == n && Solves(Upper(m, n), z, b)
    requires k < i <= n && (forall j | k < j < n :: m[j][j] != 0.0) && x == BackTo(m, n, k + 1, b)
    ensures forall j | i <= j < n :: x[j] == z[j]
    decreases n - i
  {
    hide BackTo, Mul;
    if i < n {
      TrailingFrom(m, n, k, b, x, z, i + 1);
      BackToBalance(m, n, k + 1, b, i);
      var r := Row(Upper(m, n), i);
      TriangularRow(r, z, i);
      assert MulVec(Upper(m, n), z)[i] == b[i] && r[i] != 0.0;
      DotSplit(x, r, k + 1, i, n);
      DotZero(x, r, k + 1, i);
      DotHead(x, r, i, n);
      DotCongruent(x, r, z, r, i + 1, n);
      MulCancels(x[i], z[i], r[i]);
    }
  }

  /** A triangular system with nonzero diagonal has at most one solution. */
  lemma {:induction false} TriangularUnique(m: Mat, n: nat, x: Vec, z: Vec, k: nat)
    requires Square(m, n) && |x| == |z| == n && k <= n && Pivots(m, n, n)
    requires MulVec(Upper(m, n), x) == MulVec(Upper(m, n), z)
    ensures forall i | k <= i < n :: x[i] == z[i]
    decreases n - k
  {
    if k < n {
      TriangularUnique(m, n, x, z, k + 1);
      var r := Row(Upper(m, n), k);
      assert MulVec(Upper(m, n), x)[k] == MulVec(Upper(m, n), z)[k];
      TriangularEntry(r, x, z, k);
    }
  }

  lemma {:induction false} TriangularEntry(r: Vec, x: Vec, z: Vec, k: nat)
    requires k < |r| == |x| == |z| && (forall j | 0 <= j < k :: r[j] == 0.0) && r[k] != 0.0
    requires Dot(x, r, 0, |r|) == Dot(z, r, 0, |r|)
    requires forall j | k < j < |r| :: x[j] == z[j]
    ensures x[k] == z[k]
  {
    hide Mul;
    TriangularRow(r, x, k);
    TriangularRow(r, z, k);
    DotCongruent(x, r, z, r, k + 1, |r|);
    assert Dot(x, r, k + 1, |r|) == Dot(z, r, k + 1, |r|);
    MulCancels(x[k], z[k], r[k]);
  }

  lemma {:induction false} TriangularRow(r: Vec, x: Vec, k: nat)
    requires k < |r| == |x| && forall j | 0 <= j < k :: r[j] == 0.0
    ensures Dot(x, r, 0, |x|) == Mul(x[k], r[k]) + Dot(x, r, k + 1, |x|)
  {
    hide Mul;
    DotSplit(x, r, 0, k, |x|);
    DotHead(x, r, k, |x|);
    DotZero(x, r, 0, k);
  }

  // ------------------------------------------------- stages are linear and invertible

  /** The row that a swap of k and l puts in position i. */
  function Swapped(i: nat, k: nat, l: nat): nat {
    if i == k then l else if i == l then k else i
  }

  lemma {:induction false} StageEntry(v: Vec, mult: Vec, k: nat, l: nat, i: nat)
    requires k < |v| == |mult| && l < |v| && i < |v|
    ensures Stage(v, mult, k, l)[i] == v[Swapped(i, k, l)] + Mul(if i <= k then 0.0 else mult[i], v[l])
  {
    hide Mul;
    if i > k {
      MulCommutes(mult[i], v[l]);
    } else {
      MulZero(v[l]);
    }
  }

  lemma {:induction false} StageRowEntry(a: Mat, b: Mat, mult: Vec, n: nat, k: nat, l: nat, i: nat, j: nat)
    requires Square(a, n) && Square(b, n) && k < n == |mult| && l < n && i < n && j < n
    requires b[j] == Stage(a[j], mult, k, l)
    ensures Row(b, i)[j] == Row(a, Swapped(i, k, l))[j] + Mul(if i <= k then 0.0 else mult[i], Row(a, l)[j])
  {
    hide Mul;
    StageEntry(a[j], mult, k, l, i);
    assert Row(b, i)[j] == b[j][i];
    assert Row(a, Swapped(i, k, l))[j] == a[j][Swapped(i, k, l)];
    assert Row(a, l)[j] == a[j][l];
  }

  lemma {:induction false} StageRow(a: Mat, x: Vec, mult: Vec, k: nat, l: nat, b: Mat, i: nat)
    requires Square(a, |x|) && Square(b, |x|) && k < |x| == |mult| && l < |x| && i < |x|
    requires forall j | 0 <= j < |x| :: b[j] == Stage(a[j], mult, k, l)
    ensures forall j | 0 <= j < |x| ::
              Row(b, i)[j] == Row(a, Swapped(i, k, l))[j] + Mul(if i <= k then 0.0 else mult[i], Row(a, l)[j])
  {
    hide Mul;
    forall j | 0 <= j < |x|
      ensures Row(b, i)[j] == Row(a, Swapped(i, k, l))[j] + Mul(if i <= k then 0.0 else mult[i], Row(a, l)[j])
    {
      StageRowEntry(a, b, mult, |x|, k, l, i, j);
    }
  }

  lemma {:induction false} StageMulVecEntry(a: Mat, x: Vec, mult: Vec, k: nat, l: nat, b: Mat, i: nat)
    requires Square(a, |x|) && Square(b, |x|) && k < |x| == |mult| && l < |x| && i < |x|
    requires forall j | 0 <= j < |x| ::
               Row(b, i)[j] == Row(a, Swapped(i, k, l))[j] + Mul(if i <= k then 0.0 else mult[i], Row(a, l)[j])
    ensures Stage(MulVec(a, x), mult, k, l)[i] == MulVec(b, x)[i]
  {
    hide Mul;
    var c := if i <= k then 0.0 else mult[i];
    DotAxpy(x, Row(a, Swapped(i, k, l)), c, Row(a, l), Row(b, i), 0, |x|);
    StageEntry(MulVec(a, x), mult, k, l, i);
  }

  lemma {:induction false} StageMulVec(a: Mat, x: Vec, mult: Vec, k: nat, l: nat, b: Mat)
    requires Square(a, |x|) && Square(b, |x|) && k < |x| == |mult| && l < |x|
    requires forall j | 0 <= j < |x| :: b[j] == Stage(a[j], mult, k, l)
    ensures Stage(MulVec(a, x), mult, k, l) == MulVec(b, x)
  {
    forall i | 0 <= i < |x| ensures Stage(MulVec(a, x), mult, k, l)[i] == MulVec(b, x)[i] {
      StageRow(a, x, mult, k, l, b, i);
      StageMulVecEntry(a, x, mult, k, l, b, i);
    }
  }

  lemma {:induction false} ForwardMulVec(cs: seq<Vec>, ps: seq<nat>, a: Mat, x: Vec, b: Mat)
    requires Square(a, |x|) && Square(b, |x|) && Stages(cs, ps, |x|)
    requires forall j | 0 <= j < |x| :: b[j] == Forward(cs, ps, a[j])
    ensures Forward(cs, ps, MulVec(a, x)) == MulVec(b, x)
  {
    var n := |x|;
    if |cs| == 0 {
      assert a == b;
    } else {
      var k := |cs| - 1;
      var c := seq(n, j requires 0 <= j < n => Forward(cs[..k], ps[..k], a[j]));
      ForwardMulVec(cs[..k], ps[..k], a, x, c);
      StageMulVec(c, x, cs[k], k, ps[k], b);
    }
  }

  lemma {:induction false} StageInjective(u: Vec, v: Vec, mult: Vec, k: nat, l: nat)
    requires k < |u| == |v| == |mult| && l < |u|
    requires Stage(u, mult, k, l) == Stage(v, mult, k, l)
    ensures u == v
  {
    hide Mul;
    var s, t := Swap(u, k, l), Swap(v, k, l);
    forall i | 0 <= i < |u| ensures s[i] == t[i] {
      assert Stage(u, mult, k, l)[i] == Stage(v, mult, k, l)[i];
      assert Stage(u, mult, k, l)[k] == Stage(v, mult, k, l)[k];
    }
    assert u == Swap(s, k, l) && v == Swap(t, k, l);
  }

  lemma {:induction false} ForwardInjective(cs: seq<Vec>, ps: seq<nat>, u: Vec, v: Vec)
    requires |u| == |v| && Stages(cs, ps, |u|) && Forward(cs, ps, u) == Forward(cs, ps, v)
    ensures u == v
  {
    if |cs| > 0 {
      var k := |cs| - 1;
      StageInjective(Forward(cs[..k], ps[..k], u), Forward(cs[..k], ps[..k], v), cs[k], k, ps[k]);
      ForwardInjective(cs[..k], ps[..k], u, v);
    }
  }

  // ------------------------------------------------- job = 0: the theorem

  /** A x = b is equivalent to the triangular system that dgesl_ solves by back substitution. */
  lemma {:induction false} TriangularEquivalent(a: Mat, n: nat, x: Vec, b: Vec)
    requires Square(a, n) && n >= 1 && |x| == |b| == n
    ensures var f := Factor(a, n);
            && Stages(f.m[..n - 1], f.piv, n)
            && (MulVec(a, x) == b <==> MulVec(Upper(f.m, n), x) == Forward(f.m[..n - 1], f.piv, b))
  {
    var f := Factor(a, n);
    FactorizationHolds(a, n);
    ForwardMulVec(f.m[..n - 1], f.piv, a, x, Upper(f.m, n));
    if MulVec(Upper(f.m, n), x) == Forward(f.m[..n - 1], f.piv, b) {
      ForwardInjective(f.m[..n - 1], f.piv, MulVec(a, x), b);
    }
  }

  /** dgefa_ followed by dgesl_ with job = 0 yields the one and only solution of A x = b. */
  lemma {:induction false} SolutionIsUnique(a: Mat, n: nat, b: Vec)
    requires Square(a, n) && n >= 1 && |b| == n && Pivots(Factor(a, n).m, n, n)
    ensures var f := Factor(a, n);
            && Stages(f.m[..n - 1], f.piv, n)
            && Solves(a, Solution(f, n, b), b)
            && forall z: Vec | Solves(a, z, b) :: z == Solution(f, n, b)
  {
    var f := Factor(a, n);
    FactorizationHolds(a, n);
    var x := Solution(f, n, b);
    BackSubSolves(f.m, n, Forward(f.m[..n - 1], f.piv, b));
    TriangularEquivalent(a, n, x, b);
    forall z: Vec | Solves(a, z, b) ensures z == x {
      TriangularEquivalent(a, n, z, b);
      TriangularUnique(f.m, n, x, z, 0);
    }
  }

  /** When info is not zero, job = 0 comes to a division by zero in row info, with everything below
      done. If the system has a solution all the same, the numerator is zero, too. */
  lemma {:induction false} SolvableStopsAtZeroOverZero(a: Mat, n: nat, b: Vec, z: Vec)
    requires Square(a, n) && n >= 1 && |b| == n && Solves(a, z, b)
    ensures var f := Factor(a, n);
            var info := LastZero(f.m, n, n);
            && Stages(f.m[..n - 1], f.piv, n)
            && (info > 0 ==> BackTo(f.m, n, info, Forward(f.m[..n - 1], f.piv, b))[info - 1] == 0.0)
  {
    var f := Factor(a, n);
    TriangularEquivalent(a, n, z, b);
    var info := LastZero(f.m, n, n);
    hide Factor, LastZero, Forward, MulVec, Upper, BackTo;
    if info > 0 {
      NumeratorVanishes(f.m, n, info - 1, Forward(f.m[..n - 1], f.piv, b), z);
    }
  }

  // ------------------------------------------------- what info says

  /** With a zero at the diagonal position k, U has a nonzero vector in its kernel. */
  lemma {:induction false} KernelVector(m: Mat, n: nat, k: nat) returns (x: Vec)
    requires Square(m, n) && k < n && Pivots(m, n, k) && m[k][k] == 0.0
    ensures |x| == n && x[k] == 1.0 && MulVec(Upper(m, n), x) == Zeros(n)
  {
    var b := seq(n, i requires 0 <= i < n => if i < k then -m[k][i] else if i == k then 1.0 else 0.0);
    x := BackSub(m, n, k, b);
    BackSubBalance(m, n, k, b);
    assert x[k] == x[k..][0] == b[k..][0];
    forall i | 0 <= i < n ensures Balance(m, n, k, b, i) == 0.0 {
      hide Mul;
      DotSingle(b, Row(Upper(m, n), i), k, k, n);
      MulOne(Row(Upper(m, n), i)[k]);
    }
    assert forall i | 0 <= i < n :: MulVec(Upper(m, n), x)[i] == 0.0;
  }

  /** The first zero on a diagonal that has one. */
  lemma {:induction false} FirstZero(m: Mat, n: nat, j: nat) returns (k: nat)
    requires Square(m, n) && j < n && m[j][j] == 0.0
    ensures k < n && Pivots(m, n, k) && m[k][k] == 0.0
  {
    k := 0;
    while m[k][k] != 0.0
      invariant k <= j && Pivots(m, n, k)
      decreases j - k
    {
      k := k + 1;
    }
  }

  lemma {:induction false} ForwardZeros(cs: seq<Vec>, ps: seq<nat>, n: nat)
    requires Stages(cs, ps, n)
    ensures Forward(cs, ps, Zeros(n)) == Zeros(n)
  {
    if |cs| > 0 {
      var k := |cs| - 1;
      ForwardZeros(cs[..k], ps[..k], n);
      assert forall x: real {:trigger Mul(0.0, x)} :: Mul(0.0, x) == 0.0;
      assert Stage(Zeros(n), cs[k], k, ps[k]) == Zeros(n);
    }
  }

  /** info == 0 exactly when A is nonsingular. */
  lemma {:induction false} InfoDecidesSingularity(a: Mat, n: nat)
    requires Square(a, n) && n >= 1
    ensures LastZero(Factor(a, n).m, n, n) == 0 <==> Nonsingular(a, n)
  {
    var f := Factor(a, n);
    FactorizationHolds(a, n);
    if LastZero(f.m, n, n) == 0 {
      forall x: Vec | |x| == n && MulVec(a, x) == Zeros(n) ensures x == Zeros(n) {
        OnlyTrivialKernel(a, n, x);
      }
    } else {
      var x := NontrivialKernel(a, n);
      assert MulVec(a, x) == Zeros(n) && x != Zeros(n);
    }
  }

  lemma {:induction false} OnlyTrivialKernel(a: Mat, n: nat, x: Vec)
    requires Square(a, n) && n >= 1 && LastZero(Factor(a, n).m, n, n) == 0
    requires |x| == n && MulVec(a, x) == Zeros(n)
    ensures x == Zeros(n)
  {
    var f := Factor(a, n);
    assert Pivots(f.m, n, n);
    hide Factor, MulVec, Forward, LastZero;
    TriangularEquivalent(a, n, x, Zeros(n));
    ForwardZeros(f.m[..n - 1], f.piv, n);
    MulZeros(Upper(f.m, n), n);
    hide Upper;
    TriangularUnique(f.m, n, x, Zeros(n), 0);
  }

  lemma {:induction false} NontrivialKernel(a: Mat, n: nat) returns (x: Vec)
    requires Square(a, n) && n >= 1 && LastZero(Factor(a, n).m, n, n) != 0
    ensures |x| == n && MulVec(a, x) == Zeros(n) && x != Zeros(n)
  {
    var f := Factor(a, n);
    var k := FirstZero(f.m, n, LastZero(f.m, n, n) - 1);
    assert Zeros(n)[k] == 0.0;
    hide Factor, MulVec, Forward, LastZero, Upper, Zeros;
    x := KernelVector(f.m, n, k);
    TriangularEquivalent(a, n, x, Zeros(n));
    ForwardZeros(f.m[..n - 1], f.piv, n);
  }

  lemma {:induction false} MulZeros(m: Mat, n: nat)
    requires Square(m, n)
    ensures MulVec(m, Zeros(n)) == Zeros(n)
  {
    forall i | 0 <= i < n ensures MulVec(m, Zeros(n))[i] == 0.0 {
      DotZero(Zeros(n), Row(m, i), 0, n);
    }
  }
}
