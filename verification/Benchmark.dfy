/** The computation of MAIN__ in performance/linpack-benchmark.cpp: generate, factor, solve,
    generate again, and measure the residual. */
module Benchmark {
  import opened Reals
  import opened Matrices
  import opened Residues
  import opened Storage
  import opened Elimination
  import opened Solving
  import opened Transposed
  import opened Dgefa
  import opened Dgesl
  import opened Dmxpy
  import opened Ran
  import opened Matgen

  /** x is the largest modulus among the first n elements, or 0 if there are none. */
  predicate MaxNorm(v: Vec, n: nat, x: real) {
    && n <= |v|
    && (forall i | 0 <= i < n :: Abs(v[i]) <= x)
    && (x == 0.0 || exists i :: 0 <= i < n && Abs(v[i]) == x)
  }

  /** The loop over both vectors at the end of MAIN__. */
  method Norms(b: array<real>, x: array<real>, n: nat) returns (resid: real, normx: real)
    requires n <= b.Length && n <= x.Length
    ensures MaxNorm(b[..], n, resid) && MaxNorm(x[..], n, normx)
  {
    hide Abs;
    resid, normx := 0.0, 0.0;
    var i := 0;
    while i < n
      invariant 0 <= i <= n && MaxNorm(b[..], i, resid) && MaxNorm(x[..], i, normx)
    {
      resid := if Abs(b[i]) > resid then Abs(b[i]) else resid;
      normx := if Abs(x[i]) > normx then Abs(x[i]) else normx;
      i := i + 1;
    }
  }

  /** b := -b. */
  method Negate(b: array<real>, n: nat)
    requires n <= b.Length
    modifies b
    ensures forall i | 0 <= i < n :: b[i] == -old(b[i])
  {
    var i := 0;
    while i < n
      invariant 0 <= i <= n
      invariant forall k | 0 <= k < n :: b[k] == if k < i then -old(b[k]) else old(b[k])
    {
      b[i] := -b[i];
      i := i + 1;
    }
  }

  /** x := b. */
  method CopyVector(b: array<real>, x: array<real>, n: nat)
    requires n <= b.Length && n <= x.Length && b != x
    modifies x
    ensures x[..n] == b[..n]
  {
    var i := 0;
    while i < n
      invariant 0 <= i <= n && x[..i] == b[..i]
    {
      x[i] := b[i];
      i := i + 1;
    }
  }

  /** The regenerated right-hand side, negated, plus A x: the residual vector. */
  method Residual(a: array<real>, lda: nat, n: nat, b: array<real>, x: array<real>) returns (norma: real)
    requires Layout(a.Length, lda, n) && n <= b.Length && n <= x.Length
    requires a != b && a != x && b != x
    modifies a, b
    ensures forall i | 0 <= i < n :: b[i] == -MulVec(TestMatrix(n), Ones(n))[i] + MulVec(TestMatrix(n), x[..n])[i]
    ensures Largest(TestMatrix(n), n, n, 0, norma)
  {
    ghost var x0 := x[..];
    norma := Matgen.Matgen(a, lda, n, b);
    ghost var b0 := b[..n];
    hide Layout, MulVec, TestMatrix, Largest, Pow2, RowProduct, SamePadding, Columns;
    Negate(b, n);
    ghost var b1 := b[..];
    LayoutIsRectangle(a.Length, lda, n);
    Dmxpy.Dmxpy(n, b, n, lda, x, a);
    forall i | 0 <= i < n ensures b[i] == -b0[i] + MulVec(TestMatrix(n), x[..n])[i] {
      RowProductIsMulVec(x[..], a[..], lda, n, i);
      assert b1[i] == -b0[i];
    }
  }

  lemma {:induction false} LayoutIsRectangle(len: nat, lda: nat, n: nat)
    requires Layout(len, lda, n)
    ensures Rectangle(len, lda, n, n)
  {
  }

  /** x solves the system, or for a nonzero job the transposed one. */
  predicate SolvesJob(m: Mat, x: Vec, b: Vec, job: int) {
    if job == 0 then Solves(m, x, b) else SolvesTransposed(m, x, b)
  }

  /** dgefa_ followed by dgesl_: for a nonsingular matrix the one and only solution. For a singular
      one b is what dgesl_ has made of it when it is to divide by a zero on the diagonal, with
      job = 0 in row info. */
  method FactorAndSolve(a: array<real>, lda: nat, n: nat, ipvt: array<int>, b: array<real>, job: int)
    returns (info: int, stop: nat)
    requires Layout(a.Length, lda, n) && n <= ipvt.Length && n <= b.Length && a != b
    modifies a, ipvt, b
    ensures info == 0 <==> Nonsingular(old(Columns(a[..], lda, n)), n)
    ensures Outcome(Factor(old(Columns(a[..], lda, n)), n), n, job, old(b[..n]), stop, b[..n])
    ensures (stop == 0 <==> info == 0) && (job == 0 ==> stop == info)
    ensures info == 0 ==> SolvesJob(old(Columns(a[..], lda, n)), b[..n], old(b[..n]), job)
    ensures info == 0 ==> forall z: Vec | SolvesJob(old(Columns(a[..], lda, n)), z, old(b[..n]), job) :: z == b[..n]
  {
    hide *;
    ghost var m, v := Columns(a[..], lda, n), b[..n];
    LayoutNonempty(a.Length, lda, n);
    info := Dgefa.Dgefa(a, lda, n, ipvt);
    InfoDecidesSingularity(m, n);
    StoredAfterFactor(m, a[..], lda, n, ipvt[..]);
    stop := Dgesl.Dgesl(a, lda, n, ipvt, b, job);
    StopAndInfo(Factor(m, n), n, job, v, stop, b[..n]);
    if info == 0 {
      JobSolution(m, n, v, job, b[..n]);
    }
  }

  lemma {:induction false} StopAndInfo(f: Factors, n: nat, job: int, v: Vec, stop: nat, x: Vec)
    requires Outcome(f, n, job, v, stop, x)
    ensures Square(f.m, n) && (stop == 0 <==> LastZero(f.m, n, n) == 0)
    ensures job == 0 ==> stop == LastZero(f.m, n, n)
    ensures n >= 1 && |v| == n && Stages(f.m[..n - 1], f.piv, n)
    ensures stop == 0 ==> Pivots(f.m, n, n) && x == if job == 0 then Solution(f, n, v) else SolutionT(f, n, v)
  {
  }

  lemma {:induction false} LayoutNonempty(len: nat, lda: nat, n: nat)
    requires Layout(len, lda, n)
    ensures n >= 1
  {
  }

  lemma {:induction false} JobSolution(m: Mat, n: nat, v: Vec, job: int, x: Vec)
    requires Square(m, n) && n >= 1 && |v| == n && Pivots(Factor(m, n).m, n, n)
    requires Stages(Factor(m, n).m[..n - 1], Factor(m, n).piv, n)
    requires x == if job == 0 then Solution(Factor(m, n), n, v) else SolutionT(Factor(m, n), n, v)
    ensures SolvesJob(m, x, v, job)
    ensures forall z: Vec | SolvesJob(m, z, v, job) :: z == x
  {
    hide Factor, Solution, SolutionT, Solves, SolvesTransposed, Pivots;
    if job == 0 {
      SolutionIsUnique(m, n, v);
    } else {
      TransposedSolutionIsUnique(m, n, v);
    }
  }

  /** What dgefa_ leaves is what dgesl_ expects. */
  lemma {:induction false} StoredAfterFactor(m: Mat, buf: Vec, lda: nat, n: nat, ip: seq<int>)
    requires Square(m, n) && Layout(|buf|, lda, n) && n <= |ip| && Columns(buf, lda, n) == Factor(m, n).m
    requires forall k | 0 <= k < n - 1 :: ip[k] == Factor(m, n).piv[k] + 1
    ensures PivotVector(ip, n) && Stored(buf, lda, n, ip) == Factor(m, n)
  {
    hide Factor, Columns, Start;
    assert PivotVector(ip, n);
    assert Stored(buf, lda, n, ip).piv == Factor(m, n).piv;
  }

  /** The whole benchmark. With info = 0 the computed solution is exactly the vector of ones and the
      residual is exactly zero. Otherwise dgesl_ divides zero by zero in row info, because the system
      has the vector of ones as a solution all the same. */
  method Run(a: array<real>, lda: nat, n: nat, b: array<real>, x: array<real>, ipvt: array<int>, eps: real)
    returns (info: int, residn: real)
    requires Layout(a.Length, lda, n) && n <= b.Length && n <= x.Length && n <= ipvt.Length
    requires a != b && a != x && b != x && eps > 0.0
    modifies a, b, x, ipvt
    ensures info == 0 <==> Nonsingular(TestMatrix(n), n)
    ensures info == 0 ==> x[..n] == Ones(n) && residn == 0.0
    ensures info == 0 ==> forall i | 0 <= i < n :: b[i] == 0.0
    ensures info != 0 ==> ZeroOverZero(Factor(TestMatrix(n), n), n, info, b[..n])
  {
    hide *;
    LayoutNonempty(a.Length, lda, n);
    var norma := Matgen.Matgen(a, lda, n, b);
    ghost var v := b[..n];
    OnesSolve(TestMatrix(n), n);
    var stop;
    info, stop := FactorAndSolve(a, lda, n, ipvt, b, 0);
    residn := 0.0;
    if info == 0 {
      JobZero(TestMatrix(n), Ones(n), MulVec(TestMatrix(n), Ones(n)));
      CopyVector(b, x, n);
      assert x[..n] == Ones(n);
      norma := Residual(a, lda, n, b, x);
      var resid, normx := Norms(b, x, n);
      NormsOfSolution(b[..], x[..], n, resid, normx);
      NormaRange(n, norma);
      residn := Normalized(resid, n, norma, normx, eps);
    } else {
      SingularRun(TestMatrix(n), n, v, stop, b[..n]);
    }
  }

  /** Row info of the stored factor has a zero on the diagonal, and the entry of b to be divided by
      it is zero, too. */
  predicate ZeroOverZero(f: Factors, n: nat, info: int, x: Vec) {
    Square(f.m, n) && 1 <= info <= n == |x| && f.m[info - 1][info - 1] == 0.0 && x[info - 1] == 0.0
  }

  lemma {:induction false} SingularRun(m: Mat, n: nat, v: Vec, stop: nat, x: Vec)
    requires Square(m, n) && n >= 1 && v == MulVec(m, Ones(n)) && Solves(m, Ones(n), v)
    requires stop != 0 && Outcome(Factor(m, n), n, 0, v, stop, x)
    ensures ZeroOverZero(Factor(m, n), n, stop, x)
  {
    hide Factor, MulVec, Ones, BackTo, Forward;
    SolvableStopsAtZeroOverZero(m, n, v, Ones(n));
  }

  lemma {:induction false} JobZero(m: Mat, x: Vec, b: Vec)
    requires Solves(m, x, b)
    ensures SolvesJob(m, x, b, 0)
  {
  }

  lemma {:induction false} OnesSolve(m: Mat, n: nat)
    requires Square(m, n)
    ensures |Ones(n)| == n && Solves(m, Ones(n), MulVec(m, Ones(n)))
  {
  }

  lemma {:induction false} NormsOfSolution(b: Vec, x: Vec, n: nat, resid: real, normx: real)
    requires n >= 1 && MaxNorm(b, n, resid) && MaxNorm(x, n, normx) && x[..n] == Ones(n)
    requires forall i | 0 <= i < n :: b[i] == 0.0
    ensures resid == 0.0 && normx == 1.0
  {
    assert x[..n][0] == 1.0 && x[..n][0] == x[0];
    assert forall i | 0 <= i < n :: x[i] == x[..n][i] == 1.0;
  }

  /** resid / (n * norma * normx * eps) */
  method Normalized(resid: real, n: nat, norma: real, normx: real, eps: real) returns (r: real)
    requires n >= 1 && norma > 0.0 && normx > 0.0 && eps > 0.0
    ensures Mul(r, n as real * norma * normx * eps) == resid
    ensures resid == 0.0 ==> r == 0.0
  {
    PositiveProduct(n as real, norma);
    PositiveProduct(n as real * norma, normx);
    PositiveProduct(n as real * norma * normx, eps);
    r := resid / (n as real * norma * normx * eps);
  }
}
