/** dgesl_ of performance/linpack-benchmark.cpp: the solver that replays the factorization on a
    right-hand side, for the system itself (job = 0) and for the transposed one. */
module Dgesl {
  import opened Reals
  import opened Matrices
  import opened Elimination
  import opened Storage
  import opened Blas
  import opened Dgefa
  import opened Solving
  import opened Transposed

  /** ipvt[0..n-1] holds 1-based pivot rows at or below the diagonal. */
  predicate PivotVector(ip: seq<int>, n: nat) {
    1 <= n <= |ip| && forall k | 0 <= k < n - 1 :: k + 1 <= ip[k] <= n
  }

  /** The factor data stored in the buffer and in ipvt. */
  function Stored(buf: Vec, lda: nat, n: nat, ip: seq<int>): (f: Factors)
    requires Layout(|buf|, lda, n) && PivotVector(ip, n)
    ensures f.m == Columns(buf, lda, n) && |f.piv| == n - 1
    ensures Stages(f.m[..n - 1], f.piv, n)
  {
    Factors(Columns(buf, lda, n), seq(n - 1, k requires 0 <= k < n - 1 => (ip[k] - 1) as nat))
  }

  /** stop is the 1-based position of the first zero on the diagonal, or 0 if there is none. */
  predicate FirstDivision(m: Mat, n: nat, stop: nat)
    requires Square(m, n)
  {
    if stop == 0 then Pivots(m, n, n) else stop <= n && Pivots(m, n, stop - 1) && m[stop - 1][stop - 1] == 0.0
  }

  /** What dgesl_ makes of the right-hand side v: with stop = 0 the solution that the factors give,
      otherwise the vector as it stands when row stop is to be divided by the zero on its diagonal. */
  predicate Outcome(f: Factors, n: nat, job: int, v: Vec, stop: nat, x: Vec) {
    && n >= 1 && Square(f.m, n) && |v| == n && Stages(f.m[..n - 1], f.piv, n)
    && (if job == 0 then stop == LastZero(f.m, n, n) else FirstDivision(f.m, n, stop))
    && x == if stop == 0 then (if job == 0 then Solution(f, n, v) else SolutionT(f, n, v))
            else if job == 0 then BackTo(f.m, n, stop, Forward(f.m[..n - 1], f.piv, v))
            else ForwardSub(f.m, n, stop - 1, v)
  }

  // ------------------------------------------------- job = 0

  lemma {:induction false} ForwardStepSpec(cs: seq<Vec>, ps: seq<nat>, k: nat, v: Vec)
    requires k < |cs| && Stages(cs, ps, |v|)
    ensures Forward(cs[..k + 1], ps[..k + 1], v) == Stage(Forward(cs[..k], ps[..k], v), cs[k], k, ps[k])
  {
    assert cs[..k + 1][..k] == cs[..k] && ps[..k + 1][..k] == ps[..k];
  }

  /** One step of the first loop: the stage with pivot row l applied to b. */
  method StageStep(a: array<real>, lda: nat, n: nat, b: array<real>, k: nat, l: nat)
    requires Layout(a.Length, lda, n) && n <= b.Length && k < n && l < n && a != b
    modifies b
    ensures b[..n] == Stage(old(b[..n]), Column(a[..], lda, n, k), k, l)
    ensures b[n..] == old(b[n..])
  {
    ColumnFits(a.Length, lda, n, k);
    var m := Start(lda, k);
    ghost var z, v, mult := a[..], b[..], Column(a[..], lda, n, k);
    ghost var s := Swap(v[..n], k, l);
    assert s[k] == v[l] && mult == z[m..m + n];
    hide Start, Mul, Eliminate, Swap, Layout, Column;
    var t := b[l];
    Interchange(b, 0, n, k, l);
    ghost var x := b[..];
    assert v[0..n] == v[..n] && x[0..n] == s && x[n..] == v[n..];
    AddMultiplesTo(a, m, b, k, n, t, s, mult);
  }

  /** The daxpy_ call of the first loop: t times the multipliers added below row k of b. */
  method AddMultiplesTo(a: array<real>, m: nat, b: array<real>, k: nat, n: nat, t: real, ghost s: Vec, ghost mult: Vec)
    requires k < n && m + n <= a.Length && n <= b.Length && a != b && |s| == n && |mult| == n && t == s[k]
    requires b[0..n] == s && a[m..m + n] == mult
    modifies b
    ensures b[..n] == Eliminate(s, mult, k)
    ensures b[n..] == old(b[n..])
  {
    hide Mul, Eliminate, Axpy, Within;
    ghost var z, x := a[..], b[..];
    AxpyColumn(z, x, m, 0, k, n, t, s, mult);
    Daxpy(n - k - 1, t, a, m + k + 1, 1, b, k + 1, 1);
    ghost var y := b[..];
    assert y == if n - k - 1 <= 0 then x else Axpy(n - k - 1, n - k - 1, t, z, m + k + 1, 1, x, 0 + k + 1, 1);
    assert y[0..n] == Eliminate(s, mult, k) && y[n..] == x[n..];
  }

  /** cs and ps are the multiplier columns and the 0-based pivot rows in the buffer and in ipvt. */
  predicate StoredStages(cs: seq<Vec>, ps: seq<nat>, buf: Vec, lda: nat, n: nat, ip: seq<int>) {
    && Layout(|buf|, lda, n) && |cs| == |ps| == n - 1 <= |ip| && Stages(cs, ps, n)
    && forall k | 0 <= k < n - 1 :: cs[k] == Column(buf, lda, n, k) && ps[k] == ip[k] - 1 < n
  }

  lemma {:induction false} StagesOfFactors(buf: Vec, lda: nat, n: nat, ip: seq<int>)
    requires Layout(|buf|, lda, n) && PivotVector(ip, n)
    ensures var f := Stored(buf, lda, n, ip);
            n >= 1 && |f.m| == n && StoredStages(f.m[..n - 1], f.piv, buf, lda, n, ip)
  {
    hide Column;
  }

  lemma {:induction false} StoredStageAt(cs: seq<Vec>, ps: seq<nat>, buf: Vec, lda: nat, n: nat, ip: seq<int>, k: nat)
    requires StoredStages(cs, ps, buf, lda, n, ip) && k < n - 1
    ensures Layout(|buf|, lda, n) && |cs| == |ps| == n - 1 <= |ip| && 0 <= ip[k] - 1 < n
    ensures cs[k] == Column(buf, lda, n, k) && ps[k] == ip[k] - 1
  {
    hide Column;
  }

  lemma {:induction false} ForwardStart(cs: seq<Vec>, ps: seq<nat>, v: Vec)
    requires Stages(cs, ps, |v|)
    ensures Stages(cs[..0], ps[..0], |v|) && Forward(cs[..0], ps[..0], v) == v
    ensures forall k | 0 <= k <= |cs| :: |cs| == |ps| && Stages(cs[..k], ps[..k], |v|)
  {
  }

  /** The first loop of job = 0. */
  method ForwardLoop(a: array<real>, lda: nat, n: nat, ipvt: array<int>, b: array<real>)
    requires Layout(a.Length, lda, n) && PivotVector(ipvt[..], n) && n <= b.Length && a != b
    modifies b
    ensures var f := Stored(a[..], lda, n, ipvt[..]);
            b[..n] == Forward(f.m[..n - 1], f.piv, old(b[..n]))
    ensures b[n..] == old(b[n..])
  {
    hide *;
    StagesOfFactors(a[..], lda, n, ipvt[..]);
    ReplayStages(a, lda, n, ipvt, b, Stored(a[..], lda, n, ipvt[..]).m[..n - 1], Stored(a[..], lda, n, ipvt[..]).piv);
  }

  method ReplayStages(a: array<real>, lda: nat, n: nat, ipvt: array<int>, b: array<real>, ghost cs: seq<Vec>, ghost ps: seq<nat>)
    requires StoredStages(cs, ps, a[..], lda, n, ipvt[..]) && n <= b.Length && a != b
    requires n >= 1 && |cs| == |ps| == n - 1 && Stages(cs, ps, n)
    modifies b
    ensures b[..n] == Forward(cs, ps, old(b[..n]))
    ensures b[n..] == old(b[n..])
  {
    hide *;
    ghost var v := b[..n];
    ForwardStart(cs, ps, v);
    var k := 0;
    while k < n - 1
      invariant 0 <= k <= n - 1
      invariant b[..n] == Forward(cs[..k], ps[..k], v)
      invariant b[n..] == old(b[n..])
    {
      StoredStageAt(cs, ps, a[..], lda, n, ipvt[..], k);
      var l := ipvt[k] - 1;
      ForwardStepSpec(cs, ps, k, v);
      StageStep(a, lda, n, b, k, l);
      k := k + 1;
    }
    assert cs[..n - 1] == cs && ps[..n - 1] == ps;
  }

  /** One step of the second loop: divide, then subtract the multiple of the column above. */
  method BackStepInPlace(a: array<real>, lda: nat, n: nat, b: array<real>, k: nat)
    requires Layout(a.Length, lda, n) && n <= b.Length && k < n && a != b
    requires Columns(a[..], lda, n)[k][k] != 0.0
    modifies b
    ensures b[..n] == BackStep(Columns(a[..], lda, n), n, k, old(b[..n]))
    ensures b[n..] == old(b[n..])
  {
    ColumnFits(a.Length, lda, n, k);
    var m := Start(lda, k);
    ghost var z, v, c := a[..], b[..], Column(a[..], lda, n, k);
    assert c == z[m..m + n] && c[k] == a[m + k];
    hide Start, Axpy, Within, Mul;
    b[k] := b[k] / a[m + k];
    var t := -b[k];
    ghost var x := b[..];
    AxpyIsBackStep(z, m, c, x, t, n, k);
    Daxpy(k, t, a, m, 1, b, 0, 1);
    ghost var y := b[..];
    forall i | 0 <= i < n ensures y[i] == BackStep(Columns(z, lda, n), n, k, v[..n])[i] {
      assert y[i] == if i < k then x[i] + Mul(t, c[i]) else x[i];
    }
    assert y[n..] == v[n..];
  }

  /** daxpy_ from the column c = z[m..m+n] into the first k entries of x. */
  lemma {:induction false} AxpyIsBackStep(z: Vec, m: nat, c: Vec, x: Vec, t: real, n: nat, k: nat)
    requires m + n <= |z| && c == z[m..m + n] && k < n <= |x|
    ensures Within(|z|, m, 1, k) && Within(|x|, 0, 1, k)
    ensures var y := Axpy(k, k, t, z, m, 1, x, 0, 1);
            forall i | 0 <= i < |x| :: y[i] == if i < k then x[i] + Mul(t, c[i]) else x[i]
  {
    hide Axpy, Mul;
    UnitWithin(|z|, m, k);
    UnitWithin(|x|, 0, k);
    AxpyUnit(k, k, t, z, m, x, 0);
  }

  /** The second loop. It comes to a division by zero in the last row with a zero on the diagonal. */
  method BackLoop(a: array<real>, lda: nat, n: nat, b: array<real>) returns (stop: nat)
    requires Layout(a.Length, lda, n) && n <= b.Length && a != b
    modifies b
    ensures stop == LastZero(Columns(a[..], lda, n), n, n)
    ensures b[..n] == BackTo(Columns(a[..], lda, n), n, stop, old(b[..n]))
    ensures b[n..] == old(b[n..])
  {
    ghost var m, v := Columns(a[..], lda, n), b[..n];
    var k := n;
    hide Layout, BackStep, Column, Columns;
    while k > 0
      invariant 0 <= k <= n && LastZero(m, n, n) == LastZero(m, n, k)
      invariant b[..n] == BackTo(m, n, k, v)
      invariant b[n..] == old(b[n..])
    {
      k := k - 1;
      var d := DiagonalEntry(a, lda, n, k);
      if d == 0.0 {
        return k + 1;
      }
      BackStepInPlace(a, lda, n, b, k);
    }
    stop := 0;
  }

  method DiagonalEntry(a: array<real>, lda: nat, n: nat, k: nat) returns (d: real)
    requires Layout(a.Length, lda, n) && k < n
    ensures d == Columns(a[..], lda, n)[k][k]
  {
    ColumnFits(a.Length, lda, n, k);
    d := a[k + k * lda];
    assert d == Column(a[..], lda, n, k)[k];
  }

  // ------------------------------------------------- job != 0

  /** ddot_ of a stretch of column k with the same stretch of b. */
  method ColumnDot(a: array<real>, lda: nat, n: nat, b: array<real>, k: nat, lo: nat, hi: nat) returns (t: real)
    requires Layout(a.Length, lda, n) && n <= b.Length && k < n && lo <= hi <= n
    ensures t == Dot(Column(a[..], lda, n, k), b[..n], lo, hi)
  {
    ColumnFits(a.Length, lda, n, k);
    var m := Start(lda, k);
    ghost var z, v, c := a[..], b[..], Column(a[..], lda, n, k);
    hide Start, Mul;
    UnitWithin(|z|, m + lo, hi - lo);
    UnitWithin(|v|, lo, hi - lo);
    t := Ddot(hi - lo, a, m + lo, 1, b, lo, 1);
    DotUnit(hi - lo, hi - lo, z, m + lo, v, lo);
    hide Within, StridedDot;
    DotShift(z[m + lo..m + lo + (hi - lo)], v[lo..lo + (hi - lo)], c, v[..n], lo, hi);
  }

  lemma {:induction false} DotShift(u: Vec, v: Vec, u': Vec, v': Vec, lo: nat, hi: nat)
    requires lo <= hi <= |u'| && hi <= |v'| && |u| == |v| == hi - lo
    requires forall i | 0 <= i < |u| :: u[i] == u'[lo + i] && v[i] == v'[lo + i]
    ensures Dot(u, v, 0, |u|) == Dot(u', v', lo, hi)
  {
    hide Mul;
    if lo < hi {
      var r := |u| - 1;
      DotShift(u[..r], v[..r], u', v', lo, hi - 1);
      DotCongruent(u[..r], v[..r], u, v, 0, r);
    }
  }

  /** One step of the third loop: the next unknown of the transposed triangular system. */
  method ForwardSubStep(a: array<real>, lda: nat, n: nat, b: array<real>, k: nat)
    requires Layout(a.Length, lda, n) && n <= b.Length && k < n && a != b
    requires Columns(a[..], lda, n)[k][k] != 0.0
    modifies b
    ensures var c, y := Column(a[..], lda, n, k), old(b[..n]);
            b[..n] == y[k := (y[k] - Dot(c, y, 0, k)) / c[k]]
    ensures b[n..] == old(b[n..])
  {
    hide Dot;
    ColumnFits(a.Length, lda, n, k);
    assert Column(a[..], lda, n, k)[k] == a[k + k * lda];
    hide Column, Layout;
    var t := ColumnDot(a, lda, n, b, k, 0, k);
    b[k] := (b[k] - t) / a[k + k * lda];
  }

  /** The third loop. It comes to a division by zero in the first row with a zero on the diagonal. */
  method ForwardSubLoop(a: array<real>, lda: nat, n: nat, b: array<real>) returns (stop: nat)
    requires Layout(a.Length, lda, n) && n <= b.Length && a != b
    modifies b
    ensures FirstDivision(Columns(a[..], lda, n), n, stop)
    ensures b[..n] == ForwardSub(Columns(a[..], lda, n), n, if stop == 0 then n else stop - 1, old(b[..n]))
    ensures b[n..] == old(b[n..])
  {
    hide *;
    ghost var m, v := Columns(a[..], lda, n), b[..n];
    ForwardSubStart(m, n, v);
    var k := 0;
    while k < n
      invariant 0 <= k <= n && Pivots(m, n, k)
      invariant b[..n] == ForwardSub(m, n, k, v)
      invariant b[n..] == old(b[n..])
    {
      var d := DiagonalEntry(a, lda, n, k);
      if d == 0.0 {
        FirstZeroFound(m, n, k);
        return k + 1;
      }
      ForwardSubNext(m, n, k, v);
      ColumnOf(a[..], lda, n, k);
      ForwardSubStep(a, lda, n, b, k);
      k := k + 1;
    }
    NoZeroFound(m, n);
    stop := 0;
  }

  lemma {:induction false} ColumnOf(buf: Vec, lda: nat, n: nat, k: nat)
    requires Layout(|buf|, lda, n) && k < n
    ensures Columns(buf, lda, n)[k] == Column(buf, lda, n, k)
  {
    hide Column;
  }

  lemma {:induction false} FirstZeroFound(m: Mat, n: nat, k: nat)
    requires Square(m, n) && k < n && Pivots(m, n, k) && m[k][k] == 0.0
    ensures FirstDivision(m, n, k + 1)
  {
  }

  lemma {:induction false} NoZeroFound(m: Mat, n: nat)
    requires Square(m, n) && Pivots(m, n, n)
    ensures FirstDivision(m, n, 0)
  {
  }

  lemma {:induction false} ForwardSubStart(m: Mat, n: nat, v: Vec)
    requires Square(m, n) && |v| == n
    ensures Pivots(m, n, 0) && ForwardSub(m, n, 0, v) == v
  {
  }

  lemma {:induction false} ForwardSubNext(m: Mat, n: nat, k: nat, v: Vec)
    requires Square(m, n) && |v| == n && k < n && Pivots(m, n, k) && m[k][k] != 0.0
    ensures Pivots(m, n, k + 1)
    ensures var y := ForwardSub(m, n, k, v);
            ForwardSub(m, n, k + 1, v) == y[k := (y[k] - Dot(m[k], y, 0, k)) / m[k][k]]
  {
    hide Dot;
  }

  /** One step of the last loop: collect the multiples, then interchange. */
  method StageTStep(a: array<real>, lda: nat, n: nat, b: array<real>, k: nat, l: nat)
    requires Layout(a.Length, lda, n) && n <= b.Length && k < n && l < n && a != b
    modifies b
    ensures b[..n] == StageT(old(b[..n]), Column(a[..], lda, n, k), k, l)
    ensures b[n..] == old(b[n..])
  {
    hide Dot, Column, Layout;
    ghost var v := b[..n];
    var t := ColumnDot(a, lda, n, b, k, k + 1, n);
    b[k] := b[k] + t;
    if l != k {
      t := b[l];
      b[l] := b[k];
      b[k] := t;
    }
  }

  lemma {:induction false} BackwardStepSpec(cs: seq<Vec>, ps: seq<nat>, k: nat, v: Vec)
    requires k < |cs| && Stages(cs, ps, |v|)
    ensures Backward(cs[..k + 1], ps[..k + 1], v) == Backward(cs[..k], ps[..k], StageT(v, cs[k], k, ps[k]))
  {
    assert cs[..k + 1][..k] == cs[..k] && ps[..k + 1][..k] == ps[..k];
  }

  lemma {:induction false} BackwardEnd(v: Vec)
    ensures forall cs: seq<Vec>, ps: seq<nat> | |cs| == |ps| == 0 :: Backward(cs, ps, v) == v
  {
  }

  method BackwardLoop(a: array<real>, lda: nat, n: nat, ipvt: array<int>, b: array<real>)
    requires Layout(a.Length, lda, n) && PivotVector(ipvt[..], n) && n <= b.Length && a != b
    modifies b
    ensures var f := Stored(a[..], lda, n, ipvt[..]);
            b[..n] == Backward(f.m[..n - 1], f.piv, old(b[..n]))
    ensures b[n..] == old(b[n..])
  {
    hide *;
    StagesOfFactors(a[..], lda, n, ipvt[..]);
    ReplayBackward(a, lda, n, ipvt, b, Stored(a[..], lda, n, ipvt[..]).m[..n - 1], Stored(a[..], lda, n, ipvt[..]).piv);
  }

  method ReplayBackward(a: array<real>, lda: nat, n: nat, ipvt: array<int>, b: array<real>, ghost cs: seq<Vec>, ghost ps: seq<nat>)
    requires StoredStages(cs, ps, a[..], lda, n, ipvt[..]) && n <= b.Length && a != b
    requires n >= 1 && |cs| == |ps| == n - 1 && Stages(cs, ps, n)
    modifies b
    ensures b[..n] == Backward(cs, ps, old(b[..n]))
    ensures b[n..] == old(b[n..])
  {
    hide *;
    ghost var x := Backward(cs, ps, b[..n]);
    ForwardStart(cs, ps, b[..n]);
    var k := n - 1;
    assert cs[..k] == cs && ps[..k] == ps;
    while k > 0
      invariant 0 <= k <= n - 1
      invariant Backward(cs[..k], ps[..k], b[..n]) == x
      invariant b[n..] == old(b[n..])
    {
      k := k - 1;
      BackwardStepSpec(cs, ps, k, b[..n]);
      StoredStageAt(cs, ps, a[..], lda, n, ipvt[..], k);
      var l := ipvt[k] - 1;
      StageTStep(a, lda, n, b, k, l);
    }
    BackwardEnd(b[..n]);
  }

  /** b := the solution that the stored factors give for the right-hand side b. A zero on the
      diagonal ends the model at the division by it. */
  method Dgesl(a: array<real>, lda: nat, n: nat, ipvt: array<int>, b: array<real>, job: int) returns (stop: nat)
    requires Layout(a.Length, lda, n) && PivotVector(ipvt[..], n) && n <= b.Length && a != b
    modifies b
    ensures Outcome(Stored(a[..], lda, n, ipvt[..]), n, job, old(b[..n]), stop, b[..n])
    ensures b[n..] == old(b[n..])
  {
    ghost var f, v := Stored(a[..], lda, n, ipvt[..]), b[..n];
    hide Layout, PivotVector, Stored, Columns, Forward, Backward, BackSub, BackTo, ForwardSub;
    if job == 0 {
      ForwardLoop(a, lda, n, ipvt, b);
      ghost var y := b[..n];
      stop := BackLoop(a, lda, n, b);
      if stop == 0 {
        BackToZero(f.m, n, y);
      }
    } else {
      stop := ForwardSubLoop(a, lda, n, b);
      if stop == 0 {
        BackwardLoop(a, lda, n, ipvt, b);
      }
    }
  }

  lemma {:induction false} BackToZero(m: Mat, n: nat, y: Vec)
    requires Square(m, n) && |y| == n && LastZero(m, n, n) == 0
    ensures Pivots(m, n, n) && BackTo(m, n, 0, y) == BackSub(m, n, n, y)
  {
    BackToContinues(m, n, 0, y);
    hide BackTo;
  }
}
