/** dgefa_ of performance/linpack-benchmark.cpp: Gaussian elimination with partial pivoting in place. */
module Dgefa {
  import opened Reals
  import opened Matrices
  import opened Elimination
  import opened Storage
  import opened Blas

  /** Pivot search below and including the diagonal of column k. */
  method FindPivot(a: array<real>, lda: nat, n: nat, k: nat) returns (l: nat)
    requires Layout(a.Length, lda, n) && k < n
    ensures l == Pivot(Column(a[..], lda, n, k), k)
  {
    ColumnFits(a.Length, lda, n, k);
    ghost var c := Column(a[..], lda, n, k);
    var o := Start(lda, k);
    assert a[o..o + n] == c;
    hide Start, IsPivot;
    var r := Idamax(n - k, a, o + k, 1);
    l := r + k - 1;
    TailPivot(Picked(a[..], o + k, 1, n - k), c, k, r - 1);
    PivotIsUnique(c, k, l);
  }

  /** A pivot of the tail of a column is a pivot of the column. */
  lemma {:induction false} TailPivot(v: Vec, c: Vec, k: nat, p: nat)
    requires k + |v| == |c| && IsPivot(v, 0, p) && forall i | 0 <= i < |v| :: v[i] == c[k + i]
    ensures IsPivot(c, k, k + p)
  {
    hide Abs;
    forall i | k <= i < |c| ensures Abs(c[i]) <= Abs(c[k + p]) && (i < k + p ==> Abs(c[i]) < Abs(c[k + p])) {
      assert c[i] == v[i - k];
    }
  }

  lemma {:induction false} PivotIsUnique(c: Vec, k: nat, l: nat)
    requires k < |c| && IsPivot(c, k, l)
    ensures l == Pivot(c, k)
  {
    var p := Pivot(c, k);
    assert IsPivot(c, k, p);
    var x, y := Abs(c[l]), Abs(c[p]);
    assert p < l ==> y < x;
    assert l < p ==> x < y;
  }

  /** Exchange of rows k and l of the column that starts at o. */
  method Interchange(a: array<real>, o: nat, n: nat, k: nat, l: nat)
    requires o + n <= a.Length && k < n && l < n
    modifies a
    ensures a[o..o + n] == Swap(old(a[o..o + n]), k, l)
    ensures forall p | 0 <= p < a.Length && !(o <= p < o + n) :: a[p] == old(a[p])
  {
    if l != k {
      var t := a[o + l];
      a[o + l] := a[o + k];
      a[o + k] := t;
    }
  }

  /** Interchange in the pivot column and computation of the multipliers. */
  method PivotColumn(a: array<real>, lda: nat, n: nat, k: nat, l: nat)
    requires Layout(a.Length, lda, n) && k < n && k <= l < n
    requires Column(a[..], lda, n, k)[l] != 0.0
    modifies a
    ensures OnlyColumn(old(a[..]), a[..], lda, n, k)
    ensures Column(a[..], lda, n, k) == Multipliers(Swap(old(Column(a[..], lda, n, k)), k, l), k)
  {
    ColumnFits(a.Length, lda, n, k);
    var o := Start(lda, k);
    ghost var c, w := Column(a[..], lda, n, k), a[..];
    ghost var s := Swap(c, k, l);
    assert s[k] == c[l] && c == a[o..o + n];
    hide Start, Mul, Multipliers, Swap;
    Interchange(a, o, n, k, l);
    ghost var x := a[..];
    assert x[o..o + n] == s;
    assert forall p | 0 <= p < |x| && !(o <= p < o + n) :: x[p] == w[p];
    ScaleTail(a, o, k, n, s);
  }

  /** The multipliers: the entries below row k times -1 / a(k, k). */
  method ScaleTail(a: array<real>, o: nat, k: nat, n: nat, ghost s: Vec)
    requires k < n && o + n <= a.Length && |s| == n && s[k] != 0.0
    requires a[o..o + n] == s
    modifies a
    ensures a[o..o + n] == Multipliers(s, k)
    ensures forall p | 0 <= p < a.Length && !(o <= p < o + n) :: a[p] == old(a[p])
  {
    hide Mul, Scaled, Strided, Multipliers;
    ghost var x := a[..];
    assert x[o..o + n] == s && s[k] == a[o + k];
    var t := -1.0 / a[o + k];
    ScaledColumn(x, o, k, n, t, s);
    Dscal(n - k - 1, t, a, o + k + 1, 1);
    ghost var y := a[..];
    assert y == Scaled(n - k - 1, t, x, o + k + 1, 1);
    assert y[o..o + n] == Multipliers(s, k);
    assert forall p | 0 <= p < |x| && !(o <= p < o + n) :: y[p] == x[p];
  }

  lemma {:induction false} ScaledColumn(x: Vec, o: nat, k: nat, n: nat, t: real, s: Vec)
    requires k < n && o + n <= |x| && |s| == n && s[k] != 0.0 && t == -1.0 / s[k]
    requires x[o..o + n] == s
    ensures Strided(|x|, o + k + 1, 1, n - k - 1)
    ensures var y := Scaled(n - k - 1, t, x, o + k + 1, 1);
            && y[o..o + n] == Multipliers(s, k)
            && forall p | 0 <= p < |x| && !(o <= p < o + n) :: y[p] == x[p]
  {
    hide Mul;
    ScaledUnit(n - k - 1, t, x, o + k + 1);
    var y := Scaled(n - k - 1, t, x, o + k + 1, 1);
    hide Scaled, Strided;
    forall i | 0 <= i < n ensures y[o + i] == Multipliers(s, k)[i] {
      assert x[o + i] == s[i];
    }
  }

  /** Interchange and elimination in column j. */
  method EliminateColumn(a: array<real>, lda: nat, n: nat, k: nat, l: nat, j: nat)
    requires Layout(a.Length, lda, n) && k < j < n && k <= l < n
    modifies a
    ensures OnlyColumn(old(a[..]), a[..], lda, n, j)
    ensures Column(a[..], lda, n, j)
            == Stage(old(Column(a[..], lda, n, j)), old(Column(a[..], lda, n, k)), k, l)
  {
    ColumnFits(a.Length, lda, n, k);
    ColumnFits(a.Length, lda, n, j);
    ColumnsApart(lda, k, j);
    var o, m := Start(lda, j), Start(lda, k);
    ghost var c, mult, w := Column(a[..], lda, n, j), Column(a[..], lda, n, k), a[..];
    ghost var s := Swap(c, k, l);
    assert s[k] == c[l] && c == w[o..o + n] && mult == w[m..m + n];
    hide Start, Mul, Eliminate, Swap;
    var t := a[o + l];
    Interchange(a, o, n, k, l);
    ghost var x := a[..];
    assert x[o..o + n] == s;
    assert forall p | 0 <= p < |x| && !(o <= p < o + n) :: x[p] == w[p];
    assert x[m..m + n] == mult;
    AddMultiples(a, m, o, k, n, t, s, mult);
  }

  /** The daxpy_ call of the elimination loop: t times the multipliers added below row k. */
  method AddMultiples(a: array<real>, m: nat, o: nat, k: nat, n: nat, t: real, ghost s: Vec, ghost mult: Vec)
    requires k < n && m + n <= o && o + n <= a.Length && |s| == n && |mult| == n && t == s[k]
    requires a[o..o + n] == s && a[m..m + n] == mult
    modifies a
    ensures a[o..o + n] == Eliminate(s, mult, k)
    ensures forall p | 0 <= p < a.Length && !(o <= p < o + n) :: a[p] == old(a[p])
  {
    hide Mul, Axpy, AxpyShared, ReadsOriginals, Within, Eliminate;
    ghost var x := a[..];
    AxpyColumn(x, x, m, o, k, n, t, s, mult);
    AxpySharedFresh(n - k - 1, n - k - 1, t, m + k + 1, 1, x, o + k + 1, 1);
    Daxpy(n - k - 1, t, a, m + k + 1, 1, a, o + k + 1, 1);
    ghost var y := a[..];
    assert y == if n - k - 1 <= 0 then x else Axpy(n - k - 1, n - k - 1, t, x, m + k + 1, 1, x, o + k + 1, 1);
    assert y[o..o + n] == Eliminate(s, mult, k);
    assert forall p | 0 <= p < |x| && !(o <= p < o + n) :: y[p] == x[p];
  }

  /** daxpy_ from the multipliers in z[m..m+n] into the vector s = x[o..o+n] is an elimination. */
  lemma {:induction false} AxpyColumn(z: Vec, x: Vec, m: nat, o: nat, k: nat, n: nat, t: real, s: Vec, mult: Vec)
    requires k < n && m + n <= |z| && o + n <= |x| && |s| == n && |mult| == n && t == s[k]
    requires x[o..o + n] == s && z[m..m + n] == mult
    ensures Within(|z|, m + k + 1, 1, n - k - 1) && Within(|x|, o + k + 1, 1, n - k - 1)
    ensures m + n <= o ==> ReadsOriginals(m + k + 1, 1, o + k + 1, 1, n - k - 1)
    ensures var y := if n - k - 1 <= 0 then x else Axpy(n - k - 1, n - k - 1, t, z, m + k + 1, 1, x, o + k + 1, 1);
            && y[o..o + n] == Eliminate(s, mult, k)
            && forall p | 0 <= p < |x| && !(o <= p < o + n) :: y[p] == x[p]
  {
    hide *;
    AxpyPlaces(|z|, |x|, m, o, k, n);
    var r := n - k - 1;
    if r == 0 {
      AxpyIsEliminate(z, x, x, m, o, k, n, s, mult, m + k + 1, o + k + 1, r);
    } else {
      AxpyUnit(r, r, t, z, m + k + 1, x, o + k + 1);
      AxpyIsEliminate(z, x, Axpy(r, r, t, z, m + k + 1, 1, x, o + k + 1, 1), m, o, k, n, s, mult, m + k + 1, o + k + 1, r);
    }
  }

  lemma {:induction false} AxpyPlaces(zl: nat, xl: nat, m: nat, o: nat, k: nat, n: nat)
    requires k < n && m + n <= zl && o + n <= xl
    ensures Within(zl, m + k + 1, 1, n - k - 1) && Within(xl, o + k + 1, 1, n - k - 1)
    ensures m + n <= o ==> ReadsOriginals(m + k + 1, 1, o + k + 1, 1, n - k - 1)
  {
    UnitWithin(zl, m + k + 1, n - k - 1);
    UnitWithin(xl, o + k + 1, n - k - 1);
  }

  lemma {:induction false} AxpyIsEliminate(z: Vec, x: Vec, y: Vec, m: nat, o: nat, k: nat, n: nat, s: Vec, mult: Vec,
                                           m1: nat, o1: nat, r: nat)
    requires k < n && m + n <= |z| && o + n <= |x| == |y| && |s| == n && |mult| == n
    requires x[o..o + n] == s && z[m..m + n] == mult && m1 == m + k + 1 && o1 == o + k + 1 && r == n - k - 1
    requires forall p {:trigger y[p]} | 0 <= p < |x| ::
               y[p] == if o1 <= p < o1 + r then x[p] + Mul(s[k], z[m1 + (p - o1)]) else x[p]
    ensures y[o..o + n] == Eliminate(s, mult, k)
    ensures forall p | 0 <= p < |x| && !(o <= p < o + n) :: y[p] == x[p]
  {
    hide Mul;
    forall i | 0 <= i < n ensures y[o + i] == Eliminate(s, mult, k)[i] {
      assert x[o + i] == s[i] && z[m + i] == mult[i];
      assert o1 <= o + i ==> m1 + (o + i - o1) == m + i;
    }
    forall p | 0 <= p < |x| && !(o <= p < o + n) ensures y[p] == x[p] {
      assert !(o1 <= p < o1 + r);
    }
  }

  /** The row elimination loop over the columns behind the pivot column. */
  method EliminateColumns(a: array<real>, lda: nat, n: nat, k: nat, l: nat)
    requires Layout(a.Length, lda, n) && k < n && k <= l < n
    modifies a
    ensures var m, r := old(Columns(a[..], lda, n)), Columns(a[..], lda, n);
            && (forall j | 0 <= j <= k :: r[j] == m[j])
            && (forall j | k < j < n :: r[j] == Stage(m[j], m[k], k, l))
    ensures SamePadding(old(a[..]), a[..], lda, n)
  {
    hide Stage, Layout;
    ghost var w, m := a[..], Columns(a[..], lda, n);
    var j := k + 1;
    while j < n
      invariant k < j <= n
      invariant forall i | 0 <= i < n && !(k < i < j) :: Column(a[..], lda, n, i) == m[i]
      invariant forall i | k < i < j :: Column(a[..], lda, n, i) == Stage(m[i], m[k], k, l)
      invariant SamePadding(w, a[..], lda, n)
    {
      ghost var x := a[..];
      EliminateColumn(a, lda, n, k, l, j);
      forall i | 0 <= i < n && i != j ensures Column(a[..], lda, n, i) == Column(x, lda, n, i) {
        OtherColumn(x, a[..], lda, n, j, i);
      }
      OnlyColumnKeepsPadding(w, x, a[..], lda, n, j);
      j := j + 1;
    }
  }

  /** One pass of the outer loop: pivot search, interchange, multipliers, row elimination.
      A zero pivot leaves the buffer alone. */
  method EliminationPass(a: array<real>, lda: nat, n: nat, k: nat) returns (l: nat, zeroPivot: bool)
    requires Layout(a.Length, lda, n) && k < n
    modifies a
    ensures Columns(a[..], lda, n) == Pass(old(Columns(a[..], lda, n)), n, k)
    ensures l == Pivot(old(Columns(a[..], lda, n))[k], k)
    ensures zeroPivot <==> old(Columns(a[..], lda, n))[k][l] == 0.0
    ensures SamePadding(old(a[..]), a[..], lda, n)
  {
    hide Stage, Multipliers, Pivot;
    ghost var w, m := a[..], Columns(a[..], lda, n);
    ColumnFits(a.Length, lda, n, k);
    l := FindPivot(a, lda, n, k);
    zeroPivot := a[l + k * lda] == 0.0;
    assert a[l + k * lda] == m[k][l];
    if zeroPivot {
      return;
    }
    PivotColumn(a, lda, n, k, l);
    ghost var x := a[..];
    forall i | 0 <= i < n && i != k ensures Column(x, lda, n, i) == m[i] {
      OtherColumn(w, x, lda, n, k, i);
    }
    OnlyColumnKeepsPadding(w, w, x, lda, n, k);
    EliminateColumns(a, lda, n, k, l);
    SamePaddingTransitive(w, x, a[..], lda, n);
    assert Columns(a[..], lda, n) == Pass(m, n, k);
  }

  lemma {:induction false} SamePaddingTransitive(x: Vec, y: Vec, z: Vec, lda: nat, n: nat)
    requires SamePadding(x, y, lda, n) && SamePadding(y, z, lda, n)
    ensures SamePadding(x, z, lda, n)
  {
    hide Padding;
  }

  lemma {:induction false} LastZeroPrefix(m: Mat, r: Mat, n: nat, k: nat)
    requires Square(m, n) && Square(r, n) && k <= n && r[..k] == m[..k]
    ensures LastZero(r, n, k) == LastZero(m, n, k)
  {
    if k > 0 {
      assert r[k - 1] == r[..k][k - 1] == m[..k][k - 1] == m[k - 1];
      assert r[..k - 1] == r[..k][..k - 1] == m[..k][..k - 1] == m[..k - 1];
      LastZeroPrefix(m, r, n, k - 1);
    }
  }

  /** A pass leaves a zero on the diagonal exactly when its pivot is zero. */
  lemma {:induction false} InfoStep(m: Mat, n: nat, k: nat)
    requires Square(m, n) && k < n
    ensures LastZero(Pass(m, n, k), n, k + 1) == if m[k][Pivot(m[k], k)] == 0.0 then k + 1 else LastZero(m, n, k)
  {
    var l := Pivot(m[k], k);
    LastZeroPrefix(m, Pass(m, n, k), n, k);
    if m[k][l] == 0.0 {
      ZeroPivotColumn(m[k], k);
    } else {
      assert Pass(m, n, k)[k][k] == m[k][l];
    }
  }

  lemma {:induction false} RunStep(a: Mat, n: nat, k: nat)
    requires Square(a, n) && k < n
    ensures var f := Run(a, n, k);
            Run(a, n, k + 1) == Factors(Pass(f.m, n, k), f.piv + [Pivot(f.m[k], k)])
  {
  }

  /** The final diagonal entry decides info after the loop. */
  method LastDiagonal(a: array<real>, lda: nat, n: nat, info: int) returns (r: int)
    requires Layout(a.Length, lda, n)
    requires info == LastZero(Columns(a[..], lda, n), n, n - 1)
    ensures r == LastZero(Columns(a[..], lda, n), n, n)
  {
    ColumnFits(a.Length, lda, n, n - 1);
    assert a[n - 1 + (n - 1) * lda] == Column(a[..], lda, n, n - 1)[n - 1];
    r := if a[n - 1 + (n - 1) * lda] == 0.0 then n else info;
  }

  /** What the outer loop of dgefa_ maintains: after k passes over m0 the buffer holds the matrix
      of Run, the first k pivot rows are stored 1-based, info is the last zero met so far, and
      neither the padding nor the pivot entries from n on have changed. */
  predicate PassState(m0: Mat, w: Vec, ip0: seq<int>, lda: nat, n: nat, k: nat, buf: Vec, ip: seq<int>, info: int) {
    && Layout(|buf|, lda, n) && k <= n <= |ip| && |ip| == |ip0| && Square(m0, n)
    && var f := Run(m0, n, k);
       && Columns(buf, lda, n) == f.m
       && (forall i | 0 <= i < k :: ip[i] == f.piv[i] + 1)
       && (forall i | n <= i < |ip| :: ip[i] == ip0[i])
       && info == LastZero(f.m, n, k)
       && SamePadding(w, buf, lda, n)
  }

  /** The loop body of dgefa_ with its bookkeeping. */
  method RecordedPass(a: array<real>, lda: nat, n: nat, k: nat, ipvt: array<int>, info: int,
                      ghost m0: Mat, ghost w: Vec, ghost ip0: seq<int>)
    returns (info': int)
    requires k < n && PassState(m0, w, ip0, lda, n, k, a[..], ipvt[..], info)
    modifies a, ipvt
    ensures PassState(m0, w, ip0, lda, n, k + 1, a[..], ipvt[..], info')
  {
    hide Pass, SamePadding, Pivot, LastZero, Run, Layout, Columns;
    ghost var f, x := Run(m0, n, k), a[..];
    RunStep(m0, n, k);
    InfoStep(f.m, n, k);
    var l, zeroPivot := EliminationPass(a, lda, n, k);
    SamePaddingTransitive(w, x, a[..], lda, n);
    ipvt[k] := l + 1;
    info' := if zeroPivot then k + 1 else info;
  }

  /** The outer loop of dgefa_: n - 1 passes. */
  method EliminationPasses(a: array<real>, lda: nat, n: nat, ipvt: array<int>, ghost m0: Mat) returns (info: int)
    requires Layout(a.Length, lda, n) && n <= ipvt.Length && m0 == Columns(a[..], lda, n)
    modifies a, ipvt
    ensures PassState(m0, old(a[..]), old(ipvt[..]), lda, n, n - 1, a[..], ipvt[..], info)
  {
    info := 0;
    var k := 0;
    ghost var w, ip0 := a[..], ipvt[..];
    assert PassState(m0, w, ip0, lda, n, 0, a[..], ipvt[..], info);
    assert n >= 1;
    hide *;
    while k < n - 1
      invariant 0 <= k <= n - 1
      invariant PassState(m0, w, ip0, lda, n, k, a[..], ipvt[..], info)
    {
      info := RecordedPass(a, lda, n, k, ipvt, info, m0, w, ip0);
      k := k + 1;
    }
  }

  /** Gaussian elimination with partial pivoting. The buffer ends up holding the factors, ipvt
      the 1-based pivot rows, info the 1-based position of the last zero on the diagonal of U. */
  method Dgefa(a: array<real>, lda: nat, n: nat, ipvt: array<int>) returns (info: int)
    requires Layout(a.Length, lda, n) && n <= ipvt.Length
    modifies a, ipvt
    ensures Columns(a[..], lda, n) == Factor(old(Columns(a[..], lda, n)), n).m
    ensures forall k | 0 <= k < n - 1 :: ipvt[k] == Factor(old(Columns(a[..], lda, n)), n).piv[k] + 1
    ensures ipvt[n - 1] == n
    ensures forall k | n <= k < ipvt.Length :: ipvt[k] == old(ipvt[k])
    ensures info == LastZero(Columns(a[..], lda, n), n, n)
    ensures SamePadding(old(a[..]), a[..], lda, n)
  {
    hide SamePadding, LastZero, Run, Columns;
    info := EliminationPasses(a, lda, n, ipvt, Columns(a[..], lda, n));
    ipvt[n - 1] := n;
    info := LastDiagonal(a, lda, n, info);
  }
}
