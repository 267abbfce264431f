/** What partial pivoting buys: multipliers of modulus at most one, and the bound on element growth. */
module Growth {
  import opened Reals
  import opened Matrices
  import opened Elimination
  import opened Residues

  lemma {:induction false} MultiplierAtMostOne(x: real, p: real)
    requires p != 0.0 && Abs(x) <= Abs(p)
    ensures Abs(Mul(-1.0 / p, x)) <= 1.0
  {
    assert (-1.0 / p) * x == -(x / p);
    if p > 0.0 {
      assert -1.0 <= x / p <= 1.0;
    } else {
      assert -1.0 <= x / p <= 1.0;
    }
  }

  lemma {:induction false} ScaleUnit(a: real, y: real)
    requires a >= 0.0 && -1.0 <= y <= 1.0
    ensures -a <= a * y <= a
  {
    assert a * (y + 1.0) >= 0.0;
    assert a * (1.0 - y) >= 0.0;
  }

  lemma {:induction false} ProductAtMost(x: real, y: real, c: real)
    requires Abs(x) <= c && Abs(y) <= 1.0
    ensures Abs(Mul(x, y)) <= c
  {
    ScaleUnit(Abs(x), y);
    assert Mul(x, y) == if x < 0.0 then -(Abs(x) * y) else Abs(x) * y;
  }

  lemma {:induction false} SumAtMostDoubles(x: real, y: real, t: real, c: real)
    requires Abs(x) <= c && Abs(y) <= c && Abs(t) <= 1.0
    ensures Abs(x + Mul(y, t)) <= 2.0 * c
  {
    ProductAtMost(y, t, c);
  }

  /** A stage whose multipliers are at most one leaves the rows before k alone, puts an old
      entry in row k and at most doubles the largest of the entries from k on. */
  lemma {:induction false} StageAtMostDoubles(v: Vec, mult: Vec, k: nat, l: nat, b: real)
    requires k < |v| == |mult| && k <= l < |v|
    requires forall i | k <= i < |v| :: Abs(v[i]) <= b
    requires forall i | k < i < |v| :: Abs(mult[i]) <= 1.0
    ensures forall i | 0 <= i < k :: Stage(v, mult, k, l)[i] == v[i]
    ensures Abs(Stage(v, mult, k, l)[k]) <= b
    ensures forall i | k < i < |v| :: Abs(Stage(v, mult, k, l)[i]) <= 2.0 * b
  {
    hide Abs, Mul;
    var s := Swap(v, k, l);
    assert forall i | k <= i < |v| :: Abs(s[i]) <= b;
    hide Swap;
    forall i | k < i < |v| ensures Abs(Stage(v, mult, k, l)[i]) <= 2.0 * b {
      SumAtMostDoubles(s[i], s[k], mult[i], b);
    }
  }

  /** Every multiplier stored in column k has modulus at most one. */
  lemma {:induction false} PassMultipliers(m: Mat, n: nat, k: nat)
    requires Square(m, n) && k < n
    ensures forall i | k < i < n :: Abs(Pass(m, n, k)[k][i]) <= 1.0
  {
    var l := Pivot(m[k], k);
    if m[k][l] == 0.0 {
      ZeroPivotColumn(m[k], k);
    } else {
      var s := Swap(m[k], k, l);
      hide Mul;
      forall i | k < i < n ensures Abs(Multipliers(s, k)[i]) <= 1.0 {
        assert IsPivot(m[k], k, l);
        assert s[k] == m[k][l] && s[i] == m[k][if i == l then k else i];
        MultiplierAtMostOne(s[i], s[k]);
      }
    }
  }

  /** The bound that k passes leave on row i: 2^min(i, k) times the largest entry of A. */
  function RowBound(i: nat, k: nat, c: real): real {
    Mul(Pow2(if i < k then i else k) as real, c)
  }

  lemma {:induction false} RowBoundStep(i: nat, k: nat, c: real)
    requires c >= 0.0
    ensures i <= k ==> RowBound(i, k + 1, c) == RowBound(i, k, c)
    ensures i > k ==> RowBound(i, k + 1, c) == 2.0 * RowBound(i, k, c) && RowBound(i, k, c) >= 0.0
  {
    if i > k {
      assert Pow2(k + 1) == 2 * Pow2(k);
      DoubleProduct(Pow2(k) as real, c);
    }
  }

  lemma {:induction false} DoubleProduct(p: real, c: real)
    requires p >= 0.0 && c >= 0.0
    ensures Mul(2.0 * p, c) == 2.0 * Mul(p, c) && Mul(p, c) >= 0.0
  {
    assert (2.0 * p) * c == 2.0 * (p * c);
  }

  /** Column j of the buffer after k passes is within bounds: on and above the diagonal once
      the column is finished, everywhere while it is not; finished multipliers are at most one. */
  predicate ColumnBounded(c: Vec, j: nat, k: nat, max: real) {
    && (forall i | 0 <= i < |c| && (i <= j || k <= j) :: Abs(c[i]) <= RowBound(i, k, max))
    && (j < k ==> forall i | j < i < |c| :: Abs(c[i]) <= 1.0)
  }

  lemma {:induction false} StageColumnBounded(v: Vec, mult: Vec, j: nat, k: nat, l: nat, max: real)
    requires k < |v| == |mult| && k <= l < |v| && k < j && max >= 0.0
    requires ColumnBounded(v, j, k, max)
    requires forall i | k < i < |v| :: Abs(mult[i]) <= 1.0
    ensures ColumnBounded(Stage(v, mult, k, l), j, k + 1, max)
  {
    hide Abs;
    var b := RowBound(k, k, max);
    forall i | k <= i < |v| ensures Abs(v[i]) <= b {
      assert RowBound(i, k, max) == b;
    }
    StageAtMostDoubles(v, mult, k, l, b);
    forall i | 0 <= i < |v| ensures Abs(Stage(v, mult, k, l)[i]) <= RowBound(i, k + 1, max) {
      RowBoundStep(i, k, max);
      assert i >= k ==> RowBound(i, k, max) == b;
    }
  }

  lemma {:induction false} PivotColumnBounded(c: Vec, k: nat, l: nat, max: real)
    requires k < |c| && k <= l < |c| && c[l] != 0.0 && max >= 0.0
    requires ColumnBounded(c, k, k, max)
    requires forall i | k < i < |c| :: Abs(Multipliers(Swap(c, k, l), k)[i]) <= 1.0
    ensures ColumnBounded(Multipliers(Swap(c, k, l), k), k, k + 1, max)
  {
    hide Abs, Mul;
    var w := Multipliers(Swap(c, k, l), k);
    forall i | 0 <= i <= k ensures Abs(w[i]) <= RowBound(i, k + 1, max) {
      RowBoundStep(i, k, max);
      assert w[i] == if i == k then c[l] else c[i];
      assert RowBound(l, k, max) == RowBound(k, k, max);
    }
  }

  lemma {:induction false} ZeroColumnBounded(c: Vec, j: nat, k: nat, max: real)
    requires k < |c| && k <= j && max >= 0.0 && ColumnBounded(c, j, k, max)
    requires j == k ==> forall i | k < i < |c| :: c[i] == 0.0
    ensures ColumnBounded(c, j, k + 1, max)
  {
    forall i | 0 <= i < |c| && (i <= j || k + 1 <= j) ensures Abs(c[i]) <= RowBound(i, k + 1, max) {
      hide Abs;
      RowBoundStep(i, k, max);
      assert Abs(c[i]) <= RowBound(i, k, max);
    }
  }

  lemma {:induction false} DoneColumnBounded(c: Vec, j: nat, k: nat, max: real)
    requires j < k && max >= 0.0 && ColumnBounded(c, j, k, max)
    ensures ColumnBounded(c, j, k + 1, max)
  {
    hide Abs;
    forall i | 0 <= i < |c| && i <= j ensures Abs(c[i]) <= RowBound(i, k + 1, max) {
      RowBoundStep(i, k, max);
    }
  }

  lemma {:induction false} PassBounded(m: Mat, n: nat, k: nat, j: nat, max: real)
    requires Square(m, n) && k < n && j < n && max >= 0.0
    requires ColumnBounded(m[j], j, k, max)
    ensures ColumnBounded(Pass(m, n, k)[j], j, k + 1, max)
  {
    hide Abs, ColumnBounded;
    var r, l := Pass(m, n, k), Pivot(m[k], k);
    PassMultipliers(m, n, k);
    if j < k {
      assert r[j] == r[..k][j] == m[..k][j];
      DoneColumnBounded(m[j], j, k, max);
    } else if m[k][l] == 0.0 {
      ZeroPivotColumn(m[k], k);
      ZeroColumnBounded(m[j], j, k, max);
    } else if j == k {
      PivotColumnBounded(m[k], k, l, max);
    } else {
      StageColumnBounded(m[j], r[k], j, k, l, max);
    }
  }

  lemma {:induction false} RunBounded(a: Mat, n: nat, k: nat, max: real)
    requires Square(a, n) && k <= n && max >= 0.0
    requires forall j, i | 0 <= j < n && 0 <= i < n :: Abs(a[j][i]) <= max
    ensures forall j | 0 <= j < n :: ColumnBounded(Run(a, n, k).m[j], j, k, max)
  {
    hide Abs;
    if k == 0 {
      MulOne(max);
      assert forall i: nat :: RowBound(i, 0, max) == max;
    } else {
      RunBounded(a, n, k - 1, max);
      forall j | 0 <= j < n ensures ColumnBounded(Run(a, n, k).m[j], j, k, max) {
        PassBounded(Run(a, n, k - 1).m, n, k - 1, j, max);
      }
    }
  }

  /** Partial pivoting: no stored multiplier exceeds one in modulus, and row i of U (counted
      from zero) is at most 2^i times the largest entry of A, so all of U at most 2^(n-1) times. */
  lemma {:induction false} PivotingBoundsGrowth(a: Mat, n: nat, max: real)
    requires Square(a, n) && n >= 1 && max >= 0.0
    requires forall j, i | 0 <= j < n && 0 <= i < n :: Abs(a[j][i]) <= max
    ensures var m := Factor(a, n).m;
            && (forall j, i | 0 <= j < i < n :: Abs(m[j][i]) <= 1.0)
            && (forall j, i | 0 <= i <= j < n :: Abs(m[j][i]) <= Pow2(i) as real * max <= Pow2(n - 1) as real * max)
  {
    hide Abs, ColumnBounded, Run;
    var m := Factor(a, n).m;
    RunBounded(a, n, n - 1, max);
    hide Factor;
    forall j | 0 <= j < n
      ensures forall i | j < i < n :: Abs(m[j][i]) <= 1.0
      ensures forall i | 0 <= i <= j :: Abs(m[j][i]) <= Pow2(i) as real * max <= Pow2(n - 1) as real * max
    {
      FinalColumn(m[j], j, n, max);
    }
  }

  lemma {:induction false} FinalColumn(c: Vec, j: nat, n: nat, max: real)
    requires |c| == n && j < n && max >= 0.0 && ColumnBounded(c, j, n - 1, max)
    ensures forall i | j < i < n :: Abs(c[i]) <= 1.0
    ensures forall i | 0 <= i <= j :: Abs(c[i]) <= Pow2(i) as real * max <= Pow2(n - 1) as real * max
  {
    hide Abs, RowBound;
    forall i | 0 <= i <= j ensures Abs(c[i]) <= Pow2(i) as real * max <= Pow2(n - 1) as real * max {
      FinalBound(i, n, max);
      assert Abs(c[i]) <= RowBound(i, n - 1, max);
    }
  }

  lemma {:induction false} FinalBound(i: nat, n: nat, max: real)
    requires i < n && max >= 0.0
    ensures RowBound(i, n - 1, max) == Pow2(i) as real * max <= Pow2(n - 1) as real * max
  {
    Pow2Monotone(i, n - 1);
    ScaleBound(Pow2(i) as real, Pow2(n - 1) as real, max);
  }

  lemma {:induction false} ScaleBound(p: real, q: real, c: real)
    requires p <= q && c >= 0.0
    ensures Mul(p, c) == p * c <= q * c
  {
  }
}
