/** matgen_ of performance/linpack-benchmark.cpp: the random test matrix, its row sums as
    right-hand side, and its largest entry. */
module Matgen {
  import opened Reals
  import opened Matrices
  import opened Residues
  import opened Storage
  import opened Ran
  import opened Words

  /** The packed form of the initial seed 1, 2, 3, 1325. */
  const SEED: nat := 1 * 0x10_0000_0000 + 2 * 0x100_0000 + 3 * 0x1000 + 1325

  lemma {:induction false} SeedFits()
    ensures SEED < Pow2(MODULUS_BITS) && Odd(SEED)
  {
    Pow2Values();
  }

  /** The packed seed after k draws. */
  function SeedAfter(k: nat): nat {
    SeedFits();
    Drawn(SEED, k)
  }

  lemma {:induction false} SeedNext(k: nat)
    ensures SeedAfter(k) < Pow2(MODULUS_BITS) && SeedAfter(k + 1) == Drawn(SeedAfter(k), 1)
  {
    hide Drawn, Pow2, Odd;
    SeedFits();
    DrawnAdd(SEED, k);
  }

  lemma {:induction false} SeedOdd(k: nat)
    ensures SeedAfter(k) < Pow2(MODULUS_BITS) && Odd(SeedAfter(k))
  {
    hide Drawn, Pow2, Odd;
    SeedFits();
    DrawnOdd(SEED, k);
  }

  lemma {:induction false} DrawnStatesDistinct(i: nat, j: nat)
    requires i < j < i + Pow2(PERIOD_BITS)
    ensures SeedAfter(i) != SeedAfter(j)
  {
    hide Drawn, Pow2, Odd;
    SeedFits();
    DrawsDistinct(SEED, i, j);
  }

  /** The entry made by draw number k, counted from zero. */
  function Entry(k: nat): real {
    Fraction(SeedAfter(k + 1)) - 0.5
  }

  /** The matrix that matgen_ generates, drawn column by column. */
  function TestMatrix(n: nat): (m: Mat)
    ensures Square(m, n)
  {
    seq(n, j requires 0 <= j < n => seq(n, i requires 0 <= i < n => Entry(Index(n, i, j))))
  }

  function Index(n: nat, i: nat, j: nat): nat {
    j * n + i
  }

  /** c bounds the entries of the first cols columns and the first rows entries of the column after
      them, and is itself the modulus of an entry unless it is 0. */
  predicate Largest(m: Mat, n: nat, cols: nat, rows: nat, c: real)
    requires Square(m, n)
  {
    && (forall j, i | 0 <= j < n && 0 <= i < n && (j < cols || (j == cols && i < rows)) :: Abs(m[j][i]) <= c)
    && (c == 0.0 || exists j, i :: 0 <= j < n && 0 <= i < n && Abs(m[j][i]) == c)
  }

  lemma {:induction false} LargestStep(m: Mat, n: nat, cols: nat, rows: nat, c: real)
    requires Square(m, n) && cols < n && rows < n && Largest(m, n, cols, rows, c)
    ensures Largest(m, n, cols, rows + 1, if Abs(m[cols][rows]) > c then Abs(m[cols][rows]) else c)
  {
    hide Abs;
  }

  lemma {:induction false} LargestColumn(m: Mat, n: nat, cols: nat, c: real)
    requires Square(m, n) && cols < n && Largest(m, n, cols, n, c)
    ensures Largest(m, n, cols + 1, 0, c)
  {
    hide Abs;
  }

  lemma {:induction false} EntryUnfolds(n: nat, i: nat, j: nat)
    requires i < n && j < n
    ensures TestMatrix(n)[j][i] == Entry(Index(n, i, j))
  {
    hide Entry, Index;
  }

  lemma {:induction false} NextIndex(n: nat, i: nat, j: nat)
    ensures Index(n, i + 1, j) == Index(n, i, j) + 1
    ensures Index(n, n, j) == Index(n, 0, j + 1)
    ensures Index(n, 0, 0) == 0
  {
  }

  /** What the first double loop maintains before entry (i, j). */
  ghost predicate Filling(buf: Vec, w: Vec, lda: nat, n: nat, i: nat, j: nat, s: seq<Int32>, c: real) {
    && Layout(|buf|, lda, n) && j <= n && i <= n
    && SamePadding(w, buf, lda, n)
    && (forall k | 0 <= k < j :: Column(buf, lda, n, k) == TestMatrix(n)[k])
    && (j < n ==> Column(buf, lda, n, j)[..i] == TestMatrix(n)[j][..i])
    && ValidSeed(s) && Packed(s) == SeedAfter(Index(n, i, j))
    && Largest(TestMatrix(n), n, j, i, c)
  }

  /** Storing entry (i, j) extends the filled part. */
  lemma {:induction false} FillingStep(buf: Vec, buf': Vec, w: Vec, lda: nat, n: nat, i: nat, j: nat,
                                       s: seq<Int32>, s': seq<Int32>, c: real, v: real)
    requires j < n && i < n && Filling(buf, w, lda, n, i, j, s, c)
    requires ValidSeed(s') && Packed(s') == SeedAfter(Index(n, i, j) + 1) && v == Entry(Index(n, i, j))
    requires Start(lda, j) + i < |buf| && buf' == buf[Start(lda, j) + i := v]
    ensures Filling(buf', w, lda, n, i + 1, j, s', if Abs(v) > c then Abs(v) else c)
  {
    hide Start, Entry, Index, Abs, Largest, Padding, SeedAfter, Packed, ValidSeed, TestMatrix;
    NextIndex(n, i, j);
    EntryUnfolds(n, i, j);
    LargestStep(TestMatrix(n), n, j, i, c);
    StoredEntry(buf, buf', w, lda, n, i, j, v);
    assert Column(buf', lda, n, j)[..i + 1] == TestMatrix(n)[j][..i + 1];
  }

  lemma {:induction false} StoredEntry(buf: Vec, buf': Vec, w: Vec, lda: nat, n: nat, i: nat, j: nat, v: real)
    requires Layout(|buf|, lda, n) && j < n && i < n && SamePadding(w, buf, lda, n)
    requires Start(lda, j) + i < |buf| && buf' == buf[Start(lda, j) + i := v]
    ensures SamePadding(w, buf', lda, n)
    ensures forall k | 0 <= k < n && k != j :: Column(buf', lda, n, k) == Column(buf, lda, n, k)
    ensures Column(buf', lda, n, j) == Column(buf, lda, n, j)[i := v]
  {
    ColumnFits(|buf|, lda, n, j);
    hide Start;
    assert OnlyColumn(buf, buf', lda, n, j);
    OnlyColumnKeepsPadding(w, buf, buf', lda, n, j);
    forall k | 0 <= k < n && k != j ensures Column(buf', lda, n, k) == Column(buf, lda, n, k) {
      OtherColumn(buf, buf', lda, n, j, k);
    }
  }

  /** One entry: a draw shifted to the interval around zero, and the running maximum. */
  method FillEntry(a: array<real>, lda: nat, n: nat, init: array<Int32>, i: nat, j: nat, norma: real, ghost w: Vec) returns (c: real)
    requires j < n && i < n && init.Length == 4 && Filling(a[..], w, lda, n, i, j, init[..], norma)
    modifies a, init
    ensures Filling(a[..], w, lda, n, i + 1, j, init[..], c)
  {
    ColumnFits(a.Length, lda, n, j);
    ghost var x, s := a[..], init[..];
    hide Start, Filling, Layout, Fraction, Entry, Index, SeedAfter;
    FillingFacts(x, w, lda, n, i, j, s, norma);
    var r := Ran.Ran(init);
    a[i + Start(lda, j)] := r - 0.5;
    c := if Abs(r - 0.5) > norma then Abs(r - 0.5) else norma;
    ghost var k := Index(n, i, j);
    SeedNext(k);
    EntryOf(k);
    FillingStep(x, a[..], w, lda, n, i, j, s, init[..], norma, r - 0.5);
  }

  lemma {:induction false} EntryOf(k: nat)
    ensures Entry(k) == Fraction(SeedAfter(k + 1)) - 0.5
  {
  }

  lemma {:induction false} FillingFacts(buf: Vec, w: Vec, lda: nat, n: nat, i: nat, j: nat, s: seq<Int32>, c: real)
    requires Filling(buf, w, lda, n, i, j, s, c)
    ensures ValidSeed(s) && Packed(s) == SeedAfter(Index(n, i, j))
    ensures Layout(|buf|, lda, n)
  {
  }

  lemma {:induction false} FillingColumn(buf: Vec, w: Vec, lda: nat, n: nat, j: nat, s: seq<Int32>, c: real)
    requires j < n && Filling(buf, w, lda, n, n, j, s, c)
    ensures Filling(buf, w, lda, n, 0, j + 1, s, c)
  {
    hide Start, Entry, Abs, Largest, SamePadding, SeedAfter, Packed, ValidSeed, TestMatrix, Index, Column;
    NextIndex(n, n, j);
    LargestColumn(TestMatrix(n), n, j, c);
    assert Column(buf, lda, n, j)[..n] == Column(buf, lda, n, j);
    assert TestMatrix(n)[j][..n] == TestMatrix(n)[j];
  }

  /** The first double loop. */
  method FillMatrix(a: array<real>, lda: nat, n: nat, init: array<Int32>) returns (norma: real)
    requires Layout(a.Length, lda, n) && init.Length == 4 && init[..] == [1, 2, 3, 1325]
    modifies a, init
    ensures Columns(a[..], lda, n) == TestMatrix(n)
    ensures SamePadding(old(a[..]), a[..], lda, n)
    ensures Largest(TestMatrix(n), n, n, 0, norma)
  {
    hide *;
    ghost var w := a[..];
    norma := 0.0;
    FillingStart(a[..], lda, n, init[..]);
    var j := 0;
    while j < n
      invariant 0 <= j <= n && Filling(a[..], w, lda, n, 0, j, init[..], norma)
    {
      var i := 0;
      while i < n
        invariant 0 <= i <= n && Filling(a[..], w, lda, n, i, j, init[..], norma)
      {
        norma := FillEntry(a, lda, n, init, i, j, norma, w);
        i := i + 1;
      }
      FillingColumn(a[..], w, lda, n, j, init[..], norma);
      j := j + 1;
    }
    FillingEnd(a[..], w, lda, n, init[..], norma);
  }

  lemma {:induction false} FillingStart(buf: Vec, lda: nat, n: nat, s: seq<Int32>)
    requires Layout(|buf|, lda, n) && s == [1, 2, 3, 1325]
    ensures Filling(buf, buf, lda, n, 0, 0, s, 0.0)
  {
    SeedFits();
    NextIndex(n, 0, 0);
    assert ValidSeed(s) && Packed(s) == SEED == SeedAfter(0);
    hide Entry, Abs, Fraction;
  }

  lemma {:induction false} FillingEnd(buf: Vec, w: Vec, lda: nat, n: nat, s: seq<Int32>, c: real)
    requires Filling(buf, w, lda, n, 0, n, s, c)
    ensures Layout(|buf|, lda, n)
    ensures Columns(buf, lda, n) == TestMatrix(n) && SamePadding(w, buf, lda, n)
    ensures Largest(TestMatrix(n), n, n, 0, c)
  {
    hide Start, Entry, Abs, Largest, Padding, SeedAfter, Packed, ValidSeed, TestMatrix, Index, Column;
    assert forall k | 0 <= k < n :: Columns(buf, lda, n)[k] == TestMatrix(n)[k];
  }

  // ------------------------------------------------- the right-hand side

  /** Half-way through the row sums: done rows include column j, the others stop before it. */
  predicate Summing(b: Vec, m: Mat, n: nat, done: nat, j: nat)
    requires Square(m, n)
  {
    && n <= |b| && j < n && done <= n
    && (forall i | 0 <= i < done :: b[i] == Dot(Ones(n), Row(m, i), 0, j + 1))
    && (forall i | done <= i < n :: b[i] == Dot(Ones(n), Row(m, i), 0, j))
  }

  lemma {:induction false} SumStep(m: Mat, n: nat, i: nat, j: nat)
    requires Square(m, n) && i < n && j < n
    ensures Dot(Ones(n), Row(m, i), 0, j + 1) == Dot(Ones(n), Row(m, i), 0, j) + m[j][i]
  {
    hide Mul;
    assert Ones(n)[j] == 1.0 && Row(m, i)[j] == m[j][i];
    MulOne(m[j][i]);
  }

  /** One column of the second double loop. */
  method AddColumn(a: array<real>, lda: nat, n: nat, b: array<real>, j: nat)
    requires Layout(a.Length, lda, n) && a != b && n <= b.Length && j < n
    requires Summing(b[..], Columns(a[..], lda, n), n, 0, j)
    modifies b
    ensures Summing(b[..], Columns(a[..], lda, n), n, n, j)
    ensures b[n..] == old(b[n..])
  {
    ColumnFits(a.Length, lda, n, j);
    ghost var m := Columns(a[..], lda, n);
    assert forall i | 0 <= i < n :: Column(a[..], lda, n, j)[i] == a[i + Start(lda, j)];
    hide Dot, Row, Start, Layout, Column;
    var i := 0;
    while i < n
      invariant 0 <= i <= n && Summing(b[..], m, n, i, j) && b[n..] == old(b[n..])
    {
      SumStep(m, n, i, j);
      assert m[j][i] == a[i + Start(lda, j)];
      b[i] := b[i] + a[i + Start(lda, j)];
      i := i + 1;
    }
  }

  /** b := row sums. */
  method RowSums(a: array<real>, lda: nat, n: nat, b: array<real>)
    requires Layout(a.Length, lda, n) && a != b && n <= b.Length
    modifies b
    ensures b[..n] == MulVec(Columns(a[..], lda, n), Ones(n))
    ensures b[n..] == old(b[n..])
  {
    ghost var m := Columns(a[..], lda, n);
    var i := 0;
    while i < n
      invariant 0 <= i <= n && (forall k | 0 <= k < i :: b[k] == 0.0) && b[n..] == old(b[n..])
    {
      b[i] := 0.0;
      i := i + 1;
    }
    hide Mul, Row, Layout, Columns;
    var j := 0;
    while j < n
      invariant 0 <= j <= n && b[n..] == old(b[n..])
      invariant forall k | 0 <= k < n :: b[k] == Dot(Ones(n), Row(m, k), 0, j)
    {
      AddColumn(a, lda, n, b, j);
      j := j + 1;
    }
  }

  /** The test problem: a random matrix, its row sums, and the largest modulus of an entry.
      The seed is set anew on every call, so every call produces the same problem. */
  method Matgen(a: array<real>, lda: nat, n: nat, b: array<real>) returns (norma: real)
    requires Layout(a.Length, lda, n) && a != b && n <= b.Length
    modifies a, b
    ensures Columns(a[..], lda, n) == TestMatrix(n)
    ensures b[..n] == MulVec(TestMatrix(n), Ones(n)) && b[n..] == old(b[n..])
    ensures SamePadding(old(a[..]), a[..], lda, n)
    ensures Largest(TestMatrix(n), n, n, 0, norma)
  {
    hide Layout, SamePadding, MulVec, TestMatrix, Largest, Columns, Pow2;
    var init := new Int32[4] [1, 2, 3, 1325];
    norma := FillMatrix(a, lda, n, init);
    RowSums(a, lda, n, b);
  }

  // ------------------------------------------------- properties of the test matrix

  lemma {:induction false} IndexInjective(n: nat, i: nat, j: nat, i': nat, j': nat)
    requires i < n && i' < n && j < n && j' < n && (i != i' || j != j')
    ensures Index(n, i, j) != Index(n, i', j')
    ensures Index(n, i, j) < n * n
  {
    TimesStep(j, j', n);
    TimesStep(j', j, n);
    TimesStep(j, n, n);
  }

  lemma {:induction false} TimesStep(j: nat, j': nat, n: nat)
    ensures j < j' ==> j * n + n <= j' * n
  {
    if j < j' {
      TimesMonotone(j + 1, j', n);
    }
  }

  lemma {:induction false} FractionInjective(p: nat, q: nat)
    ensures Fraction(p) == Fraction(q) ==> p == q
  {
  }

  /** While the matrix does not exhaust the period of the generator, no two entries are equal. */
  lemma {:induction false} EntriesDistinct(n: nat, i: nat, j: nat, i': nat, j': nat)
    requires n * n <= Pow2(PERIOD_BITS)
    requires i < n && i' < n && j < n && j' < n && (i != i' || j != j')
    ensures TestMatrix(n)[j][i] != TestMatrix(n)[j'][i']
  {
    hide *;
    EntryUnfolds(n, i, j);
    EntryUnfolds(n, i', j');
    IndexInjective(n, i, j, i', j');
    IndexInjective(n, i', j', i, j);
    DrawsGiveDistinctEntries(Index(n, i, j), Index(n, i', j'), n * n);
  }

  lemma {:induction false} DrawsGiveDistinctEntries(k: nat, k': nat, size: nat)
    requires k < size && k' < size && k != k' && size <= Pow2(PERIOD_BITS)
    ensures Entry(k) != Entry(k')
  {
    hide Pow2, SeedAfter, Fraction;
    FractionInjective(SeedAfter(k + 1), SeedAfter(k' + 1));
    if k < k' {
      DrawnStatesDistinct(k + 1, k' + 1);
    } else {
      DrawnStatesDistinct(k' + 1, k + 1);
    }
  }

  /** No entry is zero and none reaches 1/2 in modulus, so 0 < norma < 1/2. */
  lemma {:induction false} EntryRange(k: nat)
    ensures 0.0 < Abs(Entry(k)) < 0.5
  {
    hide *;
    SeedOdd(k + 1);
    EntryOf(k);
    OffCentre(SeedAfter(k + 1));
  }

  /** An odd 48-bit numerator is neither 0 nor 2^47. */
  lemma {:induction false} OffCentre(d: nat)
    requires d < Pow2(MODULUS_BITS) && Odd(d)
    ensures 0.0 < Abs(Fraction(d) - 0.5) < 0.5
  {
    Pow2Values();
    OddNumerator(d);
  }

  lemma {:induction false} OddNumerator(d: nat)
    requires d < 0x1_0000_0000_0000 && Odd(d)
    ensures 0.0 < Abs(Fraction(d) - 0.5) < 0.5
  {
    assert d != 0x8000_0000_0000 && 0 < d;
  }

  lemma {:induction false} FirstDraws()
    ensures SeedAfter(1) == 256491510511889 && SeedAfter(2) == 221540323685957
    ensures SeedAfter(3) == 19815521246473 && SeedAfter(4) == 278678713768605
  {
    SeedFits();
    assert SeedAfter(0) == 68753044781 by {
      SeedZero();
    }
    hide *;
    SeedNext(0);
    DrawValue(68753044781, 8293315259, 256491510511889);
    SeedNext(1);
    DrawValue(256491510511889, 30939210982460, 221540323685957);
    SeedNext(2);
    DrawValue(221540323685957, 26723234628558, 19815521246473);
    SeedNext(3);
    DrawValue(19815521246473, 2390241265094, 278678713768605);
  }

  lemma {:induction false} SeedZero()
    ensures SeedAfter(0) == 68753044781
  {
    hide Pow2, Mod;
  }

  /** The matrix of order 2: the first two draws are its first column. */
  lemma {:induction false} OrderTwo()
    ensures var m := TestMatrix(2);
            && m[0][0] == 256491510511889.0 / 281474976710656.0 - 0.5 && m[0][1] == 221540323685957.0 / 281474976710656.0 - 0.5
            && m[1][0] == 19815521246473.0 / 281474976710656.0 - 0.5 && m[1][1] == 278678713768605.0 / 281474976710656.0 - 0.5
  {
    hide *;
    FirstDraws();
    EntryPlace(2, 0, 0, 0, 256491510511889);
    EntryPlace(2, 1, 0, 1, 221540323685957);
    EntryPlace(2, 0, 1, 2, 19815521246473);
    EntryPlace(2, 1, 1, 3, 278678713768605);
  }

  lemma {:induction false} EntryPlace(n: nat, i: nat, j: nat, k: nat, p: nat)
    requires i < n && j < n && k == j * n + i && SeedAfter(k + 1) == p
    ensures Square(TestMatrix(n), n) && TestMatrix(n)[j][i] == p as real / 281474976710656.0 - 0.5
  {
    hide SeedAfter, TestMatrix, Entry;
    EntryUnfolds(n, i, j);
    EntryOf(k);
  }

  lemma {:induction false} NormaRange(n: nat, norma: real)
    requires n >= 1 && Largest(TestMatrix(n), n, n, 0, norma)
    ensures 0.0 < norma < 0.5
  {
    EntryUnfolds(n, 0, 0);
    EntryRange(Index(n, 0, 0));
    hide Pow2, Entry, TestMatrix, Abs, Index;
    assert Abs(TestMatrix(n)[0][0]) <= norma;
    var j, i :| 0 <= j < n && 0 <= i < n && Abs(TestMatrix(n)[j][i]) == norma;
    EntryUnfolds(n, i, j);
    EntryRange(Index(n, i, j));
  }
}
