/** dmxpy_ of performance/linpack-benchmark.cpp: y := y + M x with the columns of M taken in
    groups of 1, 2, 4, 8 and then 16. */
module Dmxpy {
  import opened Reals
  import opened Matrices
  import opened Storage
  import opened Residues

  /** n1 rows and n2 columns with leading dimension ldm fit the buffer. */
  predicate Rectangle(len: nat, ldm: nat, n1: nat, n2: nat) {
    n1 <= ldm && Start(ldm, n2) <= len
  }

  lemma {:induction false} InRectangle(len: nat, ldm: nat, n1: nat, n2: nat, i: nat, j: nat)
    requires Rectangle(len, ldm, n1, n2) && i < n1 && j < n2
    ensures Start(ldm, j) + i < len
  {
    ColumnsApart(ldm, j, n2);
  }

  /** x(j) times the entry of M in row i and column j. */
  function Product(x: Vec, m: Vec, ldm: nat, n1: nat, n2: nat, i: nat, j: nat): real
    requires Rectangle(|m|, ldm, n1, n2) && n2 <= |x| && i < n1 && j < n2
  {
    InRectangle(|m|, ldm, n1, n2, i, j);
    Mul(x[j], m[Start(ldm, j) + i])
  }

  /** Row i of M x, restricted to the first hi columns. */
  function RowProduct(x: Vec, m: Vec, ldm: nat, n1: nat, n2: nat, i: nat, hi: nat): real
    requires Rectangle(|m|, ldm, n1, n2) && n2 <= |x| && i < n1 && hi <= n2
  {
    if hi == 0 then 0.0
    else RowProduct(x, m, ldm, n1, n2, i, hi - 1) + Product(x, m, ldm, n1, n2, i, hi - 1)
  }

  lemma {:induction false} TwoColumns(x: Vec, m: Vec, ldm: nat, n1: nat, n2: nat, i: nat, j: nat)
    requires Rectangle(|m|, ldm, n1, n2) && n2 <= |x| && i < n1 && j + 2 <= n2
    ensures RowProduct(x, m, ldm, n1, n2, i, j + 2)
            == RowProduct(x, m, ldm, n1, n2, i, j) + Product(x, m, ldm, n1, n2, i, j) + Product(x, m, ldm, n1, n2, i, j + 1)
  {
    hide Product;
    assert RowProduct(x, m, ldm, n1, n2, i, j + 1) == RowProduct(x, m, ldm, n1, n2, i, j) + Product(x, m, ldm, n1, n2, i, j);
  }

  /** The four products of columns j .. j + 3 in row i. */
  function FourProducts(x: Vec, m: Vec, ldm: nat, n1: nat, n2: nat, i: nat, j: nat): real
    requires Rectangle(|m|, ldm, n1, n2) && n2 <= |x| && i < n1 && j + 4 <= n2
  {
    Product(x, m, ldm, n1, n2, i, j) + Product(x, m, ldm, n1, n2, i, j + 1)
    + Product(x, m, ldm, n1, n2, i, j + 2) + Product(x, m, ldm, n1, n2, i, j + 3)
  }

  lemma {:induction false} FourColumns(x: Vec, m: Vec, ldm: nat, n1: nat, n2: nat, i: nat, j: nat)
    requires Rectangle(|m|, ldm, n1, n2) && n2 <= |x| && i < n1 && j + 4 <= n2
    ensures RowProduct(x, m, ldm, n1, n2, i, j + 4)
            == RowProduct(x, m, ldm, n1, n2, i, j) + FourProducts(x, m, ldm, n1, n2, i, j)
  {
    hide Product, RowProduct;
    TwoColumns(x, m, ldm, n1, n2, i, j);
    TwoColumns(x, m, ldm, n1, n2, i, j + 2);
  }

  lemma {:induction false} EightColumns(x: Vec, m: Vec, ldm: nat, n1: nat, n2: nat, i: nat, j: nat)
    requires Rectangle(|m|, ldm, n1, n2) && n2 <= |x| && i < n1 && j + 8 <= n2
    ensures RowProduct(x, m, ldm, n1, n2, i, j + 8)
            == RowProduct(x, m, ldm, n1, n2, i, j) + FourProducts(x, m, ldm, n1, n2, i, j) + FourProducts(x, m, ldm, n1, n2, i, j + 4)
  {
    hide Product, RowProduct, FourProducts;
    FourColumns(x, m, ldm, n1, n2, i, j);
    FourColumns(x, m, ldm, n1, n2, i, j + 4);
  }

  lemma {:induction false} SixteenColumns(x: Vec, m: Vec, ldm: nat, n1: nat, n2: nat, i: nat, j: nat)
    requires Rectangle(|m|, ldm, n1, n2) && n2 <= |x| && i < n1 && j + 16 <= n2
    ensures RowProduct(x, m, ldm, n1, n2, i, j + 16)
            == RowProduct(x, m, ldm, n1, n2, i, j) + FourProducts(x, m, ldm, n1, n2, i, j) + FourProducts(x, m, ldm, n1, n2, i, j + 4)
               + FourProducts(x, m, ldm, n1, n2, i, j + 8) + FourProducts(x, m, ldm, n1, n2, i, j + 12)
  {
    hide Product, RowProduct, FourProducts;
    EightColumns(x, m, ldm, n1, n2, i, j);
    EightColumns(x, m, ldm, n1, n2, i, j + 8);
  }

  /** y is y0 plus M x restricted to the first hi columns in the first done rows, restricted to
      the first lo columns in the rows after them. */
  predicate Accumulated(y: Vec, y0: Vec, x: Vec, m: Vec, ldm: nat, n1: nat, n2: nat, done: nat, hi: nat, lo: nat)
    requires Rectangle(|m|, ldm, n1, n2) && n2 <= |x| && hi <= n2 && lo <= n2
  {
    && n1 <= |y| == |y0| && y[n1..] == y0[n1..]
    && (forall i | 0 <= i < n1 && i < done :: y[i] == y0[i] + RowProduct(x, m, ldm, n1, n2, i, hi))
    && (forall i | done <= i < n1 :: y[i] == y0[i] + RowProduct(x, m, ldm, n1, n2, i, lo))
  }

  /** One term x(j) * m(i, j) of the unrolled statements. */
  function Term(x: array<real>, m: array<real>, ldm: nat, n1: nat, n2: nat, i: nat, j: nat): (t: real)
    requires Rectangle(m.Length, ldm, n1, n2) && n2 <= x.Length && i < n1 && j < n2
    reads x, m
    ensures t == Product(x[..], m[..], ldm, n1, n2, i, j)
  {
    InRectangle(m.Length, ldm, n1, n2, i, j);
    Mul(x[j], m[i + Start(ldm, j)])
  }

  lemma {:induction false} NextGroup(y: Vec, y0: Vec, x: Vec, m: Vec, ldm: nat, n1: nat, n2: nat, hi: nat, lo: nat)
    requires Rectangle(|m|, ldm, n1, n2) && n2 <= |x| && hi <= n2 && lo <= n2
    requires Accumulated(y, y0, x, m, ldm, n1, n2, n1, hi, lo)
    ensures Accumulated(y, y0, x, m, ldm, n1, n2, 0, hi, hi)
    ensures Accumulated(y, y0, x, m, ldm, n1, n2, n1, hi, hi)
  {
    hide RowProduct;
  }

  /** Column lo alone, added to every row. */
  method AddOne(n1: nat, y: array<real>, n2: nat, ldm: nat, x: array<real>, m: array<real>, lo: nat, ghost y0: Vec)
    requires Rectangle(m.Length, ldm, n1, n2) && n2 <= x.Length && lo + 1 <= n2 && y != x && y != m
    requires Accumulated(y[..], y0, x[..], m[..], ldm, n1, n2, 0, lo, lo)
    modifies y
    ensures Accumulated(y[..], y0, x[..], m[..], ldm, n1, n2, 0, lo + 1, lo + 1)
  {
    hide Product, Term;
    for i := 0 to n1
      invariant Accumulated(y[..], y0, x[..], m[..], ldm, n1, n2, i, lo + 1, lo)
    {
      y[i] := y[i] + Term(x, m, ldm, n1, n2, i, lo);
    }
    NextGroup(y[..], y0, x[..], m[..], ldm, n1, n2, lo + 1, lo);
  }

  /** The columns lo and lo + 1, added to every row in one statement. */
  method AddTwo(n1: nat, y: array<real>, n2: nat, ldm: nat, x: array<real>, m: array<real>, lo: nat, ghost y0: Vec)
    requires Rectangle(m.Length, ldm, n1, n2) && n2 <= x.Length && lo + 2 <= n2 && y != x && y != m
    requires Accumulated(y[..], y0, x[..], m[..], ldm, n1, n2, 0, lo, lo)
    modifies y
    ensures Accumulated(y[..], y0, x[..], m[..], ldm, n1, n2, 0, lo + 2, lo + 2)
  {
    hide Product, Term, RowProduct;
    for i := 0 to n1
      invariant Accumulated(y[..], y0, x[..], m[..], ldm, n1, n2, i, lo + 2, lo)
    {
      TwoColumns(x[..], m[..], ldm, n1, n2, i, lo);
      y[i] := y[i] + Term(x, m, ldm, n1, n2, i, lo) + Term(x, m, ldm, n1, n2, i, lo + 1);
    }
    NextGroup(y[..], y0, x[..], m[..], ldm, n1, n2, lo + 2, lo);
  }

  /** The four columns from lo on, added to every row in one statement. */
  method AddFour(n1: nat, y: array<real>, n2: nat, ldm: nat, x: array<real>, m: array<real>, lo: nat, ghost y0: Vec)
    requires Rectangle(m.Length, ldm, n1, n2) && n2 <= x.Length && lo + 4 <= n2 && y != x && y != m
    requires Accumulated(y[..], y0, x[..], m[..], ldm, n1, n2, 0, lo, lo)
    modifies y
    ensures Accumulated(y[..], y0, x[..], m[..], ldm, n1, n2, 0, lo + 4, lo + 4)
  {
    hide Product, Term, RowProduct;
    for i := 0 to n1
      invariant Accumulated(y[..], y0, x[..], m[..], ldm, n1, n2, i, lo + 4, lo)
    {
      FourColumns(x[..], m[..], ldm, n1, n2, i, lo);
      y[i] := y[i] + Term(x, m, ldm, n1, n2, i, lo) + Term(x, m, ldm, n1, n2, i, lo + 1)
              + Term(x, m, ldm, n1, n2, i, lo + 2) + Term(x, m, ldm, n1, n2, i, lo + 3);
    }
    NextGroup(y[..], y0, x[..], m[..], ldm, n1, n2, lo + 4, lo);
  }

  /** The sum of the four terms from column j on. */
  function FourTerms(x: array<real>, m: array<real>, ldm: nat, n1: nat, n2: nat, i: nat, j: nat): (t: real)
    requires Rectangle(m.Length, ldm, n1, n2) && n2 <= x.Length && i < n1 && j + 4 <= n2
    reads x, m
    ensures t == FourProducts(x[..], m[..], ldm, n1, n2, i, j)
  {
    Term(x, m, ldm, n1, n2, i, j) + Term(x, m, ldm, n1, n2, i, j + 1)
    + Term(x, m, ldm, n1, n2, i, j + 2) + Term(x, m, ldm, n1, n2, i, j + 3)
  }

  /** The eight columns from lo on, as two sums of four terms. */
  method AddEight(n1: nat, y: array<real>, n2: nat, ldm: nat, x: array<real>, m: array<real>, lo: nat, ghost y0: Vec)
    requires Rectangle(m.Length, ldm, n1, n2) && n2 <= x.Length && lo + 8 <= n2 && y != x && y != m
    requires Accumulated(y[..], y0, x[..], m[..], ldm, n1, n2, 0, lo, lo)
    modifies y
    ensures Accumulated(y[..], y0, x[..], m[..], ldm, n1, n2, 0, lo + 8, lo + 8)
  {
    hide FourProducts, FourTerms, RowProduct;
    for i := 0 to n1
      invariant Accumulated(y[..], y0, x[..], m[..], ldm, n1, n2, i, lo + 8, lo)
    {
      EightColumns(x[..], m[..], ldm, n1, n2, i, lo);
      y[i] := y[i] + FourTerms(x, m, ldm, n1, n2, i, lo) + FourTerms(x, m, ldm, n1, n2, i, lo + 4);
    }
    NextGroup(y[..], y0, x[..], m[..], ldm, n1, n2, lo + 8, lo);
  }

  /** The body of the main loop over j: the sixteen columns from lo on, as four sums of four terms. */
  method AddSixteen(n1: nat, y: array<real>, n2: nat, ldm: nat, x: array<real>, m: array<real>, lo: nat, ghost y0: Vec)
    requires Rectangle(m.Length, ldm, n1, n2) && n2 <= x.Length && lo + 16 <= n2 && y != x && y != m
    requires Accumulated(y[..], y0, x[..], m[..], ldm, n1, n2, 0, lo, lo)
    modifies y
    ensures Accumulated(y[..], y0, x[..], m[..], ldm, n1, n2, 0, lo + 16, lo + 16)
  {
    hide FourProducts, FourTerms, RowProduct;
    for i := 0 to n1
      invariant Accumulated(y[..], y0, x[..], m[..], ldm, n1, n2, i, lo + 16, lo)
    {
      SixteenColumns(x[..], m[..], ldm, n1, n2, i, lo);
      y[i] := y[i] + FourTerms(x, m, ldm, n1, n2, i, lo) + FourTerms(x, m, ldm, n1, n2, i, lo + 4)
              + FourTerms(x, m, ldm, n1, n2, i, lo + 8) + FourTerms(x, m, ldm, n1, n2, i, lo + 12);
    }
    NextGroup(y[..], y0, x[..], m[..], ldm, n1, n2, lo + 16, lo);
  }

  /** Doubling the modulus keeps the remainder or adds the old modulus to it. */
  lemma {:induction false} DoubleModulus(n: nat, g: nat)
    requires g > 0
    ensures Mod(n, 2 * g) == Mod(n, g) + (if Mod(n, 2 * g) >= g then g else 0)
  {
    hide Mod;
    var q := ModSplit(n, 2 * g);
    var r := Mod(n, 2 * g);
    var h := if r >= g then 1 else 0;
    var rest := if r >= g then r - g else r;
    HalvedQuotient(n, g, q, h, r, rest);
    ModShift(n, rest, 2 * q + h, g);
    ModSmall(rest, g);
  }

  lemma {:induction false} HalvedQuotient(n: int, g: int, q: int, h: int, r: int, rest: int)
    requires n == q * (2 * g) + r && ((h == 1 && r == rest + g) || (h == 0 && r == rest))
    ensures n == rest + (2 * q + h) * g
  {
    assert q * (2 * g) == (2 * q) * g;
  }

  /** The clean-up groups, given the remainders of n2 by 2, 4, 8 and 16: every column before
      the main loop is in exactly one of them. */
  method AddCleanup(n1: nat, y: array<real>, n2: nat, ldm: nat, x: array<real>, m: array<real>, ghost y0: Vec,
                    r2: nat, r4: nat, r8: nat, r16: nat)
    requires Rectangle(m.Length, ldm, n1, n2) && n2 <= x.Length && y != x && y != m
    requires n1 <= y.Length && y[..] == y0
    requires r2 <= 1 && r4 == r2 + (if r4 >= 2 then 2 else 0)
    requires r8 == r4 + (if r8 >= 4 then 4 else 0) && r16 == r8 + (if r16 >= 8 then 8 else 0) && r16 <= n2
    modifies y
    ensures Accumulated(y[..], y0, x[..], m[..], ldm, n1, n2, 0, r16, r16)
  {
    assert forall i | 0 <= i < n1 :: RowProduct(x[..], m[..], ldm, n1, n2, i, 0) == 0.0;
    assert Accumulated(y[..], y0, x[..], m[..], ldm, n1, n2, 0, 0, 0);
    hide *;
    var j := r2;
    if j >= 1 {
      AddOne(n1, y, n2, ldm, x, m, 0, y0);
    }
    j := r4;
    if j >= 2 {
      AddTwo(n1, y, n2, ldm, x, m, j - 2, y0);
    }
    j := r8;
    if j >= 4 {
      AddFour(n1, y, n2, ldm, x, m, j - 4, y0);
    }
    j := r16;
    if j >= 8 {
      AddEight(n1, y, n2, ldm, x, m, j - 8, y0);
    }
  }

  /** The main loop: groups of sixteen columns from column jmin on. */
  method AddMainLoop(n1: nat, y: array<real>, n2: nat, ldm: nat, x: array<real>, m: array<real>, ghost y0: Vec,
                     jmin: nat, ghost groups: nat)
    requires Rectangle(m.Length, ldm, n1, n2) && n2 <= x.Length && y != x && y != m
    requires n2 == 16 * groups + jmin
    requires Accumulated(y[..], y0, x[..], m[..], ldm, n1, n2, 0, jmin, jmin)
    modifies y
    ensures Accumulated(y[..], y0, x[..], m[..], ldm, n1, n2, 0, n2, n2)
  {
    hide *;
    var j := jmin;
    ghost var q := groups;
    while j + 16 <= n2
      invariant 0 <= j && n2 - j == 16 * q
      invariant Accumulated(y[..], y0, x[..], m[..], ldm, n1, n2, 0, j, j)
    {
      AddSixteen(n1, y, n2, ldm, x, m, j, y0);
      j := j + 16;
      q := q - 1;
    }
  }

  /** y := y + M x. Every column enters exactly once, whatever n2 is. */
  method Dmxpy(n1: nat, y: array<real>, n2: nat, ldm: nat, x: array<real>, m: array<real>)
    requires Rectangle(m.Length, ldm, n1, n2) && n2 <= x.Length && n1 <= y.Length && y != x && y != m
    modifies y
    ensures forall i | 0 <= i < n1 :: y[i] == old(y[i]) + RowProduct(x[..], m[..], ldm, n1, n2, i, n2)
    ensures y[n1..] == old(y[n1..])
  {
    hide Rectangle, RowProduct;
    ghost var y0 := y[..];
    DoubleModulus(n2, 2);
    DoubleModulus(n2, 4);
    DoubleModulus(n2, 8);
    AddCleanup(n1, y, n2, ldm, x, m, y0, n2 % 2, n2 % 4, n2 % 8, n2 % 16);
    AddMainLoop(n1, y, n2, ldm, x, m, y0, n2 % 16, n2 / 16);
  }

  /** On a square matrix the row sums are the entries of the matrix-vector product. */
  lemma {:induction false} RowProductIsDot(x: Vec, m: Vec, lda: nat, n: nat, i: nat, hi: nat)
    requires Layout(|m|, lda, n) && n <= |x| && i < n && hi <= n
    ensures Rectangle(|m|, lda, n, n)
    ensures RowProduct(x, m, lda, n, n, i, hi) == Dot(x[..n], Row(Columns(m, lda, n), i), 0, hi)
  {
    hide Mul;
    if hi > 0 {
      RowProductIsDot(x, m, lda, n, i, hi - 1);
      ColumnFits(|m|, lda, n, hi - 1);
      assert Row(Columns(m, lda, n), i)[hi - 1] == Column(m, lda, n, hi - 1)[i];
    }
  }

  /** The product as a vector. */
  lemma {:induction false} RowProductIsMulVec(x: Vec, m: Vec, lda: nat, n: nat, i: nat)
    requires Layout(|m|, lda, n) && n <= |x| && i < n
    ensures Rectangle(|m|, lda, n, n)
    ensures RowProduct(x, m, lda, n, n, i, n) == MulVec(Columns(m, lda, n), x[..n])[i]
  {
    hide RowProduct;
    RowProductIsDot(x, m, lda, n, i, n);
  }
}
