/** A matrix in a flat buffer: column j (from 0) occupies positions j*lda .. j*lda + n, the
    rest of the lda positions of a column is padding. The C code's a[i + j*a_dim1] with i and j
    counted from 1 is position (i - 1) + (j - 1)*lda here. */
module Storage {
  import opened Matrices

  function Start(lda: nat, j: nat): nat {
    j * lda
  }

  predicate Layout(len: nat, lda: nat, n: nat) {
    1 <= n <= lda && Start(lda, n) <= len
  }

  lemma {:induction false} ColumnFits(len: nat, lda: nat, n: nat, j: nat)
    requires Layout(len, lda, n) && j < n
    ensures Start(lda, j) + lda <= len
  {
    ColumnsApart(lda, j, n);
  }

  lemma {:induction false} ColumnsApart(lda: nat, i: nat, j: nat)
    requires i < j
    ensures Start(lda, i) + lda <= Start(lda, j)
  {
    TimesMonotone(i + 1, j, lda);
  }

  lemma {:induction false} TimesMonotone(x: nat, y: nat, z: nat)
    requires x <= y
    ensures x * z <= y * z
  {
  }

  /** The rows of column j that belong to the matrix. */
  function Column(buf: Vec, lda: nat, n: nat, j: nat): (c: Vec)
    requires Layout(|buf|, lda, n) && j < n
    ensures |c| == n
  {
    ColumnFits(|buf|, lda, n, j);
    buf[Start(lda, j)..Start(lda, j) + n]
  }

  /** The matrix held in the buffer. */
  function Columns(buf: Vec, lda: nat, n: nat): (m: Mat)
    requires Layout(|buf|, lda, n)
    ensures Square(m, n)
    ensures forall j | 0 <= j < n :: m[j] == Column(buf, lda, n, j)
  {
    seq(n, j requires 0 <= j < n => Column(buf, lda, n, j))
  }

  /** Position p holds padding or lies behind the last column. */
  predicate Padding(lda: nat, n: nat, p: int) {
    forall j: nat | j < n :: !(Start(lda, j) <= p < Start(lda, j) + n)
  }

  /** Nothing outside the matrix differs between the two buffers. */
  predicate SamePadding(buf: Vec, buf': Vec, lda: nat, n: nat) {
    |buf| == |buf'| && forall p | 0 <= p < |buf| && Padding(lda, n, p) :: buf'[p] == buf[p]
  }

  /** Nothing outside column j differs between the two buffers. */
  predicate OnlyColumn(buf: Vec, buf': Vec, lda: nat, n: nat, j: nat) {
    |buf| == |buf'|
    && forall p | 0 <= p < |buf| && !(Start(lda, j) <= p < Start(lda, j) + n) :: buf'[p] == buf[p]
  }

  lemma {:induction false} OtherColumn(buf: Vec, buf': Vec, lda: nat, n: nat, j: nat, i: nat)
    requires Layout(|buf|, lda, n) && OnlyColumn(buf, buf', lda, n, j) && i < n && j < n && i != j
    ensures Column(buf', lda, n, i) == Column(buf, lda, n, i)
  {
    ColumnFits(|buf|, lda, n, i);
    if i < j {
      ColumnsApart(lda, i, j);
    } else {
      ColumnsApart(lda, j, i);
    }
    hide Start;
  }

  lemma {:induction false} OnlyColumnKeepsPadding(old_: Vec, buf: Vec, buf': Vec, lda: nat, n: nat, j: nat)
    requires SamePadding(old_, buf, lda, n) && OnlyColumn(buf, buf', lda, n, j) && j < n
    ensures SamePadding(old_, buf', lda, n)
  {
    hide Start;
  }

  /** Rows n + 1 .. lda of every column (counted from 1) and everything after the last column
      are padding. */
  lemma {:induction false} PaddingPositions(lda: nat, n: nat, j: nat, i: nat)
    requires 1 <= n <= i && (j < n ==> i < lda) && n <= lda
    ensures Padding(lda, n, Start(lda, j) + i)
  {
    forall j': nat | j' < n
      ensures !(Start(lda, j') <= Start(lda, j) + i < Start(lda, j') + n)
    {
      if j' < j {
        ColumnsApart(lda, j', j);
      } else if j < j' {
        ColumnsApart(lda, j, j');
      }
    }
  }
}
