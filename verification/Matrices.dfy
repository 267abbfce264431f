/** Exact real vectors and column-major matrices: the vocabulary in which the
    LINPACK routines of performance/linpack-benchmark.cpp are specified.
    Rows and columns count from 0 here; the source counts them from 1. */
module Matrices {
  import opened Reals

  type Vec = seq<real>

  /** A matrix is the sequence of its columns. */
  type Mat = seq<Vec>

  predicate Square(m: Mat, n: nat) {
    |m| == n && forall j | 0 <= j < n :: |m[j]| == n
  }

  /** The inner product of u and v over the index range lo..hi. */
  function Dot(u: Vec, v: Vec, lo: nat, hi: nat): real
    requires lo <= hi <= |u| && hi <= |v|
  {
    if lo == hi then 0.0 else Dot(u, v, lo, hi - 1) + Mul(u[hi - 1], v[hi - 1])
  }

  function Row(m: Mat, i: nat): (r: Vec)
    requires forall j | 0 <= j < |m| :: i < |m[j]|
    ensures |r| == |m|
  {
    seq(|m|, j requires 0 <= j < |m| => m[j][i])
  }

  /** The product of the matrix m and the vector x. */
  function MulVec(m: Mat, x: Vec): (y: Vec)
    requires Square(m, |x|)
    ensures |y| == |x|
  {
    seq(|x|, i requires 0 <= i < |x| => Dot(x, Row(m, i), 0, |x|))
  }

  lemma {:induction false} DotSplit(u: Vec, v: Vec, lo: nat, mid: nat, hi: nat)
    requires lo <= mid <= hi <= |u| && hi <= |v|
    ensures Dot(u, v, lo, hi) == Dot(u, v, lo, mid) + Dot(u, v, mid, hi)
  {
    hide Mul;
    if mid < hi {
      DotSplit(u, v, lo, mid, hi - 1);
    }
  }

  /** Two inner products with the same terms are equal. */
  lemma {:induction false} DotCongruent(u: Vec, v: Vec, u': Vec, v': Vec, lo: nat, hi: nat)
    requires lo <= hi <= |u| && hi <= |v| && hi <= |u'| && hi <= |v'|
    requires forall j | lo <= j < hi :: u[j] == u'[j] && v[j] == v'[j]
    ensures Dot(u, v, lo, hi) == Dot(u', v', lo, hi)
  {
    hide Mul;
    if lo < hi {
      DotCongruent(u, v, u', v', lo, hi - 1);
    }
  }

  lemma {:induction false} DotZero(u: Vec, v: Vec, lo: nat, hi: nat)
    requires lo <= hi <= |u| && hi <= |v|
    requires forall j | lo <= j < hi :: u[j] == 0.0 || v[j] == 0.0
    ensures Dot(u, v, lo, hi) == 0.0
  {
    if lo < hi {
      DotZero(u, v, lo, hi - 1);
    }
  }

  lemma {:induction false} DotSymmetric(u: Vec, v: Vec, lo: nat, hi: nat)
    requires lo <= hi <= |u| && hi <= |v|
    ensures Dot(u, v, lo, hi) == Dot(v, u, lo, hi)
  {
    hide Mul;
    if lo < hi {
      DotSymmetric(u, v, lo, hi - 1);
      MulCommutes(u[hi - 1], v[hi - 1]);
    }
  }

  /** The inner product is linear in its second argument. */
  lemma {:induction false} DotAxpy(u: Vec, v: Vec, c: real, w: Vec, s: Vec, lo: nat, hi: nat)
    requires lo <= hi <= |u| && hi <= |v| && hi <= |w| && hi <= |s|
    requires forall j | lo <= j < hi :: s[j] == v[j] + Mul(c, w[j])
    ensures Dot(u, s, lo, hi) == Dot(u, v, lo, hi) + Mul(c, Dot(u, w, lo, hi))
  {
    if lo < hi {
      hide Mul;
      DotAxpy(u, v, c, w, s, lo, hi - 1);
      AxpyTerm(u[hi - 1], v[hi - 1], c, w[hi - 1], Dot(u, w, lo, hi - 1));
    }
  }

  lemma {:induction false} AxpyTerm(u: real, v: real, c: real, w: real, d: real)
    ensures Mul(u, v + Mul(c, w)) + Mul(c, d) == Mul(u, v) + Mul(c, d + Mul(u, w))
  {
    assert u * (c * w) == c * (u * w);
  }

  /** Changing one entry changes the inner product by that entry's share. */
  lemma {:induction false} DotUpdate(u: Vec, v: Vec, k: nat, a: real, lo: nat, hi: nat)
    requires lo <= k < hi <= |u| && hi <= |v|
    ensures Dot(u, v[k := a], lo, hi) == Dot(u, v, lo, hi) + Mul(u[k], a) - Mul(u[k], v[k])
  {
    hide Mul;
    if k == hi - 1 {
      DotCongruent(u, v[k := a], u, v, lo, hi - 1);
    } else {
      DotUpdate(u, v, k, a, lo, hi - 1);
    }
  }

  /** One addend of an inner product picked out: all other terms vanish. */
  lemma {:induction false} DotSingle(u: Vec, v: Vec, k: nat, lo: nat, hi: nat)
    requires lo <= k < hi <= |u| && hi <= |v|
    requires forall j | lo <= j < hi && j != k :: u[j] == 0.0 || v[j] == 0.0
    ensures Dot(u, v, lo, hi) == Mul(u[k], v[k])
  {
    hide Mul;
    DotSplit(u, v, lo, k, hi);
    DotSplit(u, v, k, k + 1, hi);
    DotZero(u, v, lo, k);
    DotZero(u, v, k + 1, hi);
    assert Dot(u, v, k, k) == 0.0;
  }

  function Ones(n: nat): Vec {
    seq(n, _ => 1.0)
  }

  function Zeros(n: nat): Vec {
    seq(n, _ => 0.0)
  }

  /** x solves m x = b. */
  predicate Solves(m: Mat, x: Vec, b: Vec) {
    |x| == |b| && Square(m, |b|) && MulVec(m, x) == b
  }

  /** x solves the transposed system: column j of m times x is b[j]. */
  predicate SolvesTransposed(m: Mat, x: Vec, b: Vec) {
    |x| == |b| && Square(m, |b|) && forall j | 0 <= j < |b| :: Dot(m[j], x, 0, |b|) == b[j]
  }

  /** m x = 0 has only the solution x = 0. */
  ghost predicate Nonsingular(m: Mat, n: nat)
    requires Square(m, n)
  {
    forall x: Vec | |x| == n && MulVec(m, x) == Zeros(n) :: x == Zeros(n)
  }
}
