/** The vector kernels daxpy_, ddot_, dscal_ and idamax_ of performance/linpack-benchmark.cpp.
    A vector argument is an array with the offset of the element the C pointer refers to.
    Each kernel is proved equal to the one-element-at-a-time loop it unrolls. */
module Blas {
  import opened Reals
  import opened Matrices
  import opened Elimination

  /** Where element i of an n-element vector with increment inc lives. A negative increment
      starts at the far end, as in the code for unequal increments. */
  function Address(offset: int, inc: int, n: int, i: int): int {
    offset + (if inc < 0 then (-n + 1) * inc else 0) + i * inc
  }

  predicate Within(len: nat, offset: int, inc: int, n: int) {
    forall i | 0 <= i < n :: 0 <= Address(offset, inc, n, i) < len
  }

  /** No step reads an element that an earlier step has written, when both vectors are in one array. */
  predicate ReadsOriginals(xo: int, incx: int, yo: int, incy: int, n: int) {
    forall i, j | 0 <= j < i < n :: Address(xo, incx, n, i) != Address(yo, incy, n, j)
  }

  /** A negative increment visits the positions of the opposite increment in reverse order. */
  lemma {:induction false} NegativeIncrement(offset: int, inc: int, n: int, i: int)
    requires inc < 0 && 0 <= i < n
    ensures Address(offset, inc, n, i) == Address(offset, -inc, n, n - 1 - i)
  {
    assert (-n + 1) * inc + i * inc == (n - 1 - i) * -inc;
  }

  lemma {:induction false} DistinctAddresses(offset: int, inc: int, n: int, i: int, j: int)
    requires inc != 0 && i != j
    ensures Address(offset, inc, n, i) != Address(offset, inc, n, j)
  {
    assert i * inc - j * inc == (i - j) * inc;
  }

  lemma {:induction false} NextAddress(offset: int, inc: int, n: int, i: int)
    ensures Address(offset, inc, n, i + 1) == Address(offset, inc, n, i) + inc
  {
  }

  lemma {:induction false} FirstAddress(offset: int, inc: int, n: int)
    ensures Address(offset, inc, n, 0) == if inc < 0 then offset + (-n + 1) * inc else offset
  {
  }

  lemma {:induction false} UnitAddress(offset: int, n: int, i: int)
    ensures Address(offset, 1, n, i) == offset + i
  {
  }

  // ---------------------------------------------------------------- daxpy_

  /** The vector y after the first m of n steps y(i) := y(i) + da * x(i). */
  function Axpy(m: nat, n: nat, da: real, x: Vec, xo: int, incx: int, y: Vec, yo: int, incy: int): (r: Vec)
    requires m <= n && Within(|x|, xo, incx, n) && Within(|y|, yo, incy, n)
    ensures |r| == |y|
  {
    if m == 0 then y
    else
      var r := Axpy(m - 1, n, da, x, xo, incx, y, yo, incy);
      var ix, iy := Address(xo, incx, n, m - 1), Address(yo, incy, n, m - 1);
      r[iy := r[iy] + Mul(da, x[ix])]
  }

  lemma {:induction false} AxpyFrame(m: nat, n: nat, da: real, x: Vec, xo: int, incx: int, y: Vec, yo: int, incy: int, p: int)
    requires m <= n && Within(|x|, xo, incx, n) && Within(|y|, yo, incy, n)
    requires 0 <= p < |y| && forall i | 0 <= i < m :: Address(yo, incy, n, i) != p
    ensures Axpy(m, n, da, x, xo, incx, y, yo, incy)[p] == y[p]
  {
    if m > 0 {
      AxpyFrame(m - 1, n, da, x, xo, incx, y, yo, incy, p);
    }
  }

  /** What the strided loop means element by element, for increments of either sign. */
  lemma {:induction false} AxpyElement(m: nat, n: nat, da: real, x: Vec, xo: int, incx: int, y: Vec, yo: int, incy: int, i: nat)
    requires i < m <= n && incy != 0 && Within(|x|, xo, incx, n) && Within(|y|, yo, incy, n)
    ensures Axpy(m, n, da, x, xo, incx, y, yo, incy)[Address(yo, incy, n, i)]
            == y[Address(yo, incy, n, i)] + da * x[Address(xo, incx, n, i)]
  {
    if i == m - 1 {
      forall j | 0 <= j < i ensures Address(yo, incy, n, j) != Address(yo, incy, n, i) {
        DistinctAddresses(yo, incy, n, i, j);
      }
      AxpyFrame(i, n, da, x, xo, incx, y, yo, incy, Address(yo, incy, n, i));
    } else {
      AxpyElement(m - 1, n, da, x, xo, incx, y, yo, incy, i);
      DistinctAddresses(yo, incy, n, i, m - 1);
    }
  }

  /** A zero multiplier changes nothing, so the early return is exact. */
  lemma {:induction false} AxpyByZero(m: nat, n: nat, x: Vec, xo: int, incx: int, y: Vec, yo: int, incy: int)
    requires m <= n && Within(|x|, xo, incx, n) && Within(|y|, yo, incy, n)
    ensures Axpy(m, n, 0.0, x, xo, incx, y, yo, incy) == y
  {
    if m > 0 {
      AxpyByZero(m - 1, n, x, xo, incx, y, yo, incy);
      MulZero(x[Address(xo, incx, n, m - 1)]);
    }
  }

  /** With unit increments, position by position. */
  lemma {:induction false} AxpyUnit(m: nat, n: nat, da: real, x: Vec, xo: int, y: Vec, yo: int)
    requires m <= n && Within(|x|, xo, 1, n) && Within(|y|, yo, 1, n)
    requires n > 0 ==> 0 <= xo && xo + n <= |x| && 0 <= yo && yo + n <= |y|
    ensures var r := Axpy(m, n, da, x, xo, 1, y, yo, 1);
            forall p | 0 <= p < |y| ::
              r[p] == if yo <= p < yo + m then y[p] + Mul(da, x[xo + (p - yo)]) else y[p]
  {
    hide Mul;
    if m > 0 {
      AxpyUnit(m - 1, n, da, x, xo, y, yo);
    }
  }

  /** The same steps when x and y are places of one array, so that a step reads what earlier steps
      have stored. */
  function AxpyShared(m: nat, n: nat, da: real, xo: int, incx: int, y: Vec, yo: int, incy: int): (r: Vec)
    requires m <= n && Within(|y|, xo, incx, n) && Within(|y|, yo, incy, n)
    ensures |r| == |y|
  {
    if m == 0 then y
    else
      var r := AxpyShared(m - 1, n, da, xo, incx, y, yo, incy);
      var ix, iy := Address(xo, incx, n, m - 1), Address(yo, incy, n, m - 1);
      r[iy := r[iy] + Mul(da, r[ix])]
  }

  /** Inside one array the order of the stores does not matter as long as none is read again. */
  lemma {:induction false} AxpySharedFresh(m: nat, n: nat, da: real, xo: int, incx: int, y: Vec, yo: int, incy: int)
    requires m <= n && Within(|y|, xo, incx, n) && Within(|y|, yo, incy, n)
    requires ReadsOriginals(xo, incx, yo, incy, n)
    ensures AxpyShared(m, n, da, xo, incx, y, yo, incy) == Axpy(m, n, da, y, xo, incx, y, yo, incy)
  {
    hide Mul;
    if m > 0 {
      AxpySharedFresh(m - 1, n, da, xo, incx, y, yo, incy);
      AxpyFrame(m - 1, n, da, y, xo, incx, y, yo, incy, Address(xo, incx, n, m - 1));
    }
  }

  /** A vector added to itself is read before it is written. */
  lemma {:induction false} SameVectorReadsOriginals(xo: int, incx: int, n: int)
    requires incx != 0
    ensures ReadsOriginals(xo, incx, xo, incx, n)
  {
    forall i, j | 0 <= j < i < n ensures Address(xo, incx, n, i) != Address(xo, incx, n, j) {
      DistinctAddresses(xo, incx, n, i, j);
    }
  }

  /** A place that the steps from m on do not write keeps its value. */
  lemma {:induction false} AxpySharedFrame(m: nat, k: nat, n: nat, da: real, xo: int, incx: int, y: Vec, yo: int, incy: int, p: int)
    requires m <= k <= n && Within(|y|, xo, incx, n) && Within(|y|, yo, incy, n)
    requires 0 <= p < |y| && forall i | m <= i < k :: Address(yo, incy, n, i) != p
    ensures AxpyShared(k, n, da, xo, incx, y, yo, incy)[p] == AxpyShared(m, n, da, xo, incx, y, yo, incy)[p]
  {
    hide Mul;
    if m < k {
      AxpySharedFrame(m, k - 1, n, da, xo, incx, y, yo, incy, p);
    }
  }

  /** One vector one place behind the other: every step reads the sum that the step before it stored,
      and no longer the original element. */
  lemma {:induction false} OverlapAccumulates(m: nat, n: nat, da: real, y: Vec, yo: nat)
    requires m < n && 1 <= yo && yo + n <= |y|
    requires Within(|y|, yo - 1, 1, n) && Within(|y|, yo, 1, n)
    ensures var r := AxpyShared(n, n, da, yo - 1, 1, y, yo, 1);
            r[yo + m] == y[yo + m] + Mul(da, r[yo + m - 1])
  {
    hide Mul, Within;
    forall k ensures Address(yo - 1, 1, n, k) == yo - 1 + k && Address(yo, 1, n, k) == yo + k {}
    hide Address;
    AxpySharedFrame(0, m, n, da, yo - 1, 1, y, yo, 1, yo + m);
    AxpySharedFrame(m, n, n, da, yo - 1, 1, y, yo, 1, yo + m - 1);
    AxpySharedFrame(m + 1, n, n, da, yo - 1, 1, y, yo, 1, yo + m);
  }

  lemma {:induction false} AxpySharedByZero(m: nat, n: nat, xo: int, incx: int, y: Vec, yo: int, incy: int)
    requires m <= n && Within(|y|, xo, incx, n) && Within(|y|, yo, incy, n)
    ensures AxpyShared(m, n, 0.0, xo, incx, y, yo, incy) == y
  {
    hide Mul;
    if m > 0 {
      AxpySharedByZero(m - 1, n, xo, incx, y, yo, incy);
      MulZero(y[Address(xo, incx, n, m - 1)]);
    }
  }

  /** The vector y after m of the n steps of daxpy_, whether or not the vectors share an array. */
  function Added(shared: bool, m: nat, n: nat, da: real, x: Vec, xo: int, incx: int, y: Vec, yo: int, incy: int): (r: Vec)
    requires m <= n && Within(|x|, xo, incx, n) && Within(|y|, yo, incy, n) && (shared ==> x == y)
    ensures |r| == |y|
  {
    if shared then AxpyShared(m, n, da, xo, incx, y, yo, incy) else Axpy(m, n, da, x, xo, incx, y, yo, incy)
  }

  lemma {:induction false} UnitBounds(len: nat, offset: int, n: int)
    requires n > 0 && Within(len, offset, 1, n)
    ensures 0 <= offset && offset + n <= len
  {
    assert Address(offset, 1, n, 0) == offset && Address(offset, 1, n, n - 1) == offset + n - 1;
  }

  lemma {:induction false} UnitWithin(len: nat, offset: int, n: int)
    requires n > 0 ==> 0 <= offset && offset + n <= len
    ensures Within(len, offset, 1, n)
  {
  }

  /** One element of the loop body. */
  method AxpyStep(ghost m: nat, ghost n: nat, da: real, dx: array<real>, ix: int, dy: array<real>, iy: int,
                  ghost x: Vec, ghost xo: int, ghost incx: int, ghost y: Vec, ghost yo: int, ghost incy: int)
    requires m < n && |x| == dx.Length && |y| == dy.Length
    requires Within(|x|, xo, incx, n) && Within(|y|, yo, incy, n)
    requires ix == Address(xo, incx, n, m) && iy == Address(yo, incy, n, m)
    requires if dx == dy then x == y else dx[..] == x
    requires dy[..] == Added(dx == dy, m, n, da, x, xo, incx, y, yo, incy)
    modifies dy
    ensures dy[..] == Added(dx == dy, m + 1, n, da, x, xo, incx, y, yo, incy)
    ensures dx != dy ==> dx[..] == x
  {
    hide Mul;
    ghost var r := dy[..];
    assert dx != dy ==> dx[..][ix] == x[ix];
    dy[iy] := dy[iy] + Mul(da, dx[ix]);
    assert dy[..] == r[iy := r[iy] + Mul(da, (if dx == dy then r else x)[ix])];
  }

  /** dy := dy + da * dx, unrolled by four for unit increments. */
  method Daxpy(n: int, da: real, dx: array<real>, xo: int, incx: int, dy: array<real>, yo: int, incy: int)
    requires Within(dx.Length, xo, incx, n) && Within(dy.Length, yo, incy, n)
    modifies dy
    ensures n <= 0 ==> dy[..] == old(dy[..])
    ensures n > 0 && dx != dy ==> dy[..] == Axpy(n, n, da, old(dx[..]), xo, incx, old(dy[..]), yo, incy)
    ensures n > 0 && dx == dy ==> dy[..] == AxpyShared(n, n, da, xo, incx, old(dy[..]), yo, incy)
  {
    hide Axpy, AxpyShared, Mul;
    if n <= 0 {
      return;
    }
    ghost var x, y := dx[..], dy[..];
    if da == 0.0 {
      AxpyByZero(n, n, x, xo, incx, y, yo, incy);
      if dx == dy {
        AxpySharedByZero(n, n, xo, incx, y, yo, incy);
      }
      return;
    }
    if incx == 1 && incy == 1 {
      DaxpyUnit(n, da, dx, xo, dy, yo);
    } else {
      DaxpyStrided(n, da, dx, xo, incx, dy, yo, incy);
    }
  }

  method DaxpyUnit(n: int, da: real, dx: array<real>, xo: int, dy: array<real>, yo: int)
    requires n > 0 && Within(dx.Length, xo, 1, n) && Within(dy.Length, yo, 1, n)
    modifies dy
    ensures dy[..] == Added(dx == dy, n, n, da, old(dx[..]), xo, 1, old(dy[..]), yo, 1)
  {
    hide Added, Mul, Within;
    ghost var x, y := dx[..], dy[..];
    AddedStart(dx == dy, n, da, x, xo, 1, y, yo, 1);
    var m, i := n % 4, 0;
    while i < m
      invariant 0 <= i <= m && dy[..] == Added(dx == dy, i, n, da, x, xo, 1, y, yo, 1)
      invariant dx != dy ==> dx[..] == x
    {
      UnitAddress(xo, n, i);
      UnitAddress(yo, n, i);
      AxpyStep(i, n, da, dx, xo + i, dy, yo + i, x, xo, 1, y, yo, 1);
      i := i + 1;
    }
    if n < 4 {
      return;
    }
    AxpyFours(n, m, n / 4, da, dx, xo, dy, yo, x, y);
  }

  /** The main loop of the unit increments, from element m on. */
  method AxpyFours(n: nat, m: nat, ghost fours: nat, da: real, dx: array<real>, xo: int, dy: array<real>, yo: int,
                   ghost x: Vec, ghost y: Vec)
    requires |x| == dx.Length && |y| == dy.Length && n - m == 4 * fours
    requires Within(|x|, xo, 1, n) && Within(|y|, yo, 1, n)
    requires if dx == dy then x == y else dx[..] == x
    requires dy[..] == Added(dx == dy, m, n, da, x, xo, 1, y, yo, 1)
    modifies dy
    ensures dy[..] == Added(dx == dy, n, n, da, x, xo, 1, y, yo, 1)
  {
    hide Added, Within;
    var i := m;
    ghost var q := fours;
    while i < n
      invariant n - i == 4 * q && dy[..] == Added(dx == dy, i, n, da, x, xo, 1, y, yo, 1)
      invariant dx != dy ==> dx[..] == x
    {
      AxpyFour(i, n, da, dx, xo, dy, yo, x, y);
      i := i + 4;
      q := q - 1;
    }
  }

  method DaxpyStrided(n: int, da: real, dx: array<real>, xo: int, incx: int, dy: array<real>, yo: int, incy: int)
    requires n > 0 && Within(dx.Length, xo, incx, n) && Within(dy.Length, yo, incy, n)
    modifies dy
    ensures dy[..] == Added(dx == dy, n, n, da, old(dx[..]), xo, incx, old(dy[..]), yo, incy)
  {
    hide Added, Mul, Within;
    ghost var x, y := dx[..], dy[..];
    AddedStart(dx == dy, n, da, x, xo, incx, y, yo, incy);
    var ix := if incx < 0 then xo + (-n + 1) * incx else xo;
    var iy := if incy < 0 then yo + (-n + 1) * incy else yo;
    FirstAddress(xo, incx, n);
    FirstAddress(yo, incy, n);
    var i := 0;
    hide Address;
    while i < n
      invariant 0 <= i <= n && dy[..] == Added(dx == dy, i, n, da, x, xo, incx, y, yo, incy)
      invariant ix == Address(xo, incx, n, i) && iy == Address(yo, incy, n, i)
      invariant dx != dy ==> dx[..] == x
    {
      AxpyStep(i, n, da, dx, ix, dy, iy, x, xo, incx, y, yo, incy);
      NextAddress(xo, incx, n, i);
      NextAddress(yo, incy, n, i);
      ix := ix + incx;
      iy := iy + incy;
      i := i + 1;
    }
  }

  lemma {:induction false} AddedStart(shared: bool, n: nat, da: real, x: Vec, xo: int, incx: int, y: Vec, yo: int, incy: int)
    requires Within(|x|, xo, incx, n) && Within(|y|, yo, incy, n) && (shared ==> x == y)
    ensures Added(shared, 0, n, da, x, xo, incx, y, yo, incy) == y
  {
  }

  /** The body of the main loop: four consecutive elements. */
  method AxpyFour(i: nat, ghost n: nat, da: real, dx: array<real>, xo: int, dy: array<real>, yo: int,
                  ghost x: Vec, ghost y: Vec)
    requires i + 4 <= n && |x| == dx.Length && |y| == dy.Length
    requires Within(|x|, xo, 1, n) && Within(|y|, yo, 1, n)
    requires if dx == dy then x == y else dx[..] == x
    requires dy[..] == Added(dx == dy, i, n, da, x, xo, 1, y, yo, 1)
    modifies dy
    ensures dy[..] == Added(dx == dy, i + 4, n, da, x, xo, 1, y, yo, 1)
    ensures dx != dy ==> dx[..] == x
  {
    hide Added, Within;
    forall k ensures Address(xo, 1, n, k) == xo + k && Address(yo, 1, n, k) == yo + k {}
    hide Address;
    AxpyStep(i, n, da, dx, xo + i, dy, yo + i, x, xo, 1, y, yo, 1);
    AxpyStep(i + 1, n, da, dx, xo + i + 1, dy, yo + i + 1, x, xo, 1, y, yo, 1);
    AxpyStep(i + 2, n, da, dx, xo + i + 2, dy, yo + i + 2, x, xo, 1, y, yo, 1);
    AxpyStep(i + 3, n, da, dx, xo + i + 3, dy, yo + i + 3, x, xo, 1, y, yo, 1);
  }

  // ---------------------------------------------------------------- ddot_

  /** The sum of the first m of n products x(i) * y(i). */
  function StridedDot(m: nat, n: nat, x: Vec, xo: int, incx: int, y: Vec, yo: int, incy: int): real
    requires m <= n && Within(|x|, xo, incx, n) && Within(|y|, yo, incy, n)
  {
    if m == 0 then 0.0
    else
      StridedDot(m - 1, n, x, xo, incx, y, yo, incy)
      + Mul(x[Address(xo, incx, n, m - 1)], y[Address(yo, incy, n, m - 1)])
  }

  /** With unit increments ddot_ is the inner product of two slices. */
  lemma {:induction false} DotUnit(m: nat, n: nat, x: Vec, xo: nat, y: Vec, yo: nat)
    requires m <= n && xo + n <= |x| && yo + n <= |y|
    requires Within(|x|, xo, 1, n) && Within(|y|, yo, 1, n)
    ensures StridedDot(m, n, x, xo, 1, y, yo, 1) == Dot(x[xo..xo + n], y[yo..yo + n], 0, m)
  {
    hide Mul;
    if m > 0 {
      DotUnit(m - 1, n, x, xo, y, yo);
      UnitAddress(xo, n, m - 1);
      UnitAddress(yo, n, m - 1);
    }
  }

  /** For any increments ddot_ is the inner product of the vectors made of the elements visited. */
  lemma {:induction false} StridedDotIsDot(m: nat, n: nat, x: Vec, xo: int, incx: int, y: Vec, yo: int, incy: int, u: Vec, v: Vec)
    requires m <= n && Within(|x|, xo, incx, n) && Within(|y|, yo, incy, n) && |u| == |v| == n
    requires forall i | 0 <= i < n :: u[i] == x[Address(xo, incx, n, i)]
    requires forall i | 0 <= i < n :: v[i] == y[Address(yo, incy, n, i)]
    ensures StridedDot(m, n, x, xo, incx, y, yo, incy) == Dot(u, v, 0, m)
  {
    hide Mul, Address;
    if m > 0 {
      StridedDotIsDot(m - 1, n, x, xo, incx, y, yo, incy, u, v);
    }
  }

  lemma {:induction false} DotStep(m: nat, n: nat, x: Vec, xo: int, incx: int, y: Vec, yo: int, incy: int, ix: int, iy: int)
    requires m < n && Within(|x|, xo, incx, n) && Within(|y|, yo, incy, n)
    requires ix == Address(xo, incx, n, m) && iy == Address(yo, incy, n, m)
    ensures StridedDot(m + 1, n, x, xo, incx, y, yo, incy)
            == StridedDot(m, n, x, xo, incx, y, yo, incy) + Mul(x[ix], y[iy])
  {
    hide Mul;
  }

  lemma {:induction false} DotFive(i: nat, n: nat, x: Vec, xo: int, y: Vec, yo: int)
    requires i + 5 <= n && Within(|x|, xo, 1, n) && Within(|y|, yo, 1, n)
    ensures 0 <= xo + i && xo + i + 4 < |x| && 0 <= yo + i && yo + i + 4 < |y|
    ensures StridedDot(i + 5, n, x, xo, 1, y, yo, 1)
            == StridedDot(i, n, x, xo, 1, y, yo, 1) + Mul(x[xo + i], y[yo + i])
               + Mul(x[xo + i + 1], y[yo + i + 1]) + Mul(x[xo + i + 2], y[yo + i + 2])
               + Mul(x[xo + i + 3], y[yo + i + 3]) + Mul(x[xo + i + 4], y[yo + i + 4])
  {
    hide Mul;
    UnitAddress(xo, n, i);
    UnitAddress(yo, n, i);
    UnitAddress(xo, n, i + 4);
    UnitAddress(yo, n, i + 4);
    hide StridedDot;
    DotStep(i, n, x, xo, 1, y, yo, 1, xo + i, yo + i);
    DotStep(i + 1, n, x, xo, 1, y, yo, 1, xo + i + 1, yo + i + 1);
    DotStep(i + 2, n, x, xo, 1, y, yo, 1, xo + i + 2, yo + i + 2);
    DotStep(i + 3, n, x, xo, 1, y, yo, 1, xo + i + 3, yo + i + 3);
    DotStep(i + 4, n, x, xo, 1, y, yo, 1, xo + i + 4, yo + i + 4);
  }

  /** The inner product, unrolled by five for unit increments. */
  method Ddot(n: int, dx: array<real>, xo: int, incx: int, dy: array<real>, yo: int, incy: int) returns (dtemp: real)
    requires Within(dx.Length, xo, incx, n) && Within(dy.Length, yo, incy, n)
    ensures n <= 0 ==> dtemp == 0.0
    ensures n > 0 ==> dtemp == StridedDot(n, n, dx[..], xo, incx, dy[..], yo, incy)
  {
    if n <= 0 {
      dtemp := 0.0;
    } else if incx == 1 && incy == 1 {
      dtemp := DdotUnit(n, dx, xo, dy, yo);
    } else {
      dtemp := DdotStrided(n, dx, xo, incx, dy, yo, incy);
    }
  }

  method DdotUnit(n: int, dx: array<real>, xo: int, dy: array<real>, yo: int) returns (dtemp: real)
    requires n > 0 && Within(dx.Length, xo, 1, n) && Within(dy.Length, yo, 1, n)
    ensures dtemp == StridedDot(n, n, dx[..], xo, 1, dy[..], yo, 1)
  {
    ghost var x, y := dx[..], dy[..];
    dtemp := 0.0;
    assert StridedDot(0, n, x, xo, 1, y, yo, 1) == 0.0;
    UnitBounds(|x|, xo, n);
    UnitBounds(|y|, yo, n);
    forall k ensures Address(xo, 1, n, k) == xo + k && Address(yo, 1, n, k) == yo + k {}
    hide StridedDot, Mul, Within, Address;
    var m, i := n % 5, 0;
    while i < m
      invariant 0 <= i <= m && dtemp == StridedDot(i, n, x, xo, 1, y, yo, 1)
    {
      DotStep(i, n, x, xo, 1, y, yo, 1, xo + i, yo + i);
      dtemp := dtemp + Mul(dx[xo + i], dy[yo + i]);
      i := i + 1;
    }
    if n < 5 {
      return;
    }
    dtemp := DotFives(n, m, n / 5, dtemp, dx, xo, dy, yo);
  }

  /** The main loop of the unit increments, from element m on. */
  method DotFives(n: nat, m: nat, ghost fives: nat, sum: real, dx: array<real>, xo: int, dy: array<real>, yo: int) returns (dtemp: real)
    requires Within(dx.Length, xo, 1, n) && Within(dy.Length, yo, 1, n) && n - m == 5 * fives
    requires sum == StridedDot(m, n, dx[..], xo, 1, dy[..], yo, 1)
    ensures dtemp == StridedDot(n, n, dx[..], xo, 1, dy[..], yo, 1)
  {
    hide StridedDot, Mul, Within;
    ghost var x, y := dx[..], dy[..];
    var i := m;
    ghost var q := fives;
    dtemp := sum;
    while i < n
      invariant n - i == 5 * q && dtemp == StridedDot(i, n, x, xo, 1, y, yo, 1)
    {
      DotFive(i, n, x, xo, y, yo);
      dtemp := dtemp + Mul(dx[xo + i], dy[yo + i]) + Mul(dx[xo + i + 1], dy[yo + i + 1])
               + Mul(dx[xo + i + 2], dy[yo + i + 2]) + Mul(dx[xo + i + 3], dy[yo + i + 3])
               + Mul(dx[xo + i + 4], dy[yo + i + 4]);
      i := i + 5;
      q := q - 1;
    }
  }

  method DdotStrided(n: int, dx: array<real>, xo: int, incx: int, dy: array<real>, yo: int, incy: int) returns (dtemp: real)
    requires n > 0 && Within(dx.Length, xo, incx, n) && Within(dy.Length, yo, incy, n)
    ensures dtemp == StridedDot(n, n, dx[..], xo, incx, dy[..], yo, incy)
  {
    ghost var x, y := dx[..], dy[..];
    dtemp := 0.0;
    assert StridedDot(0, n, x, xo, incx, y, yo, incy) == 0.0;
    hide StridedDot, Mul;
    var ix := if incx < 0 then xo + (-n + 1) * incx else xo;
    var iy := if incy < 0 then yo + (-n + 1) * incy else yo;
    var i := 0;
    while i < n
      invariant 0 <= i <= n && dtemp == StridedDot(i, n, x, xo, incx, y, yo, incy)
      invariant ix == Address(xo, incx, n, i) && iy == Address(yo, incy, n, i)
    {
      DotStep(i, n, x, xo, incx, y, yo, incy, ix, iy);
      NextAddress(xo, incx, n, i);
      NextAddress(yo, incy, n, i);
      dtemp := dtemp + Mul(dx[ix], dy[iy]);
      ix := ix + incx;
      iy := iy + incy;
      i := i + 1;
    }
  }

  // ---------------------------------------------------------------- dscal_

  /** How many elements dscal_ scales. A zero increment leaves the loop without an iteration; a
      negative one walks down from the first element and goes past the n-th. */
  function Strides(n: int, inc: int): nat {
    if n <= 0 || inc == 0 then 0
    else if inc > 0 then n
    else if inc == -1 then n + 2
    else n + 1
  }

  /** dscal_ scales n elements exactly for a positive increment. */
  lemma {:induction false} StridesIsRight(n: int, inc: int)
    requires n > 0
    ensures Strides(n, inc) == n <==> inc > 0
  {
  }

  predicate Strided(len: nat, offset: int, inc: int, n: nat) {
    forall i | 0 <= i < n :: 0 <= offset + i * inc < len
  }

  /** The vector x after the first m steps x(i) := da * x(i). */
  function Scaled(m: nat, da: real, x: Vec, xo: int, incx: int): (r: Vec)
    requires Strided(|x|, xo, incx, m)
    ensures |r| == |x|
  {
    if m == 0 then x
    else
      var r, ix := Scaled(m - 1, da, x, xo, incx), xo + (m - 1) * incx;
      r[ix := Mul(da, r[ix])]
  }

  lemma {:induction false} ScaledUnit(m: nat, da: real, x: Vec, xo: int)
    requires Strided(|x|, xo, 1, m) && (m > 0 ==> 0 <= xo && xo + m <= |x|)
    ensures forall p | 0 <= p < |x| ::
              Scaled(m, da, x, xo, 1)[p] == if xo <= p < xo + m then Mul(da, x[p]) else x[p]
  {
    hide Mul;
    if m > 0 {
      ScaledUnit(m - 1, da, x, xo);
    }
  }

  /** A place outside the walk is left alone. */
  lemma {:induction false} ScaledFrame(m: nat, da: real, x: Vec, xo: int, incx: int, p: nat)
    requires Strided(|x|, xo, incx, m) && p < |x|
    requires forall i | 0 <= i < m :: p != xo + i * incx
    ensures Scaled(m, da, x, xo, incx)[p] == x[p]
  {
    hide Mul;
    if m > 0 {
      ScaledFrame(m - 1, da, x, xo, incx, p);
    }
  }

  /** Every place of the walk is scaled once, for increments of either sign. */
  lemma {:induction false} ScaledElement(m: nat, da: real, x: Vec, xo: int, incx: int, i: nat)
    requires i < m && incx != 0 && Strided(|x|, xo, incx, m)
    ensures 0 <= xo + i * incx < |x|
    ensures Scaled(m, da, x, xo, incx)[xo + i * incx] == Mul(da, x[xo + i * incx])
  {
    hide Mul;
    StrideDistinct(incx, i, m - 1);
    if i == m - 1 {
      forall j | 0 <= j < i ensures xo + i * incx != xo + j * incx {
        StrideDistinct(incx, i, j);
      }
      ScaledFrame(i, da, x, xo, incx, xo + i * incx);
    } else {
      ScaledElement(m - 1, da, x, xo, incx, i);
    }
  }

  lemma {:induction false} StrideDistinct(inc: int, i: int, j: int)
    requires inc != 0
    ensures i != j ==> i * inc != j * inc
  {
    assert i * inc - j * inc == (i - j) * inc;
  }

  /** One element asked for with the increment -1, and three are scaled. */
  lemma {:induction false} NegativeIncrementFails()
    ensures Strides(1, -1) == 3 && Scaled(3, 2.0, [1.0, 1.0, 1.0], 2, -1) == [2.0, 2.0, 2.0]
  {
    assert Scaled(1, 2.0, [1.0, 1.0, 1.0], 2, -1) == [1.0, 1.0, 2.0];
    assert Scaled(2, 2.0, [1.0, 1.0, 1.0], 2, -1) == [1.0, 2.0, 2.0];
  }

  method ScaleStep(ghost m: nat, da: real, dx: array<real>, ix: int, ghost x: Vec, ghost xo: int, ghost incx: int)
    requires |x| == dx.Length && Strided(|x|, xo, incx, m + 1)
    requires ix == xo + m * incx
    requires dx[..] == Scaled(m, da, x, xo, incx)
    modifies dx
    ensures dx[..] == Scaled(m + 1, da, x, xo, incx)
  {
    hide Mul;
    ghost var r := dx[..];
    dx[ix] := Mul(da, dx[ix]);
    assert dx[..] == r[ix := Mul(da, r[ix])];
  }

  /** dx := da * dx, unrolled by five for the unit increment. */
  method Dscal(n: int, da: real, dx: array<real>, xo: int, incx: int)
    requires Strided(dx.Length, xo, incx, Strides(n, incx))
    modifies dx
    ensures dx[..] == Scaled(Strides(n, incx), da, old(dx[..]), xo, incx)
  {
    if n <= 0 {
      return;
    }
    if incx == 1 {
      DscalUnit(n, da, dx, xo);
    } else {
      DscalStrided(n, da, dx, xo, incx);
    }
  }

  method DscalUnit(n: int, da: real, dx: array<real>, xo: int)
    requires n > 0 && Strided(dx.Length, xo, 1, n)
    modifies dx
    ensures dx[..] == Scaled(n, da, old(dx[..]), xo, 1)
  {
    ghost var x := dx[..];
    assert Scaled(0, da, x, xo, 1) == x;
    hide Scaled, Mul, Strided;
    var m, i := n % 5, 0;
    while i < m
      invariant 0 <= i <= m && Strided(|x|, xo, 1, i) && dx[..] == Scaled(i, da, x, xo, 1)
    {
      StridedPrefix(|x|, xo, 1, n, i + 1);
      ScaleStep(i, da, dx, xo + i, x, xo, 1);
      i := i + 1;
    }
    if n < 5 {
      return;
    }
    ScaleFives(n, m, n / 5, da, dx, xo, x);
  }

  /** The main loop of the unit increment, from element m on. */
  method ScaleFives(n: nat, m: nat, ghost fives: nat, da: real, dx: array<real>, xo: int, ghost x: Vec)
    requires |x| == dx.Length && Strided(|x|, xo, 1, n) && n - m == 5 * fives
    requires Strided(|x|, xo, 1, m) && dx[..] == Scaled(m, da, x, xo, 1)
    modifies dx
    ensures dx[..] == Scaled(n, da, x, xo, 1)
  {
    hide Scaled, Strided;
    var i := m;
    ghost var q := fives;
    while i < n
      invariant n - i == 5 * q
      invariant Strided(|x|, xo, 1, i) && dx[..] == Scaled(i, da, x, xo, 1)
    {
      StridedPrefix(|x|, xo, 1, n, i + 5);
      ScaleFive(i, da, dx, xo, x);
      i := i + 5;
      q := q - 1;
    }
  }

  lemma {:induction false} StridedPrefix(len: nat, offset: int, inc: int, n: nat, m: nat)
    requires Strided(len, offset, inc, n) && m <= n
    ensures Strided(len, offset, inc, m)
  {
  }

  method DscalStrided(n: int, da: real, dx: array<real>, xo: int, incx: int)
    requires n > 0 && Strided(dx.Length, xo, incx, Strides(n, incx))
    modifies dx
    ensures dx[..] == Scaled(Strides(n, incx), da, old(dx[..]), xo, incx)
  {
    ghost var x, total := dx[..], Strides(n, incx);
    assert Scaled(0, da, x, xo, incx) == x;
    hide Scaled, Mul, Strided, Strides;
    var nincx, i := n * incx, 1;
    ghost var m: nat := 0;
    StrideCount(n, incx, 0);
    StridedPrefix(|x|, xo, incx, total, 0);
    while if incx < 0 then i >= nincx else i <= nincx
      invariant m <= total && i == 1 + m * incx
      invariant (if incx < 0 then i >= nincx else i <= nincx) <==> m < total
      invariant Strided(|x|, xo, incx, m) && dx[..] == Scaled(m, da, x, xo, incx)
      decreases total - m
    {
      StridedPrefix(|x|, xo, incx, total, m + 1);
      ScaleStep(m, da, dx, xo + i - 1, x, xo, incx);
      NextStride(incx, m);
      i := i + incx;
      m := m + 1;
      StrideCount(n, incx, m);
    }
  }

  lemma {:induction false} NextStride(inc: int, m: int)
    ensures (m + 1) * inc == m * inc + inc
  {
  }

  /** The test of the strided loop before its step number m. */
  lemma {:induction false} StrideCount(n: int, inc: int, m: nat)
    requires n > 0
    ensures (if inc < 0 then 1 + m * inc >= n * inc else 1 + m * inc <= n * inc) <==> m < Strides(n, inc)
  {
    var d := m - n;
    assert m * inc - n * inc == d * inc;
    if inc > 0 {
      if d >= 0 {
        assert d * inc >= 0;
      } else {
        assert (-d - 1) * inc >= 0 && (-d - 1) * inc == -(d * inc) - inc;
      }
    } else if inc < 0 {
      if d <= 0 {
        assert d * inc >= 0;
      } else if d == 1 {
      } else {
        assert (d - 2) * -inc >= 0 && (d - 2) * -inc == -(d * inc) + 2 * inc;
      }
    }
  }

  method ScaleFive(i: nat, da: real, dx: array<real>, xo: int, ghost x: Vec)
    requires |x| == dx.Length && Strided(|x|, xo, 1, i + 5)
    requires Strided(|x|, xo, 1, i) && dx[..] == Scaled(i, da, x, xo, 1)
    modifies dx
    ensures dx[..] == Scaled(i + 5, da, x, xo, 1)
  {
    hide Scaled, Strided;
    StridedPrefix(|x|, xo, 1, i + 5, i + 1);
    StridedPrefix(|x|, xo, 1, i + 5, i + 2);
    StridedPrefix(|x|, xo, 1, i + 5, i + 3);
    StridedPrefix(|x|, xo, 1, i + 5, i + 4);
    ScaleStep(i, da, dx, xo + i, x, xo, 1);
    ScaleStep(i + 1, da, dx, xo + i + 1, x, xo, 1);
    ScaleStep(i + 2, da, dx, xo + i + 2, x, xo, 1);
    ScaleStep(i + 3, da, dx, xo + i + 3, x, xo, 1);
    ScaleStep(i + 4, da, dx, xo + i + 4, x, xo, 1);
  }

  // ---------------------------------------------------------------- idamax_

  /** The n elements that idamax_ looks at. */
  function Picked(x: Vec, xo: int, incx: int, n: nat): (v: Vec)
    requires Strided(|x|, xo, incx, n)
    ensures |v| == n && forall i | 0 <= i < n :: v[i] == x[xo + i * incx]
  {
    seq(n, i requires 0 <= i < n => x[xo + i * incx])
  }

  lemma {:induction false} PickedAt(x: Vec, xo: int, incx: int, n: nat, i: nat, ix: int)
    requires Strided(|x|, xo, incx, n) && i < n && ix == xo + i * incx
    ensures 0 <= ix < |x| && x[ix] == Picked(x, xo, incx, n)[i]
  {
  }

  /** The 1-based position of the first element of largest modulus, 0 for an empty vector. */
  method Idamax(n: int, dx: array<real>, xo: int, incx: int) returns (r: int)
    requires n >= 1 ==> Strided(dx.Length, xo, incx, n)
    ensures n < 1 ==> r == 0
    ensures n >= 1 ==> r >= 1 && IsPivot(Picked(dx[..], xo, incx, n), 0, r - 1)
  {
    r := 0;
    if n < 1 {
      return;
    }
    r := 1;
    if n == 1 {
      return;
    }
    hide IsPivot, Strided;
    if incx == 1 {
      r := IdamaxUnit(n, dx, xo);
    } else {
      r := IdamaxStrided(n, dx, xo, incx);
    }
  }

  method IdamaxStrided(n: int, dx: array<real>, xo: int, incx: int) returns (r: int)
    requires n >= 2 && Strided(dx.Length, xo, incx, n)
    ensures r >= 1 && IsPivot(Picked(dx[..], xo, incx, n), 0, r - 1)
  {
    hide Abs, Strided, Picked;
    ghost var x := dx[..];
    ghost var s := Picked(x, xo, incx, n);
    PickedAt(x, xo, incx, n, 0, xo);
    var ix, dmax, i := xo + incx, Abs(dx[xo]), 1;
    r := 1;
    while i < n
      invariant 1 <= i <= n && ix == xo + i * incx
      invariant 1 <= r <= i && dmax == Abs(s[r - 1])
      invariant forall j | 0 <= j < i :: Abs(s[j]) <= dmax
      invariant forall j | 0 <= j < r - 1 :: Abs(s[j]) < dmax
    {
      PickedAt(x, xo, incx, n, i, ix);
      if !(Abs(dx[ix]) <= dmax) {
        r := i + 1;
        dmax := Abs(dx[ix]);
      }
      NextStride(incx, i);
      ix := ix + incx;
      i := i + 1;
    }
  }

  method IdamaxUnit(n: int, dx: array<real>, xo: int) returns (r: int)
    requires n >= 1 && Strided(dx.Length, xo, 1, n)
    ensures r >= 1 && IsPivot(Picked(dx[..], xo, 1, n), 0, r - 1)
  {
    hide Abs, Strided, Picked;
    ghost var x := dx[..];
    ghost var s := Picked(x, xo, 1, n);
    PickedAt(x, xo, 1, n, 0, xo);
    var dmax, i := Abs(dx[xo]), 1;
    r := 1;
    while i < n
      invariant 1 <= i <= n && 1 <= r <= i && dmax == Abs(s[r - 1])
      invariant forall j | 0 <= j < i :: Abs(s[j]) <= dmax
      invariant forall j | 0 <= j < r - 1 :: Abs(s[j]) < dmax
    {
      PickedAt(x, xo, 1, n, i, xo + i);
      if !(Abs(dx[xo + i]) <= dmax) {
        r := i + 1;
        dmax := Abs(dx[xo + i]);
      }
      i := i + 1;
    }
  }
}
