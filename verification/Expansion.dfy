/** What a backward recurrence achieves. Suppose an operator maps the k-th basis function to
    t(k) = w0(k) Y(k) + w1(k-1) Y(k-1) + ... + w4(k-4) Y(k-4). If the coefficients annihilate the
    weights at every index up to n, the operator maps the whole sum to one multiple of Y(n+1). */
module Expansion {
  import opened Reals
  import opened Luke

  datatype Weights = Weights(w0: int -> real, w1: int -> real, w2: int -> real, w3: int -> real, w4: int -> real)

  /** The sum of l[i] * g(k + i). */
  function Combination(l: seq<real>, g: int -> real, k: int): real {
    if l == [] then 0.0 else Mul(l[0], g(k)) + Combination(l[1..], g, k + 1)
  }

  ghost predicate Expands(t: int -> real, Y: int -> real, w: Weights, n: nat) {
    forall k | 0 <= k <= n + 1 :: ExpandsAt(t, Y, w, k)
  }

  ghost predicate ExpandsAt(t: int -> real, Y: int -> real, w: Weights, k: int) {
    t(k) == Mul(w.w0(k), Y(k)) + Mul(w.w1(k - 1), Y(k - 1)) + Mul(w.w2(k - 2), Y(k - 2))
            + Mul(w.w3(k - 3), Y(k - 3)) + Mul(w.w4(k - 4), Y(k - 4))
  }

  /** The part of the recurrence at x that the entries of l, from place i on, contribute. */
  function Part1(w: Weights, x: int, l: seq<real>): real {
    Mul(w.w1(x), Nth(l, 0)) + Part2(w, x, l, 0)
  }

  function Part2(w: Weights, x: int, l: seq<real>, i: nat): real
    requires i <= 1
  {
    Mul(w.w2(x), Nth(l, 1 - i)) + Part3(w, x, l, i)
  }

  function Part3(w: Weights, x: int, l: seq<real>, i: nat): real
    requires i <= 2
  {
    Mul(w.w3(x), Nth(l, 2 - i)) + Part4(w, x, l, i)
  }

  function Part4(w: Weights, x: int, l: seq<real>, i: nat): real
    requires i <= 3
  {
    Mul(w.w4(x), Nth(l, 3 - i))
  }

  /** The recurrence holds at x for the coefficient c put in front of l. */
  predicate Annihilates(w: Weights, x: int, c: real, l: seq<real>) {
    Mul(w.w0(x), c) + Part1(w, x, l) == 0.0
  }

  /** The part of the sum that coefficients before x will cancel. */
  function Pending(Y: int -> real, w: Weights, x: int, l: seq<real>): real {
    Mul(Part1(w, x - 1, l), Y(x - 1)) + Mul(Part2(w, x - 2, l, 1), Y(x - 2))
    + Mul(Part3(w, x - 3, l, 2), Y(x - 3)) + Mul(Part4(w, x - 4, l, 3), Y(x - 4))
  }

  lemma {:induction false} StepCore(c: real, a0: real, a1: real, a2: real, a3: real, a4: real,
                                    b1: real, b2: real, b3: real, b4: real,
                                    y0: real, y1: real, y2: real, y3: real, y4: real)
    requires Mul(a0, c) + b1 == 0.0
    ensures Mul(c, Mul(a0, y0) + Mul(a1, y1) + Mul(a2, y2) + Mul(a3, y3) + Mul(a4, y4))
            + Mul(b1, y0) + Mul(b2, y1) + Mul(b3, y2) + Mul(b4, y3)
            == Mul(Mul(a1, c) + b2, y1) + Mul(Mul(a2, c) + b3, y2) + Mul(Mul(a3, c) + b4, y3) + Mul(Mul(a4, c), y4)
  {
    hide Mul;
    Distribute(c, a0, b1, y0);
    Distribute(c, a1, b2, y1);
    Distribute(c, a2, b3, y2);
    Distribute(c, a3, b4, y3);
    Distribute(c, a4, 0.0, y4);
    MulZero(y0);
    MulZero(y4);
    MulDistributes(c, Mul(a0, y0), Mul(a1, y1));
    MulDistributes(c, Mul(a0, y0) + Mul(a1, y1), Mul(a2, y2));
    MulDistributes(c, Mul(a0, y0) + Mul(a1, y1) + Mul(a2, y2), Mul(a3, y3));
    MulDistributes(c, Mul(a0, y0) + Mul(a1, y1) + Mul(a2, y2) + Mul(a3, y3), Mul(a4, y4));
  }

  lemma {:induction false} Distribute(c: real, a: real, b: real, y: real)
    ensures Mul(c, Mul(a, y)) + Mul(b, y) == Mul(Mul(a, c) + b, y)
  {
    assert c * (a * y) == (a * c) * y;
  }

  /** One backward step cancels the term in Y(x). */
  lemma {:induction false} PendingStep(t: int -> real, Y: int -> real, w: Weights, x: int, c: real, l: seq<real>)
    requires ExpandsAt(t, Y, w, x) && Annihilates(w, x, c, l)
    ensures Mul(c, t(x)) + Pending(Y, w, x + 1, l) == Pending(Y, w, x, [c] + l)
  {
    hide Mul;
    StepCore(c, w.w0(x), w.w1(x - 1), w.w2(x - 2), w.w3(x - 3), w.w4(x - 4),
             Part1(w, x, l), Part2(w, x - 1, l, 1), Part3(w, x - 2, l, 2), Part4(w, x - 3, l, 3),
             Y(x), Y(x - 1), Y(x - 2), Y(x - 3), Y(x - 4));
    var m := [c] + l;
    assert Nth(m, 0) == c && Nth(m, 1) == Nth(l, 0) && Nth(m, 2) == Nth(l, 1) && Nth(m, 3) == Nth(l, 2);
  }

  lemma {:induction false} PendingStart(t: int -> real, Y: int -> real, w: Weights, x: int, c: real)
    requires ExpandsAt(t, Y, w, x)
    ensures Mul(c, t(x)) == Mul(Mul(w.w0(x), c), Y(x)) + Pending(Y, w, x, [c])
  {
    StartCore(c, w.w0(x), w.w1(x - 1), w.w2(x - 2), w.w3(x - 3), w.w4(x - 4),
              Y(x), Y(x - 1), Y(x - 2), Y(x - 3), Y(x - 4));
    hide Mul;
    var l := [c];
    assert Nth(l, 0) == c && Nth(l, 1) == 0.0 && Nth(l, 2) == 0.0 && Nth(l, 3) == 0.0;
    ZeroRight(w.w2(x - 1));
    ZeroRight(w.w3(x - 1));
    ZeroRight(w.w4(x - 1));
    ZeroRight(w.w3(x - 2));
    ZeroRight(w.w4(x - 2));
    ZeroRight(w.w4(x - 3));
  }

  lemma {:induction false} ZeroRight(a: real)
    ensures Mul(a, 0.0) == 0.0
  {
  }

  lemma {:induction false} StartCore(c: real, a0: real, a1: real, a2: real, a3: real, a4: real,
                                     y0: real, y1: real, y2: real, y3: real, y4: real)
    ensures Mul(c, Mul(a0, y0) + Mul(a1, y1) + Mul(a2, y2) + Mul(a3, y3) + Mul(a4, y4))
            == Mul(Mul(a0, c), y0) + Mul(Mul(a1, c), y1) + Mul(Mul(a2, c), y2) + Mul(Mul(a3, c), y3) + Mul(Mul(a4, c), y4)
  {
    hide Mul;
    MulZero(c);
    StepCore(c, 0.0, a1, a2, a3, a4, 0.0, 0.0, 0.0, 0.0, y0, y1, y2, y3, y4);
    MulZero(y0);
    MulZero(y1);
    MulZero(y2);
    MulZero(y3);
    Distribute(c, a0, 0.0, y0);
    var s := Mul(a1, y1) + Mul(a2, y2) + Mul(a3, y3) + Mul(a4, y4);
    MulDistributes(c, Mul(a0, y0), s);
  }

  /** The coefficients of the kind f annihilate the weights. */
  ghost predicate Solves(f: Kind, W: real, w: Weights, n: nat)
    requires W != 0.0 && NoZeroDivisor(f, n)
  {
    forall x: nat, l: seq<real> | x <= n :: Divides(f, x) && Annihilates(w, x, Term(f, W, x, l), l)
  }

  lemma {:induction false} PartialSum(f: Kind, W: real, n: nat, start: real, t: int -> real, Y: int -> real, w: Weights, j: nat)
    requires W != 0.0 && NoZeroDivisor(f, n) && j <= n + 1
    requires Expands(t, Y, w, n) && Solves(f, W, w, n)
    ensures var l := Backward(f, W, n, j, start);
            Combination(l, t, n + 1 - j) == Mul(Mul(w.w0(n + 1), start), Y(n + 1)) + Pending(Y, w, n + 1 - j, l)
    decreases j
  {
    hide Mul, Term, Annihilates, Pending, ExpandsAt;
    if j == 0 {
      assert ExpandsAt(t, Y, w, n + 1);
      PendingStart(t, Y, w, n + 1, start);
      assert Combination([start][1..], t, n + 2) == 0.0;
    } else {
      PartialSum(f, W, n, start, t, Y, w, j - 1);
      var l := Backward(f, W, n, j - 1, start);
      var x := n + 1 - j;
      var c := Term(f, W, x, l);
      assert ExpandsAt(t, Y, w, x);
      PendingStep(t, Y, w, x, c, l);
      assert ([c] + l)[1..] == l;
    }
  }

  /** The sum over all coefficients is a single multiple of Y(n+1). */
  lemma {:induction false} WholeSum(f: Kind, W: real, n: nat, start: real, t: int -> real, Y: int -> real, w: Weights)
    requires W != 0.0 && NoZeroDivisor(f, n)
    requires Expands(t, Y, w, n) && Solves(f, W, w, n)
    requires Y(-1) == 0.0 && Y(-2) == 0.0 && Y(-3) == 0.0 && Y(-4) == 0.0
    ensures Combination(Backward(f, W, n, n + 1, start), t, 0) == Mul(Mul(w.w0(n + 1), start), Y(n + 1))
  {
    hide Mul, Part1, Part2, Part3, Part4, Expands, Solves, Combination, Backward;
    PartialSum(f, W, n, start, t, Y, w, n + 1);
    var l := Backward(f, W, n, n + 1, start);
    ZeroRight(Part1(w, -1, l));
    ZeroRight(Part2(w, -2, l, 1));
    ZeroRight(Part3(w, -3, l, 2));
    ZeroRight(Part4(w, -4, l, 3));
  }
}
