/** Exact real arithmetic shared by the models. */
module Reals {

  function Abs(x: real): real {
    if x < 0.0 then -x else x
  }

  /** Multiplication under a name of its own: proofs that only rearrange products hide its body. */
  function Mul(x: real, y: real): real {
    x * y
  }

  lemma {:induction false} MulIs(x: real, y: real)
    ensures x * y == Mul(x, y)
  {
  }

  function Cube(x: real): real {
    x * x * x
  }

  lemma {:induction false} MulCommutes(x: real, y: real)
    ensures Mul(x, y) == Mul(y, x)
  {
  }

  lemma {:induction false} MulDistributes(x: real, y: real, z: real)
    ensures Mul(x, y + z) == Mul(x, y) + Mul(x, z)
    ensures Mul(x, y - z) == Mul(x, y) - Mul(x, z)
  {
  }

  lemma {:induction false} MulAssociates(x: real, y: real, z: real)
    ensures Mul(Mul(x, y), z) == Mul(x, Mul(y, z))
  {
  }

  lemma {:induction false} MulZero(x: real)
    ensures Mul(0.0, x) == 0.0
  {
  }

  lemma {:induction false} MulOne(x: real)
    ensures Mul(1.0, x) == x
  {
  }

  lemma {:induction false} MulCancels(x: real, y: real, z: real)
    requires z != 0.0 && Mul(x, z) == Mul(y, z)
    ensures x == y
  {
    assert x == x * z / z && y == y * z / z;
  }

  /** x^n */
  function Pow(x: real, n: nat): real {
    if n == 0 then 1.0 else Mul(x, Pow(x, n - 1))
  }

  /** n! */
  function Factorial(n: nat): (f: real)
    ensures f > 0.0
  {
    if n == 0 then 1.0 else Mul(n as real, Factorial(n - 1))
  }

  lemma {:induction false} FactorialNext(n: nat)
    requires n > 0
    ensures Factorial(n) == Mul(n as real, Factorial(n - 1))
  {
  }

  lemma {:induction false} PositiveProduct(x: real, y: real)
    requires x > 0.0 && y > 0.0
    ensures Mul(x, y) > 0.0
  {
  }

  lemma {:induction false} MulOrder(x: real, y: real, u: real, v: real)
    requires 0.0 <= x <= y && 0.0 <= u <= v
    ensures 0.0 <= Mul(x, u) <= Mul(y, v)
  {
    Ordered(u, 0.0, x);
    Ordered(u, x, y);
    Ordered(y, u, v);
    assert x * u == u * x && y * u == u * y;
  }

  lemma {:induction false} Ordered(w: real, x: real, y: real)
    requires w >= 0.0 && x <= y
    ensures w * x <= w * y
  {
  }

  lemma {:induction false} StrictOrder(x: real, y: real, w: real)
    requires x < y && w > 0.0
    ensures Mul(x, w) < Mul(y, w)
  {
    PositiveProduct(y - x, w);
    assert (y - x) * w == y * w - x * w;
  }

  lemma {:induction false} CancelLess(x: real, y: real, s: real)
    requires s > 0.0 && Mul(x, s) <= Mul(y, s)
    ensures x <= y
  {
    if x > y {
      StrictOrder(y, x, s);
    }
  }

  /** x is in the interval from lo to hi. */
  predicate Inside(x: real, lo: real, hi: real) {
    lo <= x <= hi
  }

  lemma {:induction false} SquareInside(x: real, lo: real, hi: real)
    requires 0.0 <= lo && Inside(x, lo, hi)
    ensures Inside(x * x, lo * lo, hi * hi)
  {
    SquareOrder(lo, x);
    SquareOrder(x, hi);
  }

  /** A quotient between bounds, checked by multiplication. */
  lemma {:induction false} QuotientInside(x: real, y: real, lo: real, hi: real)
    requires y > 0.0 && lo * y <= x <= hi * y
    ensures Inside(x / y, lo, hi)
  {
    var q := x / y;
    assert Mul(q, y) == x && Mul(lo, y) == lo * y && Mul(hi, y) == hi * y;
    hide Mul;
    CancelLess(lo, q, y);
    CancelLess(q, hi, y);
  }

  lemma {:induction false} NegativeProduct(x: real, y: real)
    requires x < 0.0 && y > 0.0
    ensures Mul(x, y) < 0.0
  {
    PositiveProduct(-x, y);
    assert x * y == -((-x) * y);
  }

  /** A factor of a nonnegative product, when the other factor is at least 1/16. */
  lemma {:induction false} FactorSize(x: real, y: real)
    requires y >= 0.0625 && Mul(x, y) >= 0.0
    ensures 0.0 <= x <= 16.0 * Mul(x, y)
  {
    if x < 0.0 {
      NegativeProduct(x, y);
    } else {
      Ordered(x, 0.0625, y);
    }
  }

  lemma {:induction false} SquareOrder(x: real, y: real)
    requires 0.0 <= x <= y
    ensures x * x <= y * y
  {
    assert x * x <= x * y <= y * y;
  }

  lemma {:induction false} PowAdds(x: real, i: nat, j: nat)
    ensures Pow(x, i + j) == Mul(Pow(x, i), Pow(x, j))
  {
    hide Mul;
    if i == 0 {
      MulOne(Pow(x, j));
    } else {
      PowAdds(x, i - 1, j);
      MulAssociates(x, Pow(x, i - 1), Pow(x, j));
    }
  }
}
