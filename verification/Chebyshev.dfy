/** Chebyshev polynomials of the first kind and the upward recurrence that evaluates them in
    example/hypergeometric_luke_algorithms.cpp. */
module Chebyshev {
  import opened Reals
  import opened Words

  /** T_n(x) */
  function T(n: nat, x: real): real {
    if n == 0 then 1.0 else if n == 1 then x else 2.0 * Mul(x, T(n - 1, x)) - T(n - 2, x)
  }

  function Index(n: int): nat {
    if n < 0 then -n else n
  }

  /** T_n for any integer n, by T_(-n) = T_n. */
  function TZ(n: int, x: real): real {
    T(Index(n), x)
  }

  /** T_0(x), ..., T_(n-1)(x) */
  function Values(n: nat, x: real): (s: seq<real>)
    ensures |s| == n
  {
    seq(n, k requires 0 <= k < n => T(k, x))
  }

  /** std::vector */
  class Vector {
    var items: seq<real>

    constructor ()
      ensures items == []
    {
      items := [];
    }
  }

  // ------------------------------------------------- the program

  /** static_cast<std::int32_t> of a 32-bit unsigned integer. */
  function Signed(n: nat): (k: int)
    requires n <= 0xFFFF_FFFF
    ensures -0x8000_0000 <= k <= 0x7FFF_FFFF
  {
    if n <= 0x7FFF_FFFF then n else n - 0x1_0000_0000
  }

  /** What the function returns: from n = 2^31 on the signed copy of n is negative and the loop is
      skipped, so that it is the value unset of the variable without an initializer. */
  function Returned(n: nat, x: real, unset: real): real {
    if n <= 0x7FFF_FFFF then T(n, x) else unset
  }

  /** orthogonal_polynomial_template; vp may be null. With n = 2^31 - 1 the signed counter overflows
      after the last pass; the model reports that and ends there. */
  method OrthogonalPolynomialTemplate(x: real, n: nat, vp: Vector?, unset: real) returns (yk: real, overflow: bool)
    requires n <= 0xFFFF_FFFF
    modifies vp
    ensures overflow <==> n == 0x7FFF_FFFF
    ensures yk == Returned(n, x, unset)
    ensures vp != null ==> vp.items == Values(if n <= 0x7FFF_FFFF then n + 1 else 2, x)
  {
    hide T, Mul, Values;
    overflow := false;
    FirstValues(x);
    if vp != null {
      vp.items := [];
    }
    var y0 := 1.0;
    if vp != null {
      vp.items := vp.items + [y0];
    }
    if n == 0 {
      return y0, false;
    }
    var y1 := x;
    if vp != null {
      vp.items := vp.items + [y1];
    }
    if n == 1 {
      return y1, false;
    }
    var a, b, c := 2.0, 0.0, 1.0;
    yk := unset;
    var k: Int32 := 2;
    var last := Signed(n) as Int32;
    while k <= last
      invariant 2 <= k as int <= n + 1 && (n > 0x7FFF_FFFF ==> k == 2)
      invariant y0 == T(k as int - 2, x) && y1 == T(k as int - 1, x) && yk == if k == 2 then unset else y1
      invariant vp != null ==> vp.items == Values(k as int, x)
    {
      Recurrence(k as int, x, y0, y1);
      yk := (((a * x) + b) * y1) - (c * y0);
      y0 := y1;
      y1 := yk;
      if vp != null {
        vp.items := vp.items + [yk];
      }
      if k == 0x7FFF_FFFF {
        return yk, true;
      }
      k := k + 1;
    }
  }

  /** At x = 1, where every polynomial is 1, the degree 2^31 gives whatever was in the variable. */
  lemma {:induction false} LargeDegreeFails(unset: real)
    requires unset != 1.0
    ensures Returned(0x8000_0000, 1.0, unset) != T(0x8000_0000, 1.0)
  {
    hide T;
    AtOne(0x8000_0000);
  }

  lemma {:induction false} AtOne(n: nat)
    ensures T(n, 1.0) == 1.0
  {
    hide Mul;
    if n > 1 {
      AtOne(n - 1);
      AtOne(n - 2);
      MulOne(1.0);
    }
  }

  lemma {:induction false} FirstValues(x: real)
    ensures T(0, x) == 1.0 && T(1, x) == x
    ensures Values(1, x) == [1.0] && Values(2, x) == [1.0, x]
  {
  }

  lemma {:induction false} Recurrence(k: nat, x: real, y0: real, y1: real)
    requires k >= 2 && y0 == T(k - 2, x) && y1 == T(k - 1, x)
    ensures ((2.0 * x) + 0.0) * y1 - 1.0 * y0 == T(k, x)
    ensures Values(k + 1, x) == Values(k, x) + [T(k, x)]
  {
    assert ((2.0 * x) + 0.0) * y1 == 2.0 * (x * y1);
  }

  /** chebyshev_t: a negative x and a negative n are reflected. For n = -2^31 the negation overflows,
      and for n of modulus 2^31 - 1 the counter does. */
  method ChebyshevT(n: Int32, x: real) returns (y: real, overflow: bool)
    ensures overflow <==> n == -0x8000_0000 || Index(n as int) == 0x7FFF_FFFF
    ensures !overflow ==> y == TZ(n as int, x)
    decreases x < 0.0, n < 0
  {
    hide T;
    if x < 0.0 {
      var negate := n % 2 != 0;
      var z;
      z, overflow := ChebyshevT(n, -x);
      Reflection(Index(n as int), x);
      return if !negate then z else -z, overflow;
    }
    if n < 0 {
      if n == -0x8000_0000 {
        return 0.0, true;
      }
      var nn := -n;
      y, overflow := ChebyshevT(nn, x);
    } else {
      y, overflow := OrthogonalPolynomialTemplate(x, n as int, null, 0.0);
    }
  }

  // ------------------------------------------------- reflection

  /** T_n(-x) = (-1)^n T_n(x) */
  lemma {:induction false} Reflection(n: nat, x: real)
    ensures T(n, -x) == if n % 2 == 0 then T(n, x) else -T(n, x)
  {
    hide Mul;
    if n > 1 {
      Reflection(n - 1, x);
      Reflection(n - 2, x);
      var t := T(n - 1, x);
      MulSigns(x, t);
    }
  }

  lemma {:induction false} MulSigns(x: real, y: real)
    ensures Mul(-x, y) == -Mul(x, y) && Mul(-x, -y) == Mul(x, y)
  {
  }

  // ------------------------------------------------- products and composition

  /** The recurrence, at any integer. */
  lemma {:induction false} Neighbours(n: int, x: real)
    ensures TZ(n + 1, x) + TZ(n - 1, x) == 2.0 * Mul(x, TZ(n, x))
  {
    hide Mul;
    if n == 0 {
      MulCommutes(x, 1.0);
      MulOne(x);
    }
  }

  /** 2 T_m T_n = T_(n+m) + T_(n-m) */
  lemma {:induction false} ProductToSum(m: nat, n: int, x: real)
    ensures 2.0 * Mul(T(m, x), TZ(n, x)) == TZ(n + m, x) + TZ(n - m, x)
  {
    hide Mul, TZ;
    var t := TZ(n, x);
    if m == 0 {
      MulOne(t);
    } else if m == 1 {
      Neighbours(n, x);
    } else {
      ProductToSum(m - 1, n, x);
      ProductToSum(m - 2, n, x);
      Neighbours(n + m - 1, x);
      Neighbours(n - m + 1, x);
      ProductStep(x, T(m - 1, x), T(m - 2, x), t, TZ(n + m - 1, x), TZ(n - m + 1, x));
    }
  }

  lemma {:induction false} ProductStep(x: real, u: real, v: real, t: real, p: real, q: real)
    requires 2.0 * Mul(u, t) == p + q
    ensures 2.0 * Mul(2.0 * Mul(x, u) - v, t) == 2.0 * Mul(x, p) + 2.0 * Mul(x, q) - 2.0 * Mul(v, t)
  {
    assert (2.0 * (x * u) - v) * t == x * (2.0 * (u * t)) - v * t;
    assert x * (p + q) == x * p + x * q;
  }

  /** T_m(T_n(x)) = T_(mn)(x) */
  lemma {:induction false} Composition(m: nat, n: nat, x: real)
    ensures m * n >= 0 && T(m, T(n, x)) == T(m * n, x)
  {
    hide Mul;
    if m > 1 {
      Composition(m - 1, n, x);
      Composition(m - 2, n, x);
      IndexProducts(m, n);
      ProductToSum(n, (m - 1) * n, x);
    }
  }

  lemma {:induction false} IndexProducts(m: nat, n: nat)
    requires m > 1
    ensures 0 <= (m - 2) * n == (m - 1) * n - n && 0 <= (m - 1) * n && m * n == (m - 1) * n + n
  {
  }

  // ------------------------------------------------- the bound

  /** The quadratic form that consecutive values conserve. */
  function Form(x: real, u: real, v: real): real {
    u * u + v * v - 2.0 * x * (u * v)
  }

  /** T_n^2 + T_(n+1)^2 - 2x T_n T_(n+1) does not depend on n. */
  lemma {:induction false} ConservedForm(n: nat, x: real)
    ensures Form(x, T(n, x), T(n + 1, x)) == 1.0 - x * x
  {
    hide Form, Mul;
    if n == 0 {
      FormStart(x);
    } else {
      ConservedForm(n - 1, x);
      FormStep(x, T(n - 1, x), T(n, x), T(n + 1, x));
    }
  }

  lemma {:induction false} FormStart(x: real)
    ensures Form(x, 1.0, x) == 1.0 - x * x
  {
  }

  lemma {:induction false} FormStep(x: real, u: real, v: real, w: real)
    requires w == 2.0 * Mul(x, v) - u
    ensures Form(x, v, w) == Form(x, u, v)
  {
    assert w * (w - 2.0 * (x * v)) == -(w * u);
    assert w * u == 2.0 * (x * v) * u - u * u;
    assert 2.0 * x * (v * w) == w * (2.0 * (x * v));
    assert 2.0 * x * (u * v) == 2.0 * (x * v) * u;
  }

  lemma {:induction false} AtEnds(n: nat, x: real)
    requires x * x == 1.0
    ensures T(n, x) * T(n, x) == 1.0 && T(n + 1, x) == x * T(n, x)
  {
    hide Mul;
    if n > 0 {
      AtEnds(n - 1, x);
      EndStep(x, T(n - 1, x), T(n, x));
    }
  }

  lemma {:induction false} EndStep(x: real, u: real, v: real)
    requires x * x == 1.0 && u * u == 1.0 && v == x * u
    ensures v * v == 1.0 && 2.0 * Mul(x, v) - u == x * v
  {
    assert x * v == (x * x) * u;
    assert v * v == (x * x) * (u * u);
  }

  lemma {:induction false} BoundCore(x: real, u: real, v: real)
    requires Form(x, u, v) == 1.0 - x * x && x * x < 1.0
    ensures u * u <= 1.0
  {
    var d, c := v - x * u, 1.0 - x * x;
    assert d * d >= 0.0;
    assert d * d == v * v - 2.0 * x * (u * v) + (x * x) * (u * u);
    assert c * (1.0 - u * u) == d * d by {
      assert c * (1.0 - u * u) == 1.0 - x * x - u * u + (x * x) * (u * u);
    }
    SignOfFactor(c, 1.0 - u * u);
  }

  lemma {:induction false} SignOfFactor(c: real, t: real)
    requires c > 0.0 && c * t >= 0.0
    ensures t >= 0.0
  {
  }

  lemma {:induction false} SquareBound(u: real)
    requires u * u <= 1.0
    ensures Abs(u) <= 1.0
  {
  }

  lemma {:induction false} SignedProduct(u: real, v: real)
    requires u >= 0.0 && v >= 0.0
    ensures u * v >= 0.0
  {
  }

  lemma {:induction false} SquareOfSmall(x: real)
    requires Abs(x) <= 1.0
    ensures x * x <= 1.0
  {
    SignedProduct(1.0 - x, 1.0 + x);
  }

  /** |T_n(x)| <= 1 for |x| <= 1 */
  lemma {:induction false} Bounded(n: nat, x: real)
    requires Abs(x) <= 1.0
    ensures Abs(T(n, x)) <= 1.0
  {
    hide T, Form;
    SquareOfSmall(x);
    if x * x < 1.0 {
      ConservedForm(n, x);
      BoundCore(x, T(n, x), T(n + 1, x));
    } else {
      AtEnds(n, x);
    }
    SquareBound(T(n, x));
  }

  /** T_n(-1) = (-1)^n */
  lemma {:induction false} AtMinusOne(n: nat)
    ensures T(n, -1.0) == if n % 2 == 0 then 1.0 else -1.0
  {
    if n > 1 {
      AtMinusOne(n - 1);
      AtMinusOne(n - 2);
    }
  }
}
