/** laguerre_l_object of example/gauss_laguerre_quadrature.cpp: the recurrence for the generalized
    Laguerre polynomials and their derivatives. */
module Laguerre {
  import opened Reals
  import opened Polynomials

  /** (alpha + i + 1) ... (alpha + n) */
  function Rising(alpha: real, i: nat, n: nat): real
    requires i <= n
  {
    if i == n then 1.0 else Mul(Rising(alpha, i, n - 1), alpha + n as real)
  }

  function Sign(i: nat): real {
    if i % 2 == 0 then 1.0 else -1.0
  }

  /** The coefficient of x^i in L_n: (-1)^i (alpha+i+1)...(alpha+n) / ((n-i)! i!). */
  function Coefficient(alpha: real, n: nat, i: nat): real
    requires i <= n
  {
    PositiveProduct(Factorial(n - i), Factorial(i));
    Mul(Sign(i), Rising(alpha, i, n)) / Mul(Factorial(n - i), Factorial(i))
  }

  /** The generalized Laguerre polynomial L_n, and no terms for a negative n. */
  function LaguerreL(alpha: real, n: int): Poly {
    if n < 0 then [] else seq(n + 1, i requires 0 <= i < n + 1 => Coefficient(alpha, n, i))
  }

  /** The coefficient of x^i for any i. */
  function C(alpha: real, n: int, i: int): real {
    At(LaguerreL(alpha, n), i)
  }

  // ------------------------------------------------- relations between the coefficients

  lemma {:induction false} Clear(p: real, d: real)
    requires d > 0.0
    ensures Mul(p / d, d) == p
  {
  }

  /** The closed form with the denominator cleared. */
  lemma {:induction false} Cleared(alpha: real, n: nat, i: nat)
    requires i <= n
    ensures Mul(C(alpha, n, i), Mul(Factorial(n - i), Factorial(i))) == Mul(Sign(i), Rising(alpha, i, n))
  {
    hide Mul, Rising, Factorial, Sign;
    PositiveProduct(Factorial(n - i), Factorial(i));
    Clear(Mul(Sign(i), Rising(alpha, i, n)), Mul(Factorial(n - i), Factorial(i)));
  }

  lemma {:induction false} CancelFactor(x: real, y: real, f: real)
    requires f != 0.0 && Mul(x, f) == Mul(y, f)
    ensures x == y
  {
    MulCancels(x, y, f);
  }

  /** (n-i) C(n,i) = (n+alpha) C(n-1,i) */
  lemma {:induction false} Upward(alpha: real, n: nat, i: nat)
    requires n > 0 && i <= n
    ensures Mul((n - i) as real, C(alpha, n, i)) == Mul(n as real + alpha, C(alpha, n - 1, i))
  {
    hide Factorial, Sign, Rising, C;
    if i == n {
      BeyondDegree(alpha, n - 1, n);
      ZeroProducts(C(alpha, n, n), n as real + alpha);
    } else {
      Cleared(alpha, n, i);
      Cleared(alpha, n - 1, i);
      RisingNext(alpha, i, n);
      FactorialNext(n - i);
      var u, v := Factorial(n - 1 - i), Factorial(i);
      UpCore(C(alpha, n, i), C(alpha, n - 1, i), (n - i) as real, n as real + alpha, u, v, Sign(i), Rising(alpha, i, n - 1));
    }
  }

  lemma {:induction false} ZeroProducts(x: real, y: real)
    ensures Mul(0.0, x) == 0.0 && Mul(y, 0.0) == 0.0
  {
  }

  lemma {:induction false} RisingNext(alpha: real, i: nat, n: nat)
    requires i < n
    ensures Rising(alpha, i, n) == Mul(Rising(alpha, i, n - 1), alpha + n as real)
  {
  }

  lemma {:induction false} UpCore(c: real, d: real, m: real, a: real, u: real, v: real, s: real, r: real)
    requires u > 0.0 && v > 0.0
    requires Mul(c, Mul(Mul(m, u), v)) == Mul(s, Mul(r, a)) && Mul(d, Mul(u, v)) == Mul(s, r)
    ensures Mul(m, c) == Mul(a, d)
  {
    assert u * v > 0.0;
    assert (m * c) * (u * v) == c * ((m * u) * v);
    assert (a * d) * (u * v) == a * (d * (u * v));
    assert a * (s * r) == s * (r * a);
    CancelFactor(m * c, a * d, u * v);
  }

  lemma {:induction false} BeyondDegree(alpha: real, n: int, i: int)
    requires i < 0 || i > n
    ensures C(alpha, n, i) == 0.0
  {
  }

  lemma {:induction false} RisingFirst(alpha: real, i: nat, n: nat)
    requires i < n
    ensures Rising(alpha, i, n) == Mul(alpha + (i + 1) as real, Rising(alpha, i + 1, n))
  {
    hide Mul;
    var a := alpha + (i + 1) as real;
    if n == i + 1 {
      MulCommutes(1.0, a);
    } else {
      RisingFirst(alpha, i, n - 1);
      MulAssociates(a, Rising(alpha, i + 1, n - 1), alpha + n as real);
    }
  }

  /** i (alpha+i) C(n,i) = -(n-i+1) C(n,i-1) */
  lemma {:induction false} Downward(alpha: real, n: nat, i: nat)
    requires 0 < i <= n + 1
    ensures Mul(Mul(i as real, alpha + i as real), C(alpha, n, i)) == -Mul((n - i + 1) as real, C(alpha, n, i - 1))
  {
    hide Factorial, Sign, Rising, C, Mul;
    if i == n + 1 {
      BeyondDegree(alpha, n, i);
      ZeroProducts(C(alpha, n, n), Mul(i as real, alpha + i as real));
    } else {
      Cleared(alpha, n, i);
      Cleared(alpha, n, i - 1);
      RisingFirst(alpha, i - 1, n);
      FactorialNext(n - i + 1);
      FactorialNext(i);
      SignNext(i);
      var u, v := Factorial(n - i), Factorial(i - 1);
      DownCore(C(alpha, n, i), C(alpha, n, i - 1), (n - i + 1) as real, i as real, alpha + i as real, u, v, Sign(i), Rising(alpha, i, n));
    }
  }

  lemma {:induction false} SignNext(i: nat)
    requires i > 0
    ensures Sign(i - 1) == -Sign(i)
  {
  }

  lemma {:induction false} DownCore(c: real, d: real, m: real, i: real, a: real, u: real, v: real, s: real, r: real)
    requires u > 0.0 && v > 0.0
    requires Mul(c, Mul(u, Mul(i, v))) == Mul(s, r) && Mul(d, Mul(Mul(m, u), v)) == Mul(-s, Mul(a, r))
    ensures Mul(Mul(i, a), c) == -Mul(m, d)
  {
    assert u * v > 0.0;
    assert ((i * a) * c) * (u * v) == a * (c * (u * (i * v)));
    assert (m * d) * (u * v) == d * ((m * u) * v);
    assert (-(m * d)) * (u * v) == a * (s * r);
    CancelFactor((i * a) * c, -(m * d), u * v);
  }

  // ------------------------------------------------- the recurrence, term by term

  /** (n+1) C(n+1,i) = (2n+1+alpha) C(n,i) - C(n,i-1) - (n+alpha) C(n-1,i) */
  lemma {:induction false} RecurrenceTerm(alpha: real, n: nat, i: nat)
    ensures Mul((n + 1) as real, C(alpha, n + 1, i))
            == Mul((2 * n + 1) as real + alpha, C(alpha, n, i)) - C(alpha, n, i - 1) - Mul(n as real + alpha, C(alpha, n - 1, i))
  {
    hide C, Mul;
    if i > n + 1 {
      BeyondDegree(alpha, n + 1, i);
      BeyondDegree(alpha, n, i);
      BeyondDegree(alpha, n, i - 1);
      BeyondDegree(alpha, n - 1, i);
      ZeroProducts(0.0, (n + 1) as real);
      ZeroProducts(0.0, (2 * n + 1) as real + alpha);
      ZeroProducts(0.0, n as real + alpha);
    } else if i == n + 1 {
      BeyondDegree(alpha, n, i);
      BeyondDegree(alpha, n - 1, i);
      ZeroProducts(0.0, (2 * n + 1) as real + alpha);
      ZeroProducts(0.0, n as real + alpha);
      TopTerm(alpha, n);
    } else {
      Upward(alpha, n + 1, i);
      PreviousTerm(alpha, n, i);
      DownwardOrZero(alpha, n, i);
      RecurrenceCore(n as real, i as real, alpha, C(alpha, n + 1, i), C(alpha, n, i), C(alpha, n, i - 1), C(alpha, n - 1, i));
    }
  }

  lemma {:induction false} PreviousTerm(alpha: real, n: nat, i: nat)
    requires i <= n
    ensures Mul((n - i) as real, C(alpha, n, i)) == Mul(n as real + alpha, C(alpha, n - 1, i))
  {
    hide C, Mul;
    if n > 0 {
      Upward(alpha, n, i);
    } else {
      BeyondDegree(alpha, -1, 0);
      ZeroProducts(C(alpha, 0, 0), 0.0 + alpha);
    }
  }

  lemma {:induction false} DownwardOrZero(alpha: real, n: nat, i: nat)
    requires i <= n
    ensures Mul(Mul(i as real, alpha + i as real), C(alpha, n, i)) == -Mul((n - i + 1) as real, C(alpha, n, i - 1))
  {
    if i > 0 {
      Downward(alpha, n, i);
    } else {
      BeyondDegree(alpha, n, -1);
    }
  }

  lemma {:induction false} TopTerm(alpha: real, n: nat)
    ensures Mul((n + 1) as real, C(alpha, n + 1, n + 1)) == -C(alpha, n, n)
  {
    hide Factorial, Sign, Rising, C, Mul;
    Cleared(alpha, n + 1, n + 1);
    Cleared(alpha, n, n);
    FactorialNext(n + 1);
    SignNext(n + 1);
    RisingNone(alpha, n);
    RisingNone(alpha, n + 1);
    TopCore(C(alpha, n + 1, n + 1), C(alpha, n, n), (n + 1) as real, Factorial(n), Sign(n + 1));
  }

  lemma {:induction false} RisingNone(alpha: real, n: nat)
    ensures Rising(alpha, n, n) == 1.0 && Factorial(n - n) == 1.0
  {
  }

  lemma {:induction false} TopCore(c: real, d: real, m: real, f: real, s: real)
    requires f > 0.0 && Mul(c, Mul(1.0, Mul(m, f))) == Mul(s, 1.0) && Mul(d, Mul(1.0, f)) == Mul(-s, 1.0)
    ensures Mul(m, c) == -d
  {
    assert (m * c) * f == c * (m * f);
    assert (-d) * f == s;
    CancelFactor(m * c, -d, f);
  }

  lemma {:induction false} RecurrenceCore(n: real, i: real, a: real, up: real, c: real, left: real, down: real)
    requires n - i + 1.0 != 0.0
    requires Mul(n + 1.0 - i, up) == Mul(n + 1.0 + a, c)
    requires Mul(n - i, c) == Mul(n + a, down)
    requires Mul(Mul(i, a + i), c) == -Mul(n - i + 1.0, left)
    ensures Mul(n + 1.0, up) == Mul(2.0 * n + 1.0 + a, c) - left - Mul(n + a, down)
  {
    hide Mul;
    var m := n + 1.0 - i;
    RecurrenceLeft(n, m, a, up, c);
    RecurrenceRight(n, i, a, c, left, down);
    CancelFactor(Mul(n + 1.0, up), Mul(2.0 * n + 1.0 + a, c) - left - Mul(n + a, down), m);
  }

  lemma {:induction false} RecurrenceLeft(n: real, m: real, a: real, up: real, c: real)
    requires Mul(m, up) == Mul(n + 1.0 + a, c)
    ensures Mul(Mul(n + 1.0, up), m) == Mul(n + 1.0, Mul(n + 1.0 + a, c))
  {
    assert ((n + 1.0) * up) * m == (n + 1.0) * (m * up);
  }

  lemma {:induction false} RecurrenceRight(n: real, i: real, a: real, c: real, left: real, down: real)
    requires Mul(n - i, c) == Mul(n + a, down) && Mul(Mul(i, a + i), c) == -Mul(n - i + 1.0, left)
    ensures Mul(Mul(2.0 * n + 1.0 + a, c) - left - Mul(n + a, down), n + 1.0 - i) == Mul(n + 1.0, Mul(n + 1.0 + a, c))
  {
    var m := n + 1.0 - i;
    assert (((2.0 * n + 1.0 + a) * c) - left - (n - i) * c) * m == (2.0 * n + 1.0 + a) * m * c - (n - i) * m * c - m * left;
    assert (2.0 * n + 1.0 + a) * m - (n - i) * m + i * (a + i) == (n + 1.0) * (n + 1.0 + a);
    assert ((2.0 * n + 1.0 + a) * m - (n - i) * m + i * (a + i)) * c == (2.0 * n + 1.0 + a) * m * c - (n - i) * m * c + (i * (a + i)) * c;
  }

  // ------------------------------------------------- the values

  function L(alpha: real, n: int, x: real): real {
    Eval(LaguerreL(alpha, n), x)
  }

  lemma {:induction false} RecurrenceSum(alpha: real, n: nat, x: real, hi: nat)
    ensures Mul((n + 1) as real, PowerSum(LaguerreL(alpha, n + 1), x, hi))
            == Mul((2 * n + 1) as real + alpha, PowerSum(LaguerreL(alpha, n), x, hi)) - Shifted(LaguerreL(alpha, n), x, 1, hi)
               - Mul(n as real + alpha, PowerSum(LaguerreL(alpha, n - 1), x, hi))
  {
    hide Mul, Pow, LaguerreL, At;
    if hi == 0 {
      ZeroProducts(0.0, (n + 1) as real);
      ZeroProducts(0.0, (2 * n + 1) as real + alpha);
      ZeroProducts(0.0, n as real + alpha);
    } else {
      RecurrenceSum(alpha, n, x, hi - 1);
      RecurrenceTerm(alpha, n, hi - 1);
      TermSum((n + 1) as real, (2 * n + 1) as real + alpha, n as real + alpha, Pow(x, hi - 1),
              C(alpha, n + 1, hi - 1), C(alpha, n, hi - 1), C(alpha, n, hi - 2), C(alpha, n - 1, hi - 1),
              PowerSum(LaguerreL(alpha, n + 1), x, hi - 1), PowerSum(LaguerreL(alpha, n), x, hi - 1),
              PowerSum(LaguerreL(alpha, n - 1), x, hi - 1));
    }
  }

  lemma {:induction false} TermSum(u: real, v: real, w: real, y: real, c1: real, c0: real, cl: real, c2: real, s1: real, s0: real, s2: real)
    requires Mul(u, c1) == Mul(v, c0) - cl - Mul(w, c2)
    ensures Mul(u, s1 + Mul(c1, y)) == Mul(u, s1) + Mul(v, Mul(c0, y)) - Mul(cl, y) - Mul(w, Mul(c2, y))
    ensures Mul(v, s0 + Mul(c0, y)) == Mul(v, s0) + Mul(v, Mul(c0, y))
    ensures Mul(w, s2 + Mul(c2, y)) == Mul(w, s2) + Mul(w, Mul(c2, y))
  {
    assert u * (c1 * y) == (u * c1) * y;
    assert (v * c0 - cl - w * c2) * y == v * (c0 * y) - cl * y - w * (c2 * y);
  }

  /** (n+1) L_(n+1) = (2n+1+alpha-x) L_n - (n+alpha) L_(n-1) */
  lemma {:induction false} Recurrence(alpha: real, n: nat, x: real)
    ensures Mul((n + 1) as real, L(alpha, n + 1, x))
            == Mul((2 * n + 1) as real + alpha - x, L(alpha, n, x)) - Mul(n as real + alpha, L(alpha, n - 1, x))
  {
    hide Mul, PowerSum, Shifted;
    RecurrenceSum(alpha, n, x, n + 2);
    PowerSumBeyond(LaguerreL(alpha, n + 1), x, n + 2);
    PowerSumBeyond(LaguerreL(alpha, n), x, n + 2);
    PowerSumBeyond(LaguerreL(alpha, n - 1), x, n + 2);
    ShiftMeaning(LaguerreL(alpha, n), x, 1, n + 2);
    PowFirst(x);
    MulAdds((2 * n + 1) as real + alpha, x, L(alpha, n, x));
  }

  lemma {:induction false} PowFirst(x: real)
    ensures Pow(x, 1) == x
  {
    assert Pow(x, 0) == 1.0;
  }

  /** x times the derivative, term by term. */
  lemma {:induction false} DerivativeSum(alpha: real, n: nat, x: real, hi: nat)
    ensures Shifted(Derive(LaguerreL(alpha, n)), x, 1, hi)
            == Mul(n as real, PowerSum(LaguerreL(alpha, n), x, hi)) - Mul(n as real + alpha, PowerSum(LaguerreL(alpha, n - 1), x, hi))
  {
    hide Mul, Pow, At;
    if hi == 0 {
      ZeroProducts(0.0, n as real);
      ZeroProducts(0.0, n as real + alpha);
    } else {
      DerivativeSum(alpha, n, x, hi - 1);
      hide LaguerreL, Derive;
      NonEmpty(alpha, n);
      DeriveAt(LaguerreL(alpha, n), hi - 2);
      DerivativeTerm(alpha, n, hi - 1);
      DerivativeTermSum(n as real, n as real + alpha, (hi - 1) as real, Pow(x, hi - 1), C(alpha, n, hi - 1), C(alpha, n - 1, hi - 1),
                        PowerSum(LaguerreL(alpha, n), x, hi - 1), PowerSum(LaguerreL(alpha, n - 1), x, hi - 1));
    }
  }

  lemma {:induction false} NonEmpty(alpha: real, n: nat)
    ensures |LaguerreL(alpha, n)| == n + 1
  {
  }

  lemma {:induction false} DerivativeTerm(alpha: real, n: nat, i: nat)
    ensures Mul(C(alpha, n, i), i as real) == Mul(n as real, C(alpha, n, i)) - Mul(n as real + alpha, C(alpha, n - 1, i))
  {
    hide C;
    if i > n {
      BeyondDegree(alpha, n, i);
      BeyondDegree(alpha, n - 1, i);
    } else {
      PreviousTerm(alpha, n, i);
    }
  }

  lemma {:induction false} DerivativeTermSum(n: real, w: real, i: real, y: real, c: real, c2: real, s: real, s2: real)
    requires Mul(c, i) == Mul(n, c) - Mul(w, c2)
    ensures Mul(Mul(c, i), y) == Mul(n, Mul(c, y)) - Mul(w, Mul(c2, y))
    ensures Mul(n, s + Mul(c, y)) == Mul(n, s) + Mul(n, Mul(c, y))
    ensures Mul(w, s2 + Mul(c2, y)) == Mul(w, s2) + Mul(w, Mul(c2, y))
  {
    assert (n * c - w * c2) * y == n * (c * y) - w * (c2 * y);
  }

  /** x L_n' = n L_n - (n+alpha) L_(n-1) */
  lemma {:induction false} DerivativeRelation(alpha: real, n: nat, x: real)
    ensures |LaguerreL(alpha, n)| > 0
    ensures Mul(x, Eval(Derive(LaguerreL(alpha, n)), x)) == Mul(n as real, L(alpha, n, x)) - Mul(n as real + alpha, L(alpha, n - 1, x))
  {
    hide Mul, PowerSum, Shifted;
    DerivativeSum(alpha, n, x, n + 1);
    PowerSumBeyond(LaguerreL(alpha, n), x, n + 1);
    PowerSumBeyond(LaguerreL(alpha, n - 1), x, n + 1);
    ShiftMeaning(Derive(LaguerreL(alpha, n)), x, 1, n + 1);
    PowerSumBeyond(Derive(LaguerreL(alpha, n)), x, n);
    PowFirst(x);
    EmptySum(Derive(LaguerreL(alpha, n)), x);
  }

  lemma {:induction false} EmptySum(p: Poly, x: real)
    ensures PowerSum(p, x, 0) == 0.0 && Mul(x, 0.0) == 0.0
  {
  }

  // ------------------------------------------------- the differential equation

  /** i (i+1) C(n,i+1) + (alpha+1)(i+1) C(n,i+1) - i C(n,i) + n C(n,i) = 0 */
  lemma {:induction false} EquationTerm(alpha: real, n: nat, i: nat)
    ensures Mul(Mul(C(alpha, n, i + 1), (i + 1) as real), i as real) + Mul(alpha + 1.0, Mul(C(alpha, n, i + 1), (i + 1) as real))
            - Mul(C(alpha, n, i), i as real) + Mul(n as real, C(alpha, n, i)) == 0.0
  {
    hide C;
    if i > n {
      BeyondDegree(alpha, n, i + 1);
      BeyondDegree(alpha, n, i);
    } else {
      Downward(alpha, n, i + 1);
      EquationTermCore(alpha, n as real, i as real, C(alpha, n, i + 1), C(alpha, n, i));
    }
  }

  lemma {:induction false} EquationTermCore(a: real, n: real, i: real, c1: real, c: real)
    requires Mul(Mul(i + 1.0, a + (i + 1.0)), c1) == -Mul(n - i, c)
    ensures Mul(Mul(c1, i + 1.0), i) + Mul(a + 1.0, Mul(c1, i + 1.0)) - Mul(c, i) + Mul(n, c) == 0.0
  {
    assert (c1 * (i + 1.0)) * i + (a + 1.0) * (c1 * (i + 1.0)) == ((i + 1.0) * (a + (i + 1.0))) * c1;
  }

  lemma {:induction false} EquationSum(alpha: real, n: nat, x: real, hi: nat)
    requires n > 0
    ensures |LaguerreL(alpha, n)| > 0 && |Derive(LaguerreL(alpha, n))| > 0
    ensures var p := LaguerreL(alpha, n);
            Shifted(Derive(Derive(p)), x, 1, hi) + Mul(alpha + 1.0, PowerSum(Derive(p), x, hi)) - Shifted(Derive(p), x, 1, hi)
            + Mul(n as real, PowerSum(p, x, hi)) == 0.0
  {
    hide Mul, Pow, At, LaguerreL, Derive;
    var p := LaguerreL(alpha, n);
    NonEmpty(alpha, n);
    DeriveLength(p);
    if hi == 0 {
      ZeroProducts(0.0, alpha + 1.0);
      ZeroProducts(0.0, n as real);
    } else {
      EquationSum(alpha, n, x, hi - 1);
      DeriveAt(p, hi - 1);
      DeriveAt(p, hi - 2);
      DeriveAt(Derive(p), hi - 2);
      EquationTerm(alpha, n, hi - 1);
      EquationTermSum(alpha + 1.0, n as real, Pow(x, hi - 1), Mul(At(Derive(p), hi - 1), (hi - 1) as real), At(Derive(p), hi - 1),
                      At(Derive(p), hi - 2), At(p, hi - 1), PowerSum(Derive(p), x, hi - 1), PowerSum(p, x, hi - 1));
    }
  }

  lemma {:induction false} EquationTermSum(a: real, n: real, y: real, e: real, d: real, dl: real, c: real, s: real, t: real)
    requires e + Mul(a, d) - dl + Mul(n, c) == 0.0
    ensures Mul(e, y) + Mul(a, s + Mul(d, y)) - Mul(dl, y) + Mul(n, t + Mul(c, y)) == Mul(a, s) + Mul(n, t)
  {
    assert (e + a * d - dl + n * c) * y == e * y + a * (d * y) - dl * y + n * (c * y);
  }

  /** x L_n'' + (alpha + 1 - x) L_n' + n L_n = 0 */
  lemma {:induction false} DifferentialEquation(alpha: real, n: nat, x: real)
    requires n > 0
    ensures |LaguerreL(alpha, n)| > 0 && |Derive(LaguerreL(alpha, n))| > 0
    ensures Mul(x, Eval(Derive(Derive(LaguerreL(alpha, n))), x)) + Mul(alpha + 1.0 - x, Eval(Derive(LaguerreL(alpha, n)), x))
            + Mul(n as real, L(alpha, n, x)) == 0.0
  {
    hide Mul, PowerSum, Shifted, LaguerreL, Derive;
    var p := LaguerreL(alpha, n);
    NonEmpty(alpha, n);
    DeriveLength(p);
    DeriveLength(Derive(p));
    EquationSum(alpha, n, x, n + 1);
    ShiftMeaning(Derive(Derive(p)), x, 1, n + 1);
    ShiftMeaning(Derive(p), x, 1, n + 1);
    PowerSumBeyond(Derive(Derive(p)), x, n);
    PowerSumBeyond(Derive(p), x, n);
    PowerSumBeyond(Derive(p), x, n + 1);
    PowFirst(x);
    MulAdds(alpha + 1.0, x, Eval(Derive(p), x));
  }

  // ------------------------------------------------- the program

  class LaguerreObject {
    const order: nat
    const alpha: real
    var p1: real
    var d2: real

    constructor (n: nat, a: real)
      ensures order == n && alpha == a && p1 == 0.0 && d2 == 0.0
    {
      order, alpha := n, a;
      p1, d2 := 0.0, 0.0;
    }

    /** operator(): the value, and in the members the value one order below and the derivative. At
        x = 0 the source divides by zero for the derivative, and d2 is of no use. */
    method Evaluate(x: real) returns (p2: real)
      modifies this
      ensures p2 == L(alpha, order, x)
      ensures p1 == L(alpha, order - 1, x)
      ensures x != 0.0 ==> |LaguerreL(alpha, order)| > 0 && d2 == Eval(Derive(LaguerreL(alpha, order)), x)
    {
      hide L, Mul, Eval, Derive, LaguerreL;
      p1 := 0.0;
      p2 := 1.0;
      d2 := 0.0;
      var jPlusAlpha := alpha;
      var twoJPlusOnePlusAlphaMinusX := (1.0 + alpha) - x;
      FirstValues(alpha, x);
      for j := 0 to order
        invariant p2 == L(alpha, j, x) && p1 == L(alpha, j - 1, x)
        invariant jPlusAlpha == j as real + alpha
        invariant twoJPlusOnePlusAlphaMinusX == (2 * j + 1) as real + alpha - x
      {
        var p0 := p1;
        p1 := p2;
        Recurrence(alpha, j, x);
        p2 := NextValue((j + 1) as real, twoJPlusOnePlusAlphaMinusX, jPlusAlpha, p1, p0, L(alpha, j + 1, x));
        jPlusAlpha := jPlusAlpha + 1.0;
        twoJPlusOnePlusAlphaMinusX := twoJPlusOnePlusAlphaMinusX + 2.0;
      }
      DerivativeRelation(alpha, order, x);
      if x != 0.0 {
        NonEmpty(alpha, order);
        d2 := DerivativeValue(x, order as real, jPlusAlpha, p2, p1, Eval(Derive(LaguerreL(alpha, order)), x));
      } else {
        d2 := *;
      }
    }
  }

  lemma {:induction false} FirstValues(alpha: real, x: real)
    ensures L(alpha, 0, x) == 1.0 && L(alpha, -1, x) == 0.0
  {
    var p := LaguerreL(alpha, 0);
    assert p == [1.0] by {
      assert Coefficient(alpha, 0, 0) == 1.0;
    }
    assert PowerSum(p, x, 0) == 0.0;
    assert Pow(x, 0) == 1.0;
  }

  /** The quotient is the value v that the recurrence determines. */
  method NextValue(m: real, a: real, b: real, p1: real, p0: real, ghost v: real) returns (p2: real)
    requires m != 0.0 && Mul(m, v) == Mul(a, p1) - Mul(b, p0)
    ensures p2 == v
  {
    p2 := ((a * p1) - (b * p0)) / m;
    assert (m * v) / m == v;
  }

  method DerivativeValue(x: real, n: real, b: real, p2: real, p1: real, ghost v: real) returns (d2: real)
    requires x != 0.0 && Mul(x, v) == Mul(n, p2) - Mul(b, p1)
    ensures d2 == v
  {
    d2 := ((p2 * n) - (b * p1)) / x;
    assert (x * v) / x == v;
  }
}
