/** hermite_polynomial: H_n = 2x H_(n-1) - H_(n-1)', built with the polynomial operators. */
module Hermite {
  import opened Reals
  import opened Polynomials
  import opened ConstPolynomials

  function HermiteH(n: nat): (p: Poly)
    ensures |p| == n + 1
  {
    if n == 0 then [1.0]
    else if n == 1 then [0.0, 2.0]
    else Subtract(Product(HermiteH(n - 1), [0.0, 2.0]), Derive(HermiteH(n - 1)))
  }

  class HermitePolynomial {
    const m_data: ConstPolynomial

    constructor (n: nat)
      ensures fresh(m_data) && fresh(m_data.data) && m_data.Coefficients() == HermiteH(n)
      decreases n
    {
      if n == 0 {
        m_data := new ConstPolynomial(0, 1.0);
      } else if n == 1 {
        var p := new ConstPolynomial(1, 0.0);
        p.data[1] := 2.0;
        m_data := p;
      } else {
        var first := new HermitePolynomial(n - 1);
        var twoX := new ConstPolynomial(1, 0.0);
        twoX.data[1] := 2.0;
        assert twoX.Coefficients() == [0.0, 2.0];
        var product := Times(first.m_data, twoX);
        var second := new HermitePolynomial(n - 1);
        var derivative := second.m_data.Derivative();
        var difference := Minus(product, derivative);
        m_data := difference;
      }
    }
  }

  // ------------------------------------------------- the coefficient recurrence

  function Coefficient(n: nat, k: int): real {
    At(HermiteH(n), k)
  }

  lemma {:induction false} ConvolutionWithTwoX(a: Poly, k: int, hi: nat)
    ensures Convolution(a, [0.0, 2.0], k, hi) == if 1 <= k <= hi then 2.0 * At(a, k - 1) else 0.0
  {
    if hi > 0 {
      ConvolutionWithTwoX(a, k, hi - 1);
    }
  }

  lemma {:induction false} SubtractAt(a: Poly, b: Poly, k: nat)
    requires |b| <= |a|
    ensures At(Subtract(a, b), k) == At(a, k) - At(b, k)
  {
  }

  lemma {:induction false} ProductWithTwoX(a: Poly, k: nat)
    requires |a| > 0
    ensures At(Product(a, [0.0, 2.0]), k) == 2.0 * At(a, k - 1)
  {
    ConvolutionWithTwoX(a, k, |a|);
  }

  lemma {:induction false} CoefficientStep(n: nat, k: nat)
    requires n > 0
    ensures Coefficient(n, k) == 2.0 * Coefficient(n - 1, k - 1) - Mul((k + 1) as real, Coefficient(n - 1, k + 1))
  {
    if n > 1 {
      var h := HermiteH(n - 1);
      hide Convolution;
      SubtractAt(Product(h, [0.0, 2.0]), Derive(h), k);
      ProductWithTwoX(h, k);
      DeriveAt(h, k);
      MulCommutes(At(h, k + 1), (k + 1) as real);
    }
  }

  lemma {:induction false} BeyondDegree(n: nat, k: int)
    requires k < 0 || k > n
    ensures Coefficient(n, k) == 0.0
  {
  }

  lemma {:induction false} FirstCoefficients()
    ensures Coefficient(0, 0) == 1.0 && Coefficient(1, 1) == 2.0 && Coefficient(1, 0) == 0.0
  {
  }

  // ------------------------------------------------- H_n' = 2n H_(n-1)

  lemma {:induction false} DerivativeCore(k: real, m: real, h: real, a: real, b: real, d: real, e: real)
    requires h == 2.0 * a - Mul(k + 2.0, b)
    requires Mul(k + 2.0, b) == Mul(2.0 * m, d)
    requires Mul(k, a) == Mul(2.0 * m, e)
    requires a == 2.0 * e - Mul(k + 1.0, d)
    ensures Mul(k + 1.0, h) == Mul(2.0 * (m + 1.0), a)
  {
    assert (k + 1.0) * h == (k + 1.0) * (2.0 * a) - (k + 1.0) * ((2.0 * m) * d);
    assert (k + 1.0) * (2.0 * a) == 2.0 * a + 2.0 * ((2.0 * m) * e);
    assert (k + 1.0) * ((2.0 * m) * d) == (2.0 * m) * ((k + 1.0) * d);
    assert (2.0 * m) * (2.0 * e - (k + 1.0) * d) == 2.0 * ((2.0 * m) * e) - (2.0 * m) * ((k + 1.0) * d);
  }

  lemma {:induction false} DerivativeCoefficient(n: nat, k: nat)
    requires n > 0
    ensures Mul((k + 1) as real, Coefficient(n, k + 1)) == Mul(2.0 * n as real, Coefficient(n - 1, k))
    decreases n
  {
    hide Mul, Coefficient;
    if n == 1 {
      FirstCoefficients();
      DerivativeBase(k);
    } else {
      CoefficientStep(n, k + 1);
      DerivativeCoefficient(n - 1, k + 1);
      CoefficientStep(n - 1, k);
      var a, e := Coefficient(n - 1, k), Coefficient(n - 2, k - 1);
      if k > 0 {
        DerivativeCoefficient(n - 1, k - 1);
      } else {
        BeyondDegree(n - 2, -1);
        MulZero(a);
        MulCommutes(2.0 * (n - 1) as real, 0.0);
        MulZero(2.0 * (n - 1) as real);
      }
      DerivativeCore(k as real, (n - 1) as real, Coefficient(n, k + 1), a, Coefficient(n - 1, k + 2),
                     Coefficient(n - 2, k + 1), e);
    }
  }

  lemma {:induction false} DerivativeBase(k: nat)
    ensures Mul((k + 1) as real, Coefficient(1, k + 1)) == Mul(2.0, Coefficient(0, k))
  {
    if k > 0 {
      BeyondDegree(1, k + 1);
      BeyondDegree(0, k);
    } else {
      FirstCoefficients();
    }
  }

  /** H_n' = 2n H_(n-1) */
  lemma {:induction false} DerivativeIdentity(n: nat)
    requires n > 0
    ensures Derive(HermiteH(n)) == ScaleBy(2.0 * n as real, HermiteH(n - 1))
  {
    hide HermiteH, Mul;
    forall k | 0 <= k < n
      ensures Derive(HermiteH(n))[k] == ScaleBy(2.0 * n as real, HermiteH(n - 1))[k]
    {
      DerivativeCoefficient(n, k);
      MulCommutes(At(HermiteH(n), k + 1), (k + 1) as real);
      MulCommutes(2.0 * n as real, At(HermiteH(n - 1), k));
    }
  }

  // ------------------------------------------------- recurrence and differential equation

  function H(n: nat, x: real): real {
    Eval(HermiteH(n), x)
  }

  /** H_n(x) = 2x H_(n-1)(x) - H_(n-1)'(x) */
  lemma {:induction false} DefiningRecurrence(n: nat, x: real)
    requires n > 0
    ensures H(n, x) == Mul(2.0 * x, H(n - 1, x)) - Eval(Derive(HermiteH(n - 1)), x)
  {
    TwoXMeaning(x);
    if n == 1 {
      DefiningBase(x);
    } else {
      DefiningStep(n, x);
    }
  }

  lemma {:induction false} TwoXMeaning(x: real)
    ensures Eval([0.0, 2.0], x) == 2.0 * x
  {
    assert Pow(x, 0) == 1.0;
    assert Pow(x, 1) == x;
    assert PowerSum([0.0, 2.0], x, 1) == 0.0;
  }

  lemma {:induction false} DefiningBase(x: real)
    ensures H(1, x) == Mul(2.0 * x, H(0, x)) - Eval(Derive(HermiteH(0)), x)
  {
    TwoXMeaning(x);
    assert Eval([1.0], x) == 1.0 by {
      assert PowerSum([1.0], x, 0) == 0.0;
    }
    assert Derive(HermiteH(0)) == [];
  }

  lemma {:induction false} DefiningStep(n: nat, x: real)
    requires n > 1
    ensures H(n, x) == Mul(2.0 * x, H(n - 1, x)) - Eval(Derive(HermiteH(n - 1)), x)
  {
    hide Eval, Mul;
    var h := HermiteH(n - 1);
    var a, b := Product(h, [0.0, 2.0]), Derive(h);
    ProductMeaning(h, [0.0, 2.0], x);
    TwoXMeaning(x);
    SubtractMeaning(a, b);
    assert SubtractsCorrectly(a, b);
    MulCommutes(Eval(h, x), 2.0 * x);
  }

  lemma {:induction false} DerivativeValue(n: nat, x: real)
    requires n > 0
    ensures Eval(Derive(HermiteH(n)), x) == Mul(2.0 * n as real, H(n - 1, x))
  {
    hide Eval, HermiteH;
    DerivativeIdentity(n);
    ScaleMeaning(2.0 * n as real, HermiteH(n - 1), x);
  }

  /** H_n = 2x H_(n-1) - 2(n-1) H_(n-2) */
  lemma {:induction false} ThreeTermRecurrence(n: nat, x: real)
    requires n > 1
    ensures H(n, x) == 2.0 * x * H(n - 1, x) - 2.0 * (n - 1) as real * H(n - 2, x)
  {
    hide Eval, HermiteH, H;
    DefiningRecurrence(n, x);
    DerivativeValue(n - 1, x);
  }

  lemma {:induction false} ScaledDerivative(n: nat, x: real)
    requires n > 0
    ensures |Derive(HermiteH(n))| > 0
    ensures Eval(Derive(Derive(HermiteH(n))), x) == Mul(2.0 * n as real, Eval(Derive(HermiteH(n - 1)), x))
  {
    hide Eval, HermiteH, Mul;
    var c, h := 2.0 * n as real, HermiteH(n - 1);
    DerivativeIdentity(n);
    DeriveScales(c, h);
    ScaleMeaning(c, Derive(h), x);
  }

  /** H_n'' - 2x H_n' + 2n H_n = 0 */
  lemma {:induction false} DifferentialEquation(n: nat, x: real)
    requires n > 0
    ensures |Derive(HermiteH(n))| > 0
    ensures Eval(Derive(Derive(HermiteH(n))), x) - 2.0 * x * Eval(Derive(HermiteH(n)), x)
            + 2.0 * n as real * H(n, x) == 0.0
  {
    hide Eval, HermiteH, H;
    ScaledDerivative(n, x);
    DerivativeValue(n, x);
    DefiningRecurrence(n, x);
    DifferentialCore(2.0 * n as real, 2.0 * x, H(n - 1, x), Eval(Derive(HermiteH(n - 1)), x), H(n, x));
  }

  lemma {:induction false} DifferentialCore(c: real, y: real, g: real, d: real, h: real)
    requires h == Mul(y, g) - d
    ensures Mul(c, d) - y * Mul(c, g) + c * h == 0.0
  {
    assert c * (y * g - d) == y * (c * g) - c * d;
  }

  // ------------------------------------------------- the coefficients in closed form

  /** The leading coefficient is 2^n. */
  lemma {:induction false} LeadingCoefficient(n: nat)
    ensures HermiteH(n)[n] == Pow(2.0, n)
  {
    hide Coefficient, HermiteH;
    if n == 0 {
      LeadingBase();
    } else {
      LeadingCoefficient(n - 1);
      CoefficientStep(n, n);
      CoefficientAt(n, n);
      CoefficientAt(n - 1, n - 1);
      BeyondDegree(n - 1, n + 1);
      assert Mul((n + 1) as real, 0.0) == 0.0;
    }
  }

  lemma {:induction false} LeadingBase()
    ensures HermiteH(0)[0] == Pow(2.0, 0)
  {
  }

  lemma {:induction false} CoefficientAt(n: nat, k: nat)
    requires k <= n
    ensures Coefficient(n, k) == HermiteH(n)[k]
  {
  }

  /** Coefficients of the other parity are zero. */
  lemma {:induction false} WrongParity(n: nat, k: nat)
    requires (n + k) % 2 == 1
    ensures Coefficient(n, k) == 0.0
    decreases n
  {
    hide Coefficient, Mul;
    if n == 0 {
      BeyondDegree(0, k);
    } else {
      CoefficientStep(n, k);
      WrongParity(n - 1, k + 1);
      if k > 0 {
        WrongParity(n - 1, k - 1);
      } else {
        BeyondDegree(n - 1, -1);
      }
      MulCommutes((k + 1) as real, 0.0);
      MulZero((k + 1) as real);
    }
  }

  /** The right-hand side of the closed form: (-1)^m n! 2^(n-2m). */
  function Signed(m: nat, n: nat, k: nat): real {
    Mul(Pow(-1.0, m), Mul(Factorial(n), Pow(2.0, k)))
  }

  /** The coefficient of x^(n-2m) is (-1)^m n! 2^(n-2m) / (m! (n-2m)!). */
  lemma {:induction false} ClosedForm(n: nat, m: nat)
    requires 2 * m <= n
    ensures HermiteH(n)[n - 2 * m] == Signed(m, n, n - 2 * m) / (Factorial(m) * Factorial(n - 2 * m))
  {
    hide HermiteH, Factorial, Signed;
    ClosedProduct(n, m);
    CoefficientAt(n, n - 2 * m);
    FractionOf(Coefficient(n, n - 2 * m), Factorial(m), Factorial(n - 2 * m), Signed(m, n, n - 2 * m));
  }

  lemma {:induction false} FractionOf(c: real, u: real, v: real, s: real)
    requires u > 0.0 && v > 0.0 && Mul(c, Mul(u, v)) == s
    ensures u * v > 0.0 && c == s / (u * v)
  {
    assert u * v > 0.0;
    assert c * (u * v) / (u * v) == c;
  }

  lemma {:induction false} ClosedProduct(n: nat, m: nat)
    requires 2 * m <= n
    ensures Mul(Coefficient(n, n - 2 * m), Mul(Factorial(m), Factorial(n - 2 * m))) == Signed(m, n, n - 2 * m)
    decreases n
  {
    hide Coefficient, Mul, Factorial, Pow, Signed;
    var k := n - 2 * m;
    if n == 0 {
      ClosedBase();
    } else if k > 0 {
      ClosedProduct(n - 1, m);
      DerivativeCoefficient(n, k - 1);
      ClosedUp(n, m, k, Coefficient(n, k), Coefficient(n - 1, k - 1));
    } else {
      ClosedProduct(n - 1, m - 1);
      CoefficientStep(n, 0);
      BeyondDegree(n - 1, -1);
      ClosedDown(m, Coefficient(n, 0), Coefficient(n - 1, 1));
    }
  }

  lemma {:induction false} ClosedBase()
    ensures Mul(Coefficient(0, 0), Mul(Factorial(0), Factorial(0))) == Signed(0, 0, 0)
  {
    FirstCoefficients();
  }

  lemma {:induction false} ClosedUp(n: nat, m: nat, k: nat, c: real, d: real)
    requires n > 0 && k > 0
    requires Mul(d, Mul(Factorial(m), Factorial(k - 1))) == Signed(m, n - 1, k - 1)
    requires Mul(k as real, c) == Mul(2.0 * n as real, d)
    ensures Mul(c, Mul(Factorial(m), Factorial(k))) == Signed(m, n, k)
  {
    hide *;
    SignedIs(m, n - 1, k - 1);
    SignedIs(m, n, k);
    FactorialNext(n);
    FactorialNext(k);
    PowTwoNext(k);
    UpCore(c, d, n as real, k as real, Factorial(m), Factorial(k - 1), Pow(-1.0, m), Factorial(n - 1), Pow(2.0, k - 1));
  }

  lemma {:induction false} SignedIs(m: nat, n: nat, k: nat)
    ensures Signed(m, n, k) == Mul(Pow(-1.0, m), Mul(Factorial(n), Pow(2.0, k)))
  {
  }

  lemma {:induction false} PowTwoNext(k: nat)
    requires k > 0
    ensures Pow(2.0, k) == Mul(2.0, Pow(2.0, k - 1))
  {
  }

  lemma {:induction false} UpCore(c: real, d: real, n: real, k: real, u: real, v: real, s: real, f: real, p: real)
    requires Mul(d, Mul(u, v)) == Mul(s, Mul(f, p)) && Mul(k, c) == Mul(2.0 * n, d)
    ensures Mul(c, Mul(u, Mul(k, v))) == Mul(s, Mul(Mul(n, f), Mul(2.0, p)))
  {
    assert c * (u * (k * v)) == (k * c) * (u * v);
    assert ((2.0 * n) * d) * (u * v) == (2.0 * n) * (d * (u * v));
    assert (2.0 * n) * (s * (f * p)) == s * ((n * f) * (2.0 * p));
  }

  lemma {:induction false} ClosedDown(m: nat, c: real, d: real)
    requires m > 0 && c == 2.0 * 0.0 - Mul(1.0, d)
    requires Mul(d, Mul(Factorial(m - 1), Factorial(1))) == Signed(m - 1, 2 * m - 1, 1)
    ensures Mul(c, Mul(Factorial(m), Factorial(0))) == Signed(m, 2 * m, 0)
  {
    DownCore(c, d, m as real, Factorial(m - 1), Pow(-1.0, m - 1), Factorial(2 * m - 1));
  }

  lemma {:induction false} DownCore(c: real, d: real, m: real, u: real, s: real, f: real)
    requires c == -d && d * (u * 1.0) == s * (f * 2.0)
    ensures c * ((m * u) * 1.0) == (-1.0 * s) * ((2.0 * m) * f)
  {
    assert c * (m * u) == -m * (d * u);
    assert m * (s * (f * 2.0)) == s * ((2.0 * m) * f);
  }
}
