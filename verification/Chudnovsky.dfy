/** The Chudnovsky series for pi, as chudnovsky_for_pi of
    example/pi_millions_with_boost_multiprecision.cpp sums it. */
module Chudnovsky {
  import opened Reals
  import opened Powers
  import Residues

  const L0 := 13591409.0
  const L1 := 545140134.0
  const X1 := -262537412640768000.0

  // ------------------------------------------------- the closed forms

  function Binomial(n: nat, k: nat): nat {
    if k == 0 then 1 else if n == 0 then 0 else Binomial(n - 1, k - 1) + Binomial(n - 1, k)
  }

  /** (6q)! / ((3q)! (q!)^3) as a product of binomial coefficients: an integer. */
  function M(q: nat): nat {
    Binomial(6 * q, 3 * q) * Binomial(3 * q, q) * Binomial(2 * q, q)
  }

  function LinearTerm(q: nat): real {
    L0 + L1 * q as real
  }

  /** The term of the series. */
  function Term(q: nat): real
  {
    NonzeroPower(q);
    M(q) as real * LinearTerm(q) / Pow(X1, q)
  }

  /** The sum of the terms 0..q. */
  function PartialSum(q: nat): real {
    if q == 0 then Term(0) else PartialSum(q - 1) + Term(q)
  }

  lemma {:induction false} NonzeroPower(q: nat)
    ensures Pow(X1, q) != 0.0
  {
    if q > 0 {
      NonzeroPower(q - 1);
    }
  }

  // ------------------------------------------------- binomial coefficients

  lemma {:induction false} BinomialBeyond(n: nat, k: nat)
    requires k > n
    ensures Binomial(n, k) == 0
  {
    if n > 0 {
      BinomialBeyond(n - 1, k - 1);
      BinomialBeyond(n - 1, k);
    }
  }

  /** C(n,k) k! (n-k)! = n! */
  lemma {:induction false} BinomialFactorials(n: nat, k: nat)
    requires k <= n
    ensures Mul(Binomial(n, k) as real, Mul(Factorial(k), Factorial(n - k))) == Factorial(n)
  {
    hide Mul, Factorial;
    if k == 0 {
      NoFactorial();
      MulOne(Factorial(n));
    } else if k == n {
      BinomialBeyond(n - 1, n);
      BinomialFactorials(n - 1, n - 1);
      NoFactorial();
      FactorialNext(n);
      FullCore(Binomial(n - 1, n - 1) as real, n as real, Factorial(n - 1));
    } else {
      BinomialFactorials(n - 1, k - 1);
      BinomialFactorials(n - 1, k);
      FactorialNext(n);
      FactorialNext(k);
      FactorialNext(n - k);
      PascalCore(Binomial(n - 1, k - 1) as real, Binomial(n - 1, k) as real, k as real, (n - k) as real,
                 Factorial(k - 1), Factorial(n - k - 1), Factorial(n - 1));
    }
  }

  lemma {:induction false} NoFactorial()
    ensures Factorial(0) == 1.0
  {
  }

  lemma {:induction false} FullCore(b: real, n: real, f: real)
    requires Mul(b, Mul(f, 1.0)) == f
    ensures Mul(b, Mul(Mul(n, f), 1.0)) == Mul(n, f)
  {
    assert b * ((n * f) * 1.0) == n * (b * (f * 1.0));
  }

  lemma {:induction false} PascalCore(b1: real, b2: real, k: real, m: real, u: real, v: real, f: real)
    requires Mul(b1, Mul(u, Mul(m, v))) == f && Mul(b2, Mul(Mul(k, u), v)) == f
    ensures Mul(b1 + b2, Mul(Mul(k, u), Mul(m, v))) == Mul(k + m, f)
  {
    assert b1 * ((k * u) * (m * v)) == k * (b1 * (u * (m * v)));
    assert b2 * ((k * u) * (m * v)) == m * (b2 * ((k * u) * v));
    assert (b1 + b2) * ((k * u) * (m * v)) == b1 * ((k * u) * (m * v)) + b2 * ((k * u) * (m * v));
  }

  /** M(q) (3q)! (q!)^3 = (6q)! */
  lemma {:induction false} MFactorials(q: nat)
    ensures Mul(M(q) as real, Mul(Factorial(3 * q), Cubed(Factorial(q)))) == Factorial(6 * q)
  {
    hide Factorial, Binomial, Mul;
    BinomialFactorials(6 * q, 3 * q);
    BinomialFactorials(3 * q, q);
    BinomialFactorials(2 * q, q);
    assert 6 * q - 3 * q == 3 * q && 3 * q - q == 2 * q && 2 * q - q == q;
    RealProduct(Binomial(6 * q, 3 * q), Binomial(3 * q, q), Binomial(2 * q, q));
    MCore(Binomial(6 * q, 3 * q) as real, Binomial(3 * q, q) as real, Binomial(2 * q, q) as real,
          Factorial(6 * q), Factorial(3 * q), Factorial(2 * q), Factorial(q));
  }

  function Cubed(x: real): real {
    Mul(x, Mul(x, x))
  }

  lemma {:induction false} RealProduct(a: nat, b: nat, c: nat)
    ensures (a * b * c) as real == Mul(Mul(a as real, b as real), c as real)
  {
  }

  lemma {:induction false} MCore(a: real, b: real, c: real, f6: real, f3: real, f2: real, f1: real)
    requires Mul(a, Mul(f3, f3)) == f6 && Mul(b, Mul(f1, f2)) == f3 && Mul(c, Mul(f1, f1)) == f2
    ensures Mul(Mul(Mul(a, b), c), Mul(f3, Cubed(f1))) == f6
  {
    assert ((a * b) * c) * (f3 * (f1 * (f1 * f1))) == a * (f3 * (b * (f1 * (c * (f1 * f1)))));
  }

  // ------------------------------------------------- the step of m

  /** (n+3)! and (n+6)! from n! */
  lemma {:induction false} ThreeMore(n: nat)
    ensures Factorial(n + 3) == Mul(Mul(n as real + 3.0, Mul(n as real + 2.0, n as real + 1.0)), Factorial(n))
  {
    hide Factorial, Mul;
    FactorialNext(n + 1);
    FactorialNext(n + 2);
    FactorialNext(n + 3);
    MulAssociates(n as real + 2.0, n as real + 1.0, Factorial(n));
    MulAssociates(n as real + 3.0, Mul(n as real + 2.0, n as real + 1.0), Factorial(n));
  }

  /** MFactorials at q + 1, in terms of the factorials at q. */
  lemma {:induction false} NextFactorials(q: nat)
    ensures var r, t := 3.0 * q as real, 6.0 * q as real;
            Mul(M(q + 1) as real, Mul(Mul(Mul(r + 3.0, Mul(r + 2.0, r + 1.0)), Factorial(3 * q)), Cubed(Mul(q as real + 1.0, Factorial(q)))))
            == Mul(Mul(t + 6.0, Mul(t + 5.0, t + 4.0)), Mul(Mul(t + 3.0, Mul(t + 2.0, t + 1.0)), Factorial(6 * q)))
  {
    hide Factorial, M, Mul, Cubed;
    MFactorials(q + 1);
    assert 3 * (q + 1) == 3 * q + 3 && 6 * (q + 1) == 6 * q + 3 + 3;
    ThreeMore(3 * q);
    ThreeMore(6 * q);
    ThreeMore(6 * q + 3);
    FactorialNext(q + 1);
    assert (3 * q) as real == 3.0 * q as real && (6 * q) as real == 6.0 * q as real;
    assert (6 * q + 3) as real == 6.0 * q as real + 3.0 && (q + 1) as real == q as real + 1.0;
  }

  /** m_(q+1) (q+1)^3 = (k^3 - 16k) m_q with k = 12q + 6 */
  lemma {:induction false} MNext(q: nat)
    ensures var k, d := 12.0 * q as real + 6.0, q as real + 1.0;
            Mul(M(q + 1) as real, Cubed(d)) == Mul(Cubed(k) - 16.0 * k, M(q) as real)
  {
    hide Factorial, M, Mul, Cubed;
    var k, d, t := 12.0 * q as real + 6.0, q as real + 1.0, 6.0 * q as real;
    MFactorials(q);
    NextFactorials(q);
    var u, v, w := Factorial(3 * q), Factorial(q), Factorial(6 * q);
    var a := Mul(3.0 * q as real + 3.0, Mul(3.0 * q as real + 2.0, 3.0 * q as real + 1.0));
    var b := Mul(t + 3.0, Mul(t + 2.0, t + 1.0));
    var c := Mul(t + 6.0, Mul(t + 5.0, t + 4.0));
    Ratios(q as real, a, b, c, k);
    PositiveA(q as real, a);
    NextCore(M(q + 1) as real, M(q) as real, a, b, c, d, u, v, w, Cubed(k) - 16.0 * k);
  }

  lemma {:induction false} PositiveA(q: real, a: real)
    requires q >= 0.0 && a == Mul(3.0 * q + 3.0, Mul(3.0 * q + 2.0, 3.0 * q + 1.0))
    ensures a > 0.0
  {
    PositiveProduct(3.0 * q + 2.0, 3.0 * q + 1.0);
    PositiveProduct(3.0 * q + 3.0, Mul(3.0 * q + 2.0, 3.0 * q + 1.0));
  }

  /** (6q+1)...(6q+6) = (3q+1)(3q+2)(3q+3) (k^3 - 16k) */
  lemma {:induction false} Ratios(q: real, a: real, b: real, c: real, k: real)
    requires a == Mul(3.0 * q + 3.0, Mul(3.0 * q + 2.0, 3.0 * q + 1.0)) && k == 12.0 * q + 6.0
    requires b == Mul(6.0 * q + 3.0, Mul(6.0 * q + 2.0, 6.0 * q + 1.0))
    requires c == Mul(6.0 * q + 6.0, Mul(6.0 * q + 5.0, 6.0 * q + 4.0))
    ensures Mul(c, b) == Mul(a, Cubed(k) - 16.0 * k)
  {
    var r := q + 0.0;
    Halves(r);
    var e, o1, o3, o5 := a, 6.0 * q + 1.0, 6.0 * q + 3.0, 6.0 * q + 5.0;
    CubedIs(q, k);
    hide Cubed, Mul;
    Assemble(3.0 * q + 1.0, 3.0 * q + 2.0, 3.0 * q + 3.0, o1, o3, o5);
    assert 6.0 * q + 2.0 == 2.0 * (3.0 * q + 1.0) && 6.0 * q + 4.0 == 2.0 * (3.0 * q + 2.0) && 6.0 * q + 6.0 == 2.0 * (3.0 * q + 3.0);
  }

  lemma {:induction false} Halves(q: real)
    ensures 6.0 * q + 2.0 == 2.0 * (3.0 * q + 1.0)
  {
  }

  lemma {:induction false} CubedIs(q: real, k: real)
    requires k == 12.0 * q + 6.0
    ensures Cubed(k) - 16.0 * k == 8.0 * Mul(6.0 * q + 1.0, Mul(6.0 * q + 3.0, 6.0 * q + 5.0))
  {
    var h := 6.0 * q + 3.0;
    assert k == 2.0 * h;
    assert (h - 2.0) * (h * (h + 2.0)) == h * (h * h) - 4.0 * h;
  }

  lemma {:induction false} Assemble(e1: real, e2: real, e3: real, o1: real, o3: real, o5: real)
    ensures Mul(Mul(2.0 * e3, Mul(o5, 2.0 * e2)), Mul(o3, Mul(2.0 * e1, o1))) == Mul(Mul(e3, Mul(e2, e1)), 8.0 * Mul(o1, Mul(o3, o5)))
  {
  }

  lemma {:induction false} NextCore(m1: real, m0: real, a: real, b: real, c: real, d: real, u: real, v: real, w: real, g: real)
    requires a > 0.0 && u > 0.0 && v > 0.0
    requires Mul(m1, Mul(Mul(a, u), Cubed(Mul(d, v)))) == Mul(c, Mul(b, w))
    requires Mul(m0, Mul(u, Cubed(v))) == w && Mul(c, b) == Mul(a, g)
    ensures Mul(m1, Cubed(d)) == Mul(g, m0)
  {
    var z := Mul(a, Mul(u, Cubed(v)));
    Positive3(a, u, v, z);
    NextLeft(m1, a, u, d, v);
    NextRight(m0, a, b, c, u, v, w, g);
    MulCancels(Mul(m1, Cubed(d)), Mul(g, m0), z);
  }

  lemma {:induction false} Positive3(a: real, u: real, v: real, z: real)
    requires a > 0.0 && u > 0.0 && v > 0.0 && z == Mul(a, Mul(u, Cubed(v)))
    ensures z > 0.0
  {
    PositiveProduct(v, v);
    PositiveProduct(v, Mul(v, v));
    PositiveProduct(u, Cubed(v));
    PositiveProduct(a, Mul(u, Cubed(v)));
  }

  lemma {:induction false} NextLeft(m1: real, a: real, u: real, d: real, v: real)
    ensures Mul(m1, Mul(Mul(a, u), Cubed(Mul(d, v)))) == Mul(Mul(m1, Cubed(d)), Mul(a, Mul(u, Cubed(v))))
  {
    var x, y := d * (d * d), v * (v * v);
    assert (d * v) * ((d * v) * (d * v)) == x * y;
    assert m1 * ((a * u) * (x * y)) == (m1 * x) * (a * (u * y));
  }

  lemma {:induction false} NextRight(m0: real, a: real, b: real, c: real, u: real, v: real, w: real, g: real)
    requires Mul(m0, Mul(u, Cubed(v))) == w && Mul(c, b) == Mul(a, g)
    ensures Mul(c, Mul(b, w)) == Mul(Mul(g, m0), Mul(a, Mul(u, Cubed(v))))
  {
    var y := u * Cubed(v);
    assert c * (b * (m0 * y)) == (c * b) * (m0 * y);
    assert (a * g) * (m0 * y) == (g * m0) * (a * y);
  }

  // ------------------------------------------------- the sum stays positive

  lemma {:induction false} MPositive(q: nat)
    ensures M(q) > 0
  {
    hide Factorial, M, Mul, Cubed;
    MFactorials(q);
    assert Factorial(6 * q) > 0.0;
    if M(q) == 0 {
      MulZero(Mul(Factorial(3 * q), Cubed(Factorial(q))));
    }
  }

  lemma {:induction false} Order(x: real, y: real, w: real)
    requires x <= y && w >= 0.0
    ensures Mul(x, w) <= y * w
  {
  }

  lemma {:induction false} LinearGrowth(q: nat)
    ensures 0.0 < LinearTerm(q) && LinearTerm(q + 1) == LinearTerm(q) + L1
    ensures L1 * q as real <= LinearTerm(q)
  {
    assert (q + 1) as real == q as real + 1.0;
  }

  lemma {:induction false} CubedPositive(x: real)
    requires x > 0.0
    ensures Cubed(x) > 0.0
  {
    PositiveProduct(x, x);
    PositiveProduct(x, Mul(x, x));
  }

  /** |term| * |X|^q = m l */
  lemma {:induction false} TermSize(q: nat)
    ensures Pow(-X1, q) > 0.0 && Mul(Abs(Term(q)), Pow(-X1, q)) == Mul(M(q) as real, LinearTerm(q))
  {
    hide M;
    NonzeroPower(q);
    PowerSigns(q);
    LinearGrowth(q);
    MPositive(q);
    PositiveProduct(M(q) as real, LinearTerm(q));
    hide Mul, LinearTerm, Pow;
    TermIs(q);
    SizeCore(Mul(M(q) as real, LinearTerm(q)), Pow(X1, q), Pow(-X1, q), Term(q));
  }

  lemma {:induction false} TermIs(q: nat)
    ensures Pow(X1, q) != 0.0 && Term(q) == Mul(M(q) as real, LinearTerm(q)) / Pow(X1, q)
  {
    hide M, Pow;
    NonzeroPower(q);
  }

  lemma {:induction false} PowerSigns(q: nat)
    ensures Pow(-X1, q) > 0.0 && (Pow(X1, q) == Pow(-X1, q) || Pow(X1, q) == -Pow(-X1, q))
  {
    if q > 0 {
      PowerSigns(q - 1);
    }
  }

  lemma {:induction false} SizeCore(ml: real, p: real, b: real, t: real)
    requires ml > 0.0 && b > 0.0 && (p == b || p == -b) && t == ml / p
    ensures Mul(Abs(t), b) == ml
  {
    assert t * p == ml;
    if t < 0.0 && p == b {
      Order(t, 0.0, b);
    }
    if t >= 0.0 && p == -b {
      Order(0.0, t, b);
    }
  }

  // ------------------------------------------------- about fourteen digits a term

  /** k^3 - 16k with k = 12q + 6 is at most 1728 q (q+1)^2. */
  lemma {:induction false} FactorBound(q: real, h: real)
    requires q >= 1.0 && h == 12.0 * q + 6.0
    ensures Cubed(h) - 16.0 * h <= 1728.0 * Mul(q, Mul(q + 1.0, q + 1.0))
  {
    assert Cubed(h) == 1728.0 * (q * (q * q)) + 2592.0 * (q * q) + 1296.0 * q + 216.0;
    assert Mul(q, Mul(q + 1.0, q + 1.0)) == q * (q * q) + 2.0 * (q * q) + q;
    assert q * q >= q;
  }

  /** m l grows by a factor of at most 1728 from one term to the next, if q >= 1. */
  lemma {:induction false} NumeratorGrowth(q: nat)
    requires q >= 1
    ensures Mul(M(q + 1) as real, LinearTerm(q + 1)) <= 1728.0 * Mul(M(q) as real, LinearTerm(q))
  {
    hide M, Mul, Cubed;
    var r := q as real;
    MNext(q);
    MPositive(q);
    MPositive(q + 1);
    LinearGrowth(q);
    LinearGrowth(q + 1);
    FactorBound(r, 12.0 * r + 6.0);
    hide LinearTerm;
    GrowthCore(r, M(q + 1) as real, M(q) as real, LinearTerm(q + 1), LinearTerm(q), Cubed(12.0 * r + 6.0) - 16.0 * (12.0 * r + 6.0));
  }

  lemma {:induction false} GrowthCore(q: real, m1: real, m0: real, l1: real, l0: real, g: real)
    requires q >= 1.0 && m0 > 0.0 && m1 > 0.0 && l0 > 0.0 && l1 == l0 + L1 && L1 * q <= l0
    requires Mul(m1, Cubed(q + 1.0)) == Mul(g, m0) && g <= 1728.0 * Mul(q, Mul(q + 1.0, q + 1.0))
    ensures Mul(m1, l1) <= 1728.0 * Mul(m0, l0)
  {
    hide Mul, Cubed;
    var s := Mul(q + 1.0, q + 1.0);
    PositiveProduct(q + 1.0, q + 1.0);
    OneFactorLess(q, m1, m0, g, s);
    NextLinear(q, l1, l0);
    CrossProducts(q, m1, m0, l1, l0);
  }

  /** (q+1) m' <= 1728 q m, after division by (q+1)^2 */
  lemma {:induction false} OneFactorLess(q: real, m1: real, m0: real, g: real, s: real)
    requires q >= 1.0 && m0 > 0.0 && s > 0.0 && s == Mul(q + 1.0, q + 1.0)
    requires Mul(m1, Cubed(q + 1.0)) == Mul(g, m0) && g <= 1728.0 * Mul(q, s)
    ensures Mul(q + 1.0, m1) <= 1728.0 * Mul(q, m0)
  {
    hide Mul;
    CubedParts(q + 1.0, m1, s);
    Order(g, 1728.0 * Mul(q, s), m0);
    RegroupRight(q, s, m0);
    CancelLess(Mul(q + 1.0, m1), 1728.0 * Mul(q, m0), s);
  }

  lemma {:induction false} CubedParts(d: real, m: real, s: real)
    requires s == Mul(d, d)
    ensures Mul(m, Cubed(d)) == Mul(Mul(d, m), s)
  {
    assert m * (d * s) == (d * m) * s;
  }

  lemma {:induction false} RegroupRight(q: real, s: real, m: real)
    ensures (1728.0 * Mul(q, s)) * m == Mul(1728.0 * Mul(q, m), s)
  {
    assert (q * s) * m == (q * m) * s;
  }

  lemma {:induction false} NextLinear(q: real, l1: real, l0: real)
    requires q >= 1.0 && l1 == l0 + L1 && L1 * q <= l0
    ensures Mul(q, l1) <= Mul(q + 1.0, l0)
  {
    assert q * (l0 + L1) == q * l0 + L1 * q;
  }

  lemma {:induction false} CrossProducts(q: real, m1: real, m0: real, l1: real, l0: real)
    requires q >= 1.0 && m1 > 0.0 && m0 > 0.0 && l1 > 0.0 && l0 > 0.0
    requires Mul(q + 1.0, m1) <= 1728.0 * Mul(q, m0) && Mul(q, l1) <= Mul(q + 1.0, l0)
    ensures Mul(m1, l1) <= 1728.0 * Mul(m0, l0)
  {
    hide Mul;
    var s := Mul(q + 1.0, q);
    PositiveProduct(q + 1.0, q);
    PositiveProduct(q + 1.0, m1);
    PositiveProduct(q, l1);
    MulOrder(Mul(q + 1.0, m1), 1728.0 * Mul(q, m0), Mul(q, l1), Mul(q + 1.0, l0));
    FourFactors(q + 1.0, m1, q, l1);
    FourFactors(q, m0, q + 1.0, l0);
    Pull1728(Mul(q, m0), Mul(q + 1.0, l0));
    Pull1728(Mul(m0, l0), s);
    MulCommutes(q, q + 1.0);
    CancelLess(Mul(m1, l1), 1728.0 * Mul(m0, l0), s);
  }

  lemma {:induction false} FourFactors(a: real, b: real, c: real, d: real)
    ensures Mul(Mul(a, b), Mul(c, d)) == Mul(Mul(b, d), Mul(a, c))
  {
    assert (a * b) * (c * d) == (b * d) * (a * c);
  }

  lemma {:induction false} Pull1728(x: real, y: real)
    ensures Mul(1728.0 * x, y) == 1728.0 * Mul(x, y)
  {
  }

  lemma {:induction false} PowerNext(q: nat)
    ensures Pow(-X1, q + 1) == Mul(262537412640768000.0, Pow(-X1, q))
  {
  }

  /** From the second term on every term is at most 10^-14 of the one before. */
  lemma {:induction false} TermsShrink(q: nat)
    requires q >= 1
    ensures 100000000000000.0 * Abs(Term(q + 1)) <= Abs(Term(q))
  {
    hide M, Term, LinearTerm, Pow, Mul;
    TermSize(q);
    TermSize(q + 1);
    NumeratorGrowth(q);
    PowerNext(q);
    ShrinkCore(Abs(Term(q + 1)), Abs(Term(q)), Pow(-X1, q), Mul(M(q + 1) as real, LinearTerm(q + 1)), Mul(M(q) as real, LinearTerm(q)));
  }

  lemma {:induction false} ShrinkCore(t1: real, t0: real, b: real, n1: real, n0: real)
    requires b > 0.0 && t1 >= 0.0 && Mul(t1, Mul(262537412640768000.0, b)) == n1 && Mul(t0, b) == n0
    requires n1 <= 1728.0 * n0
    ensures 100000000000000.0 * t1 <= t0
  {
    PullBase(t1, b);
    hide Mul;
    NonnegativeProduct(t1, b);
    PullScale(t1, b);
    CancelLess(100000000000000.0 * t1, t0, b);
  }

  lemma {:induction false} PullBase(t: real, b: real)
    ensures Mul(t, Mul(262537412640768000.0, b)) == 262537412640768000.0 * Mul(t, b)
  {
    assert t * (262537412640768000.0 * b) == 262537412640768000.0 * (t * b);
  }

  lemma {:induction false} PullScale(t: real, b: real)
    ensures Mul(100000000000000.0 * t, b) == 100000000000000.0 * Mul(t, b)
  {
  }

  lemma {:induction false} NonnegativeProduct(x: real, y: real)
    requires x >= 0.0 && y >= 0.0
    ensures Mul(x, y) >= 0.0
  {
  }

  /** The second term is at most 10^-13 of the first. */
  lemma {:induction false} SecondTerm()
    ensures 10000000000000.0 * Abs(Term(1)) <= Term(0) == L0
  {
    FirstTerm();
    SecondM();
    SecondValue();
  }

  lemma {:induction false} SecondM()
    ensures M(1) == 120
  {
    hide Mul, M;
    FirstM();
    MNext(0);
    OneM(M(1) as real);
  }

  lemma {:induction false} FirstM()
    ensures M(0) == 1
  {
    assert Binomial(0, 0) == 1;
  }

  lemma {:induction false} OneM(m: real)
    requires Mul(m, Cubed(1.0)) == Mul(Cubed(6.0) - 96.0, 1.0)
    ensures m == 120.0
  {
  }

  lemma {:induction false} SecondValue()
    requires M(1) == 120
    ensures 10000000000000.0 * Abs(Term(1)) <= L0
  {
    hide M;
    assert Pow(X1, 1) == X1 by {
      assert Pow(X1, 0) == 1.0;
    }
    assert Term(1) == 120.0 * (L0 + L1) / X1;
  }

  /** Every term is at most 10 L0 10^(-14 q). */
  lemma {:induction false} TermBound(q: nat)
    ensures Abs(Term(q)) <= 10.0 * L0 * Pow(0.1, 14 * q)
  {
    hide Term, Pow, Mul;
    TenthPowers();
    if q == 1 {
      SecondTerm();
    } else if q == 0 {
      FirstTerm();
    } else {
      TermsShrink(q - 1);
      TermBound(q - 1);
      PowAdds(0.1, 14, 14 * (q - 1));
      TenthScale(Pow(0.1, 14 * (q - 1)));
    }
  }

  lemma {:induction false} TenthPowers()
    ensures Pow(0.1, 0) == 1.0 && Pow(0.1, 14) == 0.00000000000001 && Pow(0.1, 15) == 0.000000000000001
  {
    SevenTenths();
    hide Pow, Mul;
    PowAdds(0.1, 7, 7);
    PowAdds(0.1, 1, 14);
    assert Mul(0.0000001, 0.0000001) == 0.00000000000001 && Mul(0.1, 0.00000000000001) == 0.000000000000001 by {
      TenthProducts();
    }
  }

  lemma {:induction false} TenthProducts()
    ensures Mul(0.0000001, 0.0000001) == 0.00000000000001 && Mul(0.1, 0.00000000000001) == 0.000000000000001
  {
  }

  lemma {:induction false} SevenTenths()
    ensures Pow(0.1, 0) == 1.0 && Pow(0.1, 1) == 0.1 && Pow(0.1, 7) == 0.0000001
  {
    assert Pow(0.1, 2) == 0.01;
    assert Pow(0.1, 4) == 0.0001;
    assert Pow(0.1, 6) == 0.000001;
  }

  lemma {:induction false} TenthScale(y: real)
    ensures Mul(0.00000000000001, y) == y / 100000000000000.0
  {
  }

  // ------------------------------------------------- the tail of the series

  /** The terms alternate in sign. */
  lemma {:induction false} TermsAlternate(q: nat)
    ensures if q % 2 == 0 then Term(q) > 0.0 else Term(q) < 0.0
  {
    hide M;
    MPositive(q);
    LinearGrowth(q);
    PositiveProduct(M(q) as real, LinearTerm(q));
    hide LinearTerm, Mul, Pow;
    TermIs(q);
    PowerSign(q);
    SignOfQuotient(Mul(M(q) as real, LinearTerm(q)), Pow(X1, q));
  }

  lemma {:induction false} PowerSign(q: nat)
    ensures if q % 2 == 0 then Pow(X1, q) > 0.0 else Pow(X1, q) < 0.0
  {
    if q > 0 {
      PowerSign(q - 1);
      SignFlips(Pow(X1, q - 1));
    }
  }

  lemma {:induction false} SignFlips(x: real)
    ensures x > 0.0 ==> Mul(X1, x) < 0.0
    ensures x < 0.0 ==> Mul(X1, x) > 0.0
  {
  }

  lemma {:induction false} SignOfQuotient(x: real, y: real)
    requires x > 0.0 && y != 0.0
    ensures y > 0.0 ==> x / y > 0.0
    ensures y < 0.0 ==> x / y < 0.0
  {
    var q := x / y;
    assert q * y == x;
  }

  /** x lies between 0 and y. */
  predicate Between(x: real, y: real) {
    if y >= 0.0 then 0.0 <= x <= y else y <= x <= 0.0
  }

  /** However many terms follow term n, their sum lies between 0 and term n + 1. */
  lemma {:induction false} TailBound(n: nat, k: nat)
    ensures Between(PartialSum(n + k) - PartialSum(n), Term(n + 1))
    decreases k
  {
    hide Term;
    if k > 0 {
      TailBound(n + 1, k - 1);
      assert n + 1 + (k - 1) == n + k;
      TermsAlternate(n + 1);
      TermsAlternate(n + 2);
      TermsShrink(n + 1);
      assert PartialSum(n + 1) == PartialSum(n) + Term(n + 1);
    }
  }

  /** All partial sums are within 10^-13 of the first term, so the final division is safe. */
  lemma {:induction false} SumPositive(q: nat)
    ensures 0.9 * L0 <= PartialSum(q) <= L0
  {
    hide Term;
    TailBound(0, q);
    SecondTerm();
    TermsAlternate(1);
    assert PartialSum(0) == Term(0);
  }

  /** What the function returns after n passes. */
  function Value(root: real, n: nat): real {
    SumPositive(n);
    426880.0 * root / PartialSum(n)
  }

  /** With the pass count of the source for d digits no number of further passes changes the result
      by more than 10^-13 units of the last digit, relatively. */
  lemma {:induction false} PassesSuffice(root: real, d: nat, k: nat)
    requires root >= 0.0
    ensures var n := 1 + d / 14;
            Abs(Value(root, n + k) - Value(root, n)) <= 0.0000000000001 * Mul(Pow(0.1, d), Value(root, n))
  {
    hide Term, Pow, PartialSum, Mul;
    var n := 1 + d / 14;
    TailBound(n, k);
    TermBound(n + 1);
    assert d + 15 <= 14 * (n + 1);
    PowDecreases(0.1, d + 15, 14 * (n + 1));
    PowAdds(0.1, 15, d);
    TenthPowers();
    TinyScale(Pow(0.1, d));
    PowBelowOne(0.1, d);
    SumPositive(n);
    SumPositive(n + k);
    RelativeChange(426880.0 * root, PartialSum(n), PartialSum(n + k), Pow(0.1, d));
  }

  lemma {:induction false} TinyScale(y: real)
    ensures Mul(0.000000000000001, y) == 0.000000000000001 * y
  {
  }

  lemma {:induction false} RelativeChange(c: real, s: real, s': real, u: real)
    requires c >= 0.0 && s >= 0.9 * L0 && s' >= 0.9 * L0 && u >= 0.0
    requires Abs(s' - s) <= 0.00000000000001 * L0 * u
    ensures Abs(c / s' - c / s) <= 0.0000000000001 * Mul(u, c / s)
  {
    var v := c / s;
    assert v * s == c;
    assert v >= 0.0;
    ChangeIs(c, s, s', v);
    ChangeBound(c / s' - v, s, s', v, u);
  }

  lemma {:induction false} ChangeIs(c: real, s: real, s': real, v: real)
    requires s > 0.0 && s' > 0.0 && v * s == c
    ensures Mul(c / s' - v, s') == Mul(v, s - s')
  {
    var w := c / s';
    assert w * s' == c;
  }

  lemma {:induction false} ChangeBound(x: real, s: real, s': real, v: real, u: real)
    requires s' >= 0.9 * L0 && v >= 0.0 && u >= 0.0 && Mul(x, s') == Mul(v, s - s')
    requires Abs(s' - s) <= 0.00000000000001 * L0 * u
    ensures Abs(x) <= 0.0000000000001 * Mul(u, v)
  {
    hide Mul;
    var y := Mul(u, v);
    NonnegativeProduct(u, v);
    SmallProduct(v, s - s', u);
    LargeProduct(0.0000000000001 * y, s');
    Negated(0.0000000000001 * y, s');
    CancelLess(x, 0.0000000000001 * y, s');
    CancelLess(-(0.0000000000001 * y), x, s');
  }

  lemma {:induction false} SmallProduct(v: real, e: real, u: real)
    requires v >= 0.0 && Abs(e) <= 0.00000000000001 * L0 * u
    ensures Abs(Mul(v, e)) <= 0.00000000000001 * L0 * Mul(u, v)
  {
    var b := 0.00000000000001 * L0 * u;
    Ordered(v, e, b);
    Ordered(v, -b, e);
    assert v * b == 0.00000000000001 * L0 * (u * v);
  }

  lemma {:induction false} LargeProduct(z: real, s: real)
    requires z >= 0.0 && s >= 0.9 * L0
    ensures Mul(z, s) >= 0.9 * L0 * z
  {
    Ordered(z, 0.9 * L0, s);
  }

  lemma {:induction false} Negated(z: real, s: real)
    ensures Mul(-z, s) == -Mul(z, s)
  {
  }

  lemma {:induction false} FirstTerm()
    ensures Term(0) == L0
  {
    assert Binomial(0, 0) == 1;
    assert M(0) == 1;
    assert Pow(X1, 0) == 1.0;
  }

  // ------------------------------------------------- the program

  /** The variables of the loop. */
  datatype State = State(k: real, m: real, l: real, x: real, s: real)

  /** What the variables of the series are after q passes. */
  function ClosedForm(q: nat): State {
    State(12.0 * q as real + 6.0, M(q) as real, LinearTerm(q), Pow(X1, q), PartialSum(q))
  }

  lemma {:induction false} LinearNext(q: nat)
    ensures LinearTerm(q) + L1 == LinearTerm(q + 1)
  {
    assert (q + 1) as real == q as real + 1.0;
  }

  lemma {:induction false} PowNext(q: nat)
    ensures Pow(X1, q + 1) == Mul(Pow(X1, q), X1)
  {
  }

  lemma {:induction false} CubeIsCubed(x: real)
    ensures Cube(x) == Cubed(x)
  {
  }

  lemma {:induction false} DivideBack(m: real, d: real, p: real)
    requires d != 0.0 && Mul(m, d) == p
    ensures p / d == m
  {
  }

  /** The number of passes with an exact cube, and the first pass with the cube 0, both counted from 1. */
  const EXACT: nat := 2642245
  const LIMIT: nat := 0x40_0000

  /** cube(i + 1) in a 64-bit unsigned integer. */
  function CounterCube(i: nat): nat {
    Residues.Mod((i + 1) * (i + 1) * (i + 1), 0x1_0000_0000_0000_0000)
  }

  /** The 64-bit cube is the cube exactly in the first 2642245 passes. */
  lemma {:induction false} CounterCubeIsCube(i: nat)
    ensures CounterCube(i) == (i + 1) * (i + 1) * (i + 1) <==> i < EXACT
  {
    hide Residues.Mod;
    var d := i + 1;
    CubeMonotone(d, 2642245);
    CubeMonotone(2642246, d);
    if i < 2642245 {
      Residues.ModSmall(d * d * d, 0x1_0000_0000_0000_0000);
    }
  }

  lemma {:induction false} CubeMonotone(x: nat, y: nat)
    ensures x <= y ==> x * x * x <= y * y * y
  {
    if x <= y {
      NatOrder(x, x, y);
      NatOrder(y, x, y);
      NatOrder(x, x * x, y * y);
      NatOrder(y * y, x, y);
    }
  }

  lemma {:induction false} NatOrder(w: nat, x: nat, y: nat)
    requires x <= y
    ensures w * x <= w * y
  {
  }

  /** The first pass that divides by 0 is the one with i + 1 = 2^22. */
  lemma {:induction false} CounterCubeVanishes(i: nat)
    requires i < LIMIT
    ensures CounterCube(i) == 0 <==> i == LIMIT - 1
  {
    hide Residues.Mod, Residues.TwoDivides;
    if i == 0x40_0000 - 1 {
      Residues.ModShift(0x40_0000 * 0x40_0000 * 0x40_0000, 0, 4, 0x1_0000_0000_0000_0000);
      Residues.ModSmall(0, 0x1_0000_0000_0000_0000);
    } else if CounterCube(i) == 0 {
      Residues.Pow2Values();
      Residues.TwoDividesIsMod(64, (i + 1) * (i + 1) * (i + 1));
      CubeDivisible(22, i + 1);
      Residues.TwoDividesIsMod(22, i + 1);
      PowTwentyTwo();
      Residues.ModSmall(i + 1, 0x40_0000);
    }
  }

  lemma {:induction false} PowTwentyTwo()
    ensures Residues.Pow2(22) == 0x40_0000
  {
    assert Residues.Pow2(11) == 0x800;
    Residues.Pow2Add(11, 11);
  }

  /** A cube divisible by 2^(3k-2) has a root divisible by 2^k. */
  lemma {:induction false} CubeDivisible(k: nat, d: int)
    requires k >= 1 && Residues.TwoDivides(3 * k - 2, d * d * d)
    ensures Residues.TwoDivides(k, d)
  {
    OddCube(d);
    if k > 1 {
      var e := d / 2;
      EightTimes(d, e);
      Residues.TwoDividesDouble(3 * k - 3, 4 * (e * e * e));
      Residues.TwoDividesDouble(3 * k - 4, 2 * (e * e * e));
      Residues.TwoDividesDouble(3 * k - 5, e * e * e);
      CubeDivisible(k - 1, e);
    }
  }

  lemma {:induction false} OddCube(d: int)
    ensures d * d * d % 2 == d % 2
  {
    if d % 2 == 1 {
      Residues.OddProduct(d, d);
      Residues.OddProduct(d * d, d);
    } else {
      var y := Residues.EvenProduct(d, d * d);
      assert d * (d * d) == d * d * d;
    }
  }

  lemma {:induction false} EightTimes(d: int, e: int)
    requires d % 2 == 0 && e == d / 2
    ensures d == 2 * e && d * d * d == 2 * (4 * (e * e * e)) && 4 * (e * e * e) == 2 * (2 * (e * e * e))
  {
    assert (2 * e) * (2 * e) == 4 * (e * e);
    assert (4 * (e * e)) * (2 * e) == 8 * (e * e * e);
  }

  // ------------------------------------------------- the variables with the wrapping counter

  /** The variable m after q passes. */
  function CodeM(q: nat): (m: real)
    requires q < LIMIT
    ensures m > 0.0
  {
    if q == 0 then 1.0
    else
      CounterCubeVanishes(q - 1);
      CodeMPositive((q - 1) as real, CodeM(q - 1), CounterCube(q - 1) as real);
      Mul(Numerator((q - 1) as real), CodeM(q - 1)) / CounterCube(q - 1) as real
  }

  /** k^3 - 16k in the pass with counter q. */
  function Numerator(q: real): real {
    Cubed(12.0 * q + 6.0) - 16.0 * (12.0 * q + 6.0)
  }

  lemma {:induction false} CodeMPositive(q: real, m: real, c: real)
    requires q >= 0.0 && m > 0.0 && c > 0.0
    ensures Mul(Numerator(q), m) / c > 0.0
  {
    NumeratorRange(q);
    PositiveProduct(Numerator(q), m);
    hide Mul, Numerator;
    SignOfQuotient(Mul(Numerator(q), m), c);
  }

  lemma {:induction false} NumeratorRange(q: real)
    requires q >= 0.0
    ensures Numerator(q) > 0.0
  {
    CubedIs(q, 12.0 * q + 6.0);
    PositiveProduct(6.0 * q + 3.0, 6.0 * q + 5.0);
    PositiveProduct(6.0 * q + 1.0, Mul(6.0 * q + 3.0, 6.0 * q + 5.0));
  }

  /** The term that pass number q adds. */
  function CodeTerm(q: nat): real
    requires q < LIMIT
  {
    NonzeroPower(q);
    Mul(CodeM(q), LinearTerm(q)) / Pow(X1, q)
  }

  /** The variable s after q passes. */
  function CodeSum(q: nat): real
    requires q < LIMIT
  {
    if q == 0 then L0 else CodeSum(q - 1) + CodeTerm(q)
  }

  /** As long as the cube is exact, the variables are the closed forms. */
  lemma {:induction false} CodeIsExact(q: nat)
    requires q <= EXACT
    ensures CodeM(q) == M(q) as real && CodeSum(q) == PartialSum(q)
  {
    hide M, Term, Pow, Mul, LinearTerm, CounterCube, Numerator;
    if q == 0 {
      FirstM();
      FirstTerm();
    } else {
      CodeIsExact(q - 1);
      TermIs(q);
      ExactM(q - 1);
    }
  }

  lemma {:induction false} ExactM(q: nat)
    requires q < EXACT && CodeM(q) == M(q) as real
    ensures CodeM(q + 1) == M(q + 1) as real
  {
    hide M, Mul, Cubed;
    var d := q as real + 1.0;
    MNext(q);
    CubedPositive(d);
    CounterCubeIsCube(q);
    CubeOfCounter(q);
    CubeIsCubed(d);
    hide CounterCube, Numerator;
    NumeratorIs(q as real);
    DivideBack(M(q + 1) as real, Cubed(d), Mul(Numerator(q as real), M(q) as real));
  }

  lemma {:induction false} NumeratorIs(q: real)
    ensures Numerator(q) == Cubed(12.0 * q + 6.0) - 16.0 * (12.0 * q + 6.0)
  {
  }

  /** The first inexact cube leaves m too large, and it stays too large. */
  lemma {:induction false} CodeMExceeds(q: nat)
    requires EXACT < q < LIMIT
    ensures CodeM(q) > M(q) as real
  {
    hide M, Mul, Cubed, Numerator, CounterCube;
    var i := q - 1;
    if i == EXACT {
      CodeIsExact(i);
    } else {
      CodeMExceeds(i);
    }
    MNext(i);
    NumeratorIs(i as real);
    NumeratorRange(i as real);
    MPositive(i);
    MPositive(q);
    CounterCubeVanishes(i);
    CounterCubeBelow(i);
    CubeIsCubed(i as real + 1.0);
    CubeOfCounter(i);
    assert CodeM(q) == Mul(Numerator(i as real), CodeM(i)) / CounterCube(i) as real;
    hide CodeM, Cube;
    SmallerDivisor(Numerator(i as real), CodeM(i), M(i) as real, CounterCube(i) as real, Cubed(i as real + 1.0), M(q) as real);
  }

  lemma {:induction false} CounterCubeBelow(i: nat)
    requires i >= EXACT
    ensures CounterCube(i) < (i + 1) * (i + 1) * (i + 1)
  {
    hide Residues.Mod;
    CounterCubeIsCube(i);
    CubeOfCounter(i);
    var x, m := (i + 1) * (i + 1) * (i + 1), 0x1_0000_0000_0000_0000;
    if x < m {
      Residues.ModSmall(x, m);
    }
  }

  lemma {:induction false} SmallerDivisor(g: real, m': real, m: real, c: real, d: real, next: real)
    requires g > 0.0 && m' >= m > 0.0 && 0.0 < c < d && next > 0.0 && Mul(next, d) == Mul(g, m)
    ensures Mul(g, m') / c > next
  {
    var v := Mul(g, m') / c;
    assert Mul(v, c) == Mul(g, m');
    hide Mul;
    MulOrder(g, g, m, m');
    StrictOrder(c, d, next);
    MulCommutes(c, next);
    MulCommutes(d, next);
    if v < next {
      StrictOrder(v, next, c);
    }
  }

  /** The variables are those of the series exactly for the first 2642245 passes. */
  lemma {:induction false} StateIsClosedForm(q: nat)
    requires q < LIMIT
    ensures CodeState(q) == ClosedForm(q) <==> q <= EXACT
  {
    hide M, CodeM, CodeSum, PartialSum, Pow, LinearTerm;
    if q <= EXACT {
      CodeIsExact(q);
    } else {
      CodeMExceeds(q);
    }
  }

  // ------------------------------------------------- after the cube has wrapped

  /** k^3 - 16k stays below 2 * 10^23. */
  lemma {:induction false} NumeratorBound(q: real)
    requires 0.0 <= q <= 4194304.0
    ensures Numerator(q) <= 200000000000000000000000.0
  {
    var k, top := 12.0 * q + 6.0, 50331654.0;
    MulOrder(k, top, k, top);
    MulOrder(k, top, Mul(k, k), Mul(top, top));
    assert Cubed(top) <= 200000000000000000000000.0;
  }

  /** Whatever the divisor is, a term is at most 10^8 times the one before. */
  lemma {:induction false} CodeTermGrowth(q: nat)
    requires q + 1 < LIMIT
    ensures Abs(CodeTerm(q + 1)) <= 100000000.0 * Abs(CodeTerm(q))
  {
    hide *;
    CodeSize(q);
    CodeSize(q + 1);
    CodeNumeratorGrowth(q);
    PowerNext(q);
    GrowthSize(Abs(CodeTerm(q + 1)), Abs(CodeTerm(q)), Pow(-X1, q), Mul(CodeM(q + 1), LinearTerm(q + 1)), Mul(CodeM(q), LinearTerm(q)));
  }

  lemma {:induction false} CodeSize(q: nat)
    requires q < LIMIT
    ensures Pow(-X1, q) > 0.0 && Mul(Abs(CodeTerm(q)), Pow(-X1, q)) == Mul(CodeM(q), LinearTerm(q)) > 0.0
  {
    hide Mul, Pow, CodeM;
    NonzeroPower(q);
    PowerSigns(q);
    LinearGrowth(q);
    hide LinearTerm;
    PositiveProduct(CodeM(q), LinearTerm(q));
    SizeCore(Mul(CodeM(q), LinearTerm(q)), Pow(X1, q), Pow(-X1, q), CodeTerm(q));
  }

  lemma {:induction false} CodeNumeratorGrowth(q: nat)
    requires q + 1 < LIMIT
    ensures Mul(CodeM(q + 1), LinearTerm(q + 1)) <= 26000000000000000000000000.0 * Mul(CodeM(q), LinearTerm(q))
  {
    hide Mul, CounterCube, Numerator;
    CounterCubeVanishes(q);
    NumeratorBound(q as real);
    LinearGrowth(q);
    LinearGrowth(q + 1);
    hide LinearTerm;
    var m0, c := CodeM(q), CounterCube(q) as real;
    assert CodeM(q + 1) == Mul(Numerator(q as real), m0) / c;
    hide CodeM;
    DivisorAtLeastOne(Numerator(q as real), m0, c);
    LinearRatio(q);
    ProductGrowth(CodeM(q + 1), m0, LinearTerm(q + 1), LinearTerm(q));
  }

  lemma {:induction false} LinearRatio(q: nat)
    ensures 0.0 < LinearTerm(q + 1) <= 42.0 * LinearTerm(q)
  {
    assert (q + 1) as real == q as real + 1.0;
  }

  lemma {:induction false} DivisorAtLeastOne(g: real, m: real, c: real)
    requires m > 0.0 && c >= 1.0 && g <= 200000000000000000000000.0
    ensures Mul(g, m) / c <= 200000000000000000000000.0 * m
  {
    var v := 200000000000000000000000.0 * m;
    Ordered(m, g, 200000000000000000000000.0);
    Ordered(v, 1.0, c);
    assert m * g == Mul(g, m);
    var q := Mul(g, m) / c;
    assert Mul(q, c) == Mul(g, m);
    assert Mul(v, c) >= v;
    CancelLess(q, v, c);
  }

  lemma {:induction false} ProductGrowth(m1: real, m0: real, l1: real, l0: real)
    requires 0.0 < m1 <= 200000000000000000000000.0 * m0 && 0.0 < l1 <= 42.0 * l0
    ensures Mul(m1, l1) <= 26000000000000000000000000.0 * Mul(m0, l0)
  {
    MulOrder(m1, 200000000000000000000000.0 * m0, l1, 42.0 * l0);
    PositiveProduct(m0, l0);
    assert Mul(200000000000000000000000.0 * m0, 42.0 * l0) == 8400000000000000000000000.0 * Mul(m0, l0);
  }

  lemma {:induction false} GrowthSize(t1: real, t0: real, b: real, n1: real, n0: real)
    requires b > 0.0 && Mul(t1, Mul(262537412640768000.0, b)) == n1 && Mul(t0, b) == n0
    requires n1 <= 26000000000000000000000000.0 * n0 && n0 >= 0.0
    ensures t1 <= 100000000.0 * t0
  {
    PullBase(t1, b);
    hide Mul;
    PullEight(t0, b);
    CancelLess(t1, 100000000.0 * t0, b);
  }

  lemma {:induction false} PullEight(t: real, b: real)
    ensures Mul(100000000.0 * t, b) == 100000000.0 * Mul(t, b)
  {
  }

  /** The power of ten below which a term lies: it falls by 14 a pass and, at worst, rises by 8 a pass
      once the cube has wrapped. */
  function Digits(q: nat): nat
    requires q < LIMIT
  {
    if q <= EXACT then 14 * q else 14 * EXACT - 8 * (q - EXACT)
  }

  lemma {:induction false} CodeTermBound(q: nat)
    requires q < LIMIT
    ensures Abs(CodeTerm(q)) <= 10.0 * L0 * Pow(0.1, Digits(q))
  {
    hide Mul, Pow, CodeTerm, LinearTerm, Term;
    if q <= EXACT {
      CodeTermIs(q);
      TermBound(q);
    } else {
      CodeTermBound(q - 1);
      CodeTermGrowth(q - 1);
      PowAdds(0.1, 8, Digits(q));
      EightTenths(Pow(0.1, Digits(q)));
    }
  }

  lemma {:induction false} CodeTermIs(q: nat)
    requires q <= EXACT
    ensures CodeTerm(q) == Term(q)
  {
    hide Mul, Pow, M, CodeM, LinearTerm;
    CodeIsExact(q);
    TermIs(q);
  }

  lemma {:induction false} EightTenths(y: real)
    ensures Mul(Pow(0.1, 8), y) == y / 100000000.0
  {
    SevenTenths();
    assert Pow(0.1, 8) == Mul(0.1, Pow(0.1, 7)) == 0.00000001;
  }

  /** The passes with a wrapped cube change the sum by less than 10^-24574957 of the first term. */
  lemma {:induction false} WrappedTail(q: nat)
    requires EXACT <= q < LIMIT
    ensures Abs(CodeSum(q) - PartialSum(EXACT)) <= 10.0 * L0 * Mul((q - EXACT) as real, Pow(0.1, 24574966))
  {
    hide Mul, Pow, CodeTerm, PartialSum, Digits;
    if q == EXACT {
      CodeIsExact(q);
      MulZero(Pow(0.1, 24574966));
    } else {
      WrappedTail(q - 1);
      CodeTermBound(q);
      DigitsAtLeast(q);
      PowDecreases(0.1, 24574966, Digits(q));
      MulCommutes((q - EXACT) as real, Pow(0.1, 24574966));
      MulCommutes((q - 1 - EXACT) as real, Pow(0.1, 24574966));
      OneMore(q - 1 - EXACT, Pow(0.1, 24574966));
    }
  }

  lemma {:induction false} OneMore(c: nat, y: real)
    ensures Mul(y, (c + 1) as real) == Mul(y, c as real) + y
  {
  }

  lemma {:induction false} DigitsAtLeast(q: nat)
    requires EXACT <= q < LIMIT
    ensures Digits(q) >= 24574966
  {
  }

  /** The sum is never near zero, wrapped or not, and past the exact passes it still agrees with the
      series to more than 24 million digits. */
  lemma {:induction false} CodeSumRange(q: nat)
    requires q < LIMIT
    ensures 0.8 * L0 <= CodeSum(q) <= 1.1 * L0
    ensures q >= EXACT ==> Abs(CodeSum(q) - PartialSum(EXACT)) <= L0 * Pow(0.1, 24574958)
  {
    hide Mul, Pow, PartialSum, CodeSum;
    if q <= EXACT {
      CodeIsExact(q);
      SumPositive(q);
      PowBelowOne(0.1, 24574958);
    } else {
      WrappedTail(q);
      SumPositive(EXACT);
      PowAdds(0.1, 8, 24574958);
      EightTenths(Pow(0.1, 24574958));
      PowBelowOne(0.1, 24574958);
      PowDecreases(0.1, 15, 24574958);
      TenthPowers();
      SmallCount((q - EXACT) as real, Pow(0.1, 24574966), Pow(0.1, 24574958));
    }
  }

  lemma {:induction false} SmallCount(c: real, x: real, y: real)
    requires 0.0 <= c <= 2000000.0 && x == y / 100000000.0 && y > 0.0
    ensures 10.0 * L0 * Mul(c, x) <= L0 * y
  {
    Ordered(x, c, 2000000.0);
  }

  // ------------------------------------------------- where the series goes

  lemma {:induction false} FirstSum()
    ensures Inside(PartialSum(1), 13591408.999999744616264456974709, 13591408.99999974461626445697471) && Abs(Term(1)) <= 0.0000002554
  {
    FirstTerm();
    SecondM();
    hide M;
    assert Pow(X1, 1) == X1 by {
      assert Pow(X1, 0) == 1.0;
    }
    assert Term(1) == 120.0 * (L0 + L1) / X1;
    assert PartialSum(0) == Term(0);
    assert PartialSum(1) == PartialSum(0) + Term(1);
  }

  /** All sums from the first pass on, of the series and of the code, lie in one small interval. */
  lemma {:induction false} SumsInside(n: nat)
    requires n >= 1
    ensures Inside(PartialSum(n), 13591408.999999744616264456974709, 13591408.999999744616264456977309)
    ensures n < LIMIT ==> Inside(CodeSum(n), 13591408.999999744616264456974609, 13591408.999999744616264456977409)
  {
    hide Term, PartialSum, Pow, CodeSum;
    SeriesInside(n);
    SeriesInside(EXACT);
    if n < LIMIT {
      if n <= EXACT {
        CodeIsExact(n);
      } else {
        CodeSumRange(n);
        TinyPower();
      }
    }
  }

  lemma {:induction false} SeriesInside(n: nat)
    requires n >= 1
    ensures Inside(PartialSum(n), 13591408.999999744616264456974709, 13591408.999999744616264456977309)
  {
    hide Term, PartialSum;
    FirstSum();
    TailBound(1, n - 1);
    TermsAlternate(2);
    TermsShrink(1);
  }

  lemma {:induction false} TinyPower()
    ensures 0.0 < Pow(0.1, 24574958) <= 0.000000000000000000000000000001
  {
    hide Pow, Mul;
    PowBelowOne(0.1, 24574958);
    PowDecreases(0.1, 30, 24574958);
    PowAdds(0.1, 15, 15);
    TenthPowers();
    MulIs(0.000000000000001, 0.000000000000001);
  }

  lemma {:induction false} RootInside(root: real)
    requires root >= 0.0 && root * root == 10005.0
    ensures Inside(root, 100.02499687578100594479218787635777, 100.02499687578100594479218787635778)
  {
    if root < 100.02499687578100594479218787635777 {
      SquareOrder(root, 100.02499687578100594479218787635777);
    }
    if root > 100.02499687578100594479218787635778 {
      SquareOrder(100.02499687578100594479218787635778, root);
    }
  }

  /** Whatever the number of passes is, the quotient agrees with pi in 26 decimals. */
  lemma {:induction false} QuotientInDigits(root: real, s: real)
    requires root >= 0.0 && root * root == 10005.0 && Inside(s, 13591408.999999744616264456974609, 13591408.999999744616264456977409)
    ensures 3.14159265358979323846264338 < 426880.0 * root / s < 3.14159265358979323846264339
  {
    RootInside(root);
    QuotientInside(426880.0 * root, s, 3.141592653589793238462643382, 3.141592653589793238462643384);
  }

  /** With the square root of 10005 every result from the first pass on agrees with pi in 26 decimals. */
  lemma {:induction false} ResultInDigits(root: real, n: nat)
    requires root >= 0.0 && root * root == 10005.0 && n >= 1
    ensures 3.14159265358979323846264338 < Value(root, n) < 3.14159265358979323846264339
  {
    hide PartialSum;
    SumsInside(n);
    QuotientInDigits(root, PartialSum(n));
  }

  // ------------------------------------------------- the loop

  /** The variables of the loop after q passes. */
  function CodeState(q: nat): State
    requires q < LIMIT
  {
    State(12.0 * q as real + 6.0, CodeM(q), LinearTerm(q), Pow(X1, q), CodeSum(q))
  }

  /** The loop and the final division, for any number of passes; root is the square root of 10005. The
      model ends with zeroDivisor in the pass whose 64-bit cube is 0. */
  method ChudnovskyForPi(root: real, maxIter: nat) returns (r: real, zeroDivisor: bool)
    ensures zeroDivisor <==> maxIter >= LIMIT
    ensures !zeroDivisor ==> CodeSum(maxIter) >= 0.8 * L0 && r == 426880.0 * root / CodeSum(maxIter)
    ensures maxIter <= EXACT ==> r == Value(root, maxIter)
    ensures root >= 0.0 && root * root == 10005.0 && 1 <= maxIter < LIMIT
            ==> 3.14159265358979323846264338 < r < 3.14159265358979323846264339
  {
    hide M, Pow, Cube, PartialSum, LinearTerm, CodeM, CodeSum, CounterCube;
    var k, m, l, x, s := 6.0, 1.0, L0, 1.0, L0;
    StartsClosed();
    var i := 0;
    while i < maxIter
      invariant 0 <= i <= maxIter && i < LIMIT && State(k, m, l, x, s) == CodeState(i)
    {
      CounterCubeVanishes(i);
      if CounterCube(i) == 0 {
        return 0.0, true;
      }
      k, m, l, x, s := Pass(i, k, m, l, x, s);
      i := i + 1;
    }
    CodeSumRange(maxIter);
    r := 426880.0 * root / s;
    zeroDivisor := false;
    if root >= 0.0 && root * root == 10005.0 && maxIter >= 1 {
      SumsInside(maxIter);
      QuotientInDigits(root, s);
    }
    if maxIter <= EXACT {
      CodeIsExact(maxIter);
      SumPositive(maxIter);
    }
  }

  /** The loop body. */
  method Pass(i: nat, k: real, m: real, l: real, x: real, s: real)
    returns (k': real, m': real, l': real, x': real, s': real)
    requires i + 1 < LIMIT && State(k, m, l, x, s) == CodeState(i)
    ensures State(k', m', l', x', s') == CodeState(i + 1)
  {
    hide *;
    StateParts(i);
    CounterCubeVanishes(i);
    PassM(i, k);
    PassSum(i);
    var k3 := Cube(k);
    m' := (k3 - 16.0 * k) * m / (CounterCube(i) as real);
    l' := l + L1;
    x' := x * X1;
    s' := s + m' * l' / x';
    k' := k + 12.0;
    LinearNext(i);
    NextK(i);
    StateParts(i + 1);
  }

  lemma {:induction false} StateParts(q: nat)
    requires q < LIMIT
    ensures CodeState(q) == State(12.0 * q as real + 6.0, CodeM(q), LinearTerm(q), Pow(X1, q), CodeSum(q))
  {
    hide CodeM, LinearTerm, Pow, CodeSum;
  }

  lemma {:induction false} PassM(i: nat, k: real)
    requires i + 1 < LIMIT && k == 12.0 * i as real + 6.0
    ensures CounterCube(i) > 0
    ensures (Cube(k) - 16.0 * k) * CodeM(i) / CounterCube(i) as real == CodeM(i + 1)
  {
    hide Mul, Cube, Cubed, CounterCube;
    CounterCubeVanishes(i);
    CubeIsCubed(k);
    NumeratorIs(i as real);
    MulIs(Cube(k) - 16.0 * k, CodeM(i));
    hide Numerator;
    assert CodeM(i + 1) == Mul(Numerator(i as real), CodeM(i)) / CounterCube(i) as real;
  }

  lemma {:induction false} PassSum(i: nat)
    requires i + 1 < LIMIT
    ensures Pow(X1, i) * X1 == Pow(X1, i + 1) != 0.0
    ensures CodeSum(i) + CodeM(i + 1) * LinearTerm(i + 1) / Pow(X1, i + 1) == CodeSum(i + 1)
  {
    hide Mul, Pow, CodeM, LinearTerm;
    NonzeroPower(i + 1);
    PowNext(i);
    MulIs(Pow(X1, i), X1);
    MulIs(CodeM(i + 1), LinearTerm(i + 1));
  }

  lemma {:induction false} NextK(i: nat)
    ensures 12.0 * i as real + 6.0 + 12.0 == 12.0 * (i + 1) as real + 6.0
  {
  }

  lemma {:induction false} CubeOfCounter(i: nat)
    ensures Cube(i as real + 1.0) == ((i + 1) * (i + 1) * (i + 1)) as real
    ensures (i + 1) * (i + 1) * (i + 1) > 0
  {
  }

  lemma {:induction false} StartsClosed()
    ensures CodeState(0) == State(6.0, 1.0, L0, 1.0, L0)
  {
    assert Pow(X1, 0) == 1.0;
  }
}
