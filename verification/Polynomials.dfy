/** Polynomials with real coefficients, lowest power first: the meaning of the const_polynomial
    operations of example/constexpr_float_arithmetic_examples.cpp. */
module Polynomials {
  import opened Reals

  type Poly = seq<real>

  /** The coefficient of x^i. */
  function At(p: Poly, i: int): real {
    if 0 <= i < |p| then p[i] else 0.0
  }

  /** The sum of the first n terms p_i * x^i. */
  function PowerSum(p: Poly, x: real, n: nat): real {
    if n == 0 then 0.0 else PowerSum(p, x, n - 1) + Mul(At(p, n - 1), Pow(x, n - 1))
  }

  /** The value of p at x. */
  function Eval(p: Poly, x: real): real {
    PowerSum(p, x, |p|)
  }

  function Max(i: nat, j: nat): nat {
    if i > j then i else j
  }

  function Add(a: Poly, b: Poly): Poly {
    seq(Max(|a|, |b|), i => At(a, i) + At(b, i))
  }

  /** What operator- computes: where only b has coefficients they keep their sign. */
  function Subtract(a: Poly, b: Poly): Poly {
    seq(Max(|a|, |b|), i => if i < |a| then At(a, i) - At(b, i) else At(b, i))
  }

  function ScaleBy(c: real, a: Poly): Poly {
    seq(|a|, i => Mul(At(a, i), c))
  }

  /** The coefficient of x^k in the product of the first hi terms of a with b. */
  function Convolution(a: Poly, b: Poly, k: int, hi: nat): real {
    if hi == 0 then 0.0 else Convolution(a, b, k, hi - 1) + Mul(At(a, hi - 1), At(b, k - (hi - 1)))
  }

  function Product(a: Poly, b: Poly): (p: Poly)
    requires |a| > 0 && |b| > 0
  {
    seq(|a| + |b| - 1, k => Convolution(a, b, k, |a|))
  }

  function Derive(p: Poly): Poly
    requires |p| > 0
  {
    seq(|p| - 1, i => Mul(At(p, i + 1), (i + 1) as real))
  }

  // ------------------------------------------------- evaluation

  /** Terms past the last coefficient add nothing. */
  lemma {:induction false} PowerSumBeyond(p: Poly, x: real, n: nat)
    requires n >= |p|
    ensures PowerSum(p, x, n) == Eval(p, x)
  {
    hide Mul, Pow;
    if n > |p| {
      PowerSumBeyond(p, x, n - 1);
      MulZero(Pow(x, n - 1));
    }
  }

  lemma {:induction false} PowerSumAdds(a: Poly, b: Poly, x: real, n: nat)
    requires n <= Max(|a|, |b|)
    ensures PowerSum(Add(a, b), x, n) == PowerSum(a, x, n) + PowerSum(b, x, n)
  {
    hide Mul, Pow;
    if n > 0 {
      PowerSumAdds(a, b, x, n - 1);
      MulAdds(At(a, n - 1), At(b, n - 1), Pow(x, n - 1));
    }
  }

  lemma {:induction false} MulAdds(x: real, y: real, z: real)
    ensures Mul(x + y, z) == Mul(x, z) + Mul(y, z)
    ensures Mul(x - y, z) == Mul(x, z) - Mul(y, z)
  {
  }

  /** (a + b)(x) = a(x) + b(x) */
  lemma {:induction false} AddMeaning(a: Poly, b: Poly, x: real)
    ensures Eval(Add(a, b), x) == Eval(a, x) + Eval(b, x)
  {
    hide PowerSum;
    var n := Max(|a|, |b|);
    PowerSumAdds(a, b, x, n);
    PowerSumBeyond(a, x, n);
    PowerSumBeyond(b, x, n);
  }

  lemma {:induction false} PowerSumScales(c: real, a: Poly, x: real, n: nat)
    requires n <= |a|
    ensures PowerSum(ScaleBy(c, a), x, n) == Mul(c, PowerSum(a, x, n))
  {
    hide Mul, Pow;
    if n == 0 {
      MulZero(c);
      MulCommutes(c, 0.0);
    } else {
      PowerSumScales(c, a, x, n - 1);
      MulCommutes(At(a, n - 1), c);
      MulAssociates(c, At(a, n - 1), Pow(x, n - 1));
      MulDistributes(c, PowerSum(a, x, n - 1), Mul(At(a, n - 1), Pow(x, n - 1)));
    }
  }

  /** (c a)(x) = c a(x) */
  lemma {:induction false} ScaleMeaning(c: real, a: Poly, x: real)
    ensures Eval(ScaleBy(c, a), x) == Mul(c, Eval(a, x))
  {
    PowerSumScales(c, a, x, |a|);
  }

  // ------------------------------------------------- the product

  /** The first n coefficients of the product of the first hi terms of a with b, at x. */
  function PartialProduct(a: Poly, b: Poly, x: real, hi: nat, n: nat): real {
    if n == 0 then 0.0 else PartialProduct(a, b, x, hi, n - 1) + Mul(Convolution(a, b, n - 1, hi), Pow(x, n - 1))
  }

  /** b shifted up by s places, at x. */
  function Shifted(b: Poly, x: real, s: nat, n: nat): real {
    if n == 0 then 0.0 else Shifted(b, x, s, n - 1) + Mul(At(b, n - 1 - s), Pow(x, n - 1))
  }

  lemma {:induction false} ShiftMeaning(b: Poly, x: real, s: nat, n: nat)
    ensures Shifted(b, x, s, n) == if n <= s then 0.0 else Mul(Pow(x, s), PowerSum(b, x, n - s))
  {
    hide Mul, Pow;
    if n > 0 {
      ShiftMeaning(b, x, s, n - 1);
      if n <= s {
        MulZero(Pow(x, n - 1));
      } else {
        var t := At(b, n - 1 - s);
        PowAdds(x, s, n - 1 - s);
        MulCommutes(t, Pow(x, n - 1));
        MulAssociates(Pow(x, s), Pow(x, n - 1 - s), t);
        MulCommutes(Pow(x, n - 1 - s), t);
        MulDistributes(Pow(x, s), PowerSum(b, x, n - 1 - s), Mul(t, Pow(x, n - 1 - s)));
        MulZero(Pow(x, s));
        MulCommutes(0.0, Pow(x, s));
      }
    }
  }

  lemma {:induction false} PartialProductStep(a: Poly, b: Poly, x: real, hi: nat, n: nat)
    requires hi > 0
    ensures PartialProduct(a, b, x, hi, n) == PartialProduct(a, b, x, hi - 1, n) + Mul(At(a, hi - 1), Shifted(b, x, hi - 1, n))
  {
    hide Mul, Pow, At;
    var c := At(a, hi - 1);
    if n == 0 {
      MulZero(c);
      MulCommutes(0.0, c);
    } else {
      PartialProductStep(a, b, x, hi, n - 1);
      var t := At(b, n - 1 - (hi - 1));
      MulAdds(Convolution(a, b, n - 1, hi - 1), Mul(c, t), Pow(x, n - 1));
      MulAssociates(c, t, Pow(x, n - 1));
      MulDistributes(c, Shifted(b, x, hi - 1, n - 1), Mul(t, Pow(x, n - 1)));
    }
  }

  lemma {:induction false} EmptyProduct(a: Poly, b: Poly, x: real, n: nat)
    ensures PartialProduct(a, b, x, 0, n) == 0.0
  {
    hide Mul, Pow;
    if n > 0 {
      EmptyProduct(a, b, x, n - 1);
      MulZero(Pow(x, n - 1));
    }
  }

  lemma {:induction false} PartialProductMeaning(a: Poly, b: Poly, x: real, hi: nat)
    requires |b| > 0 && hi <= |a|
    ensures PartialProduct(a, b, x, hi, |a| + |b| - 1) == Mul(PowerSum(a, x, hi), Eval(b, x))
  {
    hide Mul, Pow, PartialProduct, Shifted, At, Eval;
    var n, e := |a| + |b| - 1, Eval(b, x);
    if hi == 0 {
      EmptyProduct(a, b, x, n);
      MulZero(e);
    } else {
      PartialProductMeaning(a, b, x, hi - 1);
      PartialProductStep(a, b, x, hi, n);
      ShiftMeaning(b, x, hi - 1, n);
      PowerSumBeyond(b, x, n - (hi - 1));
      var c, p := At(a, hi - 1), Pow(x, hi - 1);
      MulAssociates(c, p, e);
      MulAdds(PowerSum(a, x, hi - 1), Mul(c, p), e);
    }
  }

  lemma {:induction false} ProductCoefficients(a: Poly, b: Poly, x: real, n: nat)
    requires |a| > 0 && |b| > 0 && n <= |a| + |b| - 1
    ensures PowerSum(Product(a, b), x, n) == PartialProduct(a, b, x, |a|, n)
  {
    hide Mul, Pow, Convolution;
    if n > 0 {
      ProductCoefficients(a, b, x, n - 1);
    }
  }

  /** (a b)(x) = a(x) b(x) */
  lemma {:induction false} ProductMeaning(a: Poly, b: Poly, x: real)
    requires |a| > 0 && |b| > 0
    ensures Eval(Product(a, b), x) == Mul(Eval(a, x), Eval(b, x))
  {
    hide Mul, PowerSum, PartialProduct, Convolution;
    ProductCoefficients(a, b, x, |a| + |b| - 1);
    PartialProductMeaning(a, b, x, |a|);
  }

  // ------------------------------------------------- the product rule

  /** The terms of (k+1) times the convolution at k+1, split by the factor the weight goes to. */
  lemma {:induction false} WeightedConvolution(a: Poly, b: Poly, k: nat, hi: nat)
    requires |a| > 0 && |b| > 0 && hi <= k + 2
    ensures Mul((k + 1) as real, Convolution(a, b, k + 1, hi))
            == (if hi == 0 then 0.0 else Convolution(Derive(a), b, k, hi - 1)) + Convolution(a, Derive(b), k, hi)
  {
    hide Mul;
    var w := (k + 1) as real;
    if hi == 0 {
      MulZero(w);
      MulCommutes(0.0, w);
    } else {
      WeightedConvolution(a, b, k, hi - 1);
      hide Convolution, Derive, At;
      var i := hi - 1;
      var s, t := At(a, i), At(b, k + 1 - i);
      ConvolutionNext(a, b, k + 1, hi);
      ConvolutionNext(a, Derive(b), k, hi);
      MulDistributes(w, Convolution(a, b, k + 1, i), Mul(s, t));
      DeriveAt(b, k - i);
      SplitWeight(s, t, i, k + 1 - i);
      if i > 0 {
        ConvolutionNext(Derive(a), b, k, i);
        DeriveAt(a, i - 1);
        MulAssociates(s, i as real, t);
        MulCommutes(i as real, t);
        MulAssociates(s, t, i as real);
      } else {
        MulZero(Mul(s, t));
        ConvolutionNone(Derive(a), b, k);
      }
    }
  }

  lemma {:induction false} ConvolutionNext(a: Poly, b: Poly, k: int, hi: nat)
    requires hi > 0
    ensures Convolution(a, b, k, hi) == Convolution(a, b, k, hi - 1) + Mul(At(a, hi - 1), At(b, k - (hi - 1)))
  {
  }

  lemma {:induction false} ConvolutionNone(a: Poly, b: Poly, k: int)
    ensures Convolution(a, b, k, 0) == 0.0
  {
  }

  /** The derivative's coefficients, past the end too. */
  lemma {:induction false} DeriveAt(p: Poly, i: int)
    requires |p| > 0 && i >= -1
    ensures At(Derive(p), i) == Mul(At(p, i + 1), (i + 1) as real)
  {
  }

  lemma {:induction false} SplitWeight(s: real, t: real, i: int, j: int)
    ensures Mul((i + j) as real, Mul(s, t)) == Mul(i as real, Mul(s, t)) + Mul(s, Mul(t, j as real))
    ensures Mul(i as real, Mul(s, t)) == Mul(Mul(s, t), i as real)
  {
    assert (i + j) as real == i as real + j as real;
    assert (i as real + j as real) * (s * t) == i as real * (s * t) + s * (t * j as real);
  }

  /** Terms past the end of a, or before the start of b, add nothing. */
  lemma {:induction false} ConvolutionBeyond(a: Poly, b: Poly, k: int, lo: nat, hi: nat)
    requires lo <= hi && (lo >= |a| || lo > k)
    ensures Convolution(a, b, k, hi) == Convolution(a, b, k, lo)
  {
    hide Mul;
    if lo < hi {
      ConvolutionBeyond(a, b, k, lo, hi - 1);
      MulZero(At(b, k - (hi - 1)));
      MulZero(At(a, hi - 1));
      MulCommutes(0.0, At(a, hi - 1));
    }
  }

  /** (a b)' = a' b + a b', coefficient by coefficient. */
  lemma {:induction false} ProductRule(a: Poly, b: Poly)
    requires |a| > 1 && |b| > 1
    ensures Derive(Product(a, b)) == Add(Product(Derive(a), b), Product(a, Derive(b)))
  {
    var n := |a| + |b| - 2;
    forall k | 0 <= k < n
      ensures Derive(Product(a, b))[k] == Add(Product(Derive(a), b), Product(a, Derive(b)))[k]
    {
      ProductRuleAt(a, b, k);
    }
  }

  lemma {:induction false} ProductRuleAt(a: Poly, b: Poly, k: nat)
    requires |a| > 1 && |b| > 1 && k < |a| + |b| - 2
    ensures At(Derive(Product(a, b)), k) == At(Product(Derive(a), b), k) + At(Product(a, Derive(b)), k)
  {
    hide Mul, Convolution, Derive, At;
    DeriveAt(Product(a, b), k);
    ProductAt(a, b, k + 1);
    DeriveLength(a);
    DeriveLength(b);
    ProductAt(Derive(a), b, k);
    ProductAt(a, Derive(b), k);
    var h := Max(|a|, k + 2);
    WeightedConvolution(a, b, k, k + 2);
    ConvolutionBeyond(a, b, k + 1, k + 2, h);
    ConvolutionBeyond(a, b, k + 1, |a|, h);
    ConvolutionBeyond(Derive(a), b, k, k + 1, h);
    ConvolutionBeyond(Derive(a), b, k, |a| - 1, h);
    ConvolutionBeyond(a, Derive(b), k, k + 2, h);
    ConvolutionBeyond(a, Derive(b), k, |a|, h);
    MulCommutes((k + 1) as real, Convolution(a, b, k + 1, |a|));
  }

  lemma {:induction false} DeriveLength(p: Poly)
    requires |p| > 0
    ensures |Derive(p)| == |p| - 1
  {
  }

  lemma {:induction false} DeriveScales(c: real, p: Poly)
    requires |p| > 0
    ensures |ScaleBy(c, p)| > 0 && Derive(ScaleBy(c, p)) == ScaleBy(c, Derive(p))
  {
    hide Mul;
    forall i | 0 <= i < |p| - 1
      ensures Derive(ScaleBy(c, p))[i] == ScaleBy(c, Derive(p))[i]
    {
      MulAssociates(p[i + 1], c, (i + 1) as real);
      MulCommutes(c, (i + 1) as real);
      MulAssociates(p[i + 1], (i + 1) as real, c);
    }
  }

  lemma {:induction false} ProductAt(a: Poly, b: Poly, k: nat)
    requires |a| > 0 && |b| > 0 && k < |a| + |b| - 1
    ensures At(Product(a, b), k) == Convolution(a, b, k, |a|)
  {
  }

  // ------------------------------------------------- a polynomial that vanishes everywhere

  function Dilation(p: Poly, d: nat): Poly
    requires d <= |p|
  {
    seq(d, i requires 0 <= i < d => Mul(Pow(2.0, i) - Pow(2.0, d), At(p, i)))
  }

  lemma {:induction false} PowTwo(x: real, i: nat)
    ensures Pow(2.0 * x, i) == Mul(Pow(2.0, i), Pow(x, i))
  {
    hide Mul;
    if i == 0 {
      MulOne(1.0);
    } else {
      PowTwo(x, i - 1);
      PowTwoStep(x, Pow(2.0, i - 1), Pow(x, i - 1));
    }
  }

  lemma {:induction false} PowTwoStep(x: real, s: real, t: real)
    ensures Mul(2.0 * x, Mul(s, t)) == Mul(Mul(2.0, s), Mul(x, t))
  {
    assert (2.0 * x) * (s * t) == (2.0 * s) * (x * t);
  }

  lemma {:induction false} PowTwoGrows(i: nat, d: nat)
    requires i < d
    ensures 0.0 < Pow(2.0, i) < Pow(2.0, d)
  {
    if i > 0 {
      PowTwoGrows(i - 1, d - 1);
    } else if d > 1 {
      PowTwoGrows(0, d - 1);
    }
  }

  /** p(2x) - 2^d p(x) has no term in x^d. */
  lemma {:induction false} DilationMeaning(p: Poly, x: real, d: nat, n: nat)
    requires n <= d <= |p|
    ensures PowerSum(Dilation(p, d), x, n) == PowerSum(p, 2.0 * x, n) - Mul(Pow(2.0, d), PowerSum(p, x, n))
  {
    hide Mul, Pow;
    var w := Pow(2.0, d);
    if n == 0 {
      MulZero(w);
      MulCommutes(0.0, w);
    } else {
      DilationMeaning(p, x, d, n - 1);
      PowTwo(x, n - 1);
      DilationTerm(At(p, n - 1), Pow(2.0, n - 1), w, Pow(x, n - 1), PowerSum(p, x, n - 1));
    }
  }

  lemma {:induction false} DilationTerm(c: real, u: real, w: real, y: real, s: real)
    ensures Mul(Mul(u - w, c), y) == Mul(c, Mul(u, y)) - Mul(w, Mul(c, y))
    ensures Mul(w, s + Mul(c, y)) == Mul(w, s) + Mul(w, Mul(c, y))
  {
    assert (u - w) * c * y == c * (u * y) - w * (c * y);
  }

  ghost predicate Vanishes(p: Poly) {
    forall x :: Eval(p, x) == 0.0
  }

  lemma {:induction false} DilationVanishes(p: Poly)
    requires |p| > 0 && Vanishes(p)
    ensures Vanishes(Dilation(p, |p| - 1))
  {
    hide Mul, Pow;
    var d := |p| - 1;
    forall x
      ensures Eval(Dilation(p, d), x) == 0.0
    {
      DilationMeaning(p, x, d, d);
      assert Eval(p, x) == 0.0 && Eval(p, 2.0 * x) == 0.0;
      PowTwo(x, d);
      TopTerm(At(p, d), Pow(2.0, d), Pow(x, d), PowerSum(p, x, d), PowerSum(p, 2.0 * x, d));
    }
  }

  lemma {:induction false} TopTerm(c: real, w: real, y: real, s: real, t: real)
    requires s + Mul(c, y) == 0.0 && t + Mul(c, Mul(w, y)) == 0.0
    ensures t == Mul(w, s)
  {
    assert w * (c * y) == c * (w * y);
    assert s == -(c * y);
  }

  lemma {:induction false} OnlyTopTerm(p: Poly, n: nat)
    requires n <= |p| && forall i | 0 <= i < n :: p[i] == 0.0
    ensures PowerSum(p, 1.0, n) == 0.0
  {
    hide Mul, Pow;
    if n > 0 {
      OnlyTopTerm(p, n - 1);
      MulZero(Pow(1.0, n - 1));
    }
  }

  lemma {:induction false} PowOne(n: nat)
    ensures Pow(1.0, n) == 1.0
  {
    if n > 0 {
      PowOne(n - 1);
    }
  }

  /** Only the zero polynomial vanishes everywhere. */
  lemma {:induction false} VanishingIsZero(p: Poly)
    requires Vanishes(p)
    ensures forall i | 0 <= i < |p| :: p[i] == 0.0
    decreases |p|
  {
    hide Mul, Pow;
    if |p| > 0 {
      var d := |p| - 1;
      DilationVanishes(p);
      VanishingIsZero(Dilation(p, d));
      forall i | 0 <= i < d
        ensures p[i] == 0.0
      {
        assert Dilation(p, d)[i] == 0.0;
        PowTwoGrows(i, d);
        ZeroFactor(Pow(2.0, i) - Pow(2.0, d), p[i]);
      }
      OnlyTopTerm(p, d);
      PowOne(d);
      assert Eval(p, 1.0) == 0.0;
      MulCommutes(p[d], 1.0);
      MulOne(p[d]);
    }
  }

  lemma {:induction false} ZeroFactor(x: real, y: real)
    requires x != 0.0 && Mul(x, y) == 0.0
    ensures y == 0.0
  {
  }

  lemma {:induction false} ZeroVanishes(p: Poly)
    requires forall i | 0 <= i < |p| :: p[i] == 0.0
    ensures Vanishes(p)
  {
    forall x
      ensures Eval(p, x) == 0.0
    {
      ZeroSum(p, x, |p|);
    }
  }

  lemma {:induction false} ZeroSum(p: Poly, x: real, n: nat)
    requires n <= |p| && forall i | 0 <= i < |p| :: p[i] == 0.0
    ensures PowerSum(p, x, n) == 0.0
  {
    hide Mul, Pow;
    if n > 0 {
      ZeroSum(p, x, n - 1);
      MulZero(Pow(x, n - 1));
    }
  }

  // ------------------------------------------------- subtraction and division

  /** Twice the coefficients of b that operator- leaves with the wrong sign. */
  function Excess(a: Poly, b: Poly): Poly {
    seq(Max(|a|, |b|), i => if i < |a| then 0.0 else 2.0 * At(b, i))
  }

  lemma {:induction false} PowerSumSubtracts(a: Poly, b: Poly, x: real, n: nat)
    requires n <= Max(|a|, |b|)
    ensures PowerSum(Subtract(a, b), x, n) == PowerSum(a, x, n) - PowerSum(b, x, n) + PowerSum(Excess(a, b), x, n)
  {
    hide Mul, Pow;
    if n > 0 {
      PowerSumSubtracts(a, b, x, n - 1);
      var i, y := n - 1, Pow(x, n - 1);
      MulAdds(At(a, i), At(b, i), y);
      MulAdds(At(b, i), At(b, i), y);
      MulZero(y);
    }
  }

  lemma {:induction false} SubtractExcess(a: Poly, b: Poly, x: real)
    ensures Eval(Subtract(a, b), x) == Eval(a, x) - Eval(b, x) + Eval(Excess(a, b), x)
  {
    hide PowerSum;
    var n := Max(|a|, |b|);
    PowerSumSubtracts(a, b, x, n);
    PowerSumBeyond(a, x, n);
    PowerSumBeyond(b, x, n);
  }

  /** The result of operator- means a(x) - b(x) for every x. */
  ghost predicate SubtractsCorrectly(a: Poly, b: Poly) {
    forall x :: Eval(Subtract(a, b), x) == Eval(a, x) - Eval(b, x)
  }

  /** operator- is right exactly when b has no nonzero coefficient above the order of a. */
  lemma {:induction false} SubtractMeaning(a: Poly, b: Poly)
    ensures SubtractsCorrectly(a, b) <==> forall i | |a| <= i < |b| :: b[i] == 0.0
  {
    hide Eval;
    var e := Excess(a, b);
    forall x ensures Eval(Subtract(a, b), x) == Eval(a, x) - Eval(b, x) <==> Eval(e, x) == 0.0 {
      SubtractExcess(a, b, x);
    }
    assert SubtractsCorrectly(a, b) <==> Vanishes(e);
    if Vanishes(e) {
      VanishingIsZero(e);
      forall i | |a| <= i < |b| ensures b[i] == 0.0 {
        assert e[i] == 0.0;
      }
    }
    if forall i | |a| <= i < |b| :: b[i] == 0.0 {
      ZeroVanishes(e);
    }
  }

  /** For example 0 - x comes out as x. */
  lemma {:induction false} SubtractionFails()
    ensures !SubtractsCorrectly([0.0], [0.0, 1.0])
  {
    var a, b := [0.0], [0.0, 1.0];
    SubtractMeaning(a, b);
    assert b[1] != 0.0;
  }

  /** What operator/ computes: its first operand is not read. */
  function Quotient(a: Poly, c: real): Poly
    requires c != 0.0
  {
    seq(|a|, i => 0.0)
  }

  ghost predicate DividesCorrectly(a: Poly, c: real)
    requires c != 0.0
  {
    forall x :: Eval(Quotient(a, c), x) == Eval(a, x) / c
  }

  /** operator/ is right exactly for the zero polynomial. */
  lemma {:induction false} QuotientMeaning(a: Poly, c: real)
    requires c != 0.0
    ensures DividesCorrectly(a, c) <==> forall i | 0 <= i < |a| :: a[i] == 0.0
  {
    hide Eval;
    ZeroVanishes(Quotient(a, c));
    forall x ensures Eval(Quotient(a, c), x) == Eval(a, x) / c <==> Eval(a, x) == 0.0 {
      ZeroQuotient(Eval(a, x), c);
    }
    assert DividesCorrectly(a, c) <==> Vanishes(a);
    if Vanishes(a) {
      VanishingIsZero(a);
    }
    if forall i | 0 <= i < |a| :: a[i] == 0.0 {
      ZeroVanishes(a);
    }
  }

  /** For example 1 / 2 comes out as 0. */
  lemma {:induction false} DivisionFails()
    ensures !DividesCorrectly([1.0], 2.0)
  {
    var a := [1.0];
    QuotientMeaning(a, 2.0);
    assert a[0] != 0.0;
  }

  lemma {:induction false} ZeroQuotient(x: real, c: real)
    requires c != 0.0
    ensures x / c == 0.0 <==> x == 0.0
  {
  }
}
