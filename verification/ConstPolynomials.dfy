/** const_polynomial and its operators, with the coefficient array they fill and update. The
    order of the source's template parameter is the length of the array less one. */
module ConstPolynomials {
  import opened Reals
  import opened Polynomials

  datatype Option<+T> = None | Some(value: T)

  function Zeros(n: nat): Poly {
    seq(n, i => 0.0)
  }

  class ConstPolynomial {
    const data: array<real>

    ghost predicate Valid() {
      data.Length > 0
    }

    ghost function Coefficients(): (p: Poly)
      reads data
      ensures |p| == data.Length
    {
      data[..]
    }

    constructor (order: nat, val: real)
      ensures Valid() && fresh(data)
      ensures Coefficients() == [val] + Zeros(order)
    {
      data := new real[order + 1](i => if i == 0 then val else 0.0);
    }

    constructor Copy(other: ConstPolynomial)
      requires other.Valid()
      ensures Valid() && fresh(data)
      ensures Coefficients() == other.Coefficients()
    {
      var s := other.data[..];
      data := new real[other.data.Length](i requires 0 <= i < |s| => s[i]);
    }

    /** The initializer-list constructor; None stands for the range_error it throws. */
    static method FromList(order: nat, init: seq<real>) returns (r: Option<ConstPolynomial>)
      ensures r.None? <==> |init| > order + 1
      ensures r.Some? ==> r.value.Valid() && fresh(r.value) && fresh(r.value.data)
      ensures r.Some? ==> r.value.Coefficients() == init + Zeros(order + 1 - |init|)
    {
      if |init| > order + 1 {
        return None;
      }
      var p := new ConstPolynomial(order, 0.0);
      for i := 0 to |init|
        invariant p.Coefficients() == init[..i] + Zeros(order + 1 - i)
      {
        p.data[i] := init[i];
      }
      assert init[..|init|] == init;
      r := Some(p);
    }

    /** Horner's rule. */
    method Evaluate(val: real) returns (result: real)
      requires Valid()
      ensures result == Eval(Coefficients(), val)
    {
      hide Pow, PowerSum;
      ghost var p := Coefficients();
      var i := data.Length - 1;
      result := data[i];
      HornerStart(p, val);
      while i > 0
        invariant 0 <= i < data.Length && p == data[..]
        invariant Mul(result, Pow(val, i)) + PowerSum(p, val, i) == Eval(p, val)
      {
        HornerStep(p, val, i, result);
        result := result * val;
        result := result + data[i - 1];
        i := i - 1;
      }
      HornerEnd(p, val, result);
    }

    method Derivative() returns (r: ConstPolynomial)
      requires data.Length > 1
      ensures r.Valid() && fresh(r) && fresh(r.data)
      ensures r.Coefficients() == Derive(Coefficients())
    {
      hide Derive;
      var order := data.Length - 1;
      r := new ConstPolynomial(order - 1, 0.0);
      ghost var p := Coefficients();
      DeriveLength(p);
      for i := 1 to order + 1
        invariant r.data.Length == order && data[..] == p
        invariant forall k | 0 <= k < i - 1 :: r.data[k] == Derive(p)[k]
      {
        DeriveTerm(p, i);
        r.data[i - 1] := data[i] * (i as real);
      }
    }

    /** Unary minus. */
    method Negated() returns (t: ConstPolynomial)
      requires Valid()
      ensures t.Valid() && fresh(t) && fresh(t.data)
      ensures t.Coefficients() == ScaleBy(-1.0, Coefficients())
    {
      t := new ConstPolynomial.Copy(this);
      ghost var p := Coefficients();
      for i := 0 to data.Length
        invariant t.data.Length == data.Length
        invariant forall k | 0 <= k < data.Length :: t.data[k] == if k < i then -p[k] else p[k]
      {
        t.data[i] := -t.data[i];
      }
      assert forall k | 0 <= k < data.Length :: Mul(p[k], -1.0) == -p[k];
    }

    /** operator*= */
    method MultiplyBy(val: real)
      requires Valid()
      modifies data
      ensures Coefficients() == ScaleBy(val, old(Coefficients()))
    {
      ghost var p := Coefficients();
      for i := 0 to data.Length
        invariant forall k | 0 <= k < data.Length :: data[k] == if k < i then p[k] * val else p[k]
      {
        data[i] := data[i] * val;
      }
      assert forall k | 0 <= k < data.Length :: ScaleBy(val, p)[k] == p[k] * val;
    }

    /** operator/= */
    method DivideBy(val: real)
      requires Valid() && val != 0.0
      modifies data
      ensures Coefficients() == ScaleBy(1.0 / val, old(Coefficients()))
    {
      for i := 0 to data.Length
        invariant forall k | 0 <= k < data.Length :: data[k] == if k < i then old(data[k]) / val else old(data[k])
      {
        data[i] := data[i] / val;
      }
      forall k | 0 <= k < data.Length
        ensures data[k] == Mul(old(data[k]), 1.0 / val)
      {
        Reciprocal(old(data[k]), val);
      }
    }

    /** operator+= with a number. */
    method Increase(val: real)
      requires Valid()
      modifies data
      ensures Coefficients() == Add(old(Coefficients()), [val])
    {
      data[0] := data[0] + val;
    }

    /** operator-= with a number. */
    method Decrease(val: real)
      requires Valid()
      modifies data
      ensures Coefficients() == Subtract(old(Coefficients()), [val])
    {
      data[0] := data[0] - val;
    }
  }

  lemma {:induction false} Reciprocal(x: real, c: real)
    requires c != 0.0
    ensures x / c == Mul(x, 1.0 / c)
  {
  }

  lemma {:induction false} DeriveTerm(p: Poly, i: nat)
    requires 0 < i < |p|
    ensures |Derive(p)| == |p| - 1 && Derive(p)[i - 1] == p[i] * i as real
  {
  }

  lemma {:induction false} HornerStart(p: Poly, x: real)
    requires |p| > 0
    ensures Mul(p[|p| - 1], Pow(x, |p| - 1)) + PowerSum(p, x, |p| - 1) == Eval(p, x)
  {
    hide Mul, Pow;
  }

  lemma {:induction false} HornerStep(p: Poly, x: real, i: nat, r: real)
    requires 0 < i < |p|
    ensures Mul(r, Pow(x, i)) + PowerSum(p, x, i)
            == Mul(r * x + p[i - 1], Pow(x, i - 1)) + PowerSum(p, x, i - 1)
  {
    var y := Pow(x, i - 1);
    assert r * (x * y) == (r * x) * y;
    assert (r * x + p[i - 1]) * y == (r * x) * y + p[i - 1] * y;
  }

  lemma {:induction false} HornerEnd(p: Poly, x: real, r: real)
    ensures Mul(r, Pow(x, 0)) + PowerSum(p, x, 0) == r
  {
  }

  method Plus(a: ConstPolynomial, b: ConstPolynomial) returns (result: ConstPolynomial)
    requires a.Valid() && b.Valid()
    ensures result.Valid() && fresh(result) && fresh(result.data)
    ensures result.Coefficients() == Add(a.Coefficients(), b.Coefficients())
  {
    ghost var p, q := a.Coefficients(), b.Coefficients();
    if a.data.Length > b.data.Length {
      result := new ConstPolynomial.Copy(a);
      for i := 0 to b.data.Length
        invariant result.data.Length == |p|
        invariant forall k | 0 <= k < |p| :: result.data[k] == if k < i then p[k] + q[k] else p[k]
      {
        result.data[i] := result.data[i] + b.data[i];
      }
    } else {
      result := new ConstPolynomial.Copy(b);
      for i := 0 to a.data.Length
        invariant result.data.Length == |q|
        invariant forall k | 0 <= k < |q| :: result.data[k] == if k < i then q[k] + p[k] else q[k]
      {
        result.data[i] := result.data[i] + a.data[i];
      }
    }
  }

  method Minus(a: ConstPolynomial, b: ConstPolynomial) returns (result: ConstPolynomial)
    requires a.Valid() && b.Valid()
    ensures result.Valid() && fresh(result) && fresh(result.data)
    ensures result.Coefficients() == Subtract(a.Coefficients(), b.Coefficients())
  {
    ghost var p, q := a.Coefficients(), b.Coefficients();
    if a.data.Length > b.data.Length {
      result := new ConstPolynomial.Copy(a);
      for i := 0 to b.data.Length
        invariant result.data.Length == |p|
        invariant forall k | 0 <= k < |p| :: result.data[k] == if k < i then p[k] - q[k] else p[k]
      {
        result.data[i] := result.data[i] - b.data[i];
      }
    } else {
      result := new ConstPolynomial.Copy(b);
      for i := 0 to a.data.Length
        invariant result.data.Length == |q|
        invariant forall k | 0 <= k < |q| :: result.data[k] == if k < i then p[k] - q[k] else q[k]
      {
        result.data[i] := a.data[i] - b.data[i];
      }
    }
  }

  /** Row i of the convolution adds a_i times b, from place i on. */
  lemma {:induction false} ConvolutionRow(a: Poly, b: Poly, k: int, i: nat)
    requires i < |a|
    ensures Convolution(a, b, k, i + 1)
            == Convolution(a, b, k, i) + if i <= k < i + |b| then a[i] * b[k - i] else 0.0
  {
    if !(i <= k < i + |b|) {
      MulCommutes(a[i], 0.0);
      MulZero(a[i]);
    }
  }

  method Times(a: ConstPolynomial, b: ConstPolynomial) returns (result: ConstPolynomial)
    requires a.Valid() && b.Valid()
    ensures result.Valid() && fresh(result) && fresh(result.data)
    ensures result.Coefficients() == Product(a.Coefficients(), b.Coefficients())
  {
    hide Convolution;
    ghost var p, q := a.Coefficients(), b.Coefficients();
    var n := a.data.Length + b.data.Length - 1;
    result := new ConstPolynomial(n - 1, 0.0);
    forall k | 0 <= k < n ensures Convolution(p, q, k, 0) == 0.0 {
      ConvolutionNone(p, q, k);
    }
    for i := 0 to a.data.Length
      invariant result.data.Length == n && a.data[..] == p && b.data[..] == q
      invariant forall k | 0 <= k < n :: result.data[k] == Convolution(p, q, k, i)
    {
      for j := 0 to b.data.Length
        invariant result.data.Length == n && a.data[..] == p && b.data[..] == q
        invariant forall k | 0 <= k < n ::
                    result.data[k] == Convolution(p, q, k, i) + if i <= k < i + j then p[i] * q[k - i] else 0.0
      {
        result.data[i + j] := result.data[i + j] + a.data[i] * b.data[j];
      }
      forall k | 0 <= k < n ensures result.data[k] == Convolution(p, q, k, i + 1) {
        ConvolutionRow(p, q, k, i);
      }
    }
  }

  /** operator* with a number, on either side. */
  method TimesScalar(a: ConstPolynomial, b: real) returns (result: ConstPolynomial)
    requires a.Valid()
    ensures result.Valid() && fresh(result) && fresh(result.data)
    ensures result.Coefficients() == ScaleBy(b, a.Coefficients())
  {
    result := new ConstPolynomial.Copy(a);
    ghost var p := a.Coefficients();
    for i := 0 to a.data.Length
      invariant result.data.Length == a.data.Length
      invariant forall k | 0 <= k < |p| :: result.data[k] == if k < i then p[k] * b else p[k]
    {
      result.data[i] := result.data[i] * b;
    }
    assert forall k | 0 <= k < |p| :: ScaleBy(b, p)[k] == p[k] * b;
  }

  /** operator/ by a number. */
  method Over(a: ConstPolynomial, b: real) returns (result: ConstPolynomial)
    requires a.Valid() && b != 0.0
    ensures result.Valid() && fresh(result) && fresh(result.data)
    ensures result.Coefficients() == Quotient(a.Coefficients(), b)
  {
    result := new ConstPolynomial(a.data.Length - 1, 0.0);
    for i := 0 to a.data.Length
      invariant result.data.Length == a.data.Length
      invariant forall k | 0 <= k < a.data.Length :: result.data[k] == 0.0
    {
      result.data[i] := result.data[i] / b;
    }
  }
}
