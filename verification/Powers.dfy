/** Powers of numbers between 0 and 1: what turns a rate of convergence into a count of digits. */
module Powers {
  import opened Reals

  lemma {:induction false} PowBelowOne(x: real, n: nat)
    requires 0.0 < x <= 1.0
    ensures 0.0 < Pow(x, n) <= 1.0
  {
    if n > 0 {
      PowBelowOne(x, n - 1);
      MulOrder(x, 1.0, Pow(x, n - 1), 1.0);
      PositiveProduct(x, Pow(x, n - 1));
      MulOne(1.0);
    }
  }

  lemma {:induction false} PowDecreases(x: real, i: nat, j: nat)
    requires 0.0 < x <= 1.0 && i <= j
    ensures Pow(x, j) <= Pow(x, i)
  {
    if i < j {
      PowDecreases(x, i, j - 1);
      var y := Pow(x, j - 1);
      PowBelowOne(x, j - 1);
      MulOrder(x, 1.0, y, y);
      MulOne(y);
    }
  }

  lemma {:induction false} PowOrder(x: real, y: real, n: nat)
    requires 0.0 <= x <= y
    ensures 0.0 <= Pow(x, n) <= Pow(y, n)
  {
    if n > 0 {
      PowOrder(x, y, n - 1);
      MulOrder(x, y, Pow(x, n - 1), Pow(y, n - 1));
    }
  }

  lemma {:induction false} PowFirst(x: real, n: nat)
    ensures Pow(x, n + 1) == Mul(x, Pow(x, n))
  {
  }

  /** (x^m)^n = x^(mn) */
  lemma {:induction false} PowOfPow(x: real, m: nat, n: nat)
    ensures Pow(Pow(x, m), n) == Pow(x, m * n)
  {
    hide Mul;
    if n == 0 {
      assert m * n == 0;
    } else {
      PowOfPow(x, m, n - 1);
      PowAdds(x, m, m * (n - 1));
      assert m + m * (n - 1) == m * n;
    }
  }

  /** A factor d costs less than going from fifteenths to tenths. */
  lemma {:induction false} CountTimesPower(d: nat)
    requires d >= 1
    ensures Mul(d as real, Pow(1.0 / 15.0, d)) <= Pow(0.1, d)
  {
    if d == 1 {
      assert Pow(1.0 / 15.0, 1) == Mul(1.0 / 15.0, Pow(1.0 / 15.0, 0)) && Pow(0.1, 1) == Mul(0.1, Pow(0.1, 0));
    } else if d == 2 {
      assert Pow(1.0 / 15.0, 2) == Mul(1.0 / 15.0, Mul(1.0 / 15.0, Pow(1.0 / 15.0, 0)));
      assert Pow(0.1, 2) == Mul(0.1, Mul(0.1, Pow(0.1, 0)));
    } else {
      CountTimesPower(d - 1);
      PowBelowOne(1.0 / 15.0, d - 1);
      CountStep((d - 1) as real, Pow(1.0 / 15.0, d - 1), Pow(0.1, d - 1));
    }
  }

  lemma {:induction false} CountStep(c: real, x: real, y: real)
    requires c >= 2.0 && x > 0.0 && Mul(c, x) <= y
    ensures Mul(c + 1.0, Mul(1.0 / 15.0, x)) <= Mul(0.1, y)
  {
    var p := c * x;
    assert p >= 2.0 * x;
    assert Mul(c + 1.0, Mul(1.0 / 15.0, x)) == (p + x) / 15.0;
  }
}
