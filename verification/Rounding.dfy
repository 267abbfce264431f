/** Binary rounding on exact reals: powers of two, the exponent of a number, rounding to an
    integer with ties to even and rounding to odd. */
module Rounding {

  /** 2^e */
  function Exp2(e: int): (p: real)
    ensures p > 0.0
    decreases if e < 0 then -e else e
  {
    if e == 0 then 1.0 else if e > 0 then 2.0 * Exp2(e - 1) else Exp2(e + 1) / 2.0
  }

  /** x * 2^e, under a name of its own so that proofs can hide the product. */
  function Scale(x: real, e: int): real {
    x * Exp2(e)
  }

  lemma {:induction false} Exp2Next(e: int)
    ensures Exp2(e + 1) == 2.0 * Exp2(e)
  {
  }

  lemma {:induction false} ScaleNext(x: real, e: int)
    ensures Scale(x, e + 1) == 2.0 * Scale(x, e) == Scale(2.0 * x, e)
  {
    Exp2Next(e);
    var p := Exp2(e);
    assert x * (2.0 * p) == 2.0 * (x * p);
    assert (2.0 * x) * p == 2.0 * (x * p);
  }

  lemma {:induction false} ScaleZero(x: real)
    ensures Scale(x, 0) == x
  {
  }

  lemma {:induction false} ScaleAdds(x: real, y: real, e: int)
    ensures Scale(x + y, e) == Scale(x, e) + Scale(y, e)
    ensures Scale(x - y, e) == Scale(x, e) - Scale(y, e)
  {
  }

  lemma {:induction false} ScaleLess(x: real, y: real, e: int)
    ensures x < y <==> Scale(x, e) < Scale(y, e)
    ensures x == y <==> Scale(x, e) == Scale(y, e)
  {
    var p := Exp2(e);
    if x < y {
      assert (y - x) * p > 0.0;
    } else if y < x {
      assert (x - y) * p > 0.0;
    }
  }

  /** Scaling twice adds the exponents. */
  lemma {:induction false} ScaleScale(x: real, i: int, j: int)
    ensures Scale(Scale(x, i), j) == Scale(x, i + j)
    decreases if j < 0 then -j else j
  {
    hide Scale, Exp2;
    if j == 0 {
      ScaleZero(Scale(x, i));
    } else if j > 0 {
      ScaleScale(x, i, j - 1);
      ScaleNext(Scale(x, i), j - 1);
      ScaleNext(x, i + j - 1);
    } else {
      ScaleScale(x, i, j + 1);
      ScaleNext(Scale(x, i), j);
      ScaleNext(x, i + j);
    }
  }

  lemma {:induction false} ScaleBack(x: real, e: int)
    ensures Scale(Scale(x, e), -e) == x && Scale(Scale(x, -e), e) == x
  {
    hide Scale;
    ScaleScale(x, e, -e);
    ScaleScale(x, -e, e);
    ScaleZero(x);
  }

  lemma {:induction false} Exp2IsScale(e: int)
    ensures Exp2(e) == Scale(1.0, e)
  {
  }

  lemma {:induction false} Exp2Scale(i: int, j: int)
    ensures Scale(Exp2(i), j) == Exp2(i + j)
  {
    hide Scale, Exp2;
    Exp2IsScale(i);
    Exp2IsScale(i + j);
    ScaleScale(1.0, i, j);
  }

  lemma {:induction false} Exp2Monotone(i: int, j: int)
    requires i <= j
    ensures Exp2(i) <= Exp2(j)
    ensures i < j ==> 2.0 * Exp2(i) <= Exp2(j)
    decreases j - i
  {
    if i < j {
      Exp2Monotone(i, j - 1);
      Exp2Next(j - 1);
    }
  }

  /** An integer times a nonnegative power of two is an integer. */
  lemma {:induction false} ScaleInteger(n: int, k: nat) returns (m: int)
    ensures Scale(n as real, k) == m as real
    ensures k > 0 ==> m % 2 == 0
    ensures n >= 0 ==> m >= n
  {
    hide Scale, Exp2;
    if k == 0 {
      ScaleZero(n as real);
      m := n;
    } else {
      var h := ScaleInteger(n, k - 1);
      ScaleNext(n as real, k - 1);
      m := 2 * h;
      assert m as real == 2.0 * (h as real);
    }
  }

  // ------------------------------------------------- the exponent of a positive number

  /** The e with 2^e <= v < 2^(e+1). */
  function Exponent(v: real): int
    requires v > 0.0
    decreases if v >= 1.0 then v.Floor else (1.0 / v).Floor, v < 1.0
  {
    if v >= 2.0 then (HalfFloor(v); Exponent(v / 2.0) + 1)
    else if v >= 1.0 then 0
    else (DoubleFloor(v); Exponent(2.0 * v) - 1)
  }

  lemma {:induction false} HalfFloor(v: real)
    requires v >= 2.0
    ensures v / 2.0 >= 1.0 && 0 <= (v / 2.0).Floor < v.Floor
  {
  }

  lemma {:induction false} DoubleFloor(v: real)
    requires 0.0 < v < 1.0
    ensures 2.0 * v >= 1.0 ==> (2.0 * v).Floor == 1 && (1.0 / v).Floor >= 1
    ensures 2.0 * v < 1.0 ==> 0 <= (1.0 / (2.0 * v)).Floor < (1.0 / v).Floor
  {
    var w := 1.0 / v;
    assert w * v == 1.0;
    assert w > 1.0;
    assert 1.0 / (2.0 * v) == w / 2.0;
  }

  lemma {:induction false} ExponentBracket(v: real)
    requires v > 0.0
    ensures Exp2(Exponent(v)) <= v < Exp2(Exponent(v) + 1)
    decreases if v >= 1.0 then v.Floor else (1.0 / v).Floor, v < 1.0
  {
    if v >= 2.0 {
      HalfFloor(v);
      ExponentBracket(v / 2.0);
      Exp2Next(Exponent(v / 2.0));
      Exp2Next(Exponent(v / 2.0) + 1);
    } else if v < 1.0 {
      DoubleFloor(v);
      ExponentBracket(2.0 * v);
      Exp2Next(Exponent(v));
      Exp2Next(Exponent(v) + 1);
    }
  }

  lemma {:induction false} ExponentUnique(v: real, e: int)
    requires v > 0.0 && Exp2(e) <= v < Exp2(e + 1)
    ensures Exponent(v) == e
  {
    hide Exponent, Exp2;
    ExponentBracket(v);
    if Exponent(v) < e {
      Exp2Monotone(Exponent(v) + 1, e);
    } else if e < Exponent(v) {
      Exp2Monotone(e + 1, Exponent(v));
    }
  }

  // ------------------------------------------------- rounding to an integer

  /** Nearest integer, ties to even. */
  function RoundEven(x: real): (n: int)
  {
    var f := x.Floor;
    var d := x - f as real;
    if d < 0.5 then f else if d > 0.5 then f + 1 else if f % 2 == 0 then f else f + 1
  }

  /** n is the nearest integer to x, the even one in case of a tie. */
  predicate IsRoundEven(x: real, n: int) {
    -0.5 <= x - n as real <= 0.5 && (x - n as real == 0.5 || x - n as real == -0.5 ==> n % 2 == 0)
  }

  lemma {:induction false} RoundEvenIs(x: real)
    ensures IsRoundEven(x, RoundEven(x))
  {
  }

  lemma {:induction false} RoundEvenUnique(x: real, n: int)
    requires IsRoundEven(x, n)
    ensures RoundEven(x) == n
  {
    var m := RoundEven(x);
    RoundEvenIs(x);
    assert -1.0 <= (m - n) as real <= 1.0;
  }

  /** x truncated, with the lowest bit set if anything was cut off: rounding to odd. */
  function RoundOdd(x: real): int {
    var t := x.Floor;
    if t % 2 == 0 && t as real < x then t + 1 else t
  }

  predicate IsRoundOdd(x: real, n: int) {
    x == n as real || (n % 2 == 1 && -1.0 < x - n as real < 1.0)
  }

  lemma {:induction false} RoundOddIs(x: real)
    ensures IsRoundOdd(x, RoundOdd(x))
  {
  }

  lemma {:induction false} RoundOddUnique(x: real, n: int)
    requires IsRoundOdd(x, n)
    ensures RoundOdd(x) == n
  {
    var m := RoundOdd(x);
    RoundOddIs(x);
    assert -2.0 < (m - n) as real < 2.0;
  }

  /** Three spare bits make round-to-odd harmless: nearest-even afterwards gives the same
      integer as nearest-even at once. */
  lemma {:induction false} OddThenEven(x: real, y: real)
    requires y == 8.0 * x
    ensures RoundEven(RoundOdd(y) as real / 8.0) == RoundEven(x)
  {
    var o := RoundOdd(y);
    var n := RoundEven(o as real / 8.0);
    RoundOddIs(y);
    RoundEvenIs(o as real / 8.0);
    hide RoundOdd, RoundEven;
    assert -4 <= o - 8 * n <= 4;
    RoundEvenUnique(x, n);
  }

  /** The same for any number k >= 2 of spare bits. */
  lemma {:induction false} SpareBitsSuffice(x: real, k: int)
    requires k >= 2
    ensures RoundEven(Scale(RoundOdd(Scale(x, k)) as real, -k)) == RoundEven(x)
  {
    hide Exp2, Scale, RoundOdd, RoundEven;
    var y := Scale(x, k);
    var o := RoundOdd(y);
    var z := Scale(o as real, -k);
    var n := RoundEven(z);
    RoundOddIs(y);
    RoundEvenIs(z);
    ScaleBack(o as real, k);
    if y == o as real {
      ScaleLess(x, z, k);
    } else {
      var h := ScaleInteger(1, k - 1);
      ScaleNext(1.0, k - 1);
      var d := ScaleInteger(n, k);
      ScaleDifferences(x, z, n, k);
      Exp2IsScale(k);
      HalfFacts(x - n as real, h as real, y - d as real);
      HalfFacts(z - n as real, h as real, (o - d) as real);
      assert -h <= o - d <= h;
      assert -h < o - d < h;
      RoundEvenUnique(x, n);
    }
  }

  lemma {:induction false} HalfFacts(u: real, h: real, a: real)
    requires h > 0.0 && a == u * (2.0 * h)
    ensures -0.5 <= u <= 0.5 <==> -h <= a <= h
    ensures -0.5 < u < 0.5 <==> -h < a < h
  {
    hide Exp2;
    assert a == (2.0 * u) * h;
    ProductFacts(2.0 * u, h, a);
    ProductEnds(2.0 * u, h, a);
  }

  lemma {:induction false} ProductEnds(u: real, w: real, a: real)
    requires w > 0.0 && a == u * w
    ensures u == 1.0 <==> a == w
    ensures u == -1.0 <==> a == -w
  {
    ProductFacts(u - 1.0, w, a - w);
    ProductFacts(u + 1.0, w, a + w);
  }

  /** One spare bit is not enough: 3/4 would be rounded down. */
  lemma {:induction false} OneSpareBitFails()
    ensures RoundEven(Scale(RoundOdd(Scale(0.75, 1)) as real, -1)) != RoundEven(0.75)
  {
    assert Scale(0.75, 1) == 1.5;
    assert Scale(1.0, -1) == 0.5;
  }

  /** Rounding to odd composes with itself over at least one discarded bit. */
  lemma {:induction false} OddThenOdd(x: real, y: real, k: int)
    requires k > 0 && y == Scale(x, k)
    ensures RoundOdd(Scale(RoundOdd(y) as real, -k)) == RoundOdd(x)
  {
    hide Exp2, Scale, RoundOdd;
    var o := RoundOdd(y);
    var z := Scale(o as real, -k);
    var p := RoundOdd(z);
    RoundOddIs(y);
    RoundOddIs(z);
    var d := ScaleInteger(p, k);
    ScaleBack(o as real, k);
    ScaleDifferences(x, z, p, k);
    Exp2Integer(k);
    ProductFacts(x - p as real, Exp2(k), y - d as real);
    ProductFacts(z - p as real, Exp2(k), (o - d) as real);
    OddDistance(x, y, z, o, p, d, Exp2(k).Floor, y - d as real, (o - d) as real);
    RoundOddUnique(x, p);
  }

  lemma {:induction false} Exp2Integer(k: nat)
    ensures Exp2(k).Floor as real == Exp2(k)
  {
    hide Exp2, Scale;
    Exp2IsScale(k);
    var m := ScaleInteger(1, k);
  }

  lemma {:induction false} ScaleDifferences(x: real, z: real, p: int, k: nat)
    ensures Scale(x, k) - Scale(p as real, k) == (x - p as real) * Exp2(k)
    ensures Scale(z, k) - Scale(p as real, k) == (z - p as real) * Exp2(k)
  {
  }

  lemma {:induction false} ProductFacts(u: real, w: real, a: real)
    requires w > 0.0 && a == u * w
    ensures u == 0.0 <==> a == 0.0
    ensures -1.0 < u < 1.0 <==> -w < a < w
  {
    if u >= 1.0 {
      AboveOne(u, w, a);
    } else {
      BelowOne(u, w, a);
    }
    if -u >= 1.0 {
      AboveOne(-u, w, -a);
    } else {
      BelowOne(-u, w, -a);
    }
  }

  lemma {:induction false} AboveOne(u: real, w: real, a: real)
    requires w > 0.0 && a == u * w && u >= 1.0
    ensures a >= w
  {
    Spread(u, w, 1.0);
  }

  lemma {:induction false} BelowOne(u: real, w: real, a: real)
    requires w > 0.0 && a == u * w && u < 1.0
    ensures a < w
  {
    Spread(1.0, w, u);
  }

  /** Products by a positive number keep the order. */
  lemma {:induction false} Spread(u: real, w: real, t: real)
    requires u >= t && w > 0.0
    ensures u * w >= t * w && (u > t ==> u * w > t * w)
  {
    var d := u - t;
    Positive(d, w);
    assert d * w == u * w - t * w;
  }

  lemma {:induction false} Positive(x: real, w: real)
    requires x >= 0.0 && w > 0.0
    ensures x * w >= 0.0 && (x > 0.0 ==> x * w > 0.0)
  {
  }

  /** The linear core: a and b are the distances of y and of o from the even integer d. */
  lemma {:induction false} OddDistance(x: real, y: real, z: real, o: int, p: int, d: int, w: int, a: real, b: real)
    requires IsRoundOdd(y, o) && IsRoundOdd(z, p) && d % 2 == 0 && w > 0
    requires a == y - d as real && b == (o - d) as real
    requires x - p as real == 0.0 <==> a == 0.0
    requires z - p as real == 0.0 <==> b == 0.0
    requires -1.0 < x - p as real < 1.0 <==> -(w as real) < a < w as real
    requires -1.0 < z - p as real < 1.0 <==> -(w as real) < b < w as real
    ensures IsRoundOdd(x, p)
  {
    if o != d {
      assert p % 2 == 1;
      assert -w + 1 <= o - d <= w - 1;
    }
  }
}
