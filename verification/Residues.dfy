/** Remainders, powers of two and geometric sums: the arithmetic behind the periods of the two
    congruential generators of the repository. */
module Residues {

  function Pow2(k: nat): (p: nat)
    ensures p >= 1
  {
    if k == 0 then 1 else 2 * Pow2(k - 1)
  }

  lemma {:induction false} Pow2Add(i: nat, j: nat)
    ensures Pow2(i + j) == Pow2(i) * Pow2(j)
  {
    if i > 0 {
      Pow2Add(i - 1, j);
      assert 2 * (Pow2(i - 1) * Pow2(j)) == (2 * Pow2(i - 1)) * Pow2(j);
    }
  }

  lemma {:induction false} Pow2Monotone(i: nat, k: nat)
    requires i <= k
    ensures Pow2(i) <= Pow2(k)
  {
    if i < k {
      Pow2Monotone(i, k - 1);
    }
  }

  lemma {:induction false} Pow2Values()
    ensures Pow2(12) == 0x1000 && Pow2(32) == 0x1_0000_0000 && Pow2(46) == 0x4000_0000_0000
    ensures Pow2(48) == 0x1_0000_0000_0000 && Pow2(64) == 0x1_0000_0000_0000_0000
  {
    assert Pow2(8) == 256;
    Pow2Add(8, 4);
    assert Pow2(4) == 16;
    Pow2Add(8, 8);
    Pow2Add(16, 16);
    Pow2Add(32, 14);
    Pow2Add(8, 6);
    assert Pow2(6) == 64;
    Pow2Add(32, 16);
    Pow2Add(32, 32);
  }

  // ------------------------------------------------- remainders by any positive modulus

  /** The remainder by a variable modulus under a name of its own: proofs that only rearrange
      remainders hide its body. */
  function Mod(x: int, m: nat): (r: int)
    requires m > 0
    ensures 0 <= r < m
  {
    x % m
  }

  lemma {:induction false} SmallMultiple(t: int, m: nat)
    requires m > 0 && 0 - m < t * m < m
    ensures t == 0
  {
  }

  /** Numbers that differ by a multiple of m have the same remainder. */
  lemma {:induction false} ModShift(x: int, y: int, k: int, m: nat)
    requires m > 0 && x == y + k * m
    ensures Mod(x, m) == Mod(y, m)
  {
    var t := x / m - y / m - k;
    assert x == (x / m) * m + x % m && y == (y / m) * m + y % m;
    assert t * m == (x / m) * m - (y / m) * m - k * m;
    SmallMultiple(t, m);
  }

  lemma {:induction false} ModSmall(x: int, m: nat)
    requires 0 <= x < m
    ensures Mod(x, m) == x
  {
    var q := x / m;
    assert x == q * m + x % m;
    SmallMultiple(q, m);
  }

  lemma {:induction false} ModSplit(x: int, m: nat) returns (q: int)
    requires m > 0
    ensures x == q * m + Mod(x, m)
  {
    q := x / m;
  }

  /** Equal remainders mean that m divides the difference. */
  lemma {:induction false} ModEqual(x: int, y: int, m: nat)
    requires m > 0
    ensures Mod(x, m) == Mod(y, m) <==> Mod(x - y, m) == 0
  {
    hide Mod;
    if Mod(x, m) == Mod(y, m) {
      var p := ModSplit(x, m);
      var q := ModSplit(y, m);
      assert x - y == 0 + (p - q) * m;
      ModShift(x - y, 0, p - q, m);
      ModSmall(0, m);
    }
    if Mod(x - y, m) == 0 {
      var q := ModSplit(x - y, m);
      ModShift(x, y, q, m);
    }
  }

  /** Reducing before a multiplication and an addition does not change the remainder. */
  lemma {:induction false} ModLinear(y: int, a: int, c: int, m: nat)
    requires m > 0
    ensures Mod(Mod(y, m) * a + c, m) == Mod(y * a + c, m)
  {
    hide Mod;
    var r := Mod(y, m);
    var q := ModSplit(y, m);
    LinearShift(y, r, q, a, c, m);
    ModShift(y * a + c, r * a + c, q * a, m);
  }

  lemma {:induction false} LinearShift(y: int, r: int, q: int, a: int, c: int, m: int)
    requires y == q * m + r
    ensures y * a + c == (r * a + c) + (q * a) * m
  {
    assert (q * m) * a == (q * a) * m;
  }

  predicate Odd(x: int) {
    x % 2 == 1
  }

  predicate OneModFour(a: int) {
    a % 4 == 1
  }

  predicate FiveModEight(a: int) {
    a % 8 == 5
  }

  // ------------------------------------------------- divisibility by powers of two

  /** 2^k divides x. */
  predicate TwoDivides(k: nat, x: int)
    decreases k
  {
    k == 0 || (x % 2 == 0 && TwoDivides(k - 1, x / 2))
  }

  lemma {:induction false} TwoDividesIsMod(k: nat, x: int)
    ensures TwoDivides(k, x) <==> Mod(x, Pow2(k)) == 0
  {
    if k > 0 {
      TwoDividesIsMod(k - 1, x / 2);
      HalfMod(x, Pow2(k - 1));
    }
  }

  lemma {:induction false} HalfMod(x: int, p: nat)
    requires p > 0
    ensures Mod(x, 2 * p) == 2 * Mod(x / 2, p) + x % 2
  {
    hide Mod;
    var r := Mod(x / 2, p);
    var q := ModSplit(x / 2, p);
    assert q * (2 * p) == 2 * (q * p);
    ModShift(x, 2 * r + x % 2, q, 2 * p);
    ModSmall(2 * r + x % 2, 2 * p);
  }

  /** An odd factor does not matter. */
  lemma {:induction false} TwoDividesOddFactor(k: nat, x: int, odd: int)
    requires Odd(odd)
    ensures TwoDivides(k, x * odd) <==> TwoDivides(k, x)
  {
    if k > 0 {
      OddProduct(x, odd);
      if x % 2 == 0 {
        var y := x / 2;
        assert x * odd == 2 * (y * odd);
        TwoDividesOddFactor(k - 1, y, odd);
      }
    }
  }

  lemma {:induction false} EvenProduct(b: int, s: int) returns (y: int)
    requires b % 2 == 0
    ensures b * s == 2 * y
  {
    y := b / 2 * s;
    assert (2 * (b / 2)) * s == 2 * (b / 2 * s);
  }

  lemma {:induction false} OddProduct(x: int, y: int)
    requires y % 2 == 1
    ensures (x * y) % 2 == x % 2
  {
    var z := EvenProduct(y - 1, x);
    assert x * y == (y - 1) * x + x;
    EvenShift(x, z, x * y);
  }

  lemma {:induction false} TwoDividesDouble(k: nat, x: int)
    ensures TwoDivides(k + 1, 2 * x) <==> TwoDivides(k, x)
  {
    assert (2 * x) / 2 == x;
  }

  // ------------------------------------------------- geometric sums

  function IntPow(a: int, n: nat): int {
    if n == 0 then 1 else IntPow(a, n - 1) * a
  }

  /** 1 + a + ... + a^(n-1). */
  function Geo(a: int, n: nat): int {
    if n == 0 then 0 else Geo(a, n - 1) + IntPow(a, n - 1)
  }

  lemma {:induction false} PowAdd(a: int, i: nat, j: nat)
    ensures IntPow(a, i + j) == IntPow(a, i) * IntPow(a, j)
  {
    if j > 0 {
      PowAdd(a, i, j - 1);
      assert (IntPow(a, i) * IntPow(a, j - 1)) * a == IntPow(a, i) * (IntPow(a, j - 1) * a);
    }
  }

  lemma {:induction false} GeoAdd(a: int, i: nat, j: nat)
    ensures Geo(a, i + j) == Geo(a, i) + IntPow(a, i) * Geo(a, j)
  {
    if j > 0 {
      GeoAdd(a, i, j - 1);
      PowAdd(a, i, j - 1);
      Distribute(IntPow(a, i), Geo(a, j - 1), IntPow(a, j - 1));
    }
  }

  lemma {:induction false} Distribute(p: int, x: int, y: int)
    ensures p * (x + y) == p * x + p * y
  {
  }

  /** (a - 1) S(n) = a^n - 1. */
  lemma {:induction false} GeoClosed(a: int, n: nat)
    ensures (a - 1) * Geo(a, n) == IntPow(a, n) - 1
  {
    if n > 0 {
      GeoClosed(a, n - 1);
      assert (a - 1) * Geo(a, n) == (a - 1) * Geo(a, n - 1) + (a - 1) * IntPow(a, n - 1);
    }
  }

  lemma {:induction false} OneModFourProduct(x: int, y: int)
    requires OneModFour(x) && OneModFour(y)
    ensures OneModFour(x * y)
  {
    var p, q := x / 4, y / 4;
    OneModFourFactors(p, q, x, y);
    OneModFourForm(4 * (p * q) + p + q, x * y);
  }

  lemma {:induction false} OneModFourFactors(p: int, q: int, x: int, y: int)
    requires x == 4 * p + 1 && y == 4 * q + 1
    ensures x * y == 4 * (4 * (p * q) + p + q) + 1
  {
    assert x * y == (4 * p) * (4 * q) + 4 * p + 4 * q + 1;
    assert (4 * p) * (4 * q) == 16 * (p * q);
  }

  lemma {:induction false} OneModFourForm(k: int, x: int)
    requires x == 4 * k + 1
    ensures OneModFour(x)
  {
  }

  lemma {:induction false} PowOneModFour(a: int, n: nat)
    requires OneModFour(a)
    ensures OneModFour(IntPow(a, n))
  {
    if n > 0 {
      PowOneModFour(a, n - 1);
      OneModFourProduct(IntPow(a, n - 1), a);
    }
  }

  lemma {:induction false} GeoParity(a: int, n: nat)
    requires OneModFour(a)
    ensures Geo(a, n) % 2 == n % 2
  {
    if n > 0 {
      GeoParity(a, n - 1);
      PowOneModFour(a, n - 1);
      ParityAfterOdd(Geo(a, n - 1), IntPow(a, n - 1), n);
    }
  }

  lemma {:induction false} ParityAfterOdd(g: int, p: int, n: nat)
    requires n > 0 && g % 2 == (n - 1) % 2 && OneModFour(p)
    ensures (g + p) % 2 == n % 2
  {
    var k, h := p / 4, g / 2;
    assert p == 4 * k + 1;
    var j := (n - 1) / 2;
    assert g - 2 * h == n - 1 - 2 * j;
    assert g + p == n + 2 * (2 * k + h - j);
    EvenShift(n, 2 * k + h - j, g + p);
  }

  lemma {:induction false} EvenShift(n: int, k: int, x: int)
    requires x == n + 2 * k
    ensures x % 2 == n % 2
  {
  }

  /** The heart of both periods: for a = 1 mod 4 the sum of n powers has the same power of two
      as n. */
  lemma {:induction false} GeoValuation(a: int, n: nat, k: nat)
    requires OneModFour(a)
    ensures TwoDivides(k, Geo(a, n)) <==> TwoDivides(k, n)
  {
    if k > 0 {
      GeoParity(a, n);
      if n % 2 == 0 {
        var h := n / 2;
        var odd := HalfFactor(a, h);
        GeoValuation(a, h, k - 1);
        TwoDividesOddFactor(k - 1, Geo(a, h), odd);
        TwoDividesDouble(k - 1, Geo(a, h) * odd);
        TwoDividesDouble(k - 1, h);
      }
    }
  }

  /** S(2h) = 2 S(h) times an odd number. */
  lemma {:induction false} HalfFactor(a: int, h: nat) returns (odd: int)
    requires OneModFour(a)
    ensures Odd(odd) && Geo(a, 2 * h) == 2 * (Geo(a, h) * odd)
  {
    GeoHalf(a, h);
    PowOneModFour(a, h);
    odd := HalfOfNext(IntPow(a, h));
    DoubleFactor(Geo(a, h), odd);
  }

  lemma {:induction false} HalfOfNext(p: int) returns (odd: int)
    requires OneModFour(p)
    ensures Odd(odd) && 1 + p == 2 * odd
  {
    odd := 2 * (p / 4) + 1;
  }

  lemma {:induction false} DoubleFactor(g: int, x: int)
    ensures g * (2 * x) == 2 * (g * x)
  {
  }

  lemma {:induction false} GeoHalf(a: int, h: nat)
    ensures Geo(a, 2 * h) == Geo(a, h) * (1 + IntPow(a, h))
  {
    GeoAdd(a, h, h);
    assert h + h == 2 * h;
  }

  // ------------------------------------------------- affine generators

  /** One step of the generator s := a s + c modulo m. */
  function Step(a: int, c: int, m: nat, s: int): (r: int)
    requires m > 0
    ensures 0 <= r < m
  {
    Mod(s * a + c, m)
  }

  function Iterate(a: int, c: int, m: nat, s: int, n: nat): (r: int)
    requires m > 0 && 0 <= s < m
    ensures 0 <= r < m
  {
    if n == 0 then s else Step(a, c, m, Iterate(a, c, m, s, n - 1))
  }

  lemma {:induction false} IterateClosed(a: int, c: int, m: nat, s: int, n: nat)
    requires m > 0 && 0 <= s < m
    ensures Iterate(a, c, m, s, n) == Mod(IntPow(a, n) * s + c * Geo(a, n), m)
  {
    hide Mod;
    if n == 0 {
      ModSmall(s, m);
    } else {
      IterateClosed(a, c, m, s, n - 1);
      var y := IntPow(a, n - 1) * s + c * Geo(a, n - 1);
      ModLinear(y, a, c, m);
      GeoShift(a, n - 1);
      assert y * a + c == IntPow(a, n) * s + c * Geo(a, n) by {
        ClosedStep(IntPow(a, n - 1), Geo(a, n - 1), a, c, s);
      }
    }
  }

  lemma {:induction false} ClosedStep(p: int, g: int, a: int, c: int, s: int)
    ensures (p * s + c * g) * a + c == (p * a) * s + c * (g * a + 1)
  {
    assert (p * s) * a == (p * a) * s && (c * g) * a == c * (g * a);
  }

  lemma {:induction false} GeoShift(a: int, n: nat)
    ensures Geo(a, n + 1) == Geo(a, n) * a + 1
  {
    GeoClosed(a, n);
    assert Geo(a, n) * a == (a - 1) * Geo(a, n) + Geo(a, n);
  }

  lemma {:induction false} IterateAdd(a: int, c: int, m: nat, s: int, i: nat, j: nat)
    requires m > 0 && 0 <= s < m
    ensures Iterate(a, c, m, s, i + j) == Iterate(a, c, m, Iterate(a, c, m, s, i), j)
  {
    if j > 0 {
      IterateAdd(a, c, m, s, i, j - 1);
    }
  }

  /** A mixed generator modulo 2^k with a = 1 mod 4 and odd increment returns to a state exactly
      after the multiples of 2^k. */
  lemma {:induction false} MixedPeriod(a: int, c: int, k: nat, s: int, n: nat)
    requires OneModFour(a) && Odd(c) && 0 <= s < Pow2(k)
    ensures Iterate(a, c, Pow2(k), s, n) == s <==> Mod(n, Pow2(k)) == 0
  {
    hide *;
    var x := UnreducedMixedState(a, c, k, s, n);
    ModSmall(s, Pow2(k));
    ModEqual(x, s, Pow2(k));
    TwoDividesIsMod(k, x - s);
    GeoValuation(a, n, k);
    TwoDividesIsMod(k, n);
  }

  /** The state after n steps before reduction: it differs from s by an odd number times S(n). */
  lemma {:induction false} UnreducedMixedState(a: int, c: int, k: nat, s: int, n: nat) returns (x: int)
    requires OneModFour(a) && Odd(c) && 0 <= s < Pow2(k)
    ensures Iterate(a, c, Pow2(k), s, n) == Mod(x, Pow2(k))
    ensures TwoDivides(k, x - s) <==> TwoDivides(k, Geo(a, n))
  {
    var g, odd := Geo(a, n), (a - 1) * s + c;
    x := IntPow(a, n) * s + c * g;
    IterateClosed(a, c, Pow2(k), s, n);
    GeoClosed(a, n);
    hide *;
    MixedDifference(IntPow(a, n), g, a, c, s);
    OddIncrement(a, c, s);
    TwoDividesOddFactor(k, g, odd);
  }

  lemma {:induction false} MixedDifference(p: int, g: int, a: int, c: int, s: int)
    requires (a - 1) * g == p - 1
    ensures p * s + c * g - s == g * ((a - 1) * s + c)
  {
    assert ((a - 1) * g) * s == g * ((a - 1) * s);
  }

  lemma {:induction false} OddIncrement(a: int, c: int, s: int)
    requires OneModFour(a) && Odd(c)
    ensures Odd((a - 1) * s + c)
  {
    var h := HalfOfEven(a);
    hide *;
    var y := TwiceProduct(a - 1, h, s);
    OddSum((a - 1) * s, y, c);
  }

  lemma {:induction false} HalfOfEven(a: int) returns (h: int)
    requires OneModFour(a)
    ensures a - 1 == 2 * h
  {
    h := (a - 1) / 2;
  }

  lemma {:induction false} TwiceProduct(b: int, h: int, s: int) returns (y: int)
    requires b == 2 * h
    ensures b * s == 2 * y
  {
    y := h * s;
  }

  lemma {:induction false} OddSum(x: int, y: int, c: int)
    requires x == 2 * y && Odd(c)
    ensures Odd(x + c)
  {
  }

  /** A multiplicative generator modulo 2^(k+2) with a = 5 mod 8 returns to an odd state exactly
      after the multiples of 2^k. */
  lemma {:induction false} MultiplicativePeriod(a: int, k: nat, s: int, n: nat)
    requires FiveModEight(a) && Odd(s) && 0 <= s < Pow2(k + 2)
    ensures Iterate(a, 0, Pow2(k + 2), s, n) == s <==> Mod(n, Pow2(k)) == 0
  {
    hide *;
    var q := QuarterOdd(a);
    var x := UnreducedState(a, k, s, n);
    ModSmall(s, Pow2(k + 2));
    ModEqual(x, s, Pow2(k + 2));
    TwoDividesIsMod(k + 2, x - s);
    GeoValuation(a, n, k);
    TwoDividesIsMod(k, n);
  }

  /** The state after n steps before reduction: it differs from s by 4 times odd times S(n). */
  lemma {:induction false} UnreducedState(a: int, k: nat, s: int, n: nat) returns (x: int)
    requires FiveModEight(a) && Odd(s) && 0 <= s < Pow2(k + 2)
    ensures Iterate(a, 0, Pow2(k + 2), s, n) == Mod(x, Pow2(k + 2))
    ensures TwoDivides(k + 2, x - s) <==> TwoDivides(k, Geo(a, n))
  {
    var g, p := Geo(a, n), IntPow(a, n);
    var q := QuarterOdd(a);
    hide *;
    x := p * s;
    IterateClosed(a, 0, Pow2(k + 2), s, n);
    GeoClosed(a, n);
    MultiplicativeDifference(p, g, a, q, s);
    FourTimesOdd(k, g, q, s);
  }

  lemma {:induction false} QuarterOdd(a: int) returns (q: int)
    requires FiveModEight(a)
    ensures a - 1 == 4 * q && Odd(q) && OneModFour(a) && Odd(a)
  {
    q := (a - 1) / 4;
  }

  lemma {:induction false} FourTimesOdd(k: nat, g: int, q: int, s: int)
    requires Odd(q) && Odd(s)
    ensures TwoDivides(k + 2, 4 * (g * q) * s) <==> TwoDivides(k, g)
  {
    var x := g * q;
    TwoDividesOddFactor(k + 2, 4 * x, s);
    assert 4 * x == 2 * (2 * x);
    TwoDividesDouble(k + 1, 2 * x);
    TwoDividesDouble(k, x);
    TwoDividesOddFactor(k, g, q);
  }

  lemma {:induction false} MultiplicativeDifference(p: int, g: int, a: int, q: int, s: int)
    requires (a - 1) * g == p - 1 && a - 1 == 4 * q
    ensures p * s - s == 4 * (g * q) * s
  {
    assert p - 1 == 4 * (g * q);
    assert p * s - s == (p - 1) * s;
  }

  /** States are distinct throughout a period. */
  lemma {:induction false} MixedDistinct(a: int, c: int, k: nat, s: int, i: nat, j: nat)
    requires OneModFour(a) && Odd(c) && 0 <= s < Pow2(k) && i < j < i + Pow2(k)
    ensures Iterate(a, c, Pow2(k), s, i) != Iterate(a, c, Pow2(k), s, j)
  {
    IterateAdd(a, c, Pow2(k), s, i, j - i);
    MixedPeriod(a, c, k, Iterate(a, c, Pow2(k), s, i), j - i);
    ModSmall(j - i, Pow2(k));
  }

  lemma {:induction false} IterateOdd(a: int, k: nat, s: int, n: nat)
    requires FiveModEight(a) && Odd(s) && 0 <= s < Pow2(k + 2)
    ensures Odd(Iterate(a, 0, Pow2(k + 2), s, n))
  {
    if n > 0 {
      IterateOdd(a, k, s, n - 1);
      hide Odd, FiveModEight;
      var q := QuarterOdd(a);
      StepOdd(a, Pow2(k + 1), Iterate(a, 0, Pow2(k + 2), s, n - 1));
    }
  }

  lemma {:induction false} StepOdd(a: int, m: nat, r: int)
    requires Odd(a) && m > 0 && Odd(r)
    ensures Odd(Step(a, 0, 2 * m, r))
  {
    OddProduct(r, a);
    EvenModulus(r * a, m);
  }

  lemma {:induction false} EvenModulus(x: int, m: nat)
    requires m > 0
    ensures Mod(x, 2 * m) % 2 == x % 2
  {
    HalfMod(x, m);
  }

  lemma {:induction false} MultiplicativeDistinct(a: int, k: nat, s: int, i: nat, j: nat)
    requires FiveModEight(a) && Odd(s) && 0 <= s < Pow2(k + 2) && i < j < i + Pow2(k)
    ensures Iterate(a, 0, Pow2(k + 2), s, i) != Iterate(a, 0, Pow2(k + 2), s, j)
  {
    IterateAdd(a, 0, Pow2(k + 2), s, i, j - i);
    IterateOdd(a, k, s, i);
    MultiplicativePeriod(a, k, Iterate(a, 0, Pow2(k + 2), s, i), j - i);
    ModSmall(j - i, Pow2(k));
  }
}
