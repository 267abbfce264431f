/** ran_ of performance/linpack-benchmark.cpp: a multiplicative congruential generator modulo 2^48
    on four 12-bit limbs, most significant limb first. */
module Ran {
  import opened Words
  import opened Residues
  import opened Counting

  const MULTIPLIER := 33952834046453
  const MODULUS_BITS: nat := 48
  const PERIOD_BITS: nat := 46

  /** Limbs between 0 and 4095, the last one odd: the source's requirement on a seed. */
  predicate ValidSeed(s: seq<Int32>) {
    |s| == 4 && (forall i | 0 <= i < 4 :: 0 <= s[i] < 4096) && s[3] % 2 == 1
  }

  /** The 48-bit integer held in the limbs. */
  function Packed(s: seq<Int32>): (p: nat)
    requires ValidSeed(s)
    ensures p % 2 == 1
  {
    s[0] as int * 0x10_0000_0000 + s[1] as int * 0x100_0000 + s[2] as int * 0x1000 + s[3] as int
  }

  /** The packed seed after n draws. */
  function Drawn(p: nat, n: nat): (q: nat)
    requires p < Pow2(MODULUS_BITS)
    ensures q < Pow2(MODULUS_BITS)
  {
    Iterate(MULTIPLIER, 0, Pow2(MODULUS_BITS), p, n)
  }

  /** A 48-bit integer as a fraction of 2^48. */
  function Fraction(p: nat): real {
    p as real / 281474976710656.0
  }

  lemma {:induction false} PackedBound(s: seq<Int32>)
    requires ValidSeed(s)
    ensures Packed(s) < Pow2(MODULUS_BITS)
  {
    Pow2Values();
  }

  /** The limbs of the multiplier. */
  lemma {:induction false} MultiplierLimbs()
    ensures MULTIPLIER == 494 * 0x10_0000_0000 + 322 * 0x100_0000 + 2508 * 0x1000 + 2549
    ensures FiveModEight(MULTIPLIER)
  {
  }

  /** One schoolbook multiplication with carries, dropping everything from 2^48 on. */
  lemma {:induction false} LimbProduct(s1: int, s2: int, s3: int, s4: int, t1: int, t2: int, t3: int, t4: int,
                                       c3: int, c2: int, c1: int, c0: int)
    requires 0 <= t1 < 4096 && 0 <= t2 < 4096 && 0 <= t3 < 4096 && 0 <= t4 < 4096
    requires s4 * 2549 == 4096 * c3 + t4
    requires c3 + s3 * 2549 + s4 * 2508 == 4096 * c2 + t3
    requires c2 + s2 * 2549 + s3 * 2508 + s4 * 322 == 4096 * c1 + t2
    requires c1 + s1 * 2549 + s2 * 2508 + s3 * 322 + s4 * 494 == 4096 * c0 + t1
    ensures var p, q := s1 * 0x10_0000_0000 + s2 * 0x100_0000 + s3 * 0x1000 + s4,
                        t1 * 0x10_0000_0000 + t2 * 0x100_0000 + t3 * 0x1000 + t4;
            Mod(p * 33952834046453, 0x1_0000_0000_0000) == q
  {
    var p, q := s1 * 0x10_0000_0000 + s2 * 0x100_0000 + s3 * 0x1000 + s4,
                t1 * 0x10_0000_0000 + t2 * 0x100_0000 + t3 * 0x1000 + t4;
    var k := c0 + (s1 * 2508 + s2 * 322 + s3 * 494) + 4096 * (s1 * 322 + s2 * 494) + 0x100_0000 * (s1 * 494);
    assert p * 33952834046453 == q + k * 0x1_0000_0000_0000;
    ModShift(p * 33952834046453, q, k, 0x1_0000_0000_0000);
    ModSmall(q, 0x1_0000_0000_0000);
  }

  predicate Limb(x: Int32) {
    0 <= x < 4096
  }

  /** The limb arithmetic of ran_, least significant limb first. */
  method NextLimbs(s1: Int32, s2: Int32, s3: Int32, s4: Int32) returns (it1: Int32, it2: Int32, it3: Int32, it4: Int32)
    requires Limb(s1) && Limb(s2) && Limb(s3) && Limb(s4) && s4 % 2 == 1
    ensures Limb(it1) && Limb(it2) && Limb(it3) && Limb(it4) && it4 % 2 == 1
    ensures Mod((s1 as int * 0x10_0000_0000 + s2 as int * 0x100_0000 + s3 as int * 0x1000 + s4 as int) * 33952834046453,
                0x1_0000_0000_0000)
            == it1 as int * 0x10_0000_0000 + it2 as int * 0x100_0000 + it3 as int * 0x1000 + it4 as int
  {
    hide Mod;
    var c3, c2, c1;
    c3, it4 := Carry(s4 * 2549);
    c2, it3 := Carry(c3 + s3 * 2549 + s4 * 2508);
    c1, it2 := Carry(c2 + s2 * 2549 + s3 * 2508 + s4 * 322);
    var top := c1 + s1 * 2549 + s2 * 2508 + s3 * 322 + s4 * 494;
    it1 := top % 4096;
    assert top == 4096 * (top / 4096) + it1;
    OddCarry(s4, c3, it4);
    LimbProduct(s1 as int, s2 as int, s3 as int, s4 as int, it1 as int, it2 as int, it3 as int, it4 as int,
                c3 as int, c2 as int, c1 as int, (top / 4096) as int);
  }

  /** it := x / 4096; x := x - (it << 12). */
  method Carry(x: Int32) returns (c: Int32, r: Int32)
    requires 0 <= x < 0x200_0000
    ensures Limb(r) && 0 <= c < 8192 && x == 4096 * c + r
  {
    c := x / 4096;
    r := x - c * 4096;
  }

  lemma {:induction false} OddCarry(s4: Int32, c3: Int32, it4: Int32)
    requires Limb(s4) && s4 % 2 == 1 && 0 <= c3 < 8192 && Limb(it4) && s4 * 2549 == 4096 * c3 + it4
    ensures it4 % 2 == 1
  {
    var s, c, t := s4 as int, c3 as int, it4 as int;
    assert s * 2549 == 4096 * c + t;
    hide *;
    var h := s / 2;
    assert s == 2 * h + 1;
    assert t == 2 * (2549 * h + 1274 - 2048 * c) + 1;
    OddForm(2549 * h + 1274 - 2048 * c, t);
  }

  lemma {:induction false} OddForm(h: int, t: int)
    requires t == 2 * h + 1
    ensures t % 2 == 1
  {
  }

  /** Updates the seed and returns a number strictly between 0 and 1. */
  method Ran(iseed: array<Int32>) returns (retVal: real)
    requires iseed.Length == 4 && ValidSeed(iseed[..])
    modifies iseed
    ensures ValidSeed(iseed[..])
    ensures old(Packed(iseed[..])) < Pow2(MODULUS_BITS)
    ensures Packed(iseed[..]) == Drawn(old(Packed(iseed[..])), 1)
    ensures retVal == Fraction(Packed(iseed[..]))
    ensures 0.0 < retVal < 1.0
  {
    hide Mod, Drawn, Fraction, Pow2;
    ghost var s := iseed[..];
    PackedBound(s);
    var it1, it2, it3, it4 := NextLimbs(iseed[0], iseed[1], iseed[2], iseed[3]);
    iseed[0] := it1;
    iseed[1] := it2;
    iseed[2] := it3;
    iseed[3] := it4;
    ghost var t := iseed[..];
    assert t == [it1, it2, it3, it4];
    retVal := (it1 as real + (it2 as real + (it3 as real + it4 as real * 0.000244140625) * 0.000244140625) * 0.000244140625)
              * 0.000244140625;
    DrawIs(s, t);
    FractionOfLimbs(t, retVal);
  }

  lemma {:induction false} DrawIs(s: seq<Int32>, t: seq<Int32>)
    requires ValidSeed(s) && ValidSeed(t) && Packed(s) < Pow2(MODULUS_BITS)
    requires Mod(Packed(s) * 33952834046453, 0x1_0000_0000_0000) == Packed(t)
    ensures Packed(t) == Drawn(Packed(s), 1)
  {
    Pow2Values();
    hide Mod, Packed, ValidSeed;
    assert Iterate(MULTIPLIER, 0, Pow2(MODULUS_BITS), Packed(s), 0) == Packed(s);
  }

  lemma {:induction false} FractionOfLimbs(t: seq<Int32>, r: real)
    requires ValidSeed(t)
    requires r == (t[0] as real + (t[1] as real + (t[2] as real + t[3] as real * 0.000244140625) * 0.000244140625) * 0.000244140625)
                  * 0.000244140625
    ensures r == Fraction(Packed(t)) && 0.0 < r < 1.0
  {
  }

  /** From an odd seed the generator returns to it exactly after the multiples of 2^46 draws. */
  lemma {:induction false} PeriodIsTwoTo46(p: nat, n: nat)
    requires Odd(p) && p < Pow2(MODULUS_BITS)
    ensures Drawn(p, n) == p <==> Mod(n, Pow2(PERIOD_BITS)) == 0
  {
    hide Pow2, Mod, Odd, Iterate;
    MultiplierLimbs();
    MultiplicativePeriod(MULTIPLIER, PERIOD_BITS, p, n);
  }

  /** Within a period no state is drawn twice. */
  lemma {:induction false} DrawsDistinct(p: nat, i: nat, j: nat)
    requires Odd(p) && p < Pow2(MODULUS_BITS) && i < j < i + Pow2(PERIOD_BITS)
    ensures Drawn(p, i) != Drawn(p, j)
  {
    hide Pow2, Mod, Odd, Iterate;
    MultiplierLimbs();
    MultiplicativeDistinct(MULTIPLIER, PERIOD_BITS, p, i, j);
  }

  lemma {:induction false} DrawnOdd(p: nat, n: nat)
    requires Odd(p) && p < Pow2(MODULUS_BITS)
    ensures Odd(Drawn(p, n))
  {
    hide Pow2, Mod, Odd, Iterate;
    MultiplierLimbs();
    IterateOdd(MULTIPLIER, PERIOD_BITS, p, n);
  }

  lemma {:induction false} DrawnAdd(p: nat, n: nat)
    requires p < Pow2(MODULUS_BITS)
    ensures Drawn(p, n + 1) == Drawn(Drawn(p, n), 1)
  {
    hide Pow2, Mod, Step;
    IterateAdd(MULTIPLIER, 0, Pow2(MODULUS_BITS), p, n, 1);
  }

  /** A draw with the quotient by 2^48. */
  lemma {:induction false} DrawValue(p: nat, q: nat, r: nat)
    requires p < 0x1_0000_0000_0000 && r < 0x1_0000_0000_0000 && p * 33952834046453 == q * 0x1_0000_0000_0000 + r
    ensures p < Pow2(MODULUS_BITS) && Drawn(p, 1) == r
  {
    hide Mod;
    Pow2Values();
    ModShift(p * 33952834046453, r, q, 0x1_0000_0000_0000);
    ModSmall(r, 0x1_0000_0000_0000);
    assert Iterate(MULTIPLIER, 0, Pow2(MODULUS_BITS), p, 0) == p;
  }

  /** Remainders by four survive reduction modulo 2^48. */
  lemma {:induction false} ModFour(x: int)
    ensures Mod(x, Pow2(MODULUS_BITS)) % 4 == x % 4
  {
    hide Mod, Pow2;
    var q := ModSplit(x, Pow2(MODULUS_BITS));
    var y := Mod(x, Pow2(MODULUS_BITS));
    Pow2Add(2, PERIOD_BITS);
    PowTwo();
    QuarterShift(x, y, q, Pow2(PERIOD_BITS));
  }

  lemma {:induction false} PowTwo()
    ensures Pow2(2) == 4 && MODULUS_BITS == 2 + PERIOD_BITS
  {
    assert Pow2(0) == 1;
  }

  lemma {:induction false} QuarterShift(x: int, y: int, q: int, p: int)
    requires x == q * (4 * p) + y
    ensures y % 4 == x % 4
  {
    assert q * (4 * p) == 4 * (q * p);
    SameQuarter(x, y, q * p);
  }

  lemma {:induction false} SameQuarter(x: int, y: int, k: int)
    requires x == 4 * k + y
    ensures y % 4 == x % 4
  {
  }

  /** No draw changes the remainder by four. */
  lemma {:induction false} DrawnClass(p: nat, n: nat)
    requires p < Pow2(MODULUS_BITS)
    ensures Drawn(p, n) % 4 == p % 4
  {
    hide Mod, Pow2;
    if n > 0 {
      DrawnClass(p, n - 1);
      var s := Drawn(p, n - 1);
      assert Drawn(p, n) == Mod(s * MULTIPLIER + 0, Pow2(MODULUS_BITS));
      ModFour(s * MULTIPLIER + 0);
      SameQuarter(s * MULTIPLIER, s, s * 8488208511613);
    }
  }

  /** The draws of one period, by their number, without the constant remainder. */
  function Quarters(p: nat): int -> int
    requires p < Pow2(MODULUS_BITS)
  {
    (i: int) => if i >= 0 then Drawn(p, i) as int / 4 else -1
  }

  lemma {:induction false} QuarterBound(x: nat)
    requires x < Pow2(MODULUS_BITS)
    ensures x / 4 < Pow2(PERIOD_BITS)
  {
    Pow2Values();
  }

  lemma {:induction false} QuartersInjective(p: nat)
    requires Odd(p) && p < Pow2(MODULUS_BITS)
    ensures InjectiveOn(Quarters(p), Pow2(PERIOD_BITS))
    ensures forall i | 0 <= i < Pow2(PERIOD_BITS) :: 0 <= Quarters(p)(i) < Pow2(PERIOD_BITS)
  {
    hide Pow2, Drawn, Odd;
    forall i | 0 <= i < Pow2(PERIOD_BITS) ensures 0 <= Quarters(p)(i) < Pow2(PERIOD_BITS) {
      QuarterBound(Drawn(p, i));
    }
    forall i, j | 0 <= i < Pow2(PERIOD_BITS) && 0 <= j < Pow2(PERIOD_BITS) && Quarters(p)(i) == Quarters(p)(j)
      ensures i == j
    {
      DrawnClass(p, i);
      DrawnClass(p, j);
      assert Drawn(p, i) == Drawn(p, j);
      if i < j {
        DrawsDistinct(p, i, j);
      } else if j < i {
        DrawsDistinct(p, j, i);
      }
    }
  }

  /** One period from an odd seed runs through its whole class modulo 4 and nothing else. */
  lemma {:induction false} OrbitIsClass(p: nat, q: nat)
    requires Odd(p) && p < Pow2(MODULUS_BITS) && q < Pow2(MODULUS_BITS)
    ensures q % 4 == p % 4 <==> exists i: nat :: i < Pow2(PERIOD_BITS) && Drawn(p, i) == q
  {
    hide Pow2, Drawn, Odd, InjectiveOn;
    if q % 4 == p % 4 {
      QuartersInjective(p);
      QuarterBound(q);
      Onto(Quarters(p), Pow2(PERIOD_BITS), q / 4);
      var i: int :| 0 <= i < Pow2(PERIOD_BITS) && Quarters(p)(i) == q / 4;
      DrawnClass(p, i);
      assert Drawn(p, i) == q;
    }
    if i: nat :| i < Pow2(PERIOD_BITS) && Drawn(p, i) == q {
      DrawnClass(p, i);
    }
  }
}
