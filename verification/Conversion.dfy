/** my_convert_to_double: a number of any precision is cut to 56 bits with a sticky low bit and
    only then given to the hardware's rounding. */
module Conversion {
  import opened Rounding
  import opened Binary64
  import opened Words

  /** A multiprecision binary floating-point number: fraction * 2^exponent with its sign. */
  datatype Datum =
    | NaN(negative: bool)
    | Infinity(negative: bool)
    | Zero(negative: bool)
    | Regular(negative: bool, exponent: int, fraction: real)

  type Number = d: Datum | d.Regular? ==> 1.0 <= d.fraction < 2.0 witness Zero(false)

  datatype Double = QuietNaN | Value(negative: bool, magnitude: Magnitude)

  const DBL_MIN := Exp2(-1022)

  // ------------------------------------------------- the hardware operations, on magnitudes

  /** double(ti) for ti >= 0 */
  function FromInteger(ti: int): Magnitude
    requires ti >= 0
  {
    Round64(ti as real)
  }

  function Ldexp(x: Magnitude, k: int): Magnitude
    requires x.Finite? ==> x.mag >= 0.0
  {
    if x.Infinite? then Infinite else (ScaleNonNegative(x.mag, k); Round64(Scale(x.mag, k)))
  }

  function Minus(x: Magnitude, y: real): Magnitude
    requires x.Finite? ==> x.mag >= y
  {
    if x.Infinite? then Infinite else Round64(x.mag - y)
  }

  /** Rounding to the 128-bit type of the subnormal branch, whose exponent range is not a limit. */
  function Round128(v: real): real
    requires v >= 0.0
  {
    if v == 0.0 then 0.0
    else Scale(RoundEven(Scale(v, -(Exponent(v) - 127))) as real, Exponent(v) - 127)
  }

  // ------------------------------------------------- the single rounding

  /** x rounded once. */
  function ToNearestDouble(x: Number): Double {
    match x
    case NaN(_) => QuietNaN
    case Infinity(s) => Value(s, Infinite)
    case Zero(s) => Value(s, Finite(0.0))
    case Regular(s, e, f) => (ScaleNonNegative(f, e); Value(s, Round64(Scale(f, e))))
  }

  // ------------------------------------------------- the first truncation

  lemma {:induction false} SignificandBits(f: real)
    requires 1.0 <= f < 2.0
    ensures Scale(f, 55) == 8.0 * Scale(f, 52)
    ensures Exp2(55) <= Scale(f, 55) < Exp2(56)
    ensures 0x80_0000_0000_0000 <= RoundOdd(Scale(f, 55)) < 0x100_0000_0000_0000
    ensures 0 <= RoundEven(Scale(f, 52)) <= 0x20_0000_0000_0000
  {
    hide Exp2, Scale, RoundOdd, RoundEven;
    ScaleNext(f, 54);
    ScaleNext(f, 53);
    ScaleNext(f, 52);
    PowerLiterals();
    Exp2IsScale(55);
    ScaleLess(f, 1.0, 55);
    ScaleLess(f, 2.0, 55);
    ScaleNext(1.0, 55);
    Exp2IsScale(56);
    RoundOddBounds(Scale(f, 55));
    RoundEvenBounds(Scale(f, 52));
  }

  lemma {:induction false} RoundOddBounds(y: real)
    requires 36028797018963968.0 <= y < 72057594037927936.0
    ensures 0x80_0000_0000_0000 <= RoundOdd(y) < 0x100_0000_0000_0000
  {
  }

  lemma {:induction false} Eighth(n: int)
    ensures Scale(n as real, -3) == n as real / 8.0
  {
    hide Exp2, Scale;
    ScaleNext(n as real, -3);
    ScaleNext(n as real, -2);
    ScaleNext(n as real, -1);
    ScaleZero(n as real);
  }

  lemma {:induction false} NotClipped(m: nat, q: int)
    requires m <= 0x20_0000_0000_0000 && q <= 3
    ensures Clip(Scale(m as real, q)) == Finite(Scale(m as real, q)) && Scale(m as real, q) >= 0.0
  {
    hide Exp2, Scale;
    PowerLiterals();
    ScaleLess(Exp2(53), m as real, q);
    Exp2Scale(53, q);
    Exp2Monotone(q + 53, EMAX + 1);
    ScaleNonNegative(m as real, q);
  }

  /** double(ti) of a 56-bit ti drops the three spare bits. */
  lemma {:induction false} DropSpareBits(ti: nat)
    requires 0x80_0000_0000_0000 <= ti < 0x100_0000_0000_0000
    ensures var m := RoundEven(ti as real / 8.0);
            0 <= m <= 0x20_0000_0000_0000 && FromInteger(ti) == Finite(Scale(m as real, 3))
            && Scale(m as real, 3) >= 0.0
  {
    hide Exp2, Scale, RoundEven, Clip, Round64;
    PowerLiterals();
    Round64InBinade(ti as real, 55);
    Eighth(ti);
    RoundEvenBounds(ti as real / 8.0);
    NotClipped(RoundEven(ti as real / 8.0), 3);
  }

  /** ldexp of such a double. */
  lemma {:induction false} LdexpOfRounded(m: nat, k: int)
    requires m <= 0x20_0000_0000_0000 && k + 3 >= QMIN && Scale(m as real, 3) >= 0.0
    ensures Ldexp(Finite(Scale(m as real, 3)), k) == Clip(Scale(m as real, k + 3))
  {
    hide Exp2, Scale, Clip, Round64;
    ScaleScale(m as real, 3, k);
    RoundExact(m, k + 3);
  }

  /** The reference rounding of a number with exponent e. */
  lemma {:induction false} ReferenceRounding(f: real, e: int)
    requires 1.0 <= f < 2.0
    ensures Scale(f, e) >= 0.0
    ensures var q := if e - 52 < QMIN then QMIN else e - 52;
            Round64(Scale(f, e)) == Clip(Scale(RoundEven(Scale(f, e - q)) as real, q))
  {
    hide Exp2, Scale, Clip, Round64, RoundEven;
    Exp2IsScale(e);
    ScaleLess(f, 1.0, e);
    ScaleLess(f, 2.0, e);
    ScaleNext(1.0, e);
    Exp2IsScale(e + 1);
    Round64InBinade(Scale(f, e), e);
    var q := if e - 52 < QMIN then QMIN else e - 52;
    ScaleScale(f, e, -q);
  }

  // ------------------------------------------------- the four branches

  /** Normal results: two roundings equal one. */
  lemma {:induction false} NormalBranch(f: real, e: int)
    requires 1.0 <= f < 2.0 && EMIN <= e
    ensures Scale(f, e) >= 0.0 && RoundOdd(Scale(f, 55)) >= 0
    ensures var d := FromInteger(RoundOdd(Scale(f, 55)));
            (d.Finite? ==> d.mag >= 0.0) && Ldexp(d, e - 55) == Round64(Scale(f, e))
  {
    hide Exp2, Scale, Clip, Round64, RoundEven, RoundOdd, FromInteger, Ldexp;
    SignificandBits(f);
    var o := RoundOdd(Scale(f, 55));
    DropSpareBits(o);
    OddThenEven(Scale(f, 52), Scale(f, 55));
    LdexpOfRounded(RoundEven(Scale(f, 52)), e - 55);
    ReferenceRounding(f, e);
  }

  lemma {:induction false} OverflowBranch(f: real, e: int)
    requires 1.0 <= f < 2.0 && e > EMAX
    ensures Scale(f, e) >= 0.0 && Round64(Scale(f, e)) == Infinite
  {
    hide Exp2, Scale, Clip, Round64;
    ScaleNonNegative(f, e);
    Exp2IsScale(e);
    ScaleLess(f, 1.0, e);
    Exp2Monotone(EMAX + 1, e);
    OverflowThreshold(Scale(f, e));
  }

  lemma {:induction false} UnderflowBranch(f: real, e: int)
    requires 1.0 <= f < 2.0 && e < QMIN - 1
    ensures Scale(f, e) >= 0.0 && Round64(Scale(f, e)) == Finite(0.0)
  {
    hide Exp2, Scale, Clip, Round64, RoundEven;
    ReferenceRounding(f, e);
    var x := Scale(f, e - QMIN);
    ScaleNonNegative(f, e - QMIN);
    ScaleLess(f, 2.0, e - QMIN);
    ScaleNext(1.0, e - QMIN);
    Exp2IsScale(e - QMIN + 1);
    Exp2Monotone(e - QMIN + 1, -1);
    HalfIsExp2();
    BelowHalf(x);
    ScaleSign(0, QMIN);
    ClipZero();
  }

  lemma {:induction false} HalfIsExp2()
    ensures Exp2(-1) == 0.5
  {
  }

  lemma {:induction false} BelowHalf(x: real)
    requires 0.0 <= x < 0.5
    ensures RoundEven(x) == 0
  {
  }

  // ------------------------------------------------- the subnormal branch

  /** A number of at most 128 bits is exact in the wide type. */
  lemma {:induction false} Exact128(n: nat, q: int)
    requires n as real < Exp2(128)
    ensures Scale(n as real, q) >= 0.0 && Round128(Scale(n as real, q)) == Scale(n as real, q)
  {
    hide Exp2, Exponent, Scale, RoundEven;
    ScaleSign(n, q);
    var v := Scale(n as real, q);
    if n > 0 {
      var e := Exponent(v);
      ExponentBracket(v);
      BinadeBelow(n, q, e, 128);
      var p := e - 127;
      ScaleScale(n as real, q, -p);
      var m := ScaleInteger(n, q - p);
      RoundEvenInteger(m);
      ScaleScale(n as real, q - p, p);
    }
  }

  /** Adding DBL_MIN in the wide type loses nothing. */
  lemma {:induction false} WideSumIsExact(o: nat, e: int)
    requires o < 0x100_0000_0000_0000 && QMIN - 1 <= e < EMIN
    ensures var s := Scale(o as real, e - 55) + DBL_MIN; s >= 0.0 && Round128(s) == s
  {
    hide Exp2, Scale, Round128;
    var k := EMIN - e + 55;
    var w := ScaleInteger(1, k);
    var n: nat := o + w;
    Exp2IsScale(k);
    PowerLiterals();
    Exp2Monotone(k, 127);
    Exp2Monotone(56, 127);
    Exp2Next(127);
    assert n as real == o as real + w as real;
    ScaleAdds(o as real, w as real, e - 55);
    Exp2Scale(k, e - 55);
    Exact128(n, e - 55);
  }

  /** In units of 2^-1077 the sum is the shifted significand plus 2^55. */
  lemma {:induction false} WideSumScaled(o: nat, e: int)
    requires o < 0x100_0000_0000_0000 && e < EMIN
    ensures 0.0 <= Scale(Scale(o as real, e - 55) + DBL_MIN, 55 - EMIN) < 72057594037927936.0
    ensures Scale(Scale(o as real, e - 55) + DBL_MIN, 55 - EMIN) == Scale(o as real, e - EMIN) + 36028797018963968.0
  {
    hide Exp2, Scale;
    ScaleAdds(Scale(o as real, e - 55), DBL_MIN, 55 - EMIN);
    ScaleScale(o as real, e - 55, 55 - EMIN);
    Exp2Scale(EMIN, 55 - EMIN);
    PowerLiterals();
    ScaleNonNegative(o as real, e - EMIN);
    ScaleLess(o as real, Exp2(56), e - EMIN);
    Exp2Scale(56, e - EMIN);
    Exp2Monotone(56 + e - EMIN, 55);
  }

  /** Rounding commutes with adding the integer c. */
  lemma {:induction false} RoundOddShift(x: real, c: int)
    requires c % 2 == 0
    ensures RoundOdd(x + c as real) == RoundOdd(x) + c
  {
    RoundOddIs(x);
    RoundOddUnique(x + c as real, RoundOdd(x) + c);
  }

  lemma {:induction false} RoundEvenShift(x: real, c: int)
    requires c % 2 == 0
    ensures RoundEven(x + c as real) == RoundEven(x) + c
  {
    RoundEvenIs(x);
    RoundEvenUnique(x + c as real, RoundEven(x) + c);
  }

  /** The second rounding to odd gives the significand f in units of 2^-1077, above 2^55. */
  lemma {:induction false} SecondTruncation(f: real, e: int)
    requires 1.0 <= f < 2.0 && e < EMIN
    ensures var o := RoundOdd(Scale(f, 55));
            RoundOdd(Scale(o as real, e - EMIN) + 36028797018963968.0)
            == RoundOdd(Scale(f, e - EMIN + 55)) + 0x80_0000_0000_0000
  {
    hide Exp2, Scale, RoundOdd;
    var k := EMIN - e;
    ScaleScale(f, 55 - k, k);
    OddThenOdd(Scale(f, 55 - k), Scale(f, 55), k);
    var o := RoundOdd(Scale(f, 55));
    RoundOddShift(Scale(o as real, -k), 0x80_0000_0000_0000);
  }

  /** Bounds and three spare bits of the shifted significand. */
  lemma {:induction false} ShiftedBits(f: real, e: int)
    requires 1.0 <= f < 2.0 && e < EMIN
    ensures Scale(f, e - EMIN + 55) == 8.0 * Scale(f, e - QMIN)
    ensures 0 <= RoundOdd(Scale(f, e - EMIN + 55)) < 0x80_0000_0000_0000
    ensures 0 <= RoundEven(Scale(f, e - QMIN)) <= 0x10_0000_0000_0000
  {
    hide Exp2, Scale, RoundOdd, RoundEven;
    ScaleNext(f, e - EMIN + 54);
    ScaleNext(f, e - EMIN + 53);
    ScaleNext(f, e - EMIN + 52);
    var y := Scale(f, e - EMIN + 55);
    ScaleNonNegative(f, e - EMIN + 55);
    ScaleLess(f, 2.0, e - EMIN + 55);
    ScaleNext(1.0, e - EMIN + 55);
    Exp2IsScale(e - EMIN + 56);
    Exp2Monotone(e - EMIN + 56, 55);
    PowerLiterals();
    SmallBounds(y, Scale(f, e - QMIN));
  }

  lemma {:induction false} SmallBounds(y: real, x: real)
    requires 0.0 <= y < 36028797018963968.0 && y == 8.0 * x
    ensures 0 <= RoundOdd(y) < 0x80_0000_0000_0000
    ensures 0 <= RoundEven(x) <= 0x10_0000_0000_0000
  {
  }

  /** double(ti) after the second truncation. */
  lemma {:induction false} SpareBitsOfShifted(f: real, e: int)
    requires 1.0 <= f < 2.0 && e < EMIN
    ensures var p := RoundOdd(Scale(f, e - EMIN + 55));
            RoundEven((p + 0x80_0000_0000_0000) as real / 8.0) == RoundEven(Scale(f, e - QMIN)) + 0x10_0000_0000_0000
  {
    hide Exp2, Scale, RoundOdd, RoundEven;
    ShiftedBits(f, e);
    var p := RoundOdd(Scale(f, e - EMIN + 55));
    OddThenEven(Scale(f, e - QMIN), Scale(f, e - EMIN + 55));
    RoundEvenShift(p as real / 8.0, 0x10_0000_0000_0000);
    assert (p + 0x80_0000_0000_0000) as real / 8.0 == p as real / 8.0 + 4503599627370496.0;
  }

  /** Taking DBL_MIN off again is exact. */
  lemma {:induction false} TakeOff(m: nat)
    requires m <= 0x10_0000_0000_0000
    ensures Clip(Scale((m + 0x10_0000_0000_0000) as real, QMIN)).Finite?
    ensures Clip(Scale((m + 0x10_0000_0000_0000) as real, QMIN)).mag >= DBL_MIN
    ensures Minus(Clip(Scale((m + 0x10_0000_0000_0000) as real, QMIN)), DBL_MIN) == Clip(Scale(m as real, QMIN))
  {
    hide Exp2, Scale, Clip, Round64;
    NotClipped(m + 0x10_0000_0000_0000, QMIN);
    assert (m + 0x10_0000_0000_0000) as real == m as real + 4503599627370496.0;
    ScaleAdds(m as real, 4503599627370496.0, QMIN);
    PowerLiterals();
    Exp2Scale(52, QMIN);
    ScaleNonNegative(m as real, QMIN);
    RoundExact(m, QMIN);
  }

  /** Subnormal results: three roundings and the detour over DBL_MIN equal one rounding. */
  lemma {:induction false} SubnormalBranch(f: real, e: int)
    requires 1.0 <= f < 2.0 && QMIN - 1 <= e < EMIN
    ensures Scale(f, e) >= 0.0
    ensures var ti := RoundOdd(Scale(Scale(RoundOdd(Scale(f, 55)) as real, e - 55) + DBL_MIN, 55 - EMIN));
            0 <= ti < 0x100_0000_0000_0000 &&
            var d := FromInteger(ti);
            (d.Finite? ==> d.mag >= 0.0) &&
            var l := Ldexp(d, EMIN - 55);
            l.Finite? && l.mag >= DBL_MIN && Minus(l, DBL_MIN) == Round64(Scale(f, e))
  {
    hide Exp2, Scale, Clip, Round64, RoundEven, RoundOdd, FromInteger, Ldexp, Minus;
    SignificandBits(f);
    var o := RoundOdd(Scale(f, 55));
    WideSumScaled(o, e);
    SecondTruncation(f, e);
    ShiftedBits(f, e);
    var ti := RoundOdd(Scale(f, e - EMIN + 55)) + 0x80_0000_0000_0000;
    var m := RoundEven(Scale(f, e - QMIN));
    DropSpareBits(ti);
    SpareBitsOfShifted(f, e);
    LdexpOfRounded(m + 0x10_0000_0000_0000, EMIN - 55);
    TakeOff(m);
    ReferenceRounding(f, e);
  }

  // ------------------------------------------------- the program

  lemma {:induction false} FirstScaling(f: real, e: int)
    ensures Scale(Scale(f, e), 55 - e) == Scale(f, 55)
  {
    hide Scale;
    ScaleScale(f, e, 55 - e);
  }

  /** trunc, conversion to a 64-bit integer and the sticky bit. */
  method Truncate(y: real) returns (ti: Int64)
    requires 0.0 <= y < 72057594037927936.0
    ensures ti as int == RoundOdd(y) && ti >= 0
  {
    var t := y.Floor;
    ti := t as Int64;
    if ti % 2 == 0 {
      if t as real < y {
        ti := ti + 1;   // |= 1
      }
    }
  }

  /** The conversion equals a single rounding to nearest, ties to even, for every number. */
  method MyConvertToDouble(x: Number) returns (r: Double)
    ensures r == ToNearestDouble(x)
    ensures r == QuietNaN <==> x.NaN?
    ensures r.Value? ==> r.negative == x.negative
    ensures x.Infinity? ==> r == Value(x.negative, Infinite)
    ensures x.Zero? ==> r == Value(x.negative, Finite(0.0))
    ensures x.Regular? ==> (r.magnitude.Infinite? <==> Scale(x.fraction, x.exponent) >= Exp2(1024) - Exp2(970))
    ensures x.Regular? && r.magnitude.Finite? ==> NearestEven(Scale(x.fraction, x.exponent), r.magnitude.mag)
  {
    hide NearestEven, Exp2, Scale, Clip, Round64, RoundEven, RoundOdd, FromInteger, Ldexp, Minus, Round128;
    if x.Regular? {
      CorrectlyRounded(x);
    }
    var ret := Finite(0.0);
    if x.Regular? || x.Zero? {
      if x.Regular? && x.exponent >= -1023 - 52 {
        if x.exponent <= 1023 {
          var e := x.exponent;
          var y := Scale(Scale(x.fraction, e), 55 - e);
          FirstScaling(x.fraction, e);
          SignificandBits(x.fraction);
          PowerLiterals();
          var ti := Truncate(y);
          if e >= -1023 + 1 {
            NormalBranch(x.fraction, e);
            ret := Ldexp(FromInteger(ti as int), e - 55);
          } else {
            WideSumIsExact(ti as int, e);
            SubnormalBranch(x.fraction, e);
            WideSumScaled(ti as int, e);
            var sx := Round128(Scale(ti as real, e - 55) + DBL_MIN);
            e := -1023 + 1;
            var sy := Scale(sx, 55 - e);
            ti := Truncate(sy);
            ret := Minus(Ldexp(FromInteger(ti as int), e - 55), DBL_MIN);
          }
        } else {
          OverflowBranch(x.fraction, x.exponent);
          ret := Infinite;
        }
      } else if x.Regular? {
        UnderflowBranch(x.fraction, x.exponent);
      }
    } else {
      if x.NaN? {
        return QuietNaN;
      }
      ret := Infinite;
    }
    r := Value(x.negative, ret);
  }

  /** What that single rounding means: a NaN gives the quiet NaN and nothing else does; the sign is kept
      and infinities stay infinite; zero gives the number nearest to 0; for a number of value
      fraction * 2^exponent overflow starts at 2^1024 - 2^970, and otherwise the result is the nearest
      number of the format, ties going to the even significand. */
  lemma {:induction false} CorrectlyRounded(x: Number)
    ensures var r := ToNearestDouble(x);
            && (r.QuietNaN? <==> x.NaN?)
            && (r.Value? ==> r.negative == x.negative)
            && (x.Infinity? ==> r.magnitude.Infinite?)
            && (x.Zero? ==> r.magnitude.Finite? && NearestEven(0.0, r.magnitude.mag))
            && (x.Regular? ==>
                  var v := Scale(x.fraction, x.exponent);
                  && (r.magnitude.Infinite? <==> v >= Exp2(1024) - Exp2(970))
                  && (r.magnitude.Finite? ==> NearestEven(v, r.magnitude.mag)))
  {
    hide Exp2, Scale, Round64, NearestEven;
    if x.Regular? {
      var v := Scale(x.fraction, x.exponent);
      ScaleNonNegative(x.fraction, x.exponent);
      OverflowThreshold(v);
      if Round64(v).Finite? {
        Round64IsNearestEven(v);
      }
    }
    if x.Zero? {
      ZeroRounds();
      Round64IsNearestEven(0.0);
    }
  }

  lemma {:induction false} ZeroRounds()
    ensures Round64(0.0) == Finite(0.0)
  {
  }
}
