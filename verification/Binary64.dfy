/** The binary64 format of IEEE 754-2008 (section 3.6) and its default rounding,
    roundTiesToEven (section 4.3.1), on magnitudes. */
module Binary64 {
  import opened Rounding

  const EMAX := 1023
  const EMIN := -1022
  const QMIN := -1074   // exponent of the smallest subnormal

  datatype Magnitude = Finite(mag: real) | Infinite

  /** The exponent of the last place that a number of magnitude v has in the format. */
  function Quantum(v: real): int
    requires v > 0.0
  {
    if Exponent(v) - 52 < QMIN then QMIN else Exponent(v) - 52
  }

  /** Overflow: nothing finite reaches 2^1024. */
  function Clip(x: real): Magnitude {
    if x >= Exp2(EMAX + 1) then Infinite else Finite(x)
  }

  /** The magnitude v >= 0 rounded to the format: the integer multiple of the last place that is
      nearest to v, the even one in case of a tie. */
  function Round64(v: real): Magnitude
    requires v >= 0.0
  {
    if v == 0.0 then Finite(0.0)
    else Clip(Scale(RoundEven(Scale(v, -Quantum(v))) as real, Quantum(v)))
  }

  /** v is the magnitude of a finite number of the format. */
  ghost predicate Representable(v: real) {
    exists m: nat, q: int :: Encodes(m, q, v)
  }

  predicate Encodes(m: nat, q: int, v: real) {
    m < 0x20_0000_0000_0000 && QMIN <= q <= EMAX - 52 && v == Scale(m as real, q)
  }

  /** The significand of v, scaled to the last place, is even. */
  ghost predicate EvenSignificand(v: real) {
    exists m: nat, q: int :: Encodes(m, q, v) && m % 2 == 0 && (q == QMIN || m >= 0x10_0000_0000_0000)
  }

  function Distance(x: real, y: real): real {
    if x < y then y - x else x - y
  }

  /** r is the number of the format that roundTiesToEven selects for v. */
  ghost predicate NearestEven(v: real, r: real) {
    && Representable(r)
    && (forall y | Representable(y) :: Distance(v, r) <= Distance(v, y))
    && (forall y | Representable(y) && y != r && Distance(v, r) == Distance(v, y) :: EvenSignificand(r))
  }

  // ------------------------------------------------- powers of two as literals

  lemma {:induction false} PowerLiterals()
    ensures Exp2(52) == 4503599627370496.0 && Exp2(53) == 9007199254740992.0
    ensures Exp2(55) == 36028797018963968.0 && Exp2(56) == 72057594037927936.0 && Exp2(3) == 8.0
  {
    assert Exp2(8) == 256.0;
    assert Exp2(16) == 65536.0;
    assert Exp2(24) == 16777216.0;
    assert Exp2(32) == 4294967296.0;
    assert Exp2(40) == 1099511627776.0;
    assert Exp2(48) == 281474976710656.0;
  }

  // ------------------------------------------------- rounding exact values

  /** Round64 when the binade of v is known. */
  lemma {:induction false} Round64InBinade(v: real, e: int)
    requires v > 0.0 && Exp2(e) <= v < Exp2(e + 1)
    ensures var q := if e - 52 < QMIN then QMIN else e - 52;
            Round64(v) == Clip(Scale(RoundEven(Scale(v, -q)) as real, q))
  {
    hide Exp2, Exponent, Scale, Clip, RoundEven;
    ExponentUnique(v, e);
  }

  lemma {:induction false} ScaleSign(n: nat, q: int)
    ensures n == 0 ==> Scale(n as real, q) == 0.0
    ensures n > 0 ==> Scale(n as real, q) > 0.0
  {
    hide Exp2;
    ScaleLess(0.0, n as real, q);
    assert Scale(0.0, q) == 0.0;
  }

  lemma {:induction false} BinadeBelow(n: nat, q: int, e: int, k: int)
    requires n > 0 && n as real < Exp2(k) && Exp2(e) <= Scale(n as real, q)
    ensures e < q + k
  {
    hide Exp2, Scale;
    ScaleLess(n as real, Exp2(k), q);
    Exp2Scale(k, q);
    if e >= q + k {
      Exp2Monotone(q + k, e);
    }
  }

  lemma {:induction false} RoundEvenInteger(n: int)
    ensures RoundEven(n as real) == n
  {
  }

  /** A number with at most 53 significant bits is not changed by rounding. */
  lemma {:induction false} RoundExactBelow(n: nat, q: int)
    requires n < 0x20_0000_0000_0000 && q >= QMIN
    ensures Scale(n as real, q) >= 0.0 && (n > 0 ==> Round64(Scale(n as real, q)) == Clip(Scale(n as real, q)))
  {
    hide Exp2, Exponent, Scale, Clip, RoundEven;
    ScaleSign(n, q);
    var v := Scale(n as real, q);
    if n > 0 {
      var e := Exponent(v);
      ExponentBracket(v);
      PowerLiterals();
      BinadeBelow(n, q, e, 53);
      var q' := Quantum(v);
      assert q' <= q;
      ScaleScale(n as real, q, -q');
      var m := ScaleInteger(n, q - q');
      RoundEvenInteger(m);
      ScaleScale(n as real, q - q', q');
    }
  }

  lemma {:induction false} ClipZero()
    ensures Clip(0.0) == Finite(0.0)
  {
    hide Exp2;
  }

  /** The same with the carry to 2^53 included. */
  lemma {:induction false} RoundExact(n: nat, q: int)
    requires n <= 0x20_0000_0000_0000 && q >= QMIN
    ensures Scale(n as real, q) >= 0.0 && Round64(Scale(n as real, q)) == Clip(Scale(n as real, q))
  {
    hide Exp2, Scale, Clip, Quantum;
    if n == 0 {
      ScaleSign(0, q);
      ClipZero();
    } else if n < 0x20_0000_0000_0000 {
      RoundExactBelow(n, q);
    } else {
      ScaleNext(0x10_0000_0000_0000 as real, q);
      RoundExactBelow(0x10_0000_0000_0000, q + 1);
    }
  }

  // ------------------------------------------------- Round64 is roundTiesToEven

  /** The facts about the rounded integer m = RoundEven(v / 2^q). */
  lemma {:induction false} RoundedInteger(v: real) returns (m: nat, q: int)
    requires v > 0.0
    ensures q == Quantum(v) && q >= QMIN && m as int == RoundEven(Scale(v, -q))
    ensures m <= 0x20_0000_0000_0000
    ensures q > QMIN ==> m >= 0x10_0000_0000_0000 && Exp2(q + 52) <= v
    ensures v < Exp2(q + 53)
  {
    hide Exp2, Exponent, Scale, RoundEven;
    q := Quantum(v);
    var e, x := Exponent(v), Scale(v, -q);
    ExponentBracket(v);
    Exp2Monotone(e + 1, q + 53);
    PowerLiterals();
    ScaleLess(v, Exp2(q + 53), -q);
    Exp2Scale(q + 53, -q);
    if q > QMIN {
      ScaleLess(v, Exp2(q + 52), -q);
      ScaleLess(Exp2(q + 52), v, -q);
      Exp2Scale(q + 52, -q);
    }
    ScaleNonNegative(v, -q);
    RoundEvenBounds(x);
    m := RoundEven(x);
  }

  lemma {:induction false} ScaleNonNegative(v: real, q: int)
    requires v >= 0.0
    ensures Scale(v, q) >= 0.0
  {
    hide Exp2;
    ScaleLess(0.0, v, q);
  }

  lemma {:induction false} RoundEvenBounds(x: real)
    requires 0.0 <= x < 9007199254740992.0
    ensures 0 <= RoundEven(x) <= 0x20_0000_0000_0000
    ensures x >= 4503599627370496.0 ==> RoundEven(x) >= 0x10_0000_0000_0000
  {
  }

  /** The result of rounding, as a number of the format unless it overflows. */
  lemma {:induction false} RoundedEncodes(m: nat, q: int)
    requires m <= 0x20_0000_0000_0000 && q >= QMIN && Scale(m as real, q) < Exp2(EMAX + 1)
    requires q > QMIN ==> m >= 0x10_0000_0000_0000
    ensures Representable(Scale(m as real, q))
    ensures m % 2 == 0 ==> EvenSignificand(Scale(m as real, q))
  {
    hide Exp2, Scale;
    PowerLiterals();
    if q > EMAX - 52 {
      ScaleLess(Exp2(52), m as real, q);
      ScaleLess(m as real, Exp2(52), q);
      Exp2Scale(52, q);
      Exp2Monotone(EMAX + 1, 52 + q);
      assert false;
    }
    if m == 0x20_0000_0000_0000 {
      ScaleNext(0x10_0000_0000_0000 as real, q);
      if q == EMAX - 52 {
        ScaleLess(Exp2(53), m as real, q);
        Exp2Scale(53, q);
        assert false;
      }
      assert Encodes(0x10_0000_0000_0000, q + 1, Scale(m as real, q));
    } else {
      assert Encodes(m, q, Scale(m as real, q));
    }
  }

  /** Distances scale. */
  lemma {:induction false} DistanceScale(v: real, x: real, q: int)
    ensures Distance(v, Scale(x, q)) == Scale(Distance(Scale(v, -q), x), q)
  {
    hide Exp2, Scale;
    var z := Scale(v, -q);
    ScaleBack(v, q);
    ScaleAdds(z, x, q);
    ScaleAdds(x, z, q);
    ScaleLess(z, x, q);
  }

  /** Among the multiples of the last place the rounded one is nearest. */
  lemma {:induction false} NearestMultiple(v: real, m: int, n: int, q: int)
    requires m == RoundEven(Scale(v, -q))
    ensures Distance(v, Scale(m as real, q)) <= Distance(v, Scale(n as real, q))
    ensures n != m && Distance(v, Scale(m as real, q)) == Distance(v, Scale(n as real, q)) ==> m % 2 == 0
  {
    hide Exp2, Scale;
    var x := Scale(v, -q);
    RoundEvenIs(x);
    NearestInteger(x, m, n);
    hide RoundEven;
    var a, b := Distance(x, m as real), Distance(x, n as real);
    DistanceScale(v, m as real, q);
    DistanceScale(v, n as real, q);
    ScaleLess(a, b, q);
  }

  lemma {:induction false} NearestInteger(x: real, m: int, n: int)
    requires IsRoundEven(x, m)
    ensures Distance(x, m as real) <= Distance(x, n as real)
    ensures n != m && Distance(x, m as real) == Distance(x, n as real) ==> m % 2 == 0
  {
  }

  /** A number of the format with a finer last place lies below the binade of v. */
  lemma {:induction false} FinerIsSmaller(v: real, m: nat, q: int, n: nat, p: int, y: real)
    requires Exp2(q + 52) <= v && m == RoundEven(Scale(v, -q)) && Encodes(n, p, y) && p < q
    ensures Distance(v, Scale(m as real, q)) < Distance(v, y)
  {
    hide Exp2, Scale, RoundEven;
    PowerLiterals();
    ScaleLess(n as real, Exp2(53), p);
    Exp2Scale(53, p);
    Exp2Monotone(p + 53, q + 52);
    Exp2Scale(52, q);
    NearestMultiple(v, m, 0x10_0000_0000_0000, q);
  }

  /** Round64 selects the nearest number of the format, ties to even, whenever the result is
      finite. */
  lemma {:induction false} Round64IsNearestEven(v: real)
    requires v >= 0.0 && Round64(v).Finite?
    ensures NearestEven(v, Round64(v).mag)
  {
    hide Exp2, Scale, RoundEven, Quantum, Representable, EvenSignificand, Distance;
    if v == 0.0 {
      ZeroIsRepresentable();
      forall y ensures Distance(0.0, 0.0) <= Distance(0.0, y) {
        DistanceToZero(y);
      }
    } else {
      var m, q := RoundedInteger(v);
      var r := Scale(m as real, q);
      ClipFinite(r);
      RoundedEncodes(m, q);
      forall y | Representable(y)
        ensures Distance(v, r) <= Distance(v, y)
        ensures y != r && Distance(v, r) == Distance(v, y) ==> EvenSignificand(r)
      {
        NearestAmong(v, m, q, y);
      }
    }
  }

  lemma {:induction false} ClipFinite(x: real)
    requires Clip(x).Finite?
    ensures x < Exp2(EMAX + 1) && Clip(x).mag == x
  {
    hide Exp2;
  }

  lemma {:induction false} DistanceToZero(y: real)
    ensures Distance(0.0, 0.0) <= Distance(0.0, y)
    ensures Distance(0.0, 0.0) == Distance(0.0, y) ==> y == 0.0
  {
  }

  lemma {:induction false} ZeroIsRepresentable()
    ensures Representable(0.0) && EvenSignificand(0.0)
  {
    hide Exp2, Scale;
    ScaleSign(0, QMIN);
    assert Encodes(0, QMIN, 0.0);
  }

  lemma {:induction false} NearestAmong(v: real, m: nat, q: int, y: real)
    requires v > 0.0 && q == Quantum(v) && m as int == RoundEven(Scale(v, -q)) && Representable(y)
    requires m <= 0x20_0000_0000_0000 && Scale(m as real, q) < Exp2(EMAX + 1)
    requires q > QMIN ==> m >= 0x10_0000_0000_0000 && Exp2(q + 52) <= v
    ensures var r := Scale(m as real, q);
            && Distance(v, r) <= Distance(v, y)
            && (y != r && Distance(v, r) == Distance(v, y) ==> EvenSignificand(r))
  {
    hide Exp2, Scale, RoundEven, EvenSignificand, Distance;
    var n: nat, p: int :| Encodes(n, p, y);
    if p >= q {
      ScaleScale(n as real, p - q, q);
      var k := ScaleInteger(n, p - q);
      NearestMultiple(v, m, k, q);
      RoundedEncodes(m, q);
    } else {
      FinerIsSmaller(v, m, q, n, p, y);
    }
  }

  /** Overflow starts half a last place above the largest finite number. */
  lemma {:induction false} OverflowThreshold(v: real)
    requires v >= 0.0
    ensures Round64(v).Infinite? <==> v >= Exp2(EMAX + 1) - Exp2(EMAX - 53)
  {
    hide Exp2, Scale, RoundEven, Quantum;
    Exp2Monotone(EMAX - 53, EMAX + 1);
    if v > 0.0 {
      var m, q := RoundedInteger(v);
      OverflowOfRounded(v, m, q);
    }
  }

  lemma {:induction false} OverflowOfRounded(v: real, m: nat, q: int)
    requires v > 0.0 && q >= QMIN && m as int == RoundEven(Scale(v, -q)) && m <= 0x20_0000_0000_0000
    requires q > QMIN ==> m >= 0x10_0000_0000_0000 && Exp2(q + 52) <= v
    requires v < Exp2(q + 53)
    ensures Scale(m as real, q) >= Exp2(EMAX + 1) <==> v >= Exp2(EMAX + 1) - Exp2(EMAX - 53)
  {
    hide Exp2, Scale, RoundEven;
    PowerLiterals();
    if q > EMAX - 52 {
      Exp2Monotone(EMAX + 1, q + 52);
      ScaleLess(m as real, Exp2(52), q);
      Exp2Scale(52, q);
    } else if q < EMAX - 52 {
      Exp2Monotone(q + 53, EMAX);
      Exp2Next(EMAX);
      Exp2Monotone(EMAX - 53, EMAX);
      ScaleLess(Exp2(53), m as real, q);
      Exp2Scale(53, q);
    } else {
      var x := Scale(v, -q);
      var t := 9007199254740991.5;
      ScaleLess(v, Scale(t, q), -q);
      ScaleBack(t, q);
      ThresholdInteger(x, m);
      ScaleLess(m as real, Exp2(53), q);
      Exp2Scale(53, q);
      ScaleHalf(q);
    }
  }

  lemma {:induction false} ThresholdInteger(x: real, m: int)
    requires m == RoundEven(x) && m <= 0x20_0000_0000_0000
    ensures m == 0x20_0000_0000_0000 <==> x >= 9007199254740991.5
  {
  }

  lemma {:induction false} ScaleHalf(q: int)
    ensures Scale(9007199254740991.5, q) == Exp2(q + 53) - Exp2(q - 1)
  {
    hide Exp2, Scale;
    PowerLiterals();
    ScaleAdds(9007199254740992.0, 0.5, q);
    Exp2Scale(53, q);
    ScaleNext(0.5, q - 1);
    Exp2IsScale(q - 1);
  }
}
