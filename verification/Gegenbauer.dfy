/** Derivatives of the Chebyshev polynomials, and the sums of Chebyshev polynomials of the second
    kind in which Luke's recurrences have few terms. */
module Gegenbauer {
  import opened Reals
  import opened Chebyshev

  /** The second kind, 0 for a negative index. */
  function U(n: int, x: real): real {
    if n < 0 then 0.0 else if n == 0 then 1.0 else 2.0 * Mul(x, U(n - 1, x)) - U(n - 2, x)
  }

  /** (n+1) U_n + (n-1) U_(n-2) + ... */
  function V(n: int, x: real): real {
    if n < 0 then 0.0 else Mul((n + 1) as real, U(n, x)) + V(n - 2, x)
  }

  function Y(n: int, x: real): real {
    V(n, x) + V(n - 1, x)
  }

  /** The sum of (2i+3) Y_i for i <= n. */
  function H(n: int, x: real): real {
    if n < 0 then 0.0 else Mul((2 * n + 3) as real, Y(n, x)) + H(n - 1, x)
  }

  // ------------------------------------------------- derivatives

  /** T_n'(x), by differentiating the recurrence. */
  function DT(n: nat, x: real): real {
    if n == 0 then 0.0 else if n == 1 then 1.0
    else 2.0 * T(n - 1, x) + 2.0 * Mul(x, DT(n - 1, x)) - DT(n - 2, x)
  }

  /** T_n''(x) */
  function DDT(n: nat, x: real): real {
    if n <= 1 then 0.0 else 4.0 * DT(n - 1, x) + 2.0 * Mul(x, DDT(n - 1, x)) - DDT(n - 2, x)
  }

  /** T_n'''(x) */
  function DDDT(n: nat, x: real): real {
    if n <= 1 then 0.0 else 6.0 * DDT(n - 1, x) + 2.0 * Mul(x, DDDT(n - 1, x)) - DDDT(n - 2, x)
  }

  /** The polynomial remainder of order four in the expansion of T_n at x. */
  function Remainder(n: nat, x: real, h: real): real {
    if n <= 1 then 0.0
    else 2.0 * Mul(x + h, Remainder(n - 1, x, h)) + DDDT(n - 1, x) / 3.0 - Remainder(n - 2, x, h)
  }

  /** t + h d + h^2/2 e + h^3/6 g + h^4 r */
  function Expanded(h: real, t: real, d: real, e: real, g: real, r: real): real {
    t + Mul(h, d) + Mul(h * h, e / 2.0) + Mul(h * h * h, g / 6.0) + Mul(h * h * h * h, r)
  }

  /** DT, DDT and DDDT are the derivatives: T_n(x+h) = T_n + h T_n' + h^2/2 T_n'' + h^3/6 T_n''' + h^4 R. */
  lemma {:induction false} Taylor(n: nat, x: real, h: real)
    ensures T(n, x + h) == Expanded(h, T(n, x), DT(n, x), DDT(n, x), DDDT(n, x), Remainder(n, x, h))
  {
    hide Expanded, Mul;
    if n <= 1 {
      TaylorBase(n, x, h);
    } else {
      Taylor(n - 1, x, h);
      Taylor(n - 2, x, h);
      hide *;
      DerivativesNext(n, x, h);
      TaylorStep(x, h, T(n - 1, x), DT(n - 1, x), DDT(n - 1, x), DDDT(n - 1, x), Remainder(n - 1, x, h),
                 T(n - 2, x), DT(n - 2, x), DDT(n - 2, x), DDDT(n - 2, x), Remainder(n - 2, x, h));
    }
  }

  lemma {:induction false} TaylorBase(n: nat, x: real, h: real)
    requires n <= 1
    ensures T(n, x + h) == Expanded(h, T(n, x), DT(n, x), DDT(n, x), DDDT(n, x), Remainder(n, x, h))
  {
  }

  lemma {:induction false} DerivativesNext(n: nat, x: real, h: real)
    requires n >= 2
    ensures T(n, x) == 2.0 * Mul(x, T(n - 1, x)) - T(n - 2, x)
    ensures T(n, x + h) == 2.0 * Mul(x + h, T(n - 1, x + h)) - T(n - 2, x + h)
    ensures DT(n, x) == 2.0 * T(n - 1, x) + 2.0 * Mul(x, DT(n - 1, x)) - DT(n - 2, x)
    ensures DDT(n, x) == 4.0 * DT(n - 1, x) + 2.0 * Mul(x, DDT(n - 1, x)) - DDT(n - 2, x)
    ensures DDDT(n, x) == 6.0 * DDT(n - 1, x) + 2.0 * Mul(x, DDDT(n - 1, x)) - DDDT(n - 2, x)
    ensures Remainder(n, x, h) == 2.0 * Mul(x + h, Remainder(n - 1, x, h)) + DDDT(n - 1, x) / 3.0 - Remainder(n - 2, x, h)
  {
  }

  /** The recurrence on the expansions. */
  lemma {:induction false} TaylorStep(x: real, h: real, t: real, d: real, e: real, g: real, r: real,
                                      t2: real, d2: real, e2: real, g2: real, r2: real)
    ensures 2.0 * Mul(x + h, Expanded(h, t, d, e, g, r)) - Expanded(h, t2, d2, e2, g2, r2)
            == Expanded(h, 2.0 * Mul(x, t) - t2, 2.0 * t + 2.0 * Mul(x, d) - d2, 4.0 * d + 2.0 * Mul(x, e) - e2,
                        6.0 * e + 2.0 * Mul(x, g) - g2, 2.0 * Mul(x + h, r) + g / 3.0 - r2)
  {
    TaylorProduct(x, h, t, d, e, g, r, Expanded(h, t, d, e, g, r));
    hide Mul;
    TaylorCombine(h, h * h, h * h * h, h * h * h * h, d2, e2, g2, r2, 2.0 * t + 2.0 * Mul(x, d),
                  4.0 * d + 2.0 * Mul(x, e), 6.0 * e + 2.0 * Mul(x, g), 2.0 * Mul(x + h, r) + g / 3.0);
  }

  /** 2(x+h) times an expansion, by powers of h. */
  lemma {:induction false} TaylorProduct(x: real, h: real, t: real, d: real, e: real, g: real, r: real, s: real)
    requires s == t + Mul(h, d) + Mul(h * h, e / 2.0) + Mul(h * h * h, g / 6.0) + Mul(h * h * h * h, r)
    ensures 2.0 * Mul(x + h, s)
            == 2.0 * Mul(x, t) + Mul(h, 2.0 * t + 2.0 * Mul(x, d)) + Mul(h * h, (4.0 * d + 2.0 * Mul(x, e)) / 2.0)
               + Mul(h * h * h, (6.0 * e + 2.0 * Mul(x, g)) / 6.0) + Mul(h * h * h * h, 2.0 * Mul(x + h, r) + g / 3.0)
  {
    var h2, h3, h4 := h * h, h * h * h, h * h * h * h;
    assert h * h2 == h3 && h * h3 == h4;
    ShiftPower(x, h, 1.0, h, t);
    ShiftPower(x, h, h, h2, d);
    ShiftPower(x, h, h2, h3, e / 2.0);
    ShiftPower(x, h, h3, h4, g / 6.0);
    hide Mul;
    MulOne(t);
    MulOne(Mul(x, t));
    TaylorSum(x, h, h2, h3, h4, t, d, e, g, r, s);
  }

  lemma {:induction false} ShiftPower(x: real, h: real, p: real, q: real, v: real)
    requires q == h * p
    ensures Mul(x + h, Mul(p, v)) == Mul(p, Mul(x, v)) + Mul(q, v)
  {
    assert (x + h) * (p * v) == p * (x * v) + (h * p) * v;
  }

  lemma {:induction false} TaylorSum(x: real, h: real, h2: real, h3: real, h4: real, t: real, d: real, e: real, g: real, r: real, s: real)
    requires s == t + Mul(h, d) + Mul(h2, e / 2.0) + Mul(h3, g / 6.0) + Mul(h4, r)
    requires Mul(x + h, t) == Mul(x, t) + Mul(h, t)
    requires Mul(x + h, Mul(h, d)) == Mul(h, Mul(x, d)) + Mul(h2, d)
    requires Mul(x + h, Mul(h2, e / 2.0)) == Mul(h2, Mul(x, e / 2.0)) + Mul(h3, e / 2.0)
    requires Mul(x + h, Mul(h3, g / 6.0)) == Mul(h3, Mul(x, g / 6.0)) + Mul(h4, g / 6.0)
    ensures 2.0 * Mul(x + h, s)
            == 2.0 * Mul(x, t) + Mul(h, 2.0 * t + 2.0 * Mul(x, d)) + Mul(h2, (4.0 * d + 2.0 * Mul(x, e)) / 2.0)
               + Mul(h3, (6.0 * e + 2.0 * Mul(x, g)) / 6.0) + Mul(h4, 2.0 * Mul(x + h, r) + g / 3.0)
  {
    hide Mul;
    FiveTerms(x + h, t, Mul(h, d), Mul(h2, e / 2.0), Mul(h3, g / 6.0), Mul(h4, r));
    MulSwap(x + h, h4, r);
    TwiceInside(h, t, Mul(x, d));
    HalfInside(x, h2, d, e);
    SixthInside(x, h3, e, g);
    ThirdInside(h4, Mul(x + h, r), g);
  }

  lemma {:induction false} FiveTerms(y: real, a: real, b: real, c: real, d: real, e: real)
    ensures Mul(y, a + b + c + d + e) == Mul(y, a) + Mul(y, b) + Mul(y, c) + Mul(y, d) + Mul(y, e)
  {
  }

  lemma {:induction false} TwiceInside(h: real, t: real, u: real)
    ensures Mul(h, 2.0 * t + 2.0 * u) == 2.0 * Mul(h, t) + 2.0 * Mul(h, u)
  {
  }

  lemma {:induction false} HalfInside(x: real, h2: real, d: real, e: real)
    ensures Mul(h2, (4.0 * d + 2.0 * Mul(x, e)) / 2.0) == 2.0 * Mul(h2, d) + 2.0 * Mul(h2, Mul(x, e / 2.0))
  {
    assert x * (e / 2.0) == (x * e) / 2.0;
  }

  lemma {:induction false} SixthInside(x: real, h3: real, e: real, g: real)
    ensures Mul(h3, (6.0 * e + 2.0 * Mul(x, g)) / 6.0) == 2.0 * Mul(h3, e / 2.0) + 2.0 * Mul(h3, Mul(x, g / 6.0))
  {
    assert x * (g / 6.0) == (x * g) / 6.0;
  }

  lemma {:induction false} ThirdInside(h4: real, u: real, g: real)
    ensures Mul(h4, 2.0 * u + g / 3.0) == 2.0 * Mul(h4, u) + 2.0 * Mul(h4, g / 6.0)
  {
  }

  lemma {:induction false} TaylorCombine(h: real, h2: real, h3: real, h4: real, d: real, e: real, g: real, r: real,
                                         d1: real, e1: real, g1: real, r1: real)
    ensures Mul(h, d1 - d) == Mul(h, d1) - Mul(h, d)
    ensures Mul(h2, (e1 - e) / 2.0) == Mul(h2, e1 / 2.0) - Mul(h2, e / 2.0)
    ensures Mul(h3, (g1 - g) / 6.0) == Mul(h3, g1 / 6.0) - Mul(h3, g / 6.0)
    ensures Mul(h4, r1 - r) == Mul(h4, r1) - Mul(h4, r)
  {
  }

  // ------------------------------------------------- basic relations

  lemma {:induction false} UNext(n: int, x: real)
    requires n >= 0
    ensures U(n + 1, x) + U(n - 1, x) == 2.0 * Mul(x, U(n, x))
  {
  }

  /** 2 T_n = U_n - U_(n-2) */
  lemma {:induction false} FirstBySecond(n: nat, x: real)
    requires n >= 1
    ensures 2.0 * T(n, x) == U(n, x) - U(n - 2, x)
  {
    hide Mul;
    if n == 1 {
      UBase(x);
    } else if n == 2 {
      UBase(x);
      FirstBySecond(1, x);
      Halve(x, T(1, x), U(1, x));
      UNext(1, x);
      MulOne(x);
      MulCommutes(x, 1.0);
    } else {
      FirstBySecond(n - 1, x);
      FirstBySecond(n - 2, x);
      UNext(n - 1, x);
      UNext(n - 3, x);
      HalveDifference(x, T(n - 1, x), U(n - 1, x), U(n - 3, x));
    }
  }

  lemma {:induction false} UBase(x: real)
    ensures U(-2, x) == U(-1, x) == 0.0 && U(0, x) == 1.0 && U(1, x) == 2.0 * x
  {
  }

  lemma {:induction false} Halve(x: real, t: real, u: real)
    requires 2.0 * t == u
    ensures 2.0 * Mul(x, t) == Mul(x, u)
  {
  }

  lemma {:induction false} HalveDifference(x: real, t: real, u: real, v: real)
    requires 2.0 * t == u - v
    ensures 2.0 * Mul(x, t) == Mul(x, u) - Mul(x, v)
  {
  }

  /** V_n - V_(n-2) = (n+1) U_n */
  lemma {:induction false} VStep(n: int, x: real)
    requires n >= -1
    ensures V(n, x) - V(n - 2, x) == Mul((n + 1) as real, U(n, x))
    ensures Y(n, x) - Y(n - 1, x) == Mul((n + 1) as real, U(n, x))
  {
  }

  lemma {:induction false} VNegative(n: int, x: real)
    requires n < 0
    ensures V(n, x) == 0.0 && Y(n, x) == 0.0 && H(n, x) == 0.0 && U(n, x) == 0.0
  {
  }

  /** 2x V_n = V_(n+1) + V_(n-1) - U_(n+1) */
  lemma {:induction false} VTimesX(n: int, x: real)
    requires n >= -2
    ensures 2.0 * Mul(x, V(n, x)) == V(n + 1, x) + V(n - 1, x) - U(n + 1, x)
  {
    hide Mul, U, V;
    if n < 0 {
      VTimesXBase(n, x);
    } else {
      VTimesX(n - 2, x);
      VStep(n, x);
      VStep(n + 1, x);
      VStep(n - 1, x);
      UNext(n, x);
      VCore(x, (n + 1) as real, U(n, x), U(n + 1, x), U(n - 1, x), V(n, x), V(n - 2, x));
    }
  }

  lemma {:induction false} VTimesXBase(n: int, x: real)
    requires n == -1 || n == -2
    ensures 2.0 * Mul(x, V(n, x)) == V(n + 1, x) + V(n - 1, x) - U(n + 1, x)
  {
  }

  lemma {:induction false} VCore(x: real, m: real, u: real, up: real, down: real, v: real, v2: real)
    requires v - v2 == Mul(m, u) && up + down == 2.0 * Mul(x, u)
    ensures 2.0 * Mul(x, v) == 2.0 * Mul(x, v2) + Mul(m, up) + Mul(m, down)
    ensures Mul(m + 1.0, up) == Mul(m, up) + up
    ensures Mul(m - 1.0, down) == Mul(m, down) - down
  {
    assert x * v == x * v2 + x * (m * u);
    assert x * (m * u) == m * (x * u);
    assert m * (up + down) == m * up + m * down;
  }

  lemma {:induction false} YTimesX(n: int, x: real)
    requires n >= -1
    ensures 2.0 * Mul(x, Y(n, x)) == Y(n + 1, x) + Y(n - 1, x) - U(n + 1, x) - U(n, x)
  {
    hide Mul, U, V;
    VTimesX(n, x);
    VTimesX(n - 1, x);
    MulDistributes(x, V(n, x), V(n - 1, x));
  }

  lemma {:induction false} HStep(n: int, x: real)
    requires n >= -1
    ensures H(n, x) - H(n - 1, x) == Mul((2 * n + 3) as real, Y(n, x))
  {
    VNegative(-1, x);
  }

  /** 2x H_n = H_(n+1) + H_(n-1) - 4 Y_(n+1) - 4 Y_n + U_(n+1) */
  lemma {:induction false} HTimesX(n: int, x: real)
    requires n >= -1
    ensures 2.0 * Mul(x, H(n, x)) == H(n + 1, x) + H(n - 1, x) - 4.0 * Y(n + 1, x) - 4.0 * Y(n, x) + U(n + 1, x)
  {
    hide Mul, U, V, H, Y;
    if n < 0 {
      HTimesXBase(x);
    } else {
      HTimesX(n - 1, x);
      HStep(n + 1, x);
      HStep(n, x);
      HStep(n - 1, x);
      YTimesX(n, x);
      VStep(n + 1, x);
      VStep(n, x);
      HCore(x, n as real, H(n, x), H(n - 1, x), Y(n, x), Y(n + 1, x), Y(n - 1, x), U(n + 1, x), U(n, x));
    }
  }

  lemma {:induction false} HTimesXBase(x: real)
    ensures 2.0 * Mul(x, H(-1, x)) == H(0, x) + H(-2, x) - 4.0 * Y(0, x) - 4.0 * Y(-1, x) + U(0, x)
  {
    assert U(0, x) == 1.0;
    assert V(0, x) == 1.0;
    assert H(-1, x) == 0.0;
    assert H(0, x) == 3.0;
  }

  lemma {:induction false} HCore(x: real, n: real, h: real, h1: real, y: real, up: real, down: real, u1: real, u: real)
    requires h - h1 == Mul(2.0 * n + 3.0, y)
    requires 2.0 * Mul(x, y) == up + down - u1 - u
    requires up - y == Mul(n + 2.0, u1) && y - down == Mul(n + 1.0, u)
    ensures 2.0 * Mul(x, h) - 2.0 * Mul(x, h1)
            == Mul(2.0 * n + 5.0, up) + Mul(2.0 * n + 1.0, down) - 4.0 * up + 4.0 * down + u1 - u
  {
    hide Mul;
    HDifference(x, 2.0 * n + 3.0, h, h1, y, up + down - u1 - u);
    FourTerms(2.0 * n + 3.0, up, down, u1, u);
    HFactors(n, up, down, u1, u);
  }

  lemma {:induction false} HDifference(x: real, m: real, h: real, h1: real, y: real, v: real)
    requires h - h1 == Mul(m, y) && 2.0 * Mul(x, y) == v
    ensures 2.0 * Mul(x, h) - 2.0 * Mul(x, h1) == Mul(m, v)
  {
    hide Mul;
    MulDistributes(x, h, h1);
    MulSwap(x, m, y);
    Multiples(m, Mul(x, y));
  }

  /** The factors of the four sums, around 2n + 3. */
  lemma {:induction false} HFactors(n: real, up: real, down: real, u1: real, u: real)
    ensures Mul(2.0 * n + 5.0, up) == Mul(2.0 * n + 3.0, up) + 2.0 * up
    ensures Mul(2.0 * n + 1.0, down) == Mul(2.0 * n + 3.0, down) - 2.0 * down
    ensures 2.0 * Mul(n + 2.0, u1) == Mul(2.0 * n + 3.0, u1) + u1
    ensures 2.0 * Mul(n + 1.0, u) == Mul(2.0 * n + 3.0, u) - u
  {
  }

  // ------------------------------------------------- the derivatives in this basis

  /** T_n' = n U_(n-1) */
  lemma {:induction false} FirstDerivative(n: nat, x: real)
    ensures DT(n, x) == Mul(n as real, U(n - 1, x)) == Y(n - 1, x) - Y(n - 2, x)
  {
    hide Mul, U, T, Y;
    VStep(n - 1, x);
    if n <= 1 {
      FirstDerivativeBase(n, x);
    } else {
      FirstDerivative(n - 1, x);
      FirstDerivative(n - 2, x);
      FirstBySecond(n - 1, x);
      UNext(n - 2, x);
      DerivativeCore(x, n as real, DT(n - 1, x), DT(n - 2, x), U(n - 1, x), U(n - 2, x), U(n - 3, x));
    }
  }

  lemma {:induction false} FirstDerivativeBase(n: nat, x: real)
    requires n <= 1
    ensures DT(n, x) == Mul(n as real, U(n - 1, x))
  {
  }

  lemma {:induction false} DerivativeCore(x: real, n: real, d1: real, d2: real, u1: real, u2: real, u3: real)
    requires d1 == Mul(n - 1.0, u2) && d2 == Mul(n - 2.0, u3) && u1 + u3 == 2.0 * Mul(x, u2)
    ensures (u1 - u3) + 2.0 * Mul(x, d1) - d2 == Mul(n, u1)
  {
    assert x * ((n - 1.0) * u2) == (n - 1.0) * (x * u2);
    assert (n - 1.0) * (u1 + u3) == (n - 1.0) * u1 + (n - 1.0) * u3;
  }

  /** T_n'' = 2n V_(n-2) */
  lemma {:induction false} SecondDerivative(n: nat, x: real)
    ensures DDT(n, x) == Mul(2.0 * n as real, V(n - 2, x))
  {
    hide Mul, U, V, T, DT;
    if n <= 1 {
      SecondDerivativeBase(n, x);
    } else {
      SecondDerivative(n - 1, x);
      SecondDerivative(n - 2, x);
      FirstDerivative(n - 1, x);
      VTimesX(n - 3, x);
      VStep(n - 2, x);
      SecondCore(x, n as real, DT(n - 1, x), DDT(n - 1, x), DDT(n - 2, x), U(n - 2, x), V(n - 2, x), V(n - 3, x), V(n - 4, x));
    }
  }

  lemma {:induction false} SecondDerivativeBase(n: nat, x: real)
    requires n <= 1
    ensures DDT(n, x) == Mul(2.0 * n as real, V(n - 2, x))
  {
  }

  lemma {:induction false} SecondCore(x: real, n: real, d: real, e1: real, e2: real, u: real, v2: real, v3: real, v4: real)
    requires d == Mul(n - 1.0, u) && e1 == Mul(2.0 * (n - 1.0), v3) && e2 == Mul(2.0 * (n - 2.0), v4)
    requires 2.0 * Mul(x, v3) == v2 + v4 - u && v2 - v4 == Mul(n - 1.0, u)
    ensures 4.0 * d + 2.0 * Mul(x, e1) - e2 == Mul(2.0 * n, v2)
  {
    assert x * ((2.0 * (n - 1.0)) * v3) == (2.0 * (n - 1.0)) * (x * v3);
    assert (n - 1.0) * (v2 + v4 - u) == (n - 1.0) * v2 + (n - 1.0) * v4 - (n - 1.0) * u;
  }

  /** (1+x) T_n'' */
  function A(n: nat, x: real): real {
    Mul(1.0 + x, DDT(n, x))
  }

  /** (1+x) T_n'' = (n-1) Y_(n-1) + (n+1) Y_(n-2) */
  lemma {:induction false} AInBasis(n: nat, x: real)
    ensures A(n, x) == Mul((n - 1) as real, Y(n - 1, x)) + Mul((n + 1) as real, Y(n - 2, x))
  {
    hide Mul, U, V, DDT;
    SecondDerivative(n, x);
    if n == 0 {
      VNegative(-1, x);
      VNegative(-2, x);
      VNegative(-3, x);
      AZero(x, V(-2, x));
    } else {
      VTimesX(n - 2, x);
      VStep(n - 1, x);
      ACore(x, n as real, V(n - 1, x), V(n - 2, x), V(n - 3, x), U(n - 1, x));
    }
  }

  lemma {:induction false} AZero(x: real, v: real)
    ensures Mul(1.0 + x, Mul(0.0, v)) == 0.0 && Mul(-1.0, 0.0 + 0.0) == 0.0 && Mul(1.0, 0.0 + 0.0) == 0.0
  {
  }

  lemma {:induction false} ACore(x: real, n: real, v1: real, v2: real, v3: real, u: real)
    requires 2.0 * Mul(x, v2) == v1 + v3 - u && v1 - v3 == Mul(n, u)
    ensures Mul(1.0 + x, Mul(2.0 * n, v2)) == Mul(n - 1.0, v1 + v2) + Mul(n + 1.0, v2 + v3)
  {
    assert (1.0 + x) * ((2.0 * n) * v2) == n * (2.0 * v2 + 2.0 * (x * v2));
    assert n * (2.0 * v2 + (v1 + v3 - u)) == (n - 1.0) * (v1 + v2) + (n + 1.0) * (v2 + v3) + (v1 - v3) - n * u;
  }

  function Falling(n: real): real {
    n * (n - 1.0)
  }

  function Rising(n: real): real {
    n * (n + 1.0)
  }

  function Square(n: real): real {
    n * n
  }

  /** 2(1+x) A_n = 4 A_n + n(n-1) U_n - n(n+1) U_(n-2) */
  lemma {:induction false} ATimesX(n: nat, x: real)
    ensures 2.0 * Mul(1.0 + x, A(n, x))
            == 4.0 * A(n, x) + Mul(Falling(n as real), U(n, x)) - Mul(Rising(n as real), U(n - 2, x))
  {
    hide Mul, U, V, Y, A, Falling, Rising;
    if n == 0 {
      ATimesXBase(x);
    } else {
      AInBasis(n, x);
      YTimesX(n - 1, x);
      YTimesX(n - 2, x);
      VStep(n, x);
      VStep(n - 1, x);
      VStep(n - 2, x);
      AXCore(x, n as real, A(n, x), Y(n, x), Y(n - 1, x), Y(n - 2, x), Y(n - 3, x), U(n, x), U(n - 1, x), U(n - 2, x));
    }
  }

  lemma {:induction false} ATimesXBase(x: real)
    ensures 2.0 * Mul(1.0 + x, A(0, x)) == 4.0 * A(0, x) + Mul(Falling(0.0), U(0, x)) - Mul(Rising(0.0), U(-2, x))
  {
    assert DDT(0, x) == 0.0;
  }

  lemma {:induction false} AXCore(x: real, n: real, a: real, y0: real, y1: real, y2: real, y3: real, u0: real, u1: real, u2: real)
    requires a == Mul(n - 1.0, y1) + Mul(n + 1.0, y2)
    requires 2.0 * Mul(x, y1) == y0 + y2 - u0 - u1 && 2.0 * Mul(x, y2) == y1 + y3 - u1 - u2
    requires y0 - y1 == Mul(n + 1.0, u0) && y1 - y2 == Mul(n, u1) && y2 - y3 == Mul(n - 1.0, u2)
    ensures 2.0 * Mul(1.0 + x, a) == 4.0 * a + Mul(Falling(n), u0) - Mul(Rising(n), u2)
  {
    hide Mul, Square, Falling, Rising;
    OnePlus(x, a);
    MulDistributes(x, Mul(n - 1.0, y1), Mul(n + 1.0, y2));
    MulSwap(x, n - 1.0, y1);
    MulSwap(x, n + 1.0, y2);
    ExpandSquares(n, Mul(x, y1));
    ExpandSquares(n, Mul(x, y2));
    ExpandSquares(n, y1);
    ExpandSquares(n, y2);
    ExpandSquares(n, u0);
    ExpandSquares(n, u2);
    Multiples(n, Mul(x, y1));
    Multiples(n, Mul(x, y2));
    FourTerms(n, y0, y2, u0, u1);
    FourTerms(n, y1, y3, u1, u2);
    BHalf1(n, y0, y1, u0);
    BHalf2(n, y2, y3, u2);
  }

  lemma {:induction false} OnePlus(x: real, a: real)
    ensures Mul(1.0 + x, a) == a + Mul(x, a)
  {
  }

  lemma {:induction false} MulSwap(x: real, n: real, y: real)
    ensures Mul(x, Mul(n, y)) == Mul(n, Mul(x, y))
  {
    assert x * (n * y) == n * (x * y);
  }

  /** 2(1+x) T_n' = n (U_n + 2 U_(n-1) + U_(n-2)) */
  lemma {:induction false} DTTimesX(n: nat, x: real)
    ensures 2.0 * Mul(1.0 + x, DT(n, x)) == Mul(n as real, U(n, x) + 2.0 * U(n - 1, x) + U(n - 2, x))
  {
    hide Mul, U, DT, Y;
    FirstDerivative(n, x);
    if n == 0 {
      DTXBase(x, U(-1, x), U(0, x) + 2.0 * U(-1, x) + U(-2, x));
    } else {
      UNext(n - 1, x);
      DTXCore(x, n as real, U(n, x), U(n - 1, x), U(n - 2, x));
    }
  }

  lemma {:induction false} DTXBase(x: real, u: real, s: real)
    ensures 2.0 * Mul(1.0 + x, Mul(0.0, u)) == Mul(0.0, s)
  {
  }

  lemma {:induction false} DTXCore(x: real, n: real, u0: real, u1: real, u2: real)
    requires u0 + u2 == 2.0 * Mul(x, u1)
    ensures 2.0 * Mul(1.0 + x, Mul(n, u1)) == Mul(n, u0 + 2.0 * u1 + u2)
  {
    assert 2.0 * ((1.0 + x) * (n * u1)) == n * (2.0 * u1 + 2.0 * (x * u1));
  }

  // ------------------------------------------------- the third derivative

  /** (1+x) A_n' = (1+x) T_n'' + (1+x)^2 T_n''' */
  function B(n: nat, x: real): real {
    A(n, x) + Mul(1.0 + x, Mul(1.0 + x, DDDT(n, x)))
  }

  function BBasis(n: nat, x: real): real {
    Mul(Square(n as real - 1.0), Y(n - 1, x)) - Mul(Square(n as real + 1.0), Y(n - 2, x)) + Mul(2.0 * n as real, H(n - 2, x))
  }

  lemma {:induction false} BNext(n: nat, x: real)
    requires n >= 1
    ensures B(n + 1, x) - 2.0 * Mul(x, B(n, x)) + B(n - 1, x)
            == 4.0 * Mul(1.0 + x, DT(n, x)) + 6.0 * Mul(1.0 + x, A(n, x))
  {
    hide Mul, DT;
    ANextCore(x, DT(n, x), DDT(n + 1, x), DDT(n, x), DDT(n - 1, x));
    BNextCore(x, DDT(n, x), DDDT(n + 1, x), DDDT(n, x), DDDT(n - 1, x));
    MulDistributes(x, A(n, x), Mul(1.0 + x, Mul(1.0 + x, DDDT(n, x))));
  }

  lemma {:induction false} ANextCore(x: real, d: real, e2: real, e1: real, e0: real)
    requires e2 == 4.0 * d + 2.0 * Mul(x, e1) - e0
    ensures Mul(1.0 + x, e2) - 2.0 * Mul(x, Mul(1.0 + x, e1)) + Mul(1.0 + x, e0) == 4.0 * Mul(1.0 + x, d)
  {
    assert x * ((1.0 + x) * e1) == (1.0 + x) * (x * e1);
  }

  lemma {:induction false} BNextCore(x: real, e: real, t2: real, t1: real, t0: real)
    requires t2 == 6.0 * e + 2.0 * Mul(x, t1) - t0
    ensures Mul(1.0 + x, Mul(1.0 + x, t2)) - 2.0 * Mul(x, Mul(1.0 + x, Mul(1.0 + x, t1))) + Mul(1.0 + x, Mul(1.0 + x, t0))
            == 6.0 * Mul(1.0 + x, Mul(1.0 + x, e))
  {
    var y := 1.0 + x;
    assert y * (y * t2) == 6.0 * (y * (y * e)) + 2.0 * (y * (y * (x * t1))) - y * (y * t0);
    assert x * (y * (y * t1)) == y * (y * (x * t1));
  }

  /** (1+x) A_n' in terms of Y and H. */
  lemma {:induction false} BInBasis(n: nat, x: real)
    ensures B(n, x) == BBasis(n, x)
  {
    hide Mul, B, BBasis, A;
    if n <= 1 {
      BBase(n, x);
    } else {
      BInBasis(n - 1, x);
      BInBasis(n - 2, x);
      BNext(n - 1, x);
      BBasisNext(n - 1, x);
    }
  }

  lemma {:induction false} BBase(n: nat, x: real)
    requires n <= 1
    ensures B(n, x) == BBasis(n, x)
  {
    VNegative(-1, x);
    VNegative(-2, x);
    assert DDT(n, x) == 0.0 && DDDT(n, x) == 0.0;
  }

  lemma {:induction false} BBasisNext(n: nat, x: real)
    requires n >= 1
    ensures BBasis(n + 1, x) - 2.0 * Mul(x, BBasis(n, x)) + BBasis(n - 1, x)
            == 4.0 * Mul(1.0 + x, DT(n, x)) + 6.0 * Mul(1.0 + x, A(n, x))
  {
    hide Mul, A, DT, U, V, Y, H, Square, Falling, Rising;
    DTTimesX(n, x);
    ATimesX(n, x);
    AInBasis(n, x);
    HTimesX(n - 2, x);
    HStep(n - 1, x);
    HStep(n - 2, x);
    YTimesX(n - 1, x);
    YTimesX(n - 2, x);
    VStep(n, x);
    VStep(n - 1, x);
    VStep(n - 2, x);
    BTimesX(x, n as real, Y(n - 1, x), Y(n - 2, x), H(n - 2, x));
    BCore(n as real, Y(n, x), Y(n - 1, x), Y(n - 2, x), Y(n - 3, x), H(n - 1, x), H(n - 2, x), H(n - 3, x),
          U(n, x), U(n - 1, x), U(n - 2, x), 2.0 * Mul(x, Y(n - 1, x)), 2.0 * Mul(x, Y(n - 2, x)), 2.0 * Mul(x, H(n - 2, x)));
  }

  lemma {:induction false} BTimesX(x: real, n: real, y1: real, y2: real, h: real)
    ensures 2.0 * Mul(x, Mul(Square(n - 1.0), y1) - Mul(Square(n + 1.0), y2) + Mul(2.0 * n, h))
            == Mul(Square(n - 1.0), 2.0 * Mul(x, y1)) - Mul(Square(n + 1.0), 2.0 * Mul(x, y2)) + Mul(2.0 * n, 2.0 * Mul(x, h))
  {
    var p, q := Square(n - 1.0), Square(n + 1.0);
    assert x * (p * y1) == p * (x * y1);
    assert x * (q * y2) == q * (x * y2);
    assert x * ((2.0 * n) * h) == (2.0 * n) * (x * h);
    assert x * (p * y1 - q * y2 + (2.0 * n) * h) == x * (p * y1) - x * (q * y2) + x * ((2.0 * n) * h);
  }

  lemma {:induction false} BCore(n: real, y0: real, y1: real, y2: real, y3: real, h1: real, h2: real, h3: real,
                                 u0: real, u1: real, u2: real, xy1: real, xy2: real, xh: real)
    requires y0 - y1 == Mul(n + 1.0, u0) && y1 - y2 == Mul(n, u1) && y2 - y3 == Mul(n - 1.0, u2)
    requires h1 - h2 == Mul(2.0 * n + 1.0, y1) && h2 - h3 == Mul(2.0 * n - 1.0, y2)
    requires xy1 == y0 + y2 - u0 - u1 && xy2 == y1 + y3 - u1 - u2
    requires xh == h1 + h3 - 4.0 * y1 - 4.0 * y2 + u1
    ensures Mul(Square(n), y0) - Mul(Square(n + 2.0), y1) + Mul(2.0 * (n + 1.0), h1)
            - (Mul(Square(n - 1.0), xy1) - Mul(Square(n + 1.0), xy2) + Mul(2.0 * n, xh))
            + Mul(Square(n - 2.0), y2) - Mul(Square(n), y3) + Mul(2.0 * (n - 1.0), h3)
            == 2.0 * Mul(n, u0 + 2.0 * u1 + u2)
               + 3.0 * (4.0 * (Mul(n - 1.0, y1) + Mul(n + 1.0, y2)) + Mul(Falling(n), u0) - Mul(Rising(n), u2))
  {
    hide Mul, Square, Falling, Rising;
    ExpandSquares(n, y0);
    ExpandSquares(n, y1);
    ExpandSquares(n, y2);
    ExpandSquares(n, y3);
    ExpandSquares(n, h1);
    ExpandSquares(n, h3);
    ExpandSquares(n, u0);
    ExpandSquares(n, u1);
    ExpandSquares(n, u2);
    ExpandSquares(n, xy1);
    ExpandSquares(n, xy2);
    ExpandSquares(n, xh);
    FourTerms(n, y0, y2, u0, u1);
    FourTerms(n, y1, y3, u1, u2);
    FourTerms(Square(n), y0, y2, u0, u1);
    FourTerms(Square(n), y1, y3, u1, u2);
    FourTerms(n, h1 + u1, h3, 4.0 * y1, 4.0 * y2);
    MulDistributes(n, h1, u1);
    MulDistributes(n, u0 + 2.0 * u1, u2);
    MulDistributes(n, u0, 2.0 * u1);
    Multiples(n, y1);
    Multiples(n, y2);
    Multiples(n, u1);
    BHalf1(n, y0, y1, u0);
    BHalf2(n, y2, y3, u2);
    BHalf3(n, h1, h2, h3, y1, y2);
  }

  lemma {:induction false} ExpandSquares(n: real, y: real)
    ensures Mul(Square(n - 1.0), y) == Mul(Square(n), y) - 2.0 * Mul(n, y) + y
    ensures Mul(Square(n + 1.0), y) == Mul(Square(n), y) + 2.0 * Mul(n, y) + y
    ensures Mul(Square(n - 2.0), y) == Mul(Square(n), y) - 4.0 * Mul(n, y) + 4.0 * y
    ensures Mul(Square(n + 2.0), y) == Mul(Square(n), y) + 4.0 * Mul(n, y) + 4.0 * y
    ensures Mul(Falling(n), y) == Mul(Square(n), y) - Mul(n, y)
    ensures Mul(Rising(n), y) == Mul(Square(n), y) + Mul(n, y)
    ensures Mul(n - 1.0, y) == Mul(n, y) - y && Mul(n + 1.0, y) == Mul(n, y) + y
    ensures Mul(2.0 * (n - 1.0), y) == 2.0 * Mul(n, y) - 2.0 * y
    ensures Mul(2.0 * (n + 1.0), y) == 2.0 * Mul(n, y) + 2.0 * y
    ensures Mul(2.0 * n, y) == 2.0 * Mul(n, y)
  {
  }

  lemma {:induction false} FourTerms(n: real, a: real, b: real, c: real, d: real)
    ensures Mul(n, a + b - c - d) == Mul(n, a) + Mul(n, b) - Mul(n, c) - Mul(n, d)
  {
  }

  lemma {:induction false} Multiples(n: real, y: real)
    ensures Mul(n, 2.0 * y) == 2.0 * Mul(n, y) && Mul(n, 4.0 * y) == 4.0 * Mul(n, y)
  {
  }

  lemma {:induction false} BHalf1(n: real, y0: real, y1: real, u0: real)
    requires y0 - y1 == Mul(n + 1.0, u0)
    ensures Mul(n, y0) - Mul(n, y1) == Mul(Rising(n), u0)
  {
    assert n * (y0 - y1) == n * ((n + 1.0) * u0);
  }

  lemma {:induction false} BHalf2(n: real, y2: real, y3: real, u2: real)
    requires y2 - y3 == Mul(n - 1.0, u2)
    ensures Mul(n, y2) - Mul(n, y3) == Mul(Falling(n), u2)
  {
    assert n * (y2 - y3) == n * ((n - 1.0) * u2);
  }

  lemma {:induction false} BHalf3(n: real, h1: real, h2: real, h3: real, y1: real, y2: real)
    requires h1 - h2 == Mul(2.0 * n + 1.0, y1) && h2 - h3 == Mul(2.0 * n - 1.0, y2)
    ensures h1 - h3 == 2.0 * Mul(n, y1) + y1 + 2.0 * Mul(n, y2) - y2
  {
  }
}
