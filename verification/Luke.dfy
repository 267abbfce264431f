/** Luke's expansions of hypergeometric functions in shifted Chebyshev polynomials: the backward
    recurrences for the coefficients and the series, from
    example/hypergeometric_luke_algorithms.cpp. */
module Luke {
  import opened Reals
  import opened Chebyshev

  /** The five derived classes, with their parameters. */
  datatype Kind =
    | F01(CP: real)
    | F10(AP: real)
    | F11(AP: real, CP: real)
    | F12(AP: real, BP: real, CP: real)
    | F21(AP: real, BP: real, CP: real)

  /** The recurrence at x divides by no zero. */
  predicate Divides(f: Kind, x: nat) {
    match f
    case F01(_) => true
    case F10(a) => x as real + a != 0.0
    case F11(a, _) => x as real + a != 0.0
    case F12(a, _, _) => x as real + a != 0.0
    case F21(a, b, _) => x as real + a != 0.0 && x as real + b != 0.0
  }

  predicate NoZeroDivisor(f: Kind, n: nat) {
    forall x: nat | x <= n :: Divides(f, x)
  }

  /** Entry i of the coefficients found so far, 0 past the end. */
  function Nth(l: seq<real>, i: nat): real {
    if i < |l| then l[i] else 0.0
  }

  // ------------------------------------------------- the next coefficient

  /** a / p under a name of its own, like Mul. */
  function Quotient(a: real, p: real): real
    requires p != 0.0
  {
    a / p
  }

  /** The factors of A2 and A1 in the 0F1 recurrence. */
  function Weight01(C1: real, z: real, X1: real, DIVFAC: real, i: nat): real {
    if i == 2 then (1.0 + (C1 + X1)) * z
    else (DIVFAC - (C1 * z)) + (X1 * z)
  }

  function Sum01(C1: real, z: real, X1: real, DIVFAC: real, A1: real, A2: real, A3: real): real {
    (A2 - Mul(Mul(A3, DIVFAC), X1))
    + Mul(Mul(A2, X1), Weight01(C1, z, X1, DIVFAC, 2))
    + Mul(Mul(A1, X1), Weight01(C1, z, X1, DIVFAC, 1))
  }

  function Term01(c: real, z: real, x: real, A1: real, A2: real, A3: real): real
    requires x >= 0.0
  {
    Sum01(1.0 - c, z, x + 1.0, 1.0 / (x + 2.0), A1, A2, A3)
  }

  function Term10(a: real, w: real, x: real, A1: real, A2: real): real
    requires w != 0.0 && x + a != 0.0
  {
    var X1, V1 := x + 1.0, 1.0 - a;
    Quotient(-(Mul(Mul(X1, 2.0 - 4.0 / w), A1) + Mul(X1 + V1, A2)), X1 - V1)
  }

  /** The factors of A1 and A2 in the 1F1 recurrence; r is the factor of A3. */
  function Weight11(c: real, z: real, x: real, X1: real, XA: real, r: real, i: nat): real
    requires X1 != 0.0
  {
    if i == 1 then ((x + c) * z) - r else z * ((x + 3.0) - c) + (XA / X1)
  }

  function Ratio11(a: real, x: real): real
    requires x >= 0.0
  {
    (x + 3.0 - a) / (x + 2.0)
  }

  function Sum11(c: real, z: real, x: real, X1: real, XA: real, r: real, A1: real, A2: real, A3: real): real
    requires X1 != 0.0
  {
    (Mul(A1, Weight11(c, z, x, X1, XA, r, 1)) + Mul(A2, Weight11(c, z, x, X1, XA, r, 2))) + Mul(A3, r)
  }

  function Term11(a: real, c: real, z: real, x: real, A1: real, A2: real, A3: real): real
    requires x >= 0.0 && x + a != 0.0
  {
    Quotient(Mul(Sum11(c, z, x, x + 1.0, x + a, Ratio11(a, x), A1, A2, A3), x + 1.0), x + a)
  }

  /** The factors of A1 to A4 in the 1F2 recurrence. */
  function Weight12(f: Kind, z: real, x: real, PP: real, QQ: real, SS: real, i: nat): real
    requires f.F12? && x >= 0.0
  {
    if i == 1 then
      ((PP - (QQ * (PP + 1.0))) * 2.0) + (SS * z)
    else if i == 2 then
      ((((2.0 * x + 1.0) * PP) / (x + 1.0)) - ((QQ * 4.0) * (PP + 1.0)) + (((2.0 * x + 3.0) * (PP + 2.0)) / (x + 3.0)))
      + ((z * 2.0) * (SS - (QQ * (x + 1.0 + f.BP)) * (x + 1.0 + f.CP)))
    else
      (((x + 3.0 - f.AP) - (QQ * (x + 4.0 - f.AP))) * 2.0) + (((QQ * z) * (x + 4.0 - f.BP)) * (x + 4.0 - f.CP))
  }

  function Ratio12(x: real): real
    requires x >= 0.0
  {
    (2.0 * x + 3.0) / (2.0 * x + 5.0)
  }

  function Shift12(f: Kind, x: real): real
    requires f.F12?
  {
    (x + f.BP) * (x + f.CP)
  }

  function Sum12(f: Kind, z: real, x: real, PP: real, QQ: real, SS: real, A1: real, A2: real, A3: real, A4: real): real
    requires f.F12? && x >= 0.0
  {
    var part1 := Mul(A1, Weight12(f, z, x, PP, QQ, SS, 1));
    var part2 := Mul(Mul(A2, x + 2.0), Weight12(f, z, x, PP, QQ, SS, 2));
    var part3 := Mul(A3, Weight12(f, z, x, PP, QQ, SS, 3));
    var part4 := Quotient(Mul(Mul(A4, QQ), x + 4.0 - f.AP), x + 3.0);
    (part1 - part2) + (part3 - part4)
  }

  function Term12(f: Kind, z: real, x: real, A1: real, A2: real, A3: real, A4: real): real
    requires f.F12? && x >= 0.0 && x + f.AP != 0.0
  {
    var PP := x + f.AP;
    Quotient(Mul(Sum12(f, z, x, PP, Ratio12(x), Shift12(f, x), A1, A2, A3, A4), x + 1.0), PP)
  }

  function Inverse21(a: real, b: real, x: real): real
    requires x + a != 0.0 && x + b != 0.0
  {
    NonzeroProduct(x + a, x + b);
    Quotient(1.0, Mul(x + a, x + b))
  }

  lemma {:induction false} NonzeroProduct(x: real, y: real)
    requires x != 0.0 && y != 0.0
    ensures Mul(x, y) != 0.0
  {
  }

  /** The factors of A1 to A3 in the 2F1 recurrence. */
  function Weight21(f: Kind, z: real, x: real, X1: real, X3: real, X3A: real, X3B: real, XAB: real, i: nat): real
    requires f.F21? && x >= 0.0
  {
    if i == 1 then
      2.0 - (((f.AP + X1) * (f.BP + X1)) * ((X3 / (x + 2.0)) * XAB)) + ((f.CP + x) * (XAB * z))
    else if i == 2 then
      (X3A * X3B) - (X3 * ((X3A + X3B) - 1.0)) + (((3.0 - f.CP) + x) * (X1 * z))
    else
      X3A / (x + 2.0)
  }

  function Sum21(f: Kind, z: real, x: real, X1: real, X3: real, X3A: real, X3B: real, XAB: real,
                 A1: real, A2: real, A3: real): real
    requires f.F21? && x >= 0.0
  {
    Mul(Mul(A1, X1), Weight21(f, z, x, X1, X3, X3A, X3B, XAB, 1))
    + Mul(Mul(A2, XAB), Weight21(f, z, x, X1, X3, X3A, X3B, XAB, 2))
    - Mul(Mul(Mul(A3, X1), Weight21(f, z, x, X1, X3, X3A, X3B, XAB, 3)), Mul(X3B, XAB))
  }

  function Term21(f: Kind, z: real, x: real, A1: real, A2: real, A3: real): real
    requires f.F21? && x >= 0.0 && x + f.AP != 0.0 && x + f.BP != 0.0
  {
    Sum21(f, z, x, x + 1.0, 2.0 * x + 3.0, x + 3.0 - f.AP, x + 3.0 - f.BP, Inverse21(f.AP, f.BP, x), A1, A2, A3)
  }

  /** The coefficient that follows the four saved ones. */
  function NextTerm(f: Kind, w: real, x: nat, A1: real, A2: real, A3: real, A4: real): real
    requires w != 0.0 && Divides(f, x)
  {
    match f
    case F01(c) => Term01(c, 4.0 / w, x as real, A1, A2, A3)
    case F10(a) => Term10(a, w, x as real, A1, A2)
    case F11(a, c) => Term11(a, c, 4.0 / w, x as real, A1, A2, A3)
    case F12(_, _, _) => Term12(f, 4.0 / w, x as real, A1, A2, A3, A4)
    case F21(_, _, _) => Term21(f, 4.0 / w, x as real, A1, A2, A3)
  }

  /** The coefficient that the recurrence puts in front of l. */
  function Term(f: Kind, w: real, x: nat, l: seq<real>): real
    requires w != 0.0 && Divides(f, x)
  {
    NextTerm(f, w, x, Nth(l, 0), Nth(l, 1), Nth(l, 2), Nth(l, 3))
  }

  /** The list after j backward steps from the start value. */
  function Backward(f: Kind, w: real, n: nat, j: nat, start: real): (l: seq<real>)
    requires w != 0.0 && NoZeroDivisor(f, n) && j <= n + 1
    ensures |l| == j + 1
  {
    if j == 0 then [start]
    else
      var l := Backward(f, w, n, j - 1, start);
      [Term(f, w, n - (j - 1), l)] + l
  }

  /** All coefficients, the first one halved. */
  function Coefficients(f: Kind, w: real, n: nat, start: real): (l: seq<real>)
    requires w != 0.0 && NoZeroDivisor(f, n)
    ensures |l| == n + 2
  {
    var l := Backward(f, w, n, n + 1, start);
    l[0 := l[0] / 2.0]
  }

  // ------------------------------------------------- the series

  /** C_0 - C_1 + C_2 - ... over the first n coefficients. */
  function AlternatingSum(C: seq<real>, n: nat): real
    requires n <= |C|
  {
    if n == 0 then 0.0
    else if n % 2 == 1 then AlternatingSum(C, n - 1) + C[n - 1]
    else AlternatingSum(C, n - 1) - C[n - 1]
  }

  /** The sum of C_k T_k(x) over the first n coefficients. */
  function ChebyshevSum(C: seq<real>, x: real, n: nat): real
    requires n <= |C|
  {
    if n == 0 then 0.0 else ChebyshevSum(C, x, n - 1) + Mul(C[n - 1], T(n - 1, x))
  }

  /** The argument Z scaled to the interval of the shifted polynomials. */
  function ShiftedArgument(Z: real, W: real): real
    requires W != 0.0
  {
    Z / W * 2.0 - 1.0
  }

  function Series(C: seq<real>, Z: real, W: real): real
    requires W != 0.0 && AlternatingSum(C, |C|) != 0.0
  {
    ChebyshevSum(C, ShiftedArgument(Z, W), |C|) / AlternatingSum(C, |C|)
  }

  // ------------------------------------------------- linearity

  function Scaled(c: real, l: seq<real>): (s: seq<real>)
    ensures |s| == |l|
  {
    seq(|l|, i requires 0 <= i < |l| => Mul(c, l[i]))
  }

  lemma {:induction false} NthScaled(c: real, l: seq<real>, i: nat)
    ensures Nth(Scaled(c, l), i) == Mul(c, Nth(l, i))
  {
  }

  lemma {:induction false} Pull(c: real, a: real, p: real)
    ensures Mul(Mul(c, a), p) == Mul(c, Mul(a, p))
  {
    assert (c * a) * p == c * (a * p);
  }

  lemma {:induction false} PullQuotient(c: real, a: real, p: real)
    requires p != 0.0
    ensures Quotient(Mul(c, a), p) == Mul(c, Quotient(a, p))
  {
    var q := a / p;
    assert a == q * p;
    assert (c * q) * p == c * a;
  }

  lemma {:induction false} PullSum(c: real, a: real, b: real)
    ensures Mul(c, a) + Mul(c, b) == Mul(c, a + b)
    ensures Mul(c, a) - Mul(c, b) == Mul(c, a - b)
  {
  }

  lemma {:induction false} Linear01(k: real, C1: real, z: real, X1: real, d: real, A1: real, A2: real, A3: real)
    ensures Sum01(C1, z, X1, d, Mul(k, A1), Mul(k, A2), Mul(k, A3)) == Mul(k, Sum01(C1, z, X1, d, A1, A2, A3))
  {
    hide Mul, Weight01;
    var p, q := Weight01(C1, z, X1, d, 2), Weight01(C1, z, X1, d, 1);
    Pull(k, A3, d);
    Pull(k, Mul(A3, d), X1);
    PullSum(k, A2, Mul(Mul(A3, d), X1));
    Pull(k, A2, X1);
    Pull(k, Mul(A2, X1), p);
    Pull(k, A1, X1);
    Pull(k, Mul(A1, X1), q);
    var u := A2 - Mul(Mul(A3, d), X1);
    PullSum(k, u, Mul(Mul(A2, X1), p));
    PullSum(k, u + Mul(Mul(A2, X1), p), Mul(Mul(A1, X1), q));
  }

  lemma {:induction false} PullLeft(k: real, a: real, p: real)
    ensures Mul(p, Mul(k, a)) == Mul(k, Mul(p, a))
  {
    assert p * (k * a) == k * (p * a);
  }

  lemma {:induction false} PullMinus(k: real, a: real)
    ensures -Mul(k, a) == Mul(k, -a)
  {
  }

  lemma {:induction false} Linear10(k: real, a: real, w: real, x: real, A1: real, A2: real)
    requires w != 0.0 && x + a != 0.0
    ensures Term10(a, w, x, Mul(k, A1), Mul(k, A2)) == Mul(k, Term10(a, w, x, A1, A2))
  {
    hide Mul, Quotient;
    var X1, V1 := x + 1.0, 1.0 - a;
    var p, q, d := Mul(X1, 2.0 - 4.0 / w), X1 + V1, X1 - V1;
    PullLeft(k, A1, p);
    PullLeft(k, A2, q);
    var s := Mul(p, A1) + Mul(q, A2);
    PullSum(k, Mul(p, A1), Mul(q, A2));
    PullMinus(k, s);
    PullQuotient(k, -s, d);
  }

  lemma {:induction false} Linear11(k: real, c: real, z: real, x: real, X1: real, XA: real, r: real,
                                    A1: real, A2: real, A3: real)
    requires X1 != 0.0
    ensures Sum11(c, z, x, X1, XA, r, Mul(k, A1), Mul(k, A2), Mul(k, A3)) == Mul(k, Sum11(c, z, x, X1, XA, r, A1, A2, A3))
  {
    hide Mul, Weight11;
    var p, q := Weight11(c, z, x, X1, XA, r, 1), Weight11(c, z, x, X1, XA, r, 2);
    Pull(k, A1, p);
    Pull(k, A2, q);
    Pull(k, A3, r);
    PullSum(k, Mul(A1, p), Mul(A2, q));
    PullSum(k, Mul(A1, p) + Mul(A2, q), Mul(A3, r));
  }

  lemma {:induction false} Linear12(k: real, f: Kind, z: real, x: real, PP: real, QQ: real, SS: real,
                                    A1: real, A2: real, A3: real, A4: real)
    requires f.F12? && x >= 0.0
    ensures Sum12(f, z, x, PP, QQ, SS, Mul(k, A1), Mul(k, A2), Mul(k, A3), Mul(k, A4))
            == Mul(k, Sum12(f, z, x, PP, QQ, SS, A1, A2, A3, A4))
  {
    hide Mul, Quotient, Weight12;
    var p, q := Weight12(f, z, x, PP, QQ, SS, 1), Weight12(f, z, x, PP, QQ, SS, 2);
    var r, t := Weight12(f, z, x, PP, QQ, SS, 3), x + 4.0 - f.AP;
    Pull(k, A1, p);
    Pull(k, A2, x + 2.0);
    Pull(k, Mul(A2, x + 2.0), q);
    Pull(k, A3, r);
    Pull(k, A4, QQ);
    Pull(k, Mul(A4, QQ), t);
    PullQuotient(k, Mul(Mul(A4, QQ), t), x + 3.0);
    var part1, part2 := Mul(A1, p), Mul(Mul(A2, x + 2.0), q);
    var part3, part4 := Mul(A3, r), Quotient(Mul(Mul(A4, QQ), t), x + 3.0);
    PullSum(k, part1, part2);
    PullSum(k, part3, part4);
    PullSum(k, part1 - part2, part3 - part4);
  }

  lemma {:induction false} Linear21(k: real, f: Kind, z: real, x: real, X1: real, X3: real, X3A: real, X3B: real, v: real,
                                    A1: real, A2: real, A3: real)
    requires f.F21? && x >= 0.0
    ensures Sum21(f, z, x, X1, X3, X3A, X3B, v, Mul(k, A1), Mul(k, A2), Mul(k, A3))
            == Mul(k, Sum21(f, z, x, X1, X3, X3A, X3B, v, A1, A2, A3))
  {
    hide Mul, Weight21;
    var p, q := Weight21(f, z, x, X1, X3, X3A, X3B, v, 1), Weight21(f, z, x, X1, X3, X3A, X3B, v, 2);
    var r, t := Weight21(f, z, x, X1, X3, X3A, X3B, v, 3), Mul(X3B, v);
    Pull(k, A1, X1);
    Pull(k, Mul(A1, X1), p);
    Pull(k, A2, v);
    Pull(k, Mul(A2, v), q);
    Pull(k, A3, X1);
    Pull(k, Mul(A3, X1), r);
    Pull(k, Mul(Mul(A3, X1), r), t);
    var part1, part2 := Mul(Mul(A1, X1), p), Mul(Mul(A2, v), q);
    PullSum(k, part1, part2);
    PullSum(k, part1 + part2, Mul(Mul(Mul(A3, X1), r), t));
  }

  /** The common factor X1 / XA of the 1F1 and 1F2 terms. */
  lemma {:induction false} PullFactor(k: real, s: real, p: real, d: real)
    requires d != 0.0
    ensures Quotient(Mul(Mul(k, s), p), d) == Mul(k, Quotient(Mul(s, p), d))
  {
    hide Mul, Quotient;
    Pull(k, s, p);
    PullQuotient(k, Mul(s, p), d);
  }

  /** Each of the five recurrences is linear. */
  lemma {:induction false} TermLinear(k: real, f: Kind, w: real, x: nat, l: seq<real>)
    requires w != 0.0 && Divides(f, x)
    ensures Term(f, w, x, Scaled(k, l)) == Mul(k, Term(f, w, x, l))
  {
    hide Mul, Quotient, Scaled, Nth, Sum01, Term10, Sum11, Sum12, Sum21, Inverse21, Ratio11, Ratio12, Shift12;
    NthScaled(k, l, 0);
    NthScaled(k, l, 1);
    NthScaled(k, l, 2);
    NthScaled(k, l, 3);
    var A1, A2, A3, A4 := Nth(l, 0), Nth(l, 1), Nth(l, 2), Nth(l, 3);
    var X, Z1 := x as real, 4.0 / w;
    match f
    case F01(c) => Linear01(k, 1.0 - c, Z1, X + 1.0, 1.0 / (X + 2.0), A1, A2, A3);
    case F10(a) => Linear10(k, a, w, X, A1, A2);
    case F11(a, c) =>
      var r := Ratio11(a, X);
      Linear11(k, c, Z1, X, X + 1.0, X + a, r, A1, A2, A3);
      PullFactor(k, Sum11(c, Z1, X, X + 1.0, X + a, r, A1, A2, A3), X + 1.0, X + a);
    case F12(a, _, _) =>
      var QQ, SS := Ratio12(X), Shift12(f, X);
      Linear12(k, f, Z1, X, X + a, QQ, SS, A1, A2, A3, A4);
      PullFactor(k, Sum12(f, Z1, X, X + a, QQ, SS, A1, A2, A3, A4), X + 1.0, X + a);
    case F21(a, b, c) =>
      Linear21(k, f, Z1, X, X + 1.0, 2.0 * X + 3.0, X + 3.0 - a, X + 3.0 - b, Inverse21(a, b, X), A1, A2, A3);
  }

  lemma {:induction false} BackwardLinear(k: real, f: Kind, w: real, n: nat, j: nat, start: real)
    requires w != 0.0 && NoZeroDivisor(f, n) && j <= n + 1
    ensures Backward(f, w, n, j, Mul(k, start)) == Scaled(k, Backward(f, w, n, j, start))
  {
    hide Mul, Term;
    if j > 0 {
      BackwardLinear(k, f, w, n, j - 1, start);
      TermLinear(k, f, w, n - (j - 1), Backward(f, w, n, j - 1, start));
    }
  }

  /** Scaling the start value scales every coefficient. */
  lemma {:induction false} CoefficientsLinear(k: real, f: Kind, w: real, n: nat, start: real)
    requires w != 0.0 && NoZeroDivisor(f, n)
    ensures Coefficients(f, w, n, Mul(k, start)) == Scaled(k, Coefficients(f, w, n, start))
  {
    hide Mul, Backward;
    BackwardLinear(k, f, w, n, n + 1, start);
    PullQuotient(k, Backward(f, w, n, n + 1, start)[0], 2.0);
  }

  lemma {:induction false} SumsLinear(k: real, C: seq<real>, x: real, n: nat)
    requires n <= |C|
    ensures AlternatingSum(Scaled(k, C), n) == Mul(k, AlternatingSum(C, n))
    ensures ChebyshevSum(Scaled(k, C), x, n) == Mul(k, ChebyshevSum(C, x, n))
  {
    hide Mul, T;
    if n == 0 {
      MulCommutes(k, 0.0);
      MulZero(k);
    } else {
      SumsLinear(k, C, x, n - 1);
      var t := T(n - 1, x);
      PullSum(k, AlternatingSum(C, n - 1), C[n - 1]);
      MulAssociates(k, C[n - 1], t);
      PullSum(k, ChebyshevSum(C, x, n - 1), Mul(C[n - 1], t));
    }
  }

  lemma {:induction false} RatioInvariant(k: real, a: real, b: real)
    requires k != 0.0
    ensures Mul(k, b) == 0.0 <==> b == 0.0
    ensures b != 0.0 ==> Mul(k, a) / Mul(k, b) == a / b
  {
    if b != 0.0 {
      var q := a / b;
      assert a == q * b;
      assert k * a == q * (k * b);
      assert k * b != 0.0;
    }
  }

  /** The series does not depend on which nonzero start value the recurrence used. */
  lemma {:induction false} SeriesIndependentOfStart(f: Kind, w: real, n: nat, s: real, t: real, Z: real)
    requires w != 0.0 && NoZeroDivisor(f, n) && s != 0.0 && t != 0.0
    ensures var C, D := Coefficients(f, w, n, s), Coefficients(f, w, n, t);
            && (AlternatingSum(C, |C|) == 0.0 <==> AlternatingSum(D, |D|) == 0.0)
            && (AlternatingSum(C, |C|) != 0.0 ==> Series(C, Z, w) == Series(D, Z, w))
  {
    hide Mul, Coefficients, AlternatingSum, ChebyshevSum;
    var k := t / s;
    QuotientBack(t, s);
    CoefficientsLinear(k, f, w, n, s);
    var C := Coefficients(f, w, n, s);
    var x := ShiftedArgument(Z, w);
    SumsLinear(k, C, x, |C|);
    RatioInvariant(k, ChebyshevSum(C, x, |C|), AlternatingSum(C, |C|));
  }

  lemma {:induction false} QuotientBack(t: real, s: real)
    requires s != 0.0 && t != 0.0
    ensures Mul(t / s, s) == t && t / s != 0.0
  {
  }

  /** At -1 the Chebyshev sum is the alternating sum. */
  lemma {:induction false} SumAtMinusOne(C: seq<real>, n: nat)
    requires n <= |C|
    ensures ChebyshevSum(C, -1.0, n) == AlternatingSum(C, n)
  {
    hide Mul, T;
    if n > 0 {
      SumAtMinusOne(C, n - 1);
      AtMinusOne(n - 1);
      MulCommutes(C[n - 1], 1.0);
      MulOne(C[n - 1]);
      MulMinusOne(C[n - 1]);
    }
  }

  /** Another last coefficient changes the sum by a multiple of the last polynomial. */
  lemma {:induction false} LastCoefficient(C: seq<real>, c: real, x: real)
    requires |C| > 0
    ensures var m := |C| - 1;
            ChebyshevSum(C[m := c], x, |C|) == ChebyshevSum(C, x, |C|) + Mul(c - C[m], T(m, x))
  {
    hide Mul, T;
    var m := |C| - 1;
    SumCongruent(C[m := c], C, x, m);
    MulCommutes(c - C[m], T(m, x));
    MulCommutes(c, T(m, x));
    MulCommutes(C[m], T(m, x));
    MulDistributes(T(m, x), c, C[m]);
  }

  lemma {:induction false} SumCongruent(C: seq<real>, D: seq<real>, x: real, n: nat)
    requires n <= |C| == |D| && forall i | 0 <= i < n :: C[i] == D[i]
    ensures ChebyshevSum(C, x, n) == ChebyshevSum(D, x, n)
  {
    hide Mul, T;
    if n > 0 {
      SumCongruent(C, D, x, n - 1);
    }
  }

  lemma {:induction false} MulMinusOne(x: real)
    ensures Mul(x, -1.0) == -x
  {
  }

  /** At Z = 0 the series is exactly 1, whatever the coefficients. */
  lemma {:induction false} SeriesAtZero(C: seq<real>, W: real)
    requires W != 0.0 && AlternatingSum(C, |C|) != 0.0
    ensures Series(C, 0.0, W) == 1.0
  {
    hide AlternatingSum, ChebyshevSum;
    ZeroArgument(W);
    SumAtMinusOne(C, |C|);
  }

  lemma {:induction false} ZeroArgument(W: real)
    requires W != 0.0
    ensures ShiftedArgument(0.0, W) == -1.0
  {
  }
}
