/** Bitwise operations on natural numbers, bit by bit, and how they interact with the split of a
    number into high and low bits. Word widths are written out where the source truncates. */
module Bits {
  import opened Residues

  /** a >> k */
  function Shr(a: nat, k: nat): nat
    decreases k
  {
    if k == 0 then a else Shr(a / 2, k - 1)
  }

  /** The low k bits of a: the value of a truncated to a k-bit word. */
  function Low(a: nat, k: nat): nat
    decreases k
  {
    if k == 0 then 0 else a % 2 + 2 * Low(a / 2, k - 1)
  }

  /** a ^ b */
  function Xor(a: nat, b: nat): nat
    decreases a + b
  {
    if a == 0 && b == 0 then 0 else (a + b) % 2 + 2 * Xor(a / 2, b / 2)
  }

  /** a | b */
  function Or(a: nat, b: nat): nat
    decreases a + b
  {
    if a == 0 && b == 0 then 0
    else (if a % 2 == 1 || b % 2 == 1 then 1 else 0) + 2 * Or(a / 2, b / 2)
  }

  lemma {:induction false} TwiceRight(h: nat, p: nat)
    ensures h * (2 * p) == 2 * (h * p)
  {
  }

  /** Every number is its high part times 2^k plus its low part. */
  lemma {:induction false} Split(a: nat, k: nat)
    ensures a == Shr(a, k) * Pow2(k) + Low(a, k)
    ensures Low(a, k) < Pow2(k)
    decreases k
  {
    if k > 0 {
      Split(a / 2, k - 1);
      TwiceRight(Shr(a / 2, k - 1), Pow2(k - 1));
    }
  }

  /** The split is unique. */
  lemma {:induction false} SplitUnique(a: nat, h: nat, l: nat, k: nat)
    requires a == h * Pow2(k) + l && l < Pow2(k)
    ensures Shr(a, k) == h && Low(a, k) == l
    decreases k
  {
    if k > 0 {
      var p := Pow2(k - 1);
      var x := h * p;
      assert h * (2 * p) == 2 * x;
      SplitUnique(a / 2, h, l / 2, k - 1);
    }
  }

  lemma {:induction false} ShrBound(a: nat, k: nat, w: nat)
    requires k <= w && a < Pow2(w)
    ensures Shr(a, k) < Pow2(w - k)
    decreases k
  {
    if k > 0 {
      ShrBound(a / 2, k - 1, w - 1);
    }
  }

  lemma {:induction false} LowSmall(a: nat, k: nat)
    requires a < Pow2(k)
    ensures Low(a, k) == a && Shr(a, k) == 0
  {
    SplitUnique(a, 0, a, k);
  }

  lemma {:induction false} ShrShr(a: nat, i: nat, j: nat)
    ensures Shr(Shr(a, i), j) == Shr(a, i + j)
    decreases i
  {
    if i > 0 {
      ShrShr(a / 2, i - 1, j);
    }
  }

  lemma {:induction false} ShrZero(k: nat)
    ensures Shr(0, k) == 0
  {
    if k > 0 {
      ShrZero(k - 1);
    }
  }

  /** The number with high part h and low k bits l. */
  function Join(h: nat, l: nat, k: nat): nat {
    h * Pow2(k) + l
  }

  lemma {:induction false} JoinSplit(a: nat, k: nat)
    ensures a == Join(Shr(a, k), Low(a, k), k) && Low(a, k) < Pow2(k)
  {
    Split(a, k);
  }

  lemma {:induction false} JoinUnique(h: nat, l: nat, k: nat)
    requires l < Pow2(k)
    ensures Shr(Join(h, l, k), k) == h && Low(Join(h, l, k), k) == l
  {
    SplitUnique(Join(h, l, k), h, l, k);
  }

  lemma {:induction false} JoinBound(h: nat, l: nat, w: nat, k: nat)
    requires h < Pow2(w) && l < Pow2(k)
    ensures Join(h, l, k) < Pow2(w + k)
  {
    Pow2Add(w, k);
    CombineBound(h, l, Pow2(w), Pow2(k));
  }

  lemma {:induction false} JoinJoin(t: nat, y: nat, l: nat, i: nat, k: nat)
    ensures Join(Join(t, y, i), l, k) == Join(t, Join(y, l, k), i + k)
  {
    Pow2Add(i, k);
    Regroup(t, y, Pow2(i), Pow2(k));
  }

  lemma {:induction false} Regroup(t: nat, y: nat, p: nat, q: nat)
    ensures (t * p + y) * q == t * (p * q) + y * q
  {
    assert (t * p) * q == t * (p * q);
  }

  lemma {:induction false} LowLow(x: nat, i: nat, k: nat)
    requires k <= i
    ensures Low(Low(x, i), k) == Low(x, k)
    decreases k
  {
    if k > 0 {
      LowLow(x / 2, i - 1, k - 1);
    }
  }

  /** Truncating a joined number truncates its high part. */
  lemma {:induction false} LowJoin(x: nat, y: nat, k: nat, w: nat)
    requires y < Pow2(k) && k <= w
    ensures Low(Join(x, y, k), w) == Join(Low(x, w - k), y, k)
  {
    var h, l := Shr(x, w - k), Low(x, w - k);
    JoinSplit(x, w - k);
    JoinJoin(h, l, y, w - k, k);
    JoinBound(l, y, w - k, k);
    JoinUnique(h, Join(l, y, k), w);
  }

  // ------------------------------------------------- single bits

  /** Bit i of a, counted from the lowest one. */
  function Bit(a: nat, i: nat): bool
    decreases i
  {
    if i == 0 then a % 2 == 1 else Bit(a / 2, i - 1)
  }

  /** A word is determined by its bits. */
  lemma {:induction false} BitsDetermine(a: nat, b: nat, w: nat)
    requires a < Pow2(w) && b < Pow2(w) && forall i: nat | i < w :: Bit(a, i) == Bit(b, i)
    ensures a == b
  {
    if w > 0 {
      forall i: nat | i < w - 1 ensures Bit(a / 2, i) == Bit(b / 2, i) {
        assert Bit(a, i + 1) == Bit(b, i + 1);
      }
      BitsDetermine(a / 2, b / 2, w - 1);
      assert Bit(a, 0) == Bit(b, 0);
    }
  }

  /** a >> k is the quotient by 2^k. */
  lemma {:induction false} ShrIsQuotient(a: nat, k: nat, q: nat, r: nat)
    requires a == q * Pow2(k) + r && r < Pow2(k)
    ensures Shr(a, k) == q
  {
    SplitUnique(a, q, r, k);
  }

  lemma {:induction false} ShrBit(a: nat, k: nat, i: nat)
    ensures Bit(Shr(a, k), i) == Bit(a, i + k)
    decreases k
  {
    if k > 0 {
      ShrBit(a / 2, k - 1, i);
    }
  }

  lemma {:induction false} LowBit(a: nat, k: nat, i: nat)
    ensures Bit(Low(a, k), i) <==> i < k && Bit(a, i)
    decreases k
  {
    if k == 0 {
      NoBit(i);
    } else {
      assert Low(a, k) / 2 == Low(a / 2, k - 1) && Low(a, k) % 2 == a % 2;
      if i > 0 {
        LowBit(a / 2, k - 1, i - 1);
      }
    }
  }

  lemma {:induction false} NoBit(i: nat)
    ensures !Bit(0, i)
  {
    if i > 0 {
      NoBit(i - 1);
    }
  }

  lemma {:induction false} JoinBit(h: nat, l: nat, k: nat, i: nat)
    requires l < Pow2(k)
    ensures Bit(Join(h, l, k), i) == if i < k then Bit(l, i) else Bit(h, i - k)
  {
    hide *;
    JoinUnique(h, l, k);
    if i < k {
      LowBit(Join(h, l, k), k, i);
    } else {
      ShrBit(Join(h, l, k), k, i - k);
    }
  }

  lemma {:induction false} XorBit(a: nat, b: nat, i: nat)
    ensures Bit(Xor(a, b), i) <==> Bit(a, i) != Bit(b, i)
    decreases i
  {
    hide Xor;
    XorHalves(a, b);
    SumParity(a, b);
    if i > 0 {
      XorBit(a / 2, b / 2, i - 1);
    }
  }

  lemma {:induction false} SumParity(a: nat, b: nat)
    ensures (a + b) % 2 == 1 <==> (a % 2 == 1) != (b % 2 == 1)
  {
  }

  lemma {:induction false} OrBit(a: nat, b: nat, i: nat)
    ensures Bit(Or(a, b), i) <==> Bit(a, i) || Bit(b, i)
    decreases i
  {
    hide Or;
    OrHalves(a, b);
    if i > 0 {
      OrBit(a / 2, b / 2, i - 1);
    }
  }

  lemma {:induction false} OrHalves(a: nat, b: nat)
    ensures Or(a, b) / 2 == Or(a / 2, b / 2) && (Or(a, b) % 2 == 1 <==> a % 2 == 1 || b % 2 == 1)
  {
    OrUnfold(a, b);
  }

  /** Bit i of x ^ (x >> k) differs from bit i of x exactly when bit i + k of x is set. */
  lemma {:induction false} XorShiftBit(x: nat, k: nat, i: nat)
    ensures Bit(XorShift(x, k), i) <==> Bit(x, i) != Bit(x, i + k)
  {
    hide Bit, Xor, Shr;
    XorBit(x, Shr(x, k), i);
    ShrBit(x, k, i);
  }

  /** A rotation to the right by r takes bit i from place i + r, cyclically. */
  lemma {:induction false} RotrBit(v: nat, w: nat, r: nat, i: nat)
    requires r < w && v < Pow2(w) && i < w
    ensures Bit(Rotr(v, w, r), i) == Bit(v, if i < w - r then i + r else i + r - w)
  {
    RotrParts(v, w, r);
    assert Rotr(v, w, r) == Join(Low(v, r), Shr(v, r), w - r);
    hide *;
    ShrBound(v, r, w);
    JoinBit(Low(v, r), Shr(v, r), w - r, i);
    if i < w - r {
      ShrBit(v, r, i);
    } else {
      LowBit(v, r, i - (w - r));
    }
  }

  // ------------------------------------------------- exclusive or

  lemma {:induction false} XorZero(a: nat)
    ensures Xor(a, 0) == a
    decreases a
  {
    if a > 0 {
      XorZero(a / 2);
    }
  }

  lemma {:induction false} XorInverse(a: nat, b: nat)
    ensures Xor(Xor(a, b), b) == a
    decreases a + b
  {
    if a != 0 || b != 0 {
      XorInverse(a / 2, b / 2);
      XorHalves(a, b);
      XorUnfold(Xor(a, b), b);
      SameParity(a, b, Xor(a, b));
    }
  }

  lemma {:induction false} XorHalves(a: nat, b: nat)
    ensures Xor(a, b) / 2 == Xor(a / 2, b / 2) && Xor(a, b) % 2 == (a + b) % 2
  {
    XorUnfold(a, b);
  }

  lemma {:induction false} SameParity(a: nat, b: nat, x: nat)
    requires x % 2 == (a + b) % 2
    ensures (x + b) % 2 == a % 2
  {
  }

  lemma {:induction false} XorUnfold(a: nat, b: nat)
    ensures Xor(a, b) == (a + b) % 2 + 2 * Xor(a / 2, b / 2)
  {
  }

  lemma {:induction false} XorShr(a: nat, b: nat, k: nat)
    ensures Shr(Xor(a, b), k) == Xor(Shr(a, k), Shr(b, k))
    decreases k
  {
    if k > 0 {
      XorUnfold(a, b);
      assert Xor(a, b) / 2 == Xor(a / 2, b / 2);
      XorShr(a / 2, b / 2, k - 1);
    }
  }

  lemma {:induction false} XorBound(a: nat, b: nat, w: nat)
    requires a < Pow2(w) && b < Pow2(w)
    ensures Xor(a, b) < Pow2(w)
    decreases w
  {
    if w > 0 {
      XorUnfold(a, b);
      XorBound(a / 2, b / 2, w - 1);
    }
  }

  /** x ^ (x >> k) */
  function XorShift(x: nat, k: nat): nat {
    Xor(x, Shr(x, k))
  }

  lemma {:induction false} ShrDecreases(y: nat, k: nat)
    requires k > 0 && y >= Pow2(k)
    ensures Shr(y, k) < y
  {
    Split(y, k);
    var h := Shr(y, k);
    assert Pow2(k) >= 2;
    assert h * Pow2(k) >= h * 2;
  }

  /** Solves y = x ^ (x >> k) for x. */
  function Unshift(y: nat, k: nat): nat
    requires k > 0
    decreases y
  {
    if y < Pow2(k) then y
    else
      ShrDecreases(y, k);
      Xor(y, Unshift(Shr(y, k), k))
  }

  lemma {:induction false} XorShiftShr(x: nat, k: nat)
    ensures Shr(XorShift(x, k), k) == XorShift(Shr(x, k), k)
  {
    XorShr(x, Shr(x, k), k);
  }

  lemma {:induction false} UnshiftXorShift(x: nat, k: nat)
    requires k > 0
    ensures Unshift(XorShift(x, k), k) == x
    decreases x
  {
    var y, x' := XorShift(x, k), Shr(x, k);
    if x < Pow2(k) {
      LowSmall(x, k);
      XorZero(x);
    } else {
      ShrDecreases(x, k);
      XorShiftShr(x, k);
      UnshiftXorShift(x', k);
      if y < Pow2(k) {
        LowSmall(y, k);
        Split(x, k);
        assert false;
      }
      XorInverse(x, x');
    }
  }

  lemma {:induction false} XorShiftUnshift(y: nat, k: nat)
    requires k > 0
    ensures XorShift(Unshift(y, k), k) == y
    decreases y
  {
    if y < Pow2(k) {
      LowSmall(y, k);
      XorZero(y);
    } else {
      ShrDecreases(y, k);
      var z := Unshift(Shr(y, k), k);
      XorShiftUnshift(Shr(y, k), k);
      XorShr(y, z, k);
      XorInverse(Shr(y, k), Shr(z, k));
      XorCommutes(z, Shr(z, k));
      XorInverse(z, Shr(z, k));
      assert Shr(Unshift(y, k), k) == z;
      XorInverse(y, z);
    }
  }

  lemma {:induction false} XorCommutes(a: nat, b: nat)
    ensures Xor(a, b) == Xor(b, a)
    decreases a + b
  {
    if a != 0 || b != 0 {
      XorCommutes(a / 2, b / 2);
    }
  }

  lemma {:induction false} UnshiftBound(y: nat, k: nat, w: nat)
    requires k > 0 && y < Pow2(w)
    ensures Unshift(y, k) < Pow2(w)
    decreases y
  {
    if y >= Pow2(k) {
      ShrDecreases(y, k);
      UnshiftBound(Shr(y, k), k, w);
      XorBound(y, Unshift(Shr(y, k), k), w);
    }
  }

  // ------------------------------------------------- or and rotation

  /** The or of numbers without a common bit position is their sum. */
  lemma {:induction false} OrDisjoint(l: nat, h: nat, k: nat)
    requires l < Pow2(k)
    ensures Or(l, h * Pow2(k)) == l + h * Pow2(k)
    decreases k
  {
    if k == 0 {
      OrZero(h);
    } else {
      OrDisjoint(l / 2, h, k - 1);
      TwiceRight(h, Pow2(k - 1));
      OrTwice(l, h * Pow2(k - 1));
    }
  }

  lemma {:induction false} OrTwice(a: nat, x: nat)
    ensures Or(a, 2 * x) == a % 2 + 2 * Or(a / 2, x)
  {
    OrUnfold(a, 2 * x);
    assert (2 * x) / 2 == x;
  }

  lemma {:induction false} OrUnfold(a: nat, b: nat)
    ensures Or(a, b) == (if a % 2 == 1 || b % 2 == 1 then 1 else 0) + 2 * Or(a / 2, b / 2)
  {
  }

  lemma {:induction false} OrZero(h: nat)
    ensures Or(0, h) == h && Or(h, 0) == h
    decreases h
  {
    if h > 0 {
      OrZero(h / 2);
    }
  }

  /** rotr on a word of w bits: shift right, shift left by the complement and truncate, or. */
  function Rotr(v: nat, w: nat, r: nat): nat
    requires r <= w
  {
    var part1 := if r > 0 then Shr(v, r) else v;
    var part2 := if r > 0 then Low(v * Pow2(w - r), w) else 0;
    Or(part1, part2)
  }

  /** The inverse rotation. */
  function Unrotr(u: nat, w: nat, r: nat): nat
    requires r <= w
  {
    Join(Low(u, w - r), Shr(u, w - r), r)
  }

  /** Rotation exchanges the high and the low part. */
  lemma {:induction false} RotrParts(v: nat, w: nat, r: nat)
    requires r < w && v < Pow2(w)
    ensures Rotr(v, w, r) == Low(v, r) * Pow2(w - r) + Shr(v, r)
    ensures Rotr(v, w, r) < Pow2(w)
  {
    if r == 0 {
      OrZero(v);
      assert Low(v, 0) == 0;
    } else {
      RotrPositive(v, w, r);
    }
  }

  lemma {:induction false} RotrPositive(v: nat, w: nat, r: nat)
    requires 0 < r < w && v < Pow2(w)
    ensures Rotr(v, w, r) == Low(v, r) * Pow2(w - r) + Shr(v, r)
    ensures Rotr(v, w, r) < Pow2(w)
  {
    var h, l, p := Shr(v, r), Low(v, r), Pow2(w - r);
    assert Rotr(v, w, r) == Or(h, Low(v * p, w));
    hide *;
    Split(v, r);
    ShrBound(v, r, w);
    Pow2Add(r, w - r);
    ShiftedLow(v, h, l, p, Pow2(r), w);
    OrDisjoint(h, l, w - r);
    CombineBound(l, h, Pow2(r), p);
  }

  lemma {:induction false} CombineBound(h: nat, l: nat, a: nat, b: nat)
    requires h < a && l < b
    ensures h * b + l < a * b
  {
    assert h * b <= (a - 1) * b;
  }

  lemma {:induction false} ShiftedSplit(v: nat, h: nat, l: nat, p: nat, q: nat)
    requires v == h * q + l && l < q && p >= 1
    ensures v * p == h * (q * p) + l * p && l * p < q * p
  {
    assert (h * q) * p == h * (q * p);
  }

  lemma {:induction false} ShiftedLow(v: nat, h: nat, l: nat, p: nat, q: nat, w: nat)
    requires v == h * q + l && l < q && p >= 1 && Pow2(w) == q * p
    ensures Low(v * p, w) == l * p
  {
    ShiftedSplit(v, h, l, p, q);
    hide *;
    SplitUnique(v * p, h, l * p, w);
  }

  lemma {:induction false} UnrotrRotr(v: nat, w: nat, r: nat)
    requires r < w && v < Pow2(w)
    ensures Unrotr(Rotr(v, w, r), w, r) == v
  {
    RotrParts(v, w, r);
    ShrBound(v, r, w);
    SplitUnique(Rotr(v, w, r), Low(v, r), Shr(v, r), w - r);
    Split(v, r);
  }

  lemma {:induction false} RotrUnrotr(u: nat, w: nat, r: nat)
    requires r < w && u < Pow2(w)
    ensures Unrotr(u, w, r) < Pow2(w) && Rotr(Unrotr(u, w, r), w, r) == u
  {
    var v, h, l := Unrotr(u, w, r), Low(u, w - r), Shr(u, w - r);
    assert v == h * Pow2(r) + l;
    hide *;
    Split(u, w - r);
    ShrBound(u, w - r, w);
    Pow2Add(w - r, r);
    CombineBound(h, l, Pow2(w - r), Pow2(r));
    SplitUnique(v, h, l, r);
    RotrParts(v, w, r);
  }
}
