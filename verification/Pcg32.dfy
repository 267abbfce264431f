/** random_pcg32_fast of example/cpp_int_mul_timing.cpp: a mixed congruential generator modulo
    2^64 whose output is an xorshift followed by a rotation by the top five bits of the state. */
module Pcg32 {
  import opened Residues
  import opened Bits
  import opened Counting

  const MULTIPLIER := 6364136223846793005
  const INCREMENT := 1442695040888963407

  const DEFAULT_SEED: nat := 0xCAFE_F00D_D15E_A5E5

  // itype is std::uint64_t, xtype is std::uint32_t
  const BITS: nat := 64
  const XTYPE_BITS: nat := 32
  const OP_BITS: nat := 5
  const BOTTOM_SPARE: nat := 27
  const X_SHIFT: nat := 18

  /** The derived constants of xsh_rr_mixin: sparebits, wantedopbits, opbits, amplifier,
      bottomspare and xshift for the two types. */
  lemma {:induction false} MixinConstants()
    ensures OP_BITS == if BITS - XTYPE_BITS >= 5 then 5 else BITS - XTYPE_BITS
    ensures BOTTOM_SPARE == (BITS - XTYPE_BITS) - OP_BITS
    ensures X_SHIFT == (OP_BITS + XTYPE_BITS) / 2
  {
  }

  /** A 64-bit word. */
  predicate Word(s: int) {
    0 <= s < Pow2(BITS)
  }

  /** The successor state: multiply and add with 64-bit wrap-around. */
  function Bump(s: int): (r: nat)
    ensures Word(r)
  {
    Mod(Mod(s * MULTIPLIER, Pow2(BITS)) + INCREMENT, Pow2(BITS))
  }

  /** xsh_rr_mixin::output for a 64-bit state. */
  function Output(s: nat): nat {
    var rot := Low(Shr(s, BITS - OP_BITS), OP_BITS);
    var x := Xor(s, Shr(s, X_SHIFT));
    Low5Bound(Shr(s, BITS - OP_BITS));
    Rotr(Low(Shr(x, BOTTOM_SPARE), XTYPE_BITS), XTYPE_BITS, rot)
  }

  lemma {:induction false} Low5Bound(a: nat)
    ensures Low(a, OP_BITS) < 32
  {
    Split(a, OP_BITS);
    assert Pow2(5) == 32;
  }

  /** What the output drops: the rotation count and the low bits of the xorshifted state. */
  function TopFive(s: nat): nat {
    Shr(s, BITS - OP_BITS)
  }

  function LowRest(s: nat): nat {
    Low(XorShift(s, X_SHIFT), BOTTOM_SPARE)
  }

  /** The state with a given output, top five bits and low 27 bits after the xorshift. */
  function Preimage(v: nat, top: nat, low: nat): nat
    requires top < 32
  {
    Unshift(Join(top, Join(Unrotr(v, XTYPE_BITS, top), low, BOTTOM_SPARE), BITS - OP_BITS), X_SHIFT)
  }

  // ------------------------------------------------- output is a bijection with its remainder

  /** A word in three parts: t on top, y in the middle, l at the bottom. */
  lemma {:induction false} ThreeParts(t: nat, y: nat, l: nat, a: nat, b: nat, c: nat)
    requires t < Pow2(a) && y < Pow2(b) && l < Pow2(c)
    ensures var x := Join(t, Join(y, l, c), b + c);
            && x < Pow2(a + (b + c))
            && Shr(x, b + c) == t && Low(Shr(x, c), b) == y && Low(x, c) == l
  {
    hide *;
    JoinBound(y, l, b, c);
    JoinBound(t, Join(y, l, c), a, b + c);
    JoinUnique(t, Join(y, l, c), b + c);
    JoinJoin(t, y, l, b, c);
    JoinUnique(Join(t, y, b), l, c);
    JoinUnique(t, y, b);
  }

  /** Every word has such parts. */
  lemma {:induction false} ThreePartsOf(x: nat, b: nat, c: nat)
    ensures x == Join(Shr(x, b + c), Join(Low(Shr(x, c), b), Low(x, c), c), b + c)
  {
    hide *;
    JoinSplit(x, c);
    JoinSplit(Shr(x, c), b);
    ShrShr(x, c, b);
    assert b + c == c + b;
    JoinJoin(Shr(x, b + c), Low(Shr(x, c), b), Low(x, c), b, c);
  }

  /** The rotation count is intact after the xorshift. */
  lemma {:induction false} TopBitsSurvive(s: nat)
    requires s < Pow2(BITS)
    ensures Shr(XorShift(s, X_SHIFT), BITS - OP_BITS) == TopFive(s) < Pow2(OP_BITS)
  {
    assert TopFive(s) == Shr(s, BITS - OP_BITS);
    assert XorShift(s, X_SHIFT) == Xor(s, Shr(s, X_SHIFT));
    hide *;
    XorShr(s, Shr(s, X_SHIFT), BITS - OP_BITS);
    ShrShr(s, X_SHIFT, BITS - OP_BITS);
    ShrShr(s, BITS, 13);
    LowSmall(s, BITS);
    ShrZero(13);
    XorZero(TopFive(s));
    ShrBound(s, BITS - OP_BITS, BITS);
  }

  /** The output in terms of the parts of the xorshifted state. */
  lemma {:induction false} OutputParts(s: nat)
    requires s < Pow2(BITS)
    ensures TopFive(s) < 32
    ensures Output(s) == Rotr(Low(Shr(XorShift(s, X_SHIFT), BOTTOM_SPARE), XTYPE_BITS), XTYPE_BITS, TopFive(s))
    ensures Output(s) < Pow2(XTYPE_BITS)
  {
    assert Pow2(OP_BITS) == 32;
    ShrBound(s, BITS - OP_BITS, BITS);
    LowSmall(TopFive(s), OP_BITS);
    var y := Low(Shr(XorShift(s, X_SHIFT), BOTTOM_SPARE), XTYPE_BITS);
    Split(Shr(XorShift(s, X_SHIFT), BOTTOM_SPARE), XTYPE_BITS);
    RotrParts(y, XTYPE_BITS, TopFive(s));
  }

  /** The output bit by bit: with r the top five bits of the state, bit i is the exclusive or of the
      state's bits p and p + 18, where p is 27 plus i + r modulo 32. */
  lemma {:induction false} OutputBit(s: nat, i: nat, r: nat, rest: nat)
    requires s < Pow2(BITS) && i < 32 && s == r * 0x800_0000_0000_0000 + rest && rest < 0x800_0000_0000_0000
    ensures r < 32
    ensures var p := 27 + (if i < 32 - r then i + r else i + r - 32);
            Bit(Output(s), i) <==> Bit(s, p) != Bit(s, p + 18)
  {
    hide *;
    PowTop();
    ShrIsQuotient(s, 59, r, rest);
    TopFiveIs(s);
    OutputParts(s);
    WidthValues();
    var x := XorShift(s, X_SHIFT);
    var y := Low(Shr(x, BOTTOM_SPARE), XTYPE_BITS);
    JoinSplit(Shr(x, BOTTOM_SPARE), XTYPE_BITS);
    RotrBit(y, XTYPE_BITS, r, i);
    var j := if i < 32 - r then i + r else i + r - 32;
    LowBit(Shr(x, BOTTOM_SPARE), XTYPE_BITS, j);
    ShrBit(x, BOTTOM_SPARE, j);
    XorShiftBit(s, X_SHIFT, j + 27);
  }

  lemma {:induction false} PowTop()
    ensures Pow2(59) == 0x800_0000_0000_0000
  {
    hide Pow2;
    Pow2Values();
    Pow2Add(46, 13);
    Pow2Add(12, 1);
    assert Pow2(1) == 2 by {
      PowOne();
    }
  }

  lemma {:induction false} PowOne()
    ensures Pow2(1) == 2
  {
    assert Pow2(0) == 1;
  }

  lemma {:induction false} TopFiveIs(s: nat)
    ensures TopFive(s) == Shr(s, 59)
  {
    hide Shr;
  }

  lemma {:induction false} WidthValues()
    ensures X_SHIFT == 18 && BOTTOM_SPARE == 27 && XTYPE_BITS == 32
  {
  }

  /** Every choice of output, top bits and low bits belongs to a state. */
  lemma {:induction false} PreimageHits(v: nat, top: nat, low: nat)
    requires v < Pow2(XTYPE_BITS) && top < 32 && low < Pow2(BOTTOM_SPARE)
    ensures var s := Preimage(v, top, low);
            s < Pow2(BITS) && Output(s) == v && TopFive(s) == top && LowRest(s) == low
  {
    hide *;
    WidthsAddUp();
    var y := Unrotr(v, XTYPE_BITS, top);
    var x := Join(top, Join(y, low, BOTTOM_SPARE), BITS - OP_BITS);
    var s := Unshift(x, X_SHIFT);
    PreimageUnfolds(v, top, low);
    RotrUnrotr(v, XTYPE_BITS, top);
    ThreeParts(top, y, low, OP_BITS, XTYPE_BITS, BOTTOM_SPARE);
    XorShiftUnshift(x, X_SHIFT);
    UnshiftBound(x, X_SHIFT, BITS);
    TopBitsSurvive(s);
    OutputParts(s);
    LowRestUnfolds(s);
  }

  lemma {:induction false} PreimageUnfolds(v: nat, top: nat, low: nat)
    requires top < 32
    ensures top <= XTYPE_BITS && X_SHIFT > 0
    ensures Preimage(v, top, low)
            == Unshift(Join(top, Join(Unrotr(v, XTYPE_BITS, top), low, BOTTOM_SPARE), BITS - OP_BITS), X_SHIFT)
  {
    hide Unshift, Join, Unrotr, Pow2;
  }

  lemma {:induction false} LowRestUnfolds(s: nat)
    ensures LowRest(s) == Low(XorShift(s, X_SHIFT), BOTTOM_SPARE)
  {
    hide Low, XorShift;
  }

  lemma {:induction false} WidthsAddUp()
    ensures OP_BITS + (XTYPE_BITS + BOTTOM_SPARE) == BITS && XTYPE_BITS + BOTTOM_SPARE == BITS - OP_BITS
    ensures Pow2(OP_BITS) == XTYPE_BITS == 32 && BOTTOM_SPARE < XTYPE_BITS && X_SHIFT > 0
  {
  }

  /** ... and only to that state. */
  lemma {:induction false} PreimageOfOutput(s: nat)
    requires s < Pow2(BITS)
    ensures TopFive(s) < 32 && LowRest(s) < Pow2(BOTTOM_SPARE)
    ensures Preimage(Output(s), TopFive(s), LowRest(s)) == s
  {
    OutputParts(s);
    var x := XorShift(s, X_SHIFT);
    var y, l := Low(Shr(x, BOTTOM_SPARE), XTYPE_BITS), LowRest(s);
    assert l == Low(x, BOTTOM_SPARE);
    assert Preimage(Output(s), TopFive(s), l)
        == Unshift(Join(TopFive(s), Join(Unrotr(Output(s), XTYPE_BITS, TopFive(s)), l, BOTTOM_SPARE), BITS - OP_BITS), X_SHIFT);
    hide *;
    TopBitsSurvive(s);
    JoinSplit(Shr(x, BOTTOM_SPARE), XTYPE_BITS);
    UnrotrRotr(y, XTYPE_BITS, TopFive(s));
    JoinSplit(x, BOTTOM_SPARE);
    ThreePartsOf(x, XTYPE_BITS, BOTTOM_SPARE);
    UnshiftXorShift(s, X_SHIFT);
  }

  // ------------------------------------------------- the period

  /** The state after n draws from state s. */
  function State(s: nat, n: nat): (r: nat)
    requires Word(s)
    ensures Word(r)
  {
    Iterate(MULTIPLIER, INCREMENT, Pow2(BITS), s, n)
  }

  lemma {:induction false} BumpIsStep(s: nat)
    requires Word(s)
    ensures Bump(s) == Step(MULTIPLIER, INCREMENT, Pow2(BITS), s)
  {
    hide Mod, Pow2;
    ModLinear(s * MULTIPLIER, 1, INCREMENT, Pow2(BITS));
  }

  lemma {:induction false} Constants()
    ensures OneModFour(MULTIPLIER) && Odd(INCREMENT)
  {
  }

  /** The generator returns to a state exactly after the multiples of 2^64 draws. */
  lemma {:induction false} FullPeriod(s: nat, n: nat)
    requires Word(s)
    ensures State(s, n) == s <==> Mod(n, Pow2(BITS)) == 0
  {
    Constants();
    MixedPeriod(MULTIPLIER, INCREMENT, BITS, s, n);
  }

  function StateAt(s: nat): int -> int
    requires Word(s)
  {
    (i: int) => if i >= 0 then State(s, i) as int else 0
  }

  lemma {:induction false} StatesDistinct(s: nat)
    requires Word(s)
    ensures InjectiveOn(StateAt(s), Pow2(BITS))
  {
    Constants();
    hide Pow2, Mod, Iterate;
    forall i, j | 0 <= i < Pow2(BITS) && 0 <= j < Pow2(BITS) && StateAt(s)(i) == StateAt(s)(j) ensures i == j {
      if i < j {
        MixedDistinct(MULTIPLIER, INCREMENT, BITS, s, i, j);
      } else if j < i {
        MixedDistinct(MULTIPLIER, INCREMENT, BITS, s, j, i);
      }
    }
  }

  /** From any state every 64-bit state is visited within one period. */
  lemma {:induction false} VisitsEveryState(s: nat, t: nat)
    requires Word(s) && Word(t)
    ensures exists i: int :: 0 <= i < Pow2(BITS) && StateAt(s)(i) == t
  {
    hide Pow2, State, InjectiveOn;
    StatesDistinct(s);
    Onto(StateAt(s), Pow2(BITS), t);
  }

  // ------------------------------------------------- equidistribution

  /** The moments within a period at which the output is v. */
  ghost function Moments(s: nat, v: nat): set<int>
    requires Word(s)
  {
    set i: int | 0 <= i < Pow2(BITS) && Output(State(s, i)) == v
  }

  /** The states with output v, numbered by the bits the output drops. */
  function StateWithOutput(v: nat): int -> int {
    (r: int) => if 0 <= r < Pow2(XTYPE_BITS) then (RestBound(r); Preimage(v, Shr(r, BOTTOM_SPARE), Low(r, BOTTOM_SPARE))) else -1
  }

  lemma {:induction false} RestBound(r: nat)
    requires r < Pow2(XTYPE_BITS)
    ensures Shr(r, BOTTOM_SPARE) < 32 && Low(r, BOTTOM_SPARE) < Pow2(BOTTOM_SPARE)
  {
    assert Pow2(OP_BITS) == 32;
    hide *;
    ShrBound(r, BOTTOM_SPARE, XTYPE_BITS);
    JoinSplit(r, BOTTOM_SPARE);
  }

  lemma {:induction false} StateWithOutputProperties(v: nat, r: nat)
    requires v < Pow2(XTYPE_BITS) && r < Pow2(XTYPE_BITS)
    ensures var s := StateWithOutput(v)(r);
            && 0 <= s < Pow2(BITS) && Output(s) == v
            && Join(TopFive(s), LowRest(s), BOTTOM_SPARE) == r
  {
    hide *;
    RestBound(r);
    StateWithOutputUnfolds(v, r);
    PreimageHits(v, Shr(r, BOTTOM_SPARE), Low(r, BOTTOM_SPARE));
    JoinSplit(r, BOTTOM_SPARE);
  }

  lemma {:induction false} StateWithOutputUnfolds(v: nat, r: nat)
    requires r < Pow2(XTYPE_BITS)
    ensures Shr(r, BOTTOM_SPARE) < 32
    ensures StateWithOutput(v)(r) == Preimage(v, Shr(r, BOTTOM_SPARE), Low(r, BOTTOM_SPARE))
  {
    hide Preimage, Shr, Low, Pow2;
    RestBound(r);
  }

  lemma {:induction false} InImage(f: int -> int, n: nat, r: int)
    requires 0 <= r < n
    ensures f(r) in Image(f, n)
  {
  }

  lemma {:induction false} StatesWithOutput(v: nat, s: nat)
    requires v < Pow2(XTYPE_BITS) && s < Pow2(BITS) && Output(s) == v
    ensures s in Image(StateWithOutput(v), Pow2(XTYPE_BITS))
  {
    hide *;
    PreimageOfOutput(s);
    WidthsAddUp();
    var r := Join(TopFive(s), LowRest(s), BOTTOM_SPARE);
    JoinBound(TopFive(s), LowRest(s), OP_BITS, BOTTOM_SPARE);
    JoinUnique(TopFive(s), LowRest(s), BOTTOM_SPARE);
    WidthsToXtype();
    StateWithOutputUnfolds(v, r);
    InImage(StateWithOutput(v), Pow2(XTYPE_BITS), r);
  }

  lemma {:induction false} WidthsToXtype()
    ensures OP_BITS + BOTTOM_SPARE == XTYPE_BITS
  {
  }

  lemma {:induction false} StateWithOutputInjective(v: nat)
    requires v < Pow2(XTYPE_BITS)
    ensures InjectiveOn(StateWithOutput(v), Pow2(XTYPE_BITS))
  {
    hide StateWithOutput, Pow2, Join, Output, TopFive, LowRest;
    forall i, j | 0 <= i < Pow2(XTYPE_BITS) && 0 <= j < Pow2(XTYPE_BITS) && StateWithOutput(v)(i) == StateWithOutput(v)(j)
      ensures i == j
    {
      StateWithOutputProperties(v, i);
      StateWithOutputProperties(v, j);
    }
  }

  lemma {:induction false} MomentsMeetStates(s: nat, v: nat)
    requires Word(s) && v < Pow2(XTYPE_BITS)
    ensures ImageOf(StateAt(s), Moments(s, v)) == Image(StateWithOutput(v), Pow2(XTYPE_BITS))
  {
    hide StateWithOutput, Pow2, Join, Output, TopFive, LowRest, State;
    var f, g := StateAt(s), StateWithOutput(v);
    assert ImageOf(f, Moments(s, v)) <= Image(g, Pow2(XTYPE_BITS)) by {
      forall x | x in ImageOf(f, Moments(s, v)) ensures x in Image(g, Pow2(XTYPE_BITS)) {
        StatesWithOutput(v, x);
      }
    }
    assert Image(g, Pow2(XTYPE_BITS)) <= ImageOf(f, Moments(s, v)) by {
      forall r: int | 0 <= r < Pow2(XTYPE_BITS) ensures g(r) in ImageOf(f, Moments(s, v)) {
        StateWithOutputProperties(v, r);
        VisitsEveryState(s, g(r));
        var i: int :| 0 <= i < Pow2(BITS) && f(i) == g(r);
        assert i in Moments(s, v);
      }
    }
  }

  /** Exact equidistribution: in one period from any state, every 32-bit value is returned
      exactly 2^32 times. */
  lemma {:induction false} Equidistributed(s: nat, v: nat)
    requires Word(s) && v < Pow2(XTYPE_BITS)
    ensures |Moments(s, v)| == Pow2(XTYPE_BITS)
  {
    hide StateWithOutput, Pow2, Output, State, StateAt;
    StatesDistinct(s);
    assert forall i | i in Moments(s, v) :: 0 <= i < Pow2(BITS);
    hide Moments;
    ImageOfSize(StateAt(s), Moments(s, v));
    StateWithOutputInjective(v);
    hide InjectiveOn;
    ImageSize(StateWithOutput(v), Pow2(XTYPE_BITS));
    MomentsMeetStates(s, v);
  }

  // ------------------------------------------------- the generator object

  class RandomPcg32Fast {
    var myInc: nat
    var myState: nat

    ghost predicate Valid()
      reads this
    {
      Word(myState) && myInc == INCREMENT
    }

    constructor (state: nat)
      requires Word(state)
      ensures Valid() && myState == SeededState(state)
    {
      myInc := INCREMENT;
      myState := Bump(Mod(state + INCREMENT, Pow2(BITS)));
    }

    /** Restarts the generator: a later sequence of draws depends on the seed alone. */
    method Seed(state: nat)
      requires Word(state)
      modifies this
      ensures Valid() && myState == SeededState(state)
    {
      myInc := INCREMENT;
      myState := Bump(Mod(state + INCREMENT, Pow2(BITS)));
    }

    method BaseGenerate0() returns (oldState: nat)
      requires Valid()
      modifies this
      ensures Valid() && oldState == old(myState) && myState == State(old(myState), 1)
    {
      oldState := myState;
      BumpIsStep(myState);
      hide Mod, Pow2, Bump;
      myState := Bump(myState);
      assert State(oldState, 1) == Step(MULTIPLIER, INCREMENT, Pow2(BITS), State(oldState, 0));
    }

    /** operator() */
    method Next() returns (value: nat)
      requires Valid()
      modifies this
      ensures Valid() && value == Output(old(myState)) < Pow2(XTYPE_BITS)
      ensures myState == State(old(myState), 1)
    {
      hide Output, State, Pow2;
      OutputParts(myState);
      var s := BaseGenerate0();
      value := Output(s);
    }
  }

  /** The state that a seed leads to: two steps, the first of them without a multiplication. */
  function SeededState(seed: nat): (r: nat)
    requires Word(seed)
    ensures Word(r)
  {
    Bump(Mod(seed + INCREMENT, Pow2(BITS)))
  }

  /** Seeding with the product of t and the multiplier is two steps from t. As the multiplier is odd, every
      seed is such a product, see SeedOfMultiple. */
  lemma {:induction false} SeedingIsTwoSteps(t: nat)
    requires Word(t)
    ensures Word(Mod(t * MULTIPLIER, Pow2(BITS)))
    ensures SeededState(Mod(t * MULTIPLIER, Pow2(BITS))) == State(t, 2)
  {
    hide Mod, Pow2, Step;
    BumpIsStep(t);
    BumpIsStep(Bump(t));
    assert State(t, 0) == t;
    assert State(t, 1) == Step(MULTIPLIER, INCREMENT, Pow2(BITS), t);
    assert State(t, 2) == Step(MULTIPLIER, INCREMENT, Pow2(BITS), State(t, 1));
  }

  lemma {:induction false} SeedOfMultiple(seed: nat)
    requires Word(seed)
    ensures exists t: nat :: Word(t) && Mod(t * MULTIPLIER, Pow2(BITS)) == seed
  {
    hide Mod, Pow2, Bump;
    var f := MultipleOf();
    forall i, j | 0 <= i < Pow2(BITS) && 0 <= j < Pow2(BITS) && f(i) == f(j) ensures i == j {
      MultipleInjective(i, j);
    }
    Onto(f, Pow2(BITS), seed);
    var t: int :| 0 <= t < Pow2(BITS) && f(t) == seed;
    assert Word(t);
  }

  function MultipleOf(): int -> int {
    (t: int) => Mod(t * MULTIPLIER, Pow2(BITS)) as int
  }

  lemma {:induction false} MultipleInjective(i: nat, j: nat)
    requires Word(i) && Word(j) && Mod(i * MULTIPLIER, Pow2(BITS)) == Mod(j * MULTIPLIER, Pow2(BITS))
    ensures i == j
  {
    hide Mod, Pow2;
    assert Bump(i) == Bump(j);
    hide Bump;
    BumpInjective(i, j);
  }

  /** A step can be undone: it comes back after the rest of the period. */
  lemma {:induction false} BumpInjective(s: nat, t: nat)
    requires Word(s) && Word(t) && Bump(s) == Bump(t)
    ensures s == t
  {
    hide *;
    OneStep(s);
    OneStep(t);
    AfterRestOfPeriod(s);
    AfterRestOfPeriod(t);
  }

  lemma {:induction false} OneStep(s: nat)
    requires Word(s)
    ensures State(s, 1) == Bump(s)
  {
    BumpIsStep(s);
    hide Step, Bump, Pow2;
    assert State(s, 0) == s;
  }

  lemma {:induction false} AfterRestOfPeriod(s: nat)
    requires Word(s)
    ensures State(State(s, 1), Pow2(BITS) - 1) == s
  {
    hide Step, Pow2, Mod;
    FullPeriod(s, Pow2(BITS));
    ModShift(Pow2(BITS), 0, 1, Pow2(BITS));
    ModSmall(0, Pow2(BITS));
    IterateAdd(MULTIPLIER, INCREMENT, Pow2(BITS), s, 1, Pow2(BITS) - 1);
  }

  /** Different seeds lead to different states. */
  lemma {:induction false} SeedsDistinct(s: nat, t: nat)
    requires Word(s) && Word(t) && SeededState(s) == SeededState(t)
    ensures s == t
  {
    hide Mod, Pow2, Bump;
    BumpInjective(Mod(s + INCREMENT, Pow2(BITS)), Mod(t + INCREMENT, Pow2(BITS)));
    ModEqual(s + INCREMENT, t + INCREMENT, Pow2(BITS));
    assert s + INCREMENT - (t + INCREMENT) == s - t;
    ModEqual(s, t, Pow2(BITS));
    ModSmall(s, Pow2(BITS));
    ModSmall(t, Pow2(BITS));
  }

  function StateOfSeed(): int -> int {
    (seed: int) => if Word(seed) then SeededState(seed) as int else seed
  }

  /** Every state is the state of exactly one seed. */
  lemma {:induction false} EveryStateIsSeeded(t: nat)
    requires Word(t)
    ensures exists seed: nat :: Word(seed) && SeededState(seed) == t
    ensures forall s: nat, s': nat | Word(s) && Word(s') && SeededState(s) == t == SeededState(s') :: s == s'
  {
    hide SeededState, Pow2;
    var f := StateOfSeed();
    forall s: nat, s': nat | Word(s) && Word(s') && SeededState(s) == SeededState(s') ensures s == s' {
      SeedsDistinct(s, s');
    }
    assert forall i | 0 <= i < Pow2(BITS) :: f(i) == SeededState(i) && Word(f(i));
    Onto(f, Pow2(BITS), t);
    var i: int :| 0 <= i < Pow2(BITS) && f(i) == t;
    assert Word(i) && SeededState(i) == t;
  }

  /** The default seed and what follows from it: the first two states. */
  lemma {:induction false} DefaultSeedStates()
    ensures Word(DEFAULT_SEED) && Word(0x4D59_5DF4_D0F3_3173)
    ensures SeededState(DEFAULT_SEED) == 0x4D59_5DF4_D0F3_3173
    ensures State(0x4D59_5DF4_D0F3_3173, 1) == 0x1321_90A1_439E_3F86
  {
    hide *;
    WordIs(0x4D59_5DF4_D0F3_3173);
    SeedIs();
    OneStep(0x4D59_5DF4_D0F3_3173);
    BumpIs(0x4D59_5DF4_D0F3_3173, 0x1321_90A1_439E_3F86, 1922891191308797048);
  }

  lemma {:induction false} SeedIs()
    ensures Word(DEFAULT_SEED) && SeededState(DEFAULT_SEED) == 0x4D59_5DF4_D0F3_3173
  {
    hide Pow2, Bump, Mod;
    WordIs(DEFAULT_SEED);
    WordIs(16070087622772795188);
    Pow2Values();
    ModSmall(DEFAULT_SEED + INCREMENT, 0x1_0000_0000_0000_0000);
    BumpIs(16070087622772795188, 0x4D59_5DF4_D0F3_3173, 5544188521932146579);
  }

  lemma {:induction false} WordIs(s: nat)
    requires s < 0x1_0000_0000_0000_0000
    ensures Word(s)
  {
    Pow2Values();
  }

  /** A step with the quotient by 2^64. */
  lemma {:induction false} BumpIs(s: nat, r: nat, q: nat)
    requires s * 6364136223846793005 + 1442695040888963407 == q * 0x1_0000_0000_0000_0000 + r && r < 0x1_0000_0000_0000_0000
    requires Word(s)
    ensures Bump(s) == r
  {
    hide Mod, Pow2, Step;
    BumpIsStep(s);
    StepIs(s);
    Pow2Values();
    ModShift(s * 6364136223846793005 + 1442695040888963407, r, q, 0x1_0000_0000_0000_0000);
    ModSmall(r, 0x1_0000_0000_0000_0000);
  }

  lemma {:induction false} StepIs(s: nat)
    ensures Step(MULTIPLIER, INCREMENT, Pow2(BITS), s) == Mod(s * 6364136223846793005 + 1442695040888963407, Pow2(64))
  {
    hide Mod, Pow2;
  }

  // ------------------------------------------------- get_random_big_uint

  /** The first c outputs from state s side by side, the first one on top. */
  function Concatenated(s: nat, c: nat): nat
    requires Word(s)
  {
    if c == 0 then 0 else Join(Concatenated(s, c - 1), Output(State(s, c - 1)), XTYPE_BITS)
  }

  lemma {:induction false} StateAdd(s: nat, i: nat)
    requires Word(s)
    ensures State(State(s, i), 1) == State(s, i + 1)
  {
    hide Step, Pow2;
    IterateAdd(MULTIPLIER, INCREMENT, Pow2(BITS), s, i, 1);
  }

  /** One shift and or in a word of w bits appends 32 bits. */
  lemma {:induction false} AppendWord(x: nat, v: nat, w: nat)
    requires v < Pow2(XTYPE_BITS) && XTYPE_BITS <= w
    ensures Or(Low(Join(Low(x, w), 0, XTYPE_BITS), w), v) == Low(Join(x, v, XTYPE_BITS), w)
  {
    hide *;
    var h := Low(x, w - XTYPE_BITS);
    LowJoin(Low(x, w), 0, XTYPE_BITS, w);
    LowLow(x, w, w - XTYPE_BITS);
    LowJoin(x, v, XTYPE_BITS, w);
    OrJoin(h, v, XTYPE_BITS);
  }

  lemma {:induction false} OrJoin(h: nat, v: nat, k: nat)
    requires v < Pow2(k)
    ensures Or(Join(h, 0, k), v) == Join(h, v, k)
  {
    hide Or, Pow2;
    OrDisjoint(v, h, k);
    OrCommutes(v, h * Pow2(k));
  }

  lemma {:induction false} OrCommutes(a: nat, b: nat)
    ensures Or(a, b) == Or(b, a)
    decreases a + b
  {
    if a != 0 || b != 0 {
      OrCommutes(a / 2, b / 2);
    }
  }

  /** Fills an unsigned integer of the given number of bits with consecutive outputs. */
  method GetRandomBigUint(rng: RandomPcg32Fast, digits: nat) returns (out: nat, ghost count: nat)
    requires rng.Valid()
    modifies rng
    ensures rng.Valid()
    ensures count >= 1 && digits <= 32 * count && (count > 1 ==> 32 * (count - 1) < digits)
    ensures out == Low(Concatenated(old(rng.myState), count), digits)
    ensures rng.myState == State(old(rng.myState), count)
  {
    hide *;
    ghost var s := rng.myState;
    ValidWord(rng);
    FirstDraw(s);
    var nextRandom := rng.Next();
    out := Low(nextRandom, digits);
    count := 1;
    var i := 32;
    while i < digits
      invariant rng.Valid() && count >= 1 && i == 32 * count
      invariant count > 1 ==> 32 * (count - 1) < digits
      invariant Word(s) && out == Low(Concatenated(s, count), digits)
      invariant rng.myState == State(s, count)
    {
      StateAdd(s, count);
      nextRandom := rng.Next();
      out := ShiftAndOr(out, nextRandom, digits, s, count);
      count := count + 1;
      i := i + 32;
    }
  }

  lemma {:induction false} ValidWord(rng: RandomPcg32Fast)
    requires rng.Valid()
    ensures Word(rng.myState)
  {
  }

  lemma {:induction false} FirstDraw(s: nat)
    requires Word(s)
    ensures State(s, 0) == s && Concatenated(s, 1) == Output(s)
  {
    hide Output, Pow2;
    assert Concatenated(s, 0) == 0;
    ConcatenatedStep(s, 0);
    assert Join(0, Output(s), XTYPE_BITS) == Output(s);
  }

  /** The loop body on the number: shift left within the word, then or the next output in. */
  method ShiftAndOr(x: nat, v: nat, digits: nat, ghost s: nat, ghost c: nat) returns (out: nat)
    requires Word(s) && digits >= 32 && x == Low(Concatenated(s, c), digits)
    requires v == Output(State(s, c)) < Pow2(XTYPE_BITS)
    ensures out == Low(Concatenated(s, c + 1), digits)
  {
    hide Concatenated, State, Output, Low, Join, Pow2, Or, Word;
    out := Low(Join(x, 0, XTYPE_BITS), digits);
    AppendWord(Concatenated(s, c), v, digits);
    ConcatenatedStep(s, c);
    out := Or(out, v);
  }

  lemma {:induction false} ConcatenatedStep(s: nat, c: nat)
    requires Word(s)
    ensures Concatenated(s, c + 1) == Join(Concatenated(s, c), Output(State(s, c)), XTYPE_BITS)
  {
    hide Output, Pow2, State, Word;
  }

  lemma {:induction false} OutputBound(s: nat, n: nat)
    requires Word(s)
    ensures Output(State(s, n)) < Pow2(XTYPE_BITS)
  {
    hide Output, Pow2, State;
    OutputParts(State(s, n));
  }

  lemma {:induction false} TopChunk(s: nat, c: nat)
    requires Word(s) && c > 0
    ensures Shr(Concatenated(s, c), XTYPE_BITS) == Concatenated(s, c - 1)
    ensures Low(Concatenated(s, c), XTYPE_BITS) == Output(State(s, c - 1))
  {
    hide *;
    ConcatenatedStep(s, c - 1);
    OutputBound(s, c - 1);
    JoinUnique(Concatenated(s, c - 1), Output(State(s, c - 1)), XTYPE_BITS);
  }

  /** No draw is lost: the j-th output can be read back from the concatenation. */
  lemma {:induction false} ConcatenatedChunk(s: nat, c: nat, j: nat)
    requires Word(s) && j < c
    ensures Low(Shr(Concatenated(s, c), Times(c - 1 - j, XTYPE_BITS)), XTYPE_BITS) == Output(State(s, j))
  {
    hide *;
    TopChunk(s, c);
    if j == c - 1 {
      TimesZero(XTYPE_BITS);
      ShrNone(Concatenated(s, c));
    } else {
      ConcatenatedChunk(s, c - 1, j);
      TimesStep(c - 1 - j, XTYPE_BITS);
      ShrShr(Concatenated(s, c), XTYPE_BITS, Times(c - 2 - j, XTYPE_BITS));
    }
  }

  function Times(k: nat, w: nat): nat {
    k * w
  }

  lemma {:induction false} TimesZero(w: nat)
    ensures Times(0, w) == 0
  {
  }

  lemma {:induction false} TimesStep(k: nat, w: nat)
    requires k > 0
    ensures Times(k, w) == w + Times(k - 1, w)
  {
  }

  lemma {:induction false} ShrNone(x: nat)
    ensures Shr(x, 0) == x
  {
  }
}
