/** Counting on finite ranges: an injective map of a range into itself is onto, and injective
    images have as many elements as their arguments. */
module Counting {

  function Range(n: nat): (s: set<int>)
    ensures forall i :: i in s <==> 0 <= i < n
  {
    if n == 0 then {} else Range(n - 1) + {n - 1}
  }

  predicate InjectiveOn(f: int -> int, n: nat) {
    forall i, j | 0 <= i < n && 0 <= j < n && f(i) == f(j) :: i == j
  }

  function Image(f: int -> int, n: nat): set<int> {
    set i: int | 0 <= i < n :: f(i)
  }

  lemma {:induction false} RangeSize(n: nat)
    ensures |Range(n)| == n
  {
    if n > 0 {
      RangeSize(n - 1);
    }
  }

  lemma {:induction false} ImageSize(f: int -> int, n: nat)
    requires InjectiveOn(f, n)
    ensures |Image(f, n)| == n
  {
    if n == 0 {
      assert Image(f, n) == {};
    } else {
      ImageStep(f, n);
      ImageSize(f, n - 1);
      hide Image, InjectiveOn;
    }
  }

  lemma {:induction false} ImageStep(f: int -> int, n: nat)
    requires n > 0 && InjectiveOn(f, n)
    ensures InjectiveOn(f, n - 1) && Image(f, n) == Image(f, n - 1) + {f(n - 1)} && f(n - 1) !in Image(f, n - 1)
  {
    forall y ensures y in Image(f, n) <==> y in Image(f, n - 1) + {f(n - 1)} {
      if y in Image(f, n) {
        var i :| 0 <= i < n && f(i) == y;
        assert i == n - 1 || y in Image(f, n - 1);
      }
    }
  }

  lemma {:induction false} FullSubset(s: set<int>, t: set<int>)
    requires s <= t && |s| == |t|
    ensures s == t
  {
    assert t == s + (t - s);
  }

  /** The pigeonhole principle: an injective map of 0..n into itself takes every value. */
  lemma {:induction false} Onto(f: int -> int, n: nat, y: int)
    requires InjectiveOn(f, n) && (forall i | 0 <= i < n :: 0 <= f(i) < n) && 0 <= y < n
    ensures exists i :: 0 <= i < n && f(i) == y
  {
    ImageSize(f, n);
    RangeSize(n);
    FullSubset(Image(f, n), Range(n));
    assert y in Image(f, n);
  }

  lemma {:induction false} Pick<T>(s: set<T>) returns (x: T)
    requires s != {}
    ensures x in s
  {
    x :| x in s;
  }

  function ImageOf(f: int -> int, s: set<int>): set<int> {
    set i | i in s :: f(i)
  }

  lemma {:induction false} ImageOfSize(f: int -> int, s: set<int>)
    requires forall i, j | i in s && j in s && f(i) == f(j) :: i == j
    ensures |ImageOf(f, s)| == |s|
    decreases |s|
  {
    if |s| > 0 {
      var x := Pick(s);
      ImageOfSize(f, s - {x});
      assert ImageOf(f, s) == ImageOf(f, s - {x}) + {f(x)};
    }
  }
}
