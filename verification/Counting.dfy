/** Sizes of sets, numbers outside them, and a limit taken several times. */
module Counting {

  lemma {:induction false} SubsetCount<T>(a: set<T>, b: set<T>)
    requires a <= b
    ensures |a| <= |b|
  {
    assert b == a + (b - a);
  }

  /** `limit`, `d` times. */
  function Quota(limit: nat, d: nat): nat {
    if d == 0 then 0 else Quota(limit, d - 1) + limit
  }

  lemma {:induction false} QuotaIsProduct(limit: nat, d: nat)
    ensures Quota(limit, d) == limit * d
  {
    if d > 0 {
      QuotaIsProduct(limit, d - 1);
    }
  }

  lemma QuotaBound(all: nat, limit: nat, d: nat)
    requires all <= Quota(limit, d) + limit
    ensures all <= limit * (d + 1)
  {
    QuotaIsProduct(limit, d + 1);
  }

  /** The positions whose element satisfies a test. */
  function Satisfying<T>(xs: seq<T>, test: T -> bool): set<nat> {
    set k: nat | k < |xs| && test(xs[k])
  }

  lemma SatisfyingLast<T>(xs: seq<T>, test: T -> bool)
    requires xs != []
    ensures |Satisfying(xs, test)| == |Satisfying(xs[..|xs| - 1], test)| + if test(xs[|xs| - 1]) then 1 else 0
  {
    var n: nat := |xs| - 1;
    var front := Satisfying(xs[..n], test);
    assert Satisfying(xs, test) == front + if test(xs[n]) then {n} else {};
  }

  lemma {:induction false} SatisfyingConcat<T>(xs: seq<T>, ys: seq<T>, test: T -> bool)
    ensures |Satisfying(xs + ys, test)| == |Satisfying(xs, test)| + |Satisfying(ys, test)|
    decreases |ys|
  {
    if ys == [] {
      assert xs + ys == xs;
    } else {
      var n := |ys| - 1;
      assert (xs + ys)[..|xs + ys| - 1] == xs + ys[..n];
      SatisfyingLast(xs + ys, test);
      SatisfyingLast(ys, test);
      SatisfyingConcat(xs, ys[..n], test);
    }
  }

  lemma SatisfyingFirst<T>(xs: seq<T>, test: T -> bool)
    requires xs != []
    ensures |Satisfying(xs, test)| == (if test(xs[0]) then 1 else 0) + |Satisfying(xs[1..], test)|
  {
    assert xs == [xs[0]] + xs[1..];
    SatisfyingConcat([xs[0]], xs[1..], test);
    SatisfyingLast([xs[0]], test);
    assert Satisfying([xs[0]][..0], test) == {};
  }

  /** A number above all of a set. */
  lemma {:induction false} NatOutside(ns: set<nat>) returns (n: nat)
    ensures forall x :: x in ns ==> x < n
  {
    if ns == {} {
      n := 0;
    } else {
      var x :| x in ns;
      var m := NatOutside(ns - {x});
      n := if x < m then m else x + 1;
      assert forall y :: y in ns ==> y == x || y in ns - {x};
    }
  }
}
