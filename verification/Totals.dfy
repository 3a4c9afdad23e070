/** Weighted sums over sequences: the counting argument behind latches, wait sets and work bounds. */
module Totals {

  function Total<T>(xs: seq<T>, w: T -> nat): nat {
    if xs == [] then 0 else Total(xs[..|xs| - 1], w) + w(xs[|xs| - 1])
  }

  lemma TotalSnoc<T>(xs: seq<T>, x: T, w: T -> nat)
    ensures Total(xs + [x], w) == Total(xs, w) + w(x)
  {
    assert (xs + [x])[..|xs|] == xs;
  }

  lemma TotalCons<T>(x: T, xs: seq<T>, w: T -> nat)
    ensures Total([x] + xs, w) == w(x) + Total(xs, w)
  {
    TotalConcat([x], xs, w);
    assert [x][..0] == [];
  }

  /** The first entry of a sum apart from the others. */
  lemma TotalFirst<T>(xs: seq<T>, w: T -> nat)
    requires xs != []
    ensures Total(xs, w) == w(xs[0]) + Total(xs[1..], w)
  {
    hide Total;
    assert xs == [xs[0]] + xs[1..];
    TotalCons(xs[0], xs[1..], w);
  }

  lemma {:induction false} TotalConcat<T>(xs: seq<T>, ys: seq<T>, w: T -> nat)
    ensures Total(xs + ys, w) == Total(xs, w) + Total(ys, w)
  {
    if ys == [] {
      assert xs + ys == xs;
    } else {
      var zs := xs + ys;
      assert zs[..|zs| - 1] == xs + ys[..|ys| - 1];
      TotalConcat(xs, ys[..|ys| - 1], w);
    }
  }

  /** Replacing one entry changes the sum by the difference of the two weights. */
  lemma {:induction false} TotalUpdate<T>(xs: seq<T>, i: nat, x: T, w: T -> nat)
    requires i < |xs|
    ensures Total(xs[i := x], w) + w(xs[i]) == Total(xs, w) + w(x)
  {
    var n := |xs| - 1;
    if i == n {
      assert xs[i := x][..n] == xs[..n];
    } else {
      assert xs[i := x][..n] == xs[..n][i := x];
      TotalUpdate(xs[..n], i, x, w);
    }
  }

  lemma {:induction false} TotalAtLeast<T>(xs: seq<T>, i: nat, w: T -> nat)
    requires i < |xs|
    ensures w(xs[i]) <= Total(xs, w)
  {
    if i < |xs| - 1 {
      TotalAtLeast(xs[..|xs| - 1], i, w);
    }
  }

  lemma {:induction false} TotalAtMost<T>(xs: seq<T>, w: T -> nat, bound: nat)
    requires forall i :: 0 <= i < |xs| ==> w(xs[i]) <= bound
    ensures Total(xs, w) <= bound * |xs|
  {
    if xs != [] {
      TotalAtMost(xs[..|xs| - 1], w, bound);
      assert bound * |xs| == bound * (|xs| - 1) + bound;
    }
  }

  /** A positive sum has a positive entry. */
  lemma {:induction false} TotalWitness<T>(xs: seq<T>, w: T -> nat) returns (i: nat)
    requires Total(xs, w) > 0
    ensures i < |xs| && w(xs[i]) > 0
  {
    i := |xs| - 1;
    if w(xs[i]) == 0 {
      i := TotalWitness(xs[..i], w);
    }
  }
}
