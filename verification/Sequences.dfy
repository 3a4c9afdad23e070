/** Sorted integer sequences and the exchanges that sorting algorithms are made of. */
module Sequences {

  ghost predicate Sorted(s: seq<int>) {
    forall i, j :: 0 <= i < j < |s| ==> s[i] <= s[j]
  }

  function Min(x: int, y: int): int {
    if x <= y then x else y
  }

  function Max(x: int, y: int): int {
    if x <= y then y else x
  }

  function Swap(s: seq<int>, i: nat, j: nat): seq<int>
    requires i < |s| && j < |s|
  {
    s[i := s[j]][j := s[i]]
  }

  lemma SwapPermutes(s: seq<int>, i: nat, j: nat)
    requires i < |s| && j < |s|
    ensures multiset(Swap(s, i, j)) == multiset(s)
  {
  }

  /** A step-by-step ascending sequence is sorted. */
  lemma {:induction false} AdjacentSorted(s: seq<int>)
    requires forall i :: 0 < i < |s| ==> s[i - 1] <= s[i]
    ensures Sorted(s)
  {
    if |s| > 0 {
      var r := s[..|s| - 1];
      AdjacentSorted(r);
      forall i, j | 0 <= i < j < |s|
        ensures s[i] <= s[j]
      {
        if j == |s| - 1 {
          assert s[j - 1] <= s[j];
          assert i < j - 1 ==> r[i] <= r[j - 1];
        } else {
          assert r[i] <= r[j];
        }
      }
    }
  }

  /** Taking off the first element. */
  lemma FirstAndRest(s: seq<int>)
    requires |s| > 0
    ensures multiset(s) == multiset{s[0]} + multiset(s[1..])
  {
    assert s == [s[0]] + s[1..];
  }

  lemma SortedFirstIsLeast(s: seq<int>, x: int)
    requires Sorted(s) && x in multiset(s)
    ensures s[0] <= x
  {
  }

  lemma SameLength(s: seq<int>, t: seq<int>)
    requires multiset(s) == multiset(t)
    ensures |s| == |t|
  {
    assert |multiset(s)| == |s| && |multiset(t)| == |t|;
  }

  lemma SameRest(s: seq<int>, t: seq<int>)
    requires |s| > 0 && |t| > 0 && multiset(s) == multiset(t) && s[0] == t[0]
    ensures multiset(s[1..]) == multiset(t[1..])
  {
    FirstAndRest(s);
    FirstAndRest(t);
    assert multiset(s[1..]) == multiset(s) - multiset{s[0]};
    assert multiset(t[1..]) == multiset(t) - multiset{t[0]};
  }

  /** A multiset of integers has one sorted arrangement. */
  lemma {:induction false} SortedUnique(s: seq<int>, t: seq<int>)
    requires Sorted(s) && Sorted(t)
    requires multiset(s) == multiset(t)
    ensures s == t
  {
    SameLength(s, t);
    if |s| > 0 {
      assert s[0] == t[0] by {
        assert s[0] in multiset(s) && t[0] in multiset(t);
        SortedFirstIsLeast(s, t[0]);
        SortedFirstIsLeast(t, s[0]);
      }
      SameRest(s, t);
      SortedUnique(s[1..], t[1..]);
      assert s == [s[0]] + s[1..] && t == [t[0]] + t[1..];
    }
  }
}
