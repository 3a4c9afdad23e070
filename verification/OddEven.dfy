/**
 Odd-even transposition sort.

 A phase compares the disjoint pairs (i, i+1) with i of one parity; phases alternate between the two
 parities.  The phase bound is proved by counting: for a threshold v let c(j) be the number of elements
 at positions j and above that are at least v.  A phase replaces c(j) by min(c(j+1) + 1, c(j-1)) at every
 j inside a compared pair and keeps the other counts, which gives a lower bound that grows with the phases.
 */
module OddEven {
  import opened Sequences

  function PhaseAt(s: seq<int>, start: nat, i: nat): int
    requires i < |s|
  {
    if i % 2 == start then
      if i + 1 < |s| then Min(s[i], s[i + 1]) else s[i]
    else
      if i > 0 then Max(s[i - 1], s[i]) else s[i]
  }

  /** All pairs (i, i+1) with i of parity start, put in order at once. */
  function Phase(s: seq<int>, start: nat): (t: seq<int>)
    ensures |t| == |s|
  {
    seq(|s|, i requires 0 <= i < |s| => PhaseAt(s, start, i))
  }

  /** Some pair of the phase below position bound is out of order. */
  ghost predicate Dirty(s: seq<int>, start: nat, bound: int) {
    exists k :: 0 <= k < bound && k + 1 < |s| && k % 2 == start && s[k] > s[k + 1]
  }

  /** The array after t phases, the first one having parity first. */
  function Phases(s: seq<int>, first: nat, t: nat): (r: seq<int>)
    ensures |r| == |s|
  {
    if t == 0 then s else Phase(Phases(s, first, t - 1), (first + t - 1) % 2)
  }

  /** A phase changes the array exactly when one of its pairs is out of order. */
  lemma PhaseChanges(s: seq<int>, start: nat)
    requires start < 2
    ensures Phase(s, start) != s <==> Dirty(s, start, |s|)
  {
    var t := Phase(s, start);
    if Dirty(s, start, |s|) {
      var k :| 0 <= k < |s| && k + 1 < |s| && k % 2 == start && s[k] > s[k + 1];
      assert t[k] == s[k + 1];
    } else {
      forall i | 0 <= i < |s|
        ensures t[i] == s[i]
      {
        if i % 2 != start && i > 0 {
          assert (i - 1) % 2 == start;
        }
      }
    }
  }

  lemma PrefixByOne(s: seq<int>, k: nat)
    requires 1 <= k <= |s|
    ensures multiset(s[..k]) == multiset(s[..k - 1]) + multiset{s[k - 1]}
  {
    assert s[..k] == s[..k - 1] + [s[k - 1]];
  }

  lemma PrefixByTwo(s: seq<int>, k: nat)
    requires 2 <= k <= |s|
    ensures multiset(s[..k]) == multiset(s[..k - 2]) + multiset{s[k - 2], s[k - 1]}
  {
    assert s[..k] == s[..k - 2] + [s[k - 2], s[k - 1]];
  }

  /** Exchanging or keeping two neighbours permutes the prefix that ends with them. */
  lemma PairPermutes(s: seq<int>, t: seq<int>, k: nat)
    requires 2 <= k <= |s| == |t|
    requires multiset(t[..k - 2]) == multiset(s[..k - 2])
    requires (t[k - 2] == s[k - 2] && t[k - 1] == s[k - 1]) || (t[k - 2] == s[k - 1] && t[k - 1] == s[k - 2])
    ensures multiset(t[..k]) == multiset(s[..k])
  {
    PrefixByTwo(s, k);
    PrefixByTwo(t, k);
  }

  lemma {:induction false} PhasePermutesPrefix(s: seq<int>, start: nat, k: nat)
    requires start < 2 && k <= |s| && (k % 2 == start || k == |s| || k == 0)
    ensures multiset(Phase(s, start)[..k]) == multiset(s[..k])
  {
    var t := Phase(s, start);
    if k == 0 {
    } else if k == 1 || k % 2 != start {
      PhasePermutesPrefix(s, start, k - 1);
      assert t[k - 1] == s[k - 1];
      PrefixByOne(s, k);
      PrefixByOne(t, k);
    } else {
      PhasePermutesPrefix(s, start, k - 2);
      assert t[k - 2] == Min(s[k - 2], s[k - 1]) && t[k - 1] == Max(s[k - 2], s[k - 1]);
      PairPermutes(s, t, k);
    }
  }

  lemma {:induction false} PhasesPermute(s: seq<int>, first: nat, t: nat)
    ensures multiset(Phases(s, first, t)) == multiset(s)
  {
    hide Phase;
    if t > 0 {
      PhasesPermute(s, first, t - 1);
      var u := Phases(s, first, t - 1);
      var start := (first + t - 1) % 2;
      PhasePermutesPrefix(u, start, |u|);
      assert u[..|u|] == u && Phase(u, start)[..|u|] == Phase(u, start);
    }
  }

  /** How many elements at positions j and above are at least v. */
  function Above(s: seq<int>, j: nat, v: int): nat
    decreases |s| - j
  {
    if j >= |s| then 0 else (if s[j] >= v then 1 else 0) + Above(s, j + 1, v)
  }

  lemma {:induction false} AboveAtMost(s: seq<int>, j: nat, v: int)
    requires j <= |s|
    ensures Above(s, j, v) <= |s| - j
    ensures Above(s, 0, v) <= j + Above(s, j, v)
    ensures Above(s, 0, v) >= Above(s, j, v)
  {
    AboveSuffix(s, j, v);
    AboveDrop(s, j, v);
  }

  lemma {:induction false} AboveSuffix(s: seq<int>, j: nat, v: int)
    requires j <= |s|
    ensures Above(s, j, v) <= |s| - j
    decreases |s| - j
  {
    if j < |s| {
      AboveSuffix(s, j + 1, v);
    }
  }

  lemma {:induction false} AboveDrop(s: seq<int>, j: nat, v: int)
    requires j <= |s|
    ensures Above(s, j, v) <= Above(s, 0, v) <= j + Above(s, j, v)
  {
    if j > 0 {
      AboveDrop(s, j - 1, v);
    }
  }

  /** One phase on the counts: the boundaries inside compared pairs move, the others stay. */
  lemma {:induction false} PhaseAbove(s: seq<int>, start: nat, j: nat, v: int)
    requires start < 2 && j <= |s|
    ensures Above(Phase(s, start), j, v) ==
            if 0 < j < |s| && j % 2 != start
            then Min(Above(s, j + 1, v) + 1, Above(s, j - 1, v))
            else Above(s, j, v)
    decreases |s| - j
  {
    var t := Phase(s, start);
    if j < |s| {
      PhaseAbove(s, start, j + 1, v);
      if j % 2 == start && j + 1 < |s| {
        PhaseAbove(s, start, j + 2, v);
        assert t[j] == Min(s[j], s[j + 1]) && t[j + 1] == Max(s[j], s[j + 1]);
        assert Above(t, j, v) == (if t[j] >= v then 1 else 0) + ((if t[j + 1] >= v then 1 else 0) + Above(t, j + 2, v));
        assert Above(s, j, v) == (if s[j] >= v then 1 else 0) + ((if s[j + 1] >= v then 1 else 0) + Above(s, j + 2, v));
      } else if 0 < j && j % 2 != start {
        assert t[j] == Max(s[j - 1], s[j]);
        assert Above(s, j - 1, v) ==
               (if s[j - 1] >= v then 1 else 0) + ((if s[j] >= v then 1 else 0) + Above(s, j + 1, v));
      }
    }
  }

  /** After t phases at least this many large elements have reached position j or above. */
  function Reached(n: nat, m: nat, first: nat, t: nat, j: nat): int {
    Min(Min(m, n - j), (t - j + first) / 2 + (m + 1 - first) / 2)
  }

  /** The bound survives a phase, at a boundary that moves and at one that stays. */
  lemma ReachedStep(n: nat, m: nat, first: nat, t: nat, j: nat)
    requires first < 2 && 0 < t && j <= n
    ensures 0 < j < n && j % 2 != (first + t - 1) % 2 ==>
              Reached(n, m, first, t, j) <=
              Min(Reached(n, m, first, t - 1, j + 1) + 1, Reached(n, m, first, t - 1, j - 1))
    ensures j % 2 == (first + t - 1) % 2 ==> Reached(n, m, first, t, j) == Reached(n, m, first, t - 1, j)
  {
    if j % 2 == (first + t - 1) % 2 {
      assert (t - j + first) % 2 == 1;
    }
  }

  /** Before any phase the bound only says that at most j elements lie below position j. */
  lemma ReachedStart(n: nat, m: nat, first: nat, j: nat)
    requires first < 2 && j <= n
    ensures Reached(n, m, first, 0, j) <= Max(0, m - j)
  {
  }

  lemma ReachedAtMost(n: nat, m: nat, first: nat, t: nat, j: nat)
    ensures Reached(n, m, first, t, j) <= m && Reached(n, m, first, t, j) <= n - j
  {
  }

  /** The counts after one more phase, from lower bounds on the counts before it. */
  lemma PhaseRaises(u: seq<int>, m: nat, first: nat, t: nat, j: nat, v: int)
    requires first < 2 && 0 < t && 0 < j < |u|
    requires Above(u, j - 1, v) >= Reached(|u|, m, first, t - 1, j - 1)
    requires Above(u, j, v) >= Reached(|u|, m, first, t - 1, j)
    requires Above(u, j + 1, v) >= Reached(|u|, m, first, t - 1, j + 1)
    ensures Above(Phase(u, (first + t - 1) % 2), j, v) >= Reached(|u|, m, first, t, j)
  {
    PhaseAbove(u, (first + t - 1) % 2, j, v);
    ReachedStep(|u|, m, first, t, j);
  }

  lemma {:induction false} PhasesAbove(s: seq<int>, first: nat, t: nat, j: nat, v: int)
    requires first < 2 && j <= |s|
    ensures Above(Phases(s, first, t), j, v) >= Reached(|s|, Above(s, 0, v), first, t, j)
  {
    hide Phase, Reached;
    ReachedAtMost(|s|, Above(s, 0, v), first, t, j);
    if t == 0 {
      AboveAtMost(s, j, v);
      ReachedStart(|s|, Above(s, 0, v), first, j);
    } else if j == 0 {
      PhasesKeepAbove(s, first, t, v);
    } else if j < |s| {
      PhasesAbove(s, first, t - 1, j - 1, v);
      PhasesAbove(s, first, t - 1, j, v);
      PhasesAbove(s, first, t - 1, j + 1, v);
      PhaseRaises(Phases(s, first, t - 1), Above(s, 0, v), first, t, j, v);
    }
  }

  /** n phases sort n elements, whichever parity comes first. */
  lemma PhasesSort(s: seq<int>, first: nat)
    requires first < 2
    ensures Sorted(Phases(s, first, |s|))
  {
    var r, n := Phases(s, first, |s|), |s|;
    forall i | 0 < i < n
      ensures r[i - 1] <= r[i]
    {
      if r[i - 1] > r[i] {
        var v := r[i - 1];
        var m := Above(s, 0, v);
        PhasesAbove(s, first, n, i, v);
        PhasesKeepAbove(s, first, n, v);
        AboveAtMost(r, i + 1, v);
        AboveAtMost(r, i - 1, v);
      }
    }
    AdjacentSorted(r);
  }

  lemma {:induction false} PhasesKeepAbove(s: seq<int>, first: nat, t: nat, v: int)
    requires first < 2
    ensures Above(Phases(s, first, t), 0, v) == Above(s, 0, v)
  {
    hide Phase;
    if t > 0 {
      PhasesKeepAbove(s, first, t - 1, v);
      PhaseAbove(Phases(s, first, t - 1), (first + t - 1) % 2, 0, v);
    }
  }

  lemma SortedIsFixed(s: seq<int>, start: nat)
    requires Sorted(s)
    ensures Phase(s, start) == s
  {
  }

  /** From phase n on the array is sorted and no longer changes. */
  lemma {:induction false} PhasesStable(s: seq<int>, first: nat, t: nat)
    requires first < 2 && t >= |s|
    ensures Sorted(Phases(s, first, t))
    ensures Phases(s, first, t + 1) == Phases(s, first, t)
  {
    hide Phase, Sorted;
    if t == |s| {
      PhasesSort(s, first);
    } else {
      PhasesStable(s, first, t - 1);
    }
    SortedIsFixed(Phases(s, first, t), (first + t) % 2);
  }

  lemma PhaseOrders(u: seq<int>, start: nat, i: nat)
    requires start < 2 && i + 1 < |u| && i % 2 == start
    ensures Phase(u, start)[i] <= Phase(u, start)[i + 1]
  {
  }

  /** A phase of one parity that finds nothing to do, right after a phase of the other, means sorted. */
  lemma QuietPhaseSorted(u: seq<int>, start: nat)
    requires start < 2
    requires Phase(Phase(u, start), 1 - start) == Phase(u, start)
    ensures Sorted(Phase(u, start))
  {
    hide Phase, Dirty, Sorted;
    var t := Phase(u, start);
    PhaseChanges(t, 1 - start);
    forall i | 0 < i < |t|
      ensures t[i - 1] <= t[i]
    {
      if (i - 1) % 2 == start {
        PhaseOrders(u, start, i - 1);
      } else {
        NotDirty(t, 1 - start, i - 1);
      }
    }
    AdjacentSorted(t);
  }

  lemma NotDirty(s: seq<int>, start: nat, i: nat)
    requires i + 1 < |s| && i % 2 == start && !Dirty(s, start, |s|)
    ensures s[i] <= s[i + 1]
  {
  }

  /** The exit test of oddEvenSort after k phases: the k-th phase had parity 1 and exchanged nothing. */
  ghost predicate Stops(s: seq<int>, k: nat) {
    k > 0 && k % 2 == 0 && Phases(s, 0, k) == Phases(s, 0, k - 1)
  }

  /** oddEvenSort runs exactly k phases on s. */
  ghost predicate StopsFirstAt(s: seq<int>, k: nat) {
    Stops(s, k) && forall i: nat :: i < k ==> !Stops(s, i)
  }

  /** The exit test cannot be passed over: it holds at phase n + 1 or n + 2, whichever is even. */
  lemma StopsInTime(s: seq<int>, k: nat)
    requires forall i: nat :: i < k ==> !Stops(s, i)
    ensures k <= |s| + 2
    ensures k == |s| + 2 ==> Stops(s, k)
  {
    StopsAtEven(s, if |s| % 2 == 0 then |s| + 2 else |s| + 1);
  }

  lemma StopsAtEven(s: seq<int>, e: nat)
    requires e % 2 == 0 && e > |s|
    ensures Stops(s, e)
  {
    PhasesStable(s, 0, e - 1);
  }

  lemma LastTwoPhases(s: seq<int>, k: nat)
    requires k > 0 && k % 2 == 0
    ensures k >= 2
    ensures Phases(s, 0, k - 1) == Phase(Phases(s, 0, k - 2), 0)
    ensures Phases(s, 0, k) == Phase(Phases(s, 0, k - 1), 1)
  {
    hide Phase;
    assert (0 + (k - 1) - 1) % 2 == 0 && (0 + k - 1) % 2 == 1;
  }

  /** Stopping means sorted, even if the last phase of parity 0 still exchanged something. */
  lemma StoppedSorted(s: seq<int>, k: nat)
    requires Stops(s, k)
    ensures Sorted(Phases(s, 0, k)) && multiset(Phases(s, 0, k)) == multiset(s)
  {
    PhasesPermute(s, 0, k);
    LastTwoPhases(s, k);
    QuietPhaseSorted(Phases(s, 0, k - 2), 0);
  }

  /** Part of a phase done in place: the pairs that start below i are in order, the rest is untouched. */
  ghost predicate InPhase(base: seq<int>, cur: seq<int>, start: nat, i: nat) {
    |cur| == |base| && i % 2 == start < 2 && (i <= |base| || i == 1) &&
    forall k :: 0 <= k < |base| ==> cur[k] == if k < i then PhaseAt(base, start, k) else base[k]
  }

  lemma InPhaseStart(base: seq<int>, start: nat)
    requires start < 2
    ensures InPhase(base, base, start, start) && !Dirty(base, start, start)
  {
  }

  /** Comparing the next pair advances the phase. */
  lemma InPhaseStep(base: seq<int>, cur: seq<int>, next: seq<int>, start: nat, i: nat)
    requires InPhase(base, cur, start, i) && i < |base| - 1
    requires next == if cur[i] > cur[i + 1] then Swap(cur, i, i + 1) else cur
    ensures InPhase(base, next, start, i + 2)
    ensures Dirty(base, start, i + 2) <==> Dirty(base, start, i) || cur[i] > cur[i + 1]
  {
    forall k | 0 <= k < |base|
      ensures next[k] == if k < i + 2 then PhaseAt(base, start, k) else base[k]
    {
    }
    if cur[i] > cur[i + 1] {
      assert base[i] > base[i + 1];
    }
  }

  lemma InPhaseEnd(base: seq<int>, cur: seq<int>, start: nat, i: nat)
    requires InPhase(base, cur, start, i) && i >= |base| - 1
    ensures cur == Phase(base, start)
    ensures Dirty(base, start, i) <==> Phase(base, start) != base
  {
    PhaseChanges(base, start);
    var p := Phase(base, start);
    forall k | 0 <= k < |base|
      ensures cur[k] == p[k]
    {
    }
  }

  /** The for loop of one phase, in place. */
  method RunPhase(arr: array<int>, start: nat) returns (excFlag: int)
    requires start < 2
    modifies arr
    ensures arr[..] == Phase(old(arr[..]), start)
    ensures excFlag == if Phase(old(arr[..]), start) != old(arr[..]) then 1 else 0
  {
    hide Phase, Dirty;
    excFlag := 0;
    ghost var base := arr[..];
    var i := start;
    InPhaseStart(base, start);
    while i < arr.Length - 1
      invariant InPhase(base, arr[..], start, i)
      invariant excFlag == if Dirty(base, start, i) then 1 else 0
    {
      ghost var cur := arr[..];
      if arr[i] > arr[i + 1] {
        var temp := arr[i];
        arr[i] := arr[i + 1];
        arr[i + 1] := temp;
        excFlag := 1;
      }
      InPhaseStep(base, cur, arr[..], start, i);
      i := i + 2;
    }
    InPhaseEnd(base, arr[..], start, i);
  }

  /** Sorts in at most n + 2 phases; the ghost result counts them. */
  method OddEvenSort(arr: array<int>) returns (ghost phases: nat)
    modifies arr
    ensures Sorted(arr[..]) && multiset(arr[..]) == multiset(old(arr[..]))
    ensures StopsFirstAt(old(arr[..]), phases) && arr[..] == Phases(old(arr[..]), 0, phases)
    ensures phases <= arr.Length + 2
  {
    hide Phase;
    var excFlag, start := 1, 0;
    ghost var s := arr[..];
    phases := 0;
    while excFlag == 1 || start == 1
      invariant start == phases % 2
      invariant arr[..] == Phases(s, 0, phases)
      invariant excFlag == 1 <==> phases == 0 || Phases(s, 0, phases) != Phases(s, 0, phases - 1)
      invariant forall i: nat :: i < phases ==> !Stops(s, i)
      decreases |s| + 2 - phases
    {
      StopsInTime(s, phases);
      excFlag := RunPhase(arr, start);
      phases := phases + 1;
      if start == 0 {
        start := 1;
      } else {
        start := 0;
      }
    }
    StopsInTime(s, phases);
    StoppedSorted(s, phases);
  }

  /** Exchanges two elements that are out of order; positions given the wrong way round are left alone. */
  method SwapInOrder(a: array<int>, b: nat, c: nat)
    requires b < a.Length && c < a.Length
    modifies a
    ensures a[..] == if b < c && old(a[b]) > old(a[c]) then Swap(old(a[..]), b, c) else old(a[..])
  {
    if b < c {
      if a[b] > a[c] {
        var temp := a[b];
        a[b] := a[c];
        a[c] := temp;
      }
    }
  }

  /** The exit test of batcherSort after r rounds: neither phase of the last round exchanged anything. */
  ghost predicate BatcherStops(s: seq<int>, r: nat) {
    r > 0 && Phases(s, 1, 2 * r) == Phases(s, 1, 2 * r - 1) == Phases(s, 1, 2 * r - 2)
  }

  lemma BatcherStopsInTime(s: seq<int>, r: nat)
    requires forall i: nat :: i < r ==> !BatcherStops(s, i)
    ensures r <= (|s| + 1) / 2 + 1
    ensures r == (|s| + 1) / 2 + 1 ==> BatcherStops(s, r)
  {
    var e := (|s| + 1) / 2 + 1;
    PhasesStable(s, 1, 2 * e - 2);
    PhasesStable(s, 1, 2 * e - 1);
    assert BatcherStops(s, e);
  }

  lemma BatcherStoppedSorted(s: seq<int>, r: nat)
    requires BatcherStops(s, r)
    ensures Sorted(Phases(s, 1, 2 * r)) && multiset(Phases(s, 1, 2 * r)) == multiset(s)
  {
    PhasesPermute(s, 1, 2 * r);
    RoundIsTwoPhases(s, r);
    QuietPhaseSorted(Phases(s, 1, 2 * r - 2), 1);
  }

  /** The for loop of one phase of batcherSort, in place. */
  method RunBatcherPhase(arr: array<int>, first: nat) returns (quiet: bool)
    requires first < 2
    modifies arr
    ensures arr[..] == Phase(old(arr[..]), first)
    ensures quiet <==> Phase(old(arr[..]), first) == old(arr[..])
  {
    hide Phase, Dirty;
    quiet := true;
    ghost var base := arr[..];
    var i := first;
    InPhaseStart(base, first);
    while i < arr.Length - 1
      invariant InPhase(base, arr[..], first, i)
      invariant quiet <==> !Dirty(base, first, i)
    {
      ghost var cur := arr[..];
      if arr[i] > arr[i + 1] {
        SwapInOrder(arr, i, i + 1);
        quiet := false;
      }
      InPhaseStep(base, cur, arr[..], first, i);
      i := i + 2;
    }
    InPhaseEnd(base, arr[..], first, i);
  }

  /** Sorts in at most (n + 1) / 2 + 1 rounds of two phases, parity 1 first. */
  method BatcherSort(arr: array<int>) returns (ghost rounds: nat)
    modifies arr
    ensures Sorted(arr[..]) && multiset(arr[..]) == multiset(old(arr[..]))
    ensures BatcherStops(old(arr[..]), rounds) && arr[..] == Phases(old(arr[..]), 1, 2 * rounds)
    ensures rounds <= (arr.Length + 1) / 2 + 1
  {
    hide Phase;
    ghost var s := arr[..];
    var flag := false;
    rounds := 0;
    while !flag
      invariant arr[..] == Phases(s, 1, 2 * rounds)
      invariant flag <==> BatcherStops(s, rounds)
      invariant forall i: nat :: i < rounds ==> !BatcherStops(s, i)
      decreases (|s| + 1) / 2 + 1 - rounds
    {
      BatcherStopsInTime(s, rounds);
      var quiet1 := RunBatcherPhase(arr, 1);
      var quiet0 := RunBatcherPhase(arr, 0);
      flag := quiet1 && quiet0;
      rounds := rounds + 1;
      RoundIsTwoPhases(s, rounds);
    }
    BatcherStopsInTime(s, rounds);
    BatcherStoppedSorted(s, rounds);
  }

  lemma RoundIsTwoPhases(s: seq<int>, r: nat)
    requires r > 0
    ensures Phases(s, 1, 2 * r - 1) == Phase(Phases(s, 1, 2 * r - 2), 1)
    ensures Phases(s, 1, 2 * r) == Phase(Phases(s, 1, 2 * r - 1), 0)
  {
    hide Phase;
    assert (1 + (2 * r - 1) - 1) % 2 == 1 && (1 + 2 * r - 1) % 2 == 0;
  }
}
