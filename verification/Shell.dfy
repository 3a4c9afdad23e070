/**
 Insertion sort and Shell sort.

 A pass with gap h sorts every chain of positions h apart.  Knuth's theorem, that a pass keeps every other
 gap sorted, is proved by counting the elements of a chain that do not exceed a threshold.
 */
module Shell {
  import opened Arithmetic
  import OddEven
  import opened Sequences

  ghost predicate HSorted(s: seq<int>, h: nat) {
    forall i :: h <= i < |s| ==> s[i - h] <= s[i]
  }

  /** The element at j sinks through its chain until its predecessor does not exceed it. */
  function InsertAt(s: seq<int>, h: nat, j: nat): (r: seq<int>)
    requires h > 0 && j < |s|
    ensures |r| == |s|
    decreases j
  {
    if j < h || s[j - h] <= s[j] then s else InsertAt(Swap(s, j - h, j), h, j - h)
  }

  /** A pass with gap h that has inserted the elements below i. */
  function PassTo(s: seq<int>, h: nat, i: nat): (r: seq<int>)
    requires h > 0 && i <= |s|
    ensures |r| == |s|
  {
    if i <= h then s else InsertAt(PassTo(s, h, i - 1), h, i - 1)
  }

  function ShellPass(s: seq<int>, h: nat): (r: seq<int>)
    requires h > 0
    ensures |r| == |s|
  {
    PassTo(s, h, |s|)
  }

  /** Sorted at gap h below bound, except for the element at hole, which may be too small. */
  ghost predicate SortedButFor(s: seq<int>, h: nat, hole: nat, bound: nat) {
    bound <= |s| &&
    (forall k :: h <= k < bound && k != hole ==> s[k - h] <= s[k]) &&
    (h <= hole && hole + h < bound ==> s[hole - h] <= s[hole + h])
  }

  lemma {:induction false} InsertAtSorts(s: seq<int>, h: nat, j: nat, bound: nat)
    requires h > 0 && j < |s| && SortedButFor(s, h, j, bound)
    ensures forall k :: h <= k < bound ==> InsertAt(s, h, j)[k - h] <= InsertAt(s, h, j)[k]
    decreases j
  {
    if j < h || s[j - h] <= s[j] {
    } else {
      InsertAtSorts(Swap(s, j - h, j), h, j - h, bound);
    }
  }

  lemma {:induction false} PassToSorts(s: seq<int>, h: nat, i: nat)
    requires h > 0 && i <= |s|
    ensures forall k :: h <= k < i ==> PassTo(s, h, i)[k - h] <= PassTo(s, h, i)[k]
  {
    hide InsertAt;
    if i > h {
      PassToSorts(s, h, i - 1);
      InsertAtSorts(PassTo(s, h, i - 1), h, i - 1, i);
    }
  }

  lemma {:induction false} InsertAtPermutes(s: seq<int>, h: nat, j: nat)
    requires h > 0 && j < |s|
    ensures multiset(InsertAt(s, h, j)) == multiset(s)
    decreases j
  {
    if j < h || s[j - h] <= s[j] {
    } else {
      SwapPermutes(s, j - h, j);
      InsertAtPermutes(Swap(s, j - h, j), h, j - h);
    }
  }

  lemma {:induction false} PassToPermutes(s: seq<int>, h: nat, i: nat)
    requires h > 0 && i <= |s|
    ensures multiset(PassTo(s, h, i)) == multiset(s)
  {
    hide InsertAt;
    if i > h {
      PassToPermutes(s, h, i - 1);
      InsertAtPermutes(PassTo(s, h, i - 1), h, i - 1);
    }
  }

  /** A pass with gap h h-sorts and permutes. */
  lemma PassSorts(s: seq<int>, h: nat)
    requires h > 0
    ensures HSorted(ShellPass(s, h), h)
    ensures multiset(ShellPass(s, h)) == multiset(s)
  {
    hide PassTo;
    PassToSorts(s, h, |s|);
    PassToPermutes(s, h, |s|);
  }

  // ---------- Knuth's theorem

  /** How many elements at p, p + h, p + 2h, ... are at most v. */
  function AtMost(s: seq<int>, h: nat, p: nat, v: int): nat
    requires h > 0
    decreases |s| - p
  {
    if p >= |s| then 0 else (if s[p] <= v then 1 else 0) + AtMost(s, h, p + h, v)
  }

  /** An exchange inside a chain changes no count that starts at or below both positions. */
  lemma {:induction false} SwapKeepsCounts(s: seq<int>, h: nat, q: nat, p: nat, v: int)
    requires h > 0 && q + h < |s| && p != q + h
    ensures AtMost(Swap(s, q, q + h), h, p, v) == AtMost(s, h, p, v)
    decreases |s| - p
  {
    if p < |s| {
      if p == q {
        SwapKeepsCounts(s, h, q, p + h + h, v);
      } else {
        SwapKeepsCounts(s, h, q, p + h, v);
      }
    }
  }

  lemma {:induction false} InsertAtKeepsCounts(s: seq<int>, h: nat, j: nat, p: nat, v: int)
    requires h > 0 && j < |s| && p < h
    ensures AtMost(InsertAt(s, h, j), h, p, v) == AtMost(s, h, p, v)
    decreases j
  {
    hide AtMost;
    if j < h || s[j - h] <= s[j] {
    } else {
      SwapKeepsCounts(s, h, j - h, p, v);
      InsertAtKeepsCounts(Swap(s, j - h, j), h, j - h, p, v);
    }
  }

  lemma {:induction false} PassToKeepsCounts(s: seq<int>, h: nat, i: nat, p: nat, v: int)
    requires h > 0 && i <= |s| && p < h
    ensures AtMost(PassTo(s, h, i), h, p, v) == AtMost(s, h, p, v)
  {
    hide AtMost, InsertAt;
    if i > h {
      PassToKeepsCounts(s, h, i - 1, p, v);
      InsertAtKeepsCounts(PassTo(s, h, i - 1), h, i - 1, p, v);
    }
  }

  lemma {:induction false} ChainAscends(t: seq<int>, h: nat, p: nat, k: nat)
    requires h > 0 && HSorted(t, h) && p + k * h < |t|
    ensures t[p] <= t[p + k * h]
    decreases k
  {
    if k > 0 {
      assert p + k * h == p + h + (k - 1) * h;
      ChainAscends(t, h, p + h, k - 1);
      assert t[p + h - h] <= t[p + h];
    }
  }

  /** The k-th element of a sorted chain and its k predecessors do not exceed it. */
  lemma {:induction false} RankAtLeast(t: seq<int>, h: nat, p: nat, k: nat)
    requires h > 0 && HSorted(t, h) && p + k * h < |t|
    ensures AtMost(t, h, p, t[p + k * h]) >= k + 1
    decreases k
  {
    ChainAscends(t, h, p, k);
    if k > 0 {
      assert p + k * h == p + h + (k - 1) * h;
      RankAtLeast(t, h, p + h, k - 1);
    }
  }

  lemma {:induction false} NoneAtMost(t: seq<int>, h: nat, p: nat, v: int)
    requires h > 0 && HSorted(t, h) && p < |t| && t[p] > v
    ensures AtMost(t, h, p, v) == 0
    decreases |t| - p
  {
    if p + h < |t| {
      assert t[p + h - h] <= t[p + h];
      NoneAtMost(t, h, p + h, v);
    }
  }

  /** If the k-th element of a sorted chain exceeds v, at most its k predecessors do not. */
  lemma {:induction false} RankAtMost(t: seq<int>, h: nat, p: nat, k: nat, v: int)
    requires h > 0 && HSorted(t, h) && p + k * h < |t| && t[p + k * h] > v
    ensures AtMost(t, h, p, v) <= k
    decreases k
  {
    if k == 0 {
      NoneAtMost(t, h, p, v);
    } else {
      assert p + k * h == p + h + (k - 1) * h;
      RankAtMost(t, h, p + h, k - 1, v);
    }
  }

  lemma {:induction false} SkipAhead(s: seq<int>, h: nat, p: nat, k: nat, v: int)
    requires h > 0
    ensures AtMost(s, h, p, v) <= k + AtMost(s, h, p + k * h, v)
    decreases k
  {
    if k > 0 && p < |s| {
      assert p + k * h == p + h + (k - 1) * h;
      SkipAhead(s, h, p + h, k - 1, v);
    }
  }

  /** In a g-sorted array the chain shifted up by g has no more small elements. */
  lemma {:induction false} ShiftedCount(s: seq<int>, h: nat, g: nat, p: nat, v: int)
    requires h > 0 && HSorted(s, g)
    ensures AtMost(s, h, p + g, v) <= AtMost(s, h, p, v)
    decreases |s| - p
  {
    if p + g < |s| {
      assert s[p + g - g] <= s[p + g];
      ShiftedCount(s, h, g, p + h, v);
      assert p + g + h == p + h + g;
    }
  }

  /** The position g above i lies k' - k steps further along its chain than i does along its own. */
  lemma ChainSteps(i: nat, g: nat, h: nat)
    requires h > 0
    ensures i == i % h + (i / h) * h && i + g == (i + g) % h + ((i + g) / h) * h
    ensures i / h <= (i + g) / h
  {
    if (i + g) / h < i / h {
      NextMultiple((i + g) / h, i / h, h);
    }
  }

  lemma KnuthCount(s: seq<int>, h: nat, g: nat, p: nat, k: nat, q: nat, k': nat)
    requires h > 0 && HSorted(s, g) && p < h && q < h && k <= k'
    requires p + k * h + g == q + k' * h < |s|
    ensures ShellPass(s, h)[p + k * h] <= ShellPass(s, h)[q + k' * h]
  {
    hide PassTo, HSorted, AtMost;
    var t := ShellPass(s, h);
    var v := t[q + k' * h];
    PassSorts(s, h);
    RankAtLeast(t, h, q, k');
    PassToKeepsCounts(s, h, |s|, q, v);
    SkipAhead(s, h, q, k' - k, v);
    assert q + (k' - k) * h == p + g;
    ShiftedCount(s, h, g, p, v);
    PassToKeepsCounts(s, h, |s|, p, v);
    if t[p + k * h] > v {
      RankAtMost(t, h, p, k, v);
    }
  }

  /** Sorting the chains of gap h keeps every gap g sorted. */
  lemma KnuthAt(s: seq<int>, h: nat, g: nat, i: nat)
    requires h > 0 && HSorted(s, g) && i + g < |s|
    ensures ShellPass(s, h)[i] <= ShellPass(s, h)[i + g]
  {
    hide ShellPass, HSorted;
    ChainSteps(i, g, h);
    KnuthCount(s, h, g, i % h, i / h, (i + g) % h, (i + g) / h);
  }

  lemma Knuth(s: seq<int>, h: nat, g: nat)
    requires h > 0 && HSorted(s, g)
    ensures HSorted(ShellPass(s, h), g)
  {
    hide ShellPass;
    forall i | g <= i < |s|
      ensures ShellPass(s, h)[i - g] <= ShellPass(s, h)[i]
    {
      KnuthAt(s, h, g, i - g);
    }
  }

  // ---------- the gaps

  /** 0, 1, 4, 13, 40, ... */
  function Gap(k: nat): nat {
    if k == 0 then 0 else 3 * Gap(k - 1) + 1
  }

  function Pow3(k: nat): nat {
    if k == 0 then 1 else 3 * Pow3(k - 1)
  }

  /** The gaps are (3^k - 1) / 2, and the update (h - 1) / 3 retraces them down to 1 and then 0. */
  lemma {:induction false} GapShape(k: nat)
    ensures 2 * Gap(k) + 1 == Pow3(k)
    ensures k > 0 ==> Gap(k) >= k && (Gap(k) - 1) / 3 == Gap(k - 1)
    ensures Gap(k) == 1 <==> k == 1
  {
    if k > 0 {
      GapShape(k - 1);
    }
  }

  /** The level at which the first loop of shellSort stops, started at level k. */
  function LevelFrom(n: nat, k: nat): (top: nat)
    requires k > 0
    ensures top >= k
    decreases n - Gap(k)
  {
    GapShape(k);
    if Gap(k) <= n / 3 then LevelFrom(n, k + 1) else k
  }

  function Top(n: nat): (top: nat)
    ensures top > 0
  {
    LevelFrom(n, 1)
  }

  lemma {:induction false} LevelBound(n: nat, k: nat)
    requires k > 0 && Gap(k) <= n + 1
    ensures n / 3 < Gap(LevelFrom(n, k)) <= n + 1
    decreases n - Gap(k)
  {
    GapShape(k);
    if Gap(k) <= n / 3 {
      LevelBound(n, k + 1);
    }
  }

  /** For every Java array length the gaps stay in int range: none is 2^31. */
  lemma TopGap(n: nat)
    ensures n / 3 < Gap(Top(n)) <= n + 1
    ensures n < 0x8000_0000 ==> Gap(Top(n)) < 0x8000_0000
  {
    LevelBound(n, 1);
    if n == 0x7fff_ffff && Gap(Top(n)) == n + 1 {
      NoGapAtLimit(Top(n));
    }
  }

  lemma {:induction false} GapMonotone(j: nat, k: nat)
    requires j <= k
    ensures Gap(j) <= Gap(k)
  {
    if j < k {
      GapMonotone(j, k - 1);
    }
  }

  lemma NoGapAtLimit(k: nat)
    ensures Gap(k) != 0x8000_0000
  {
    assert Gap(5) == 121;
    assert Gap(10) == 243 * Gap(5) + 121;
    assert Gap(15) == 243 * Gap(10) + 121;
    assert Gap(20) == 243 * Gap(15) + 121;
    if k <= 20 {
      GapMonotone(k, 20);
    } else {
      GapMonotone(21, k);
    }
  }

  // ---------- whole sorts

  /** The array after the passes with gaps Gap(top), ..., Gap(k + 1). */
  function RunDown(s: seq<int>, top: nat, k: nat): (r: seq<int>)
    ensures |r| == |s|
    decreases top - k
  {
    if k >= top then s else
      GapShape(k + 1);
      ShellPass(RunDown(s, top, k + 1), Gap(k + 1))
  }

  function ShellSorted(s: seq<int>): seq<int> {
    RunDown(s, Top(|s|), 0)
  }

  /** Before the pass at level k the array is sorted at every larger gap at once. */
  lemma {:induction false} EarlierGapsHold(s: seq<int>, top: nat, k: nat, j: nat)
    requires k < j <= top
    ensures HSorted(RunDown(s, top, k), Gap(j))
    decreases top - k
  {
    hide HSorted, ShellPass, Gap;
    GapShape(k + 1);
    if j == k + 1 {
      PassSorts(RunDown(s, top, k + 1), Gap(k + 1));
    } else {
      EarlierGapsHold(s, top, k + 1, j);
      Knuth(RunDown(s, top, k + 1), Gap(k + 1), Gap(j));
    }
  }

  lemma {:induction false} RunDownPermutes(s: seq<int>, top: nat, k: nat)
    ensures multiset(RunDown(s, top, k)) == multiset(s)
    decreases top - k
  {
    hide ShellPass, Gap;
    if k < top {
      RunDownPermutes(s, top, k + 1);
      GapShape(k + 1);
      PassSorts(RunDown(s, top, k + 1), Gap(k + 1));
    }
  }

  lemma OneSorted(s: seq<int>)
    requires HSorted(s, 1)
    ensures Sorted(s)
  {
    AdjacentSorted(s);
  }

  lemma ShellSorts(s: seq<int>)
    ensures Sorted(ShellSorted(s)) && multiset(ShellSorted(s)) == multiset(s)
  {
    hide RunDown, Top;
    EarlierGapsHold(s, Top(|s|), 0, 1);
    assert Gap(1) == 1;
    OneSorted(ShellSorted(s));
    RunDownPermutes(s, Top(|s|), 0);
  }

  /** All four sorts of the class produce the same array. */
  lemma SortsAgree(s: seq<int>, phases: nat, rounds: nat)
    requires OddEven.Stops(s, phases) && OddEven.BatcherStops(s, rounds)
    ensures ShellSorted(s) == ShellPass(s, 1) == OddEven.Phases(s, 0, phases) == OddEven.Phases(s, 1, 2 * rounds)
  {
    hide ShellSorted, ShellPass, OddEven.Phases;
    ShellSorts(s);
    PassSorts(s, 1);
    OneSorted(ShellPass(s, 1));
    OddEven.StoppedSorted(s, phases);
    OddEven.BatcherStoppedSorted(s, rounds);
    SortedUnique(ShellSorted(s), ShellPass(s, 1));
    SortedUnique(ShellPass(s, 1), OddEven.Phases(s, 0, phases));
    SortedUnique(ShellPass(s, 1), OddEven.Phases(s, 1, 2 * rounds));
  }

  /** The shift loop in the middle of inserting: key is held out of the array, the gap it left is at hole. */
  ghost predicate Shifting(start: seq<int>, cur: seq<int>, h: nat, i: nat, hole: int, key: int) {
    h > 0 && |cur| == |start| && 0 <= hole < |cur| && i < |start| &&
    InsertAt(cur[hole := key], h, hole) == InsertAt(start, h, i)
  }

  lemma ShiftOne(start: seq<int>, cur: seq<int>, h: nat, i: nat, hole: int, key: int)
    requires Shifting(start, cur, h, i, hole, key) && hole >= h && cur[hole - h] > key
    ensures Shifting(start, cur[hole := cur[hole - h]], h, i, hole - h, key)
  {
    assert cur[hole := cur[hole - h]][hole - h := key] == Swap(cur[hole := key], hole - h, hole);
  }

  method InsertSort(arr: array<int>)
    modifies arr
    ensures arr[..] == ShellPass(old(arr[..]), 1)
    ensures Sorted(arr[..]) && multiset(arr[..]) == multiset(old(arr[..]))
  {
    hide InsertAt;
    var length := arr.Length;
    ghost var s := arr[..];
    var i := 1;
    while i < length
      invariant i >= 1 && (i <= length || i == 1)
      invariant arr[..] == if i <= length then PassTo(s, 1, i) else s
    {
      var key := arr[i];
      var j := i - 1;
      ghost var start := arr[..];
      assert arr[..][i := key] == start;
      while j >= 0 && arr[j] > key
        invariant 0 <= j + 1 && j < i
        invariant Shifting(start, arr[..], 1, i, j + 1, key)
      {
        ShiftOne(start, arr[..], 1, i, j + 1, key);
        arr[j + 1] := arr[j];
        j := j - 1;
      }
      ShiftEnd(start, arr[..], 1, i, j + 1, key);
      arr[j + 1] := key;
      i := i + 1;
    }
    PassBeyond(s, 1);
    PassSorts(s, 1);
    OneSorted(ShellPass(s, 1));
  }

  lemma ShiftEnd(start: seq<int>, cur: seq<int>, h: nat, i: nat, hole: int, key: int)
    requires Shifting(start, cur, h, i, hole, key) && (hole >= h ==> cur[hole - h] <= key)
    ensures cur[hole := key] == InsertAt(start, h, i)
  {
  }

  /** The for loop of one gap, in place. */
  method RunShellPass(arr: array<int>, h: nat)
    requires h > 0
    modifies arr
    ensures arr[..] == ShellPass(old(arr[..]), h)
  {
    ghost var s := arr[..];
    var i := h;
    while i < arr.Length
      invariant i >= h && (i <= arr.Length || i == h)
      invariant arr[..] == if i <= arr.Length then PassTo(s, h, i) else s
      decreases arr.Length - i
    {
      InsertInPlace(arr, h, i);
      i := i + 1;
    }
    PassBeyond(s, h);
  }

  lemma {:induction false} PassBeyond(s: seq<int>, h: nat)
    requires h > 0
    ensures h >= |s| ==> ShellPass(s, h) == s
  {
  }

  /** The loop body: the element at i is inserted into the chain below it. */
  method InsertInPlace(arr: array<int>, h: nat, i: nat)
    requires 0 < h <= i < arr.Length
    modifies arr
    ensures arr[..] == InsertAt(old(arr[..]), h, i)
  {
    ghost var start := arr[..];
    if arr[i] < arr[i - h] {
      hide InsertAt;
      var tmp := arr[i];
      var j := i - h;
      assert arr[..][i := tmp] == start;
      while j >= 0 && arr[j] > tmp
        invariant 0 <= j + h && j < i
        invariant Shifting(start, arr[..], h, i, j + h, tmp)
        decreases j + h
      {
        ShiftOne(start, arr[..], h, i, j + h, tmp);
        arr[j + h] := arr[j];
        j := j - h;
      }
      ShiftEnd(start, arr[..], h, i, j + h, tmp);
      arr[j + h] := tmp;
    }
  }

  method ShellSort(arr: array<int>)
    modifies arr
    ensures arr[..] == ShellSorted(old(arr[..]))
    ensures Sorted(arr[..]) && multiset(arr[..]) == multiset(old(arr[..]))
  {
    hide ShellPass;
    ghost var s := arr[..];
    ghost var k: int := 1;
    var h := 1;
    while h <= arr.Length / 3
      invariant k > 0 && h == Gap(k) && Top(arr.Length) == LevelFrom(arr.Length, k)
      decreases arr.Length - h
    {
      h := h * 3 + 1;
      k := k + 1;
    }
    while h > 0
      invariant k >= 0 && h == Gap(k) && k <= Top(arr.Length)
      invariant arr[..] == RunDown(s, Top(arr.Length), k)
      decreases k
    {
      GapShape(k);
      RunShellPass(arr, h);
      h := (h - 1) / 3;
      k := k - 1;
    }
    assert k == 0 by { GapShape(k); }
    ShellSorts(s);
  }
}
