/**
 For which lengths the parallel Shell sort keeps the elements under every interleaving of single reads and
 writes: exactly for those up to 8, where the tasks of gap 4 work on disjoint pairs, and for those that
 throw.  From length 9 on the tasks at 4 and 8 share a chain and can overwrite each other's work.
 */
module ShellElements {
  import opened ParallelShell
  import opened Sequences
  import opened Shell
  import opened Totals

  // ---------- composing runs

  lemma {:induction false} RunSnoc(s: State, acts: seq<Action>, t: State, a: Action)
    requires Run(s, acts, t) && Enabled(t, a)
    ensures Run(s, acts + [a], Next(t, a))
    decreases |acts|
  {
    if acts == [] {
      RunCons(s, a, [], Next(t, a));
      assert acts + [a] == [a] + [];
    } else {
      RunSnoc(Next(s, acts[0]), acts[1..], t, a);
      assert (acts + [a])[1..] == acts[1..] + [a];
    }
  }

  ghost predicate Reaches(s: State, t: State) {
    exists acts :: Run(s, acts, t)
  }

  lemma Then(s: State, t: State, a: Action)
    requires Reaches(s, t) && Enabled(t, a)
    ensures Reaches(s, Next(t, a))
  {
    var acts :| Run(s, acts, t);
    RunSnoc(s, acts, t, a);
  }

  lemma {:induction false} RunJoin(s: State, acts: seq<Action>, t: State, acts': seq<Action>, u: State)
    requires Run(s, acts, t) && Run(t, acts', u)
    ensures Run(s, acts + acts', u)
    decreases |acts|
  {
    if acts == [] {
      assert acts + acts' == acts';
    } else {
      RunJoin(Next(s, acts[0]), acts[1..], t, acts', u);
      assert (acts + acts')[1..] == acts[1..] + acts';
    }
  }

  /** From the last pass on the main thread works alone. */
  lemma {:induction false} LastPass(arr0: seq<int>, s: State) returns (acts: seq<Action>, t: State)
    requires Inv(arr0, s) && !Breaks(|arr0|) && s.level <= 1 && !s.main.Submit?
    ensures Run(s, acts, t) && Coarse(acts) && t.main.Returned?
    decreases Rank(s)
  {
    hide Rank, Breaks, Sorted, Top, Gap, InsertAt;
    if s.main.Returned? {
      acts, t := [], s;
    } else {
      LevelOfGap(s.level);
      StepInv(arr0, s, MainStep);
      StepRank(arr0, s, MainStep);
      acts, t := LastPass(arr0, MainNext(s));
      RunCons(s, MainStep, acts, t);
      acts := [MainStep] + acts;
    }
  }

  // ---------- passes that change nothing

  /** The main thread submits all remaining tasks before any of them moves. */
  lemma {:induction false} SubmitAll(s0: State, s: State) returns (u: State)
    requires Reaches(s0, s) && s.main.Submit? && s.main.i <= |s.arr| == |s.tasks|
    ensures Reaches(s0, u) && u == s.(main := Await, tasks := u.tasks) && |u.tasks| == |s.tasks|
    ensures forall j :: 0 <= j < |s.tasks| ==> u.tasks[j] == if j < s.main.i then s.tasks[j] else ReadSelf
    decreases |s.arr| - s.main.i
  {
    hide Reaches;
    Then(s0, s, MainStep);
    if s.main.i == |s.arr| {
      u := MainNext(s);
    } else {
      u := SubmitAll(s0, MainNext(s));
    }
  }

  /** Tasks of one stretch run whole, one after the other, and find nothing to insert. */
  lemma {:induction false} WholeRange(s0: State, s: State, lo: nat, hi: nat) returns (u: State)
    requires Reaches(s0, s) && s.main.Await? && 0 < s.H() <= lo <= hi <= |s.arr| == |s.tasks|
    requires forall j :: lo <= j < hi ==> s.tasks[j] == ReadSelf && s.arr[j - s.H()] <= s.arr[j]
    ensures Reaches(s0, u) && u == s.(latch := s.latch - (hi - lo), tasks := u.tasks) && |u.tasks| == |s.tasks|
    ensures forall j :: 0 <= j < |s.tasks| ==> u.tasks[j] == if lo <= j < hi then Finished else s.tasks[j]
    decreases hi - lo
  {
    hide Reaches, Gap;
    if lo == hi {
      u := s;
    } else {
      Then(s0, s, TaskWhole(lo));
      u := WholeRange(s0, WholeNext(s, lo), lo + 1, hi);
    }
  }

  /** The start of a pass up to the await, with every task about to run. */
  lemma PassSubmitted(s0: State, s: State) returns (u: State)
    requires Reaches(s0, s) && s.main.PassStart? && s.level >= 2 && Gap(s.level) <= |s.arr|
    ensures Reaches(s0, u) && u == s.(main := Await, latch := |s.arr| - Gap(s.level), tasks := u.tasks)
    ensures |u.tasks| == |s.arr| && forall j :: Gap(s.level) <= j < |s.arr| ==> u.tasks[j] == ReadSelf
  {
    LevelOfGap(s.level);
    hide Reaches, Gap;
    Then(s0, s, MainStep);
    u := SubmitAll(s0, MainNext(s));
  }

  /** A pass over an array that is already sorted at its gap can leave it as it is. */
  lemma IdlePass(s0: State, s: State) returns (u: State)
    requires Reaches(s0, s) && s.main.PassStart? && s.level >= 2 && Gap(s.level) <= |s.arr|
    requires HSorted(s.arr, Gap(s.level))
    ensures Reaches(s0, u) && u.main.PassStart? && u.level == s.level - 1 && u.arr == s.arr
  {
    LevelOfGap(s.level);
    hide Reaches, Gap;
    var t := PassSubmitted(s0, s);
    t := WholeRange(s0, t, s.H(), |s.arr|);
    Then(s0, t, MainStep);
    u := MainNext(t);
  }

  lemma {:induction false} IdlePasses(s0: State, s: State) returns (u: State)
    requires Reaches(s0, s) && s.main.PassStart? && s.level >= 2
    requires forall k: nat :: 3 <= k <= s.level ==> Gap(k) <= |s.arr| && HSorted(s.arr, Gap(k))
    ensures Reaches(s0, u) && u.main.PassStart? && u.level == 2 && u.arr == s.arr
    decreases s.level
  {
    hide Reaches, Gap, HSorted;
    u := s;
    if s.level > 2 {
      u := IdlePass(s0, s);
      u := IdlePasses(s0, u);
    }
  }

  // ---------- the race of the tasks at 4 and 8

  /** 2 0 0 0 1 0 0 0 0 3 3 3 ... */
  function RaceInput(n: nat): (arr: seq<int>)
    requires n >= 9
    ensures |arr| == n
  {
    seq(n, p requires 0 <= p < n => if p == 0 then 2 else if p == 4 then 1 else if p < 9 then 0 else 3)
  }

  lemma LargeGapsIdle(n: nat, k: nat)
    requires n >= 9 && !Breaks(n) && 2 <= k <= Top(n)
    ensures Gap(k) <= n
    ensures k >= 3 ==> HSorted(RaceInput(n), Gap(k))
  {
    TopGap(n);
    GapMonotone(k, Top(n));
    if k >= 3 {
      assert Gap(1) == 1 && Gap(2) == 4 && Gap(3) == 13;
      GapMonotone(3, k);
    }
  }

  lemma AtLeastTwoLevels(n: nat)
    requires n >= 3
    ensures Top(n) >= 2
  {
    assert Gap(1) == 1;
    TopGap(n);
    LevelOfGap(Top(n));
  }

  /** The pass with gap 4, all tasks but those at 4 and 8 finished. */
  ghost predicate RaceAt(s: State, a0: int, a4: int, a8: int, latch: int, t4: Task, t8: Task) {
    |s.arr| == |s.tasks| >= 9 &&
    (s.level, s.main, s.latch, [s.arr[0], s.arr[4], s.arr[8]], [s.tasks[4], s.tasks[8]]) ==
    (2, Await, latch, [a0, a4, a8], [t4, t8])
  }

  lemma RaceBegins(n: nat) returns (u: State)
    requires n >= 9 && !Breaks(n)
    ensures Reaches(Init(RaceInput(n)), u) && RaceAt(u, 2, 1, 0, 2, ReadSelf, ReadSelf)
  {
    hide Top, HSorted;
    var s := Init(RaceInput(n));
    assert Reaches(s, s) by { assert Run(s, [], s); }
    hide Reaches;
    AtLeastTwoLevels(n);
    forall k: nat | 2 <= k <= s.level
      ensures Gap(k) <= n && (k >= 3 ==> HSorted(s.arr, Gap(k)))
    {
      LargeGapsIdle(n, k);
    }
    u := IdlePasses(s, s);
    assert Gap(1) == 1 && Gap(2) == 4;
    u := PassSubmitted(s, u);
    u := WholeRange(s, u, 5, 8);
    u := WholeRange(s, u, 9, n);
  }

  /** Task 4 takes 1 into its local and moves 2 up, but does not yet write 1 back. */
  lemma RaceFirst(s0: State, s: State) returns (u: State)
    requires Reaches(s0, s) && RaceAt(s, 2, 1, 0, 2, ReadSelf, ReadSelf)
    ensures Reaches(s0, u) && RaceAt(u, 2, 2, 0, 2, Place(1, 0), ReadSelf)
  {
    u := RaceReads(s0, s);
    u := RaceMoves(s0, u);
  }

  lemma RaceReads(s0: State, s: State) returns (u: State)
    requires Reaches(s0, s) && RaceAt(s, 2, 1, 0, 2, ReadSelf, ReadSelf)
    ensures Reaches(s0, u) && RaceAt(u, 2, 1, 0, 2, Loop(1, 4), ReadSelf)
  {
    assert s.H() == 4 by { assert Gap(1) == 1 && Gap(2) == 4; }
    hide Reaches, Gap;
    var a := TaskStep(4);
    Then(s0, s, a);
    u := TaskNext(s, 4);
    assert RaceAt(u, 2, 1, 0, 2, ReadPrevious(1), ReadSelf);
    Then(s0, u, a);
    u := TaskNext(u, 4);
    assert RaceAt(u, 2, 1, 0, 2, Save, ReadSelf);
    Then(s0, u, a);
    u := TaskNext(u, 4);
  }

  lemma RaceMoves(s0: State, s: State) returns (u: State)
    requires Reaches(s0, s) && RaceAt(s, 2, 1, 0, 2, Loop(1, 4), ReadSelf)
    ensures Reaches(s0, u) && RaceAt(u, 2, 2, 0, 2, Place(1, 0), ReadSelf)
  {
    assert s.H() == 4 by { assert Gap(1) == 1 && Gap(2) == 4; }
    hide Reaches, Gap;
    var a := TaskStep(4);
    Then(s0, s, a);
    u := TaskNext(s, 4);
    assert RaceAt(u, 2, 1, 0, 2, Fetch(1, 4), ReadSelf);
    Then(s0, u, a);
    u := TaskNext(u, 4);
    assert RaceAt(u, 2, 1, 0, 2, Store(1, 4, 2), ReadSelf);
    Then(s0, u, a);
    u := TaskNext(u, 4);
    assert RaceAt(u, 2, 2, 0, 2, Loop(1, 0), ReadSelf);
    Then(s0, u, a);
    u := TaskNext(u, 4);
  }

  lemma RaceInsert(arr: seq<int>)
    requires |arr| >= 9 && arr[0] == 2 && arr[4] == 2 && arr[8] == 0
    ensures InsertAt(arr, 4, 8)[0] == 0 && InsertAt(arr, 4, 8)[4] == 2 && InsertAt(arr, 4, 8)[8] == 2
  {
    var one := Swap(arr, 4, 8);
    assert one[0] == 2 && one[4] == 0 && one[8] == 2;
    assert InsertAt(arr, 4, 8) == InsertAt(one, 4, 4) == InsertAt(Swap(one, 0, 4), 4, 0);
  }

  /** Task 8 inserts 0 as a whole; then 1 overwrites it. */
  lemma RaceSecond(s0: State, s: State) returns (u: State)
    requires Reaches(s0, s) && RaceAt(s, 2, 2, 0, 2, Place(1, 0), ReadSelf)
    ensures Reaches(s0, u) && u.level == 1 && u.main.PassStart? && |u.arr| == |s.arr|
    ensures u.arr[4] == 2 && u.arr[8] == 2
  {
    assert s.H() == 4 by { assert Gap(1) == 1 && Gap(2) == 4; }
    hide Reaches, Gap, InsertAt;
    RaceInsert(s.arr);
    Then(s0, s, TaskWhole(8));
    u := WholeNext(s, 8);
    assert RaceAt(u, 0, 2, 2, 1, Place(1, 0), Finished);
    Then(s0, u, TaskStep(4));
    u := TaskNext(u, 4);
    assert RaceAt(u, 1, 2, 2, 1, CountDown, Finished);
    Then(s0, u, TaskStep(4));
    u := TaskNext(u, 4);
    assert RaceAt(u, 1, 2, 2, 0, Finished, Finished);
    Then(s0, u, MainStep);
    u := MainNext(u);
  }

  lemma OneTwo(n: nat)
    requires n >= 9
    ensures multiset(RaceInput(n))[2] == 1
  {
    var arr := RaceInput(n);
    assert arr == [2] + arr[1..];
    assert 2 !in arr[1..];
    assert multiset(arr) == multiset{2} + multiset(arr[1..]);
  }

  lemma TwoTwos(arr: seq<int>)
    requires |arr| >= 9 && arr[4] == 2 && arr[8] == 2
    ensures multiset(arr)[2] >= 2
  {
    assert arr == arr[..8] + arr[8..];
    assert arr[..8][4] == 2 && arr[8..][0] == 2;
    assert 2 in multiset(arr[..8]) && 2 in multiset(arr[8..]);
    assert multiset(arr) == multiset(arr[..8]) + multiset(arr[8..]);
  }

  /** From length 9 on, unless the call throws, some run of single steps returns with another multiset. */
  lemma RaceLosesElement(n: nat)
    requires n >= 9 && !Breaks(n)
    ensures exists acts, t :: Run(Init(RaceInput(n)), acts, t) && t.main.Returned? &&
                              multiset(t.arr) != multiset(RaceInput(n))
  {
    hide Inv, Breaks, Run, Coarse;
    var arr0 := RaceInput(n);
    var s := Init(arr0);
    var u := RaceBegins(n);
    u := RaceFirst(s, u);
    u := RaceSecond(s, u);
    var before :| Run(s, before, u);
    InitInv(arr0);
    RunInv(arr0, s, before, u);
    var rest, t := LastPass(arr0, u);
    CoarseKeepsMultiset(u, rest, t);
    RunJoin(s, before, u, rest, t);
    OneTwo(n);
    SameSize(arr0, s, before, u);
    TwoTwos(u.arr);
  }

  lemma SameSize(arr0: seq<int>, s: State, acts: seq<Action>, u: State)
    requires Inv(arr0, u)
    ensures |u.arr| == |arr0|
  {
  }

  // ---------- up to length 8 the pairs of gap 4 are disjoint

  predicate Holds(t: Task, p: nat) {
    (t.Loop? || t.Fetch? || t.Store? || t.Place?) && t.hole == p
  }

  /** The task whose pair position p belongs to. */
  function Owner(p: nat): nat {
    if p < 4 then p + 4 else p
  }

  /** The array with every hole filled by the element its task has taken out. */
  function Filled(s: State): (r: seq<int>)
    ensures |r| == |s.arr|
  {
    seq(|s.arr|, p requires 0 <= p < |s.arr| =>
      if Owner(p) < |s.tasks| && Holds(s.tasks[Owner(p)], p) then s.tasks[Owner(p)].tmp else s.arr[p])
  }

  predicate PairOk(arr: seq<int>, i: nat, t: Task) {
    match t
    case Loop(_, hole) => hole == i || hole + 4 == i
    case Fetch(_, hole) => hole == i
    case Store(_, hole, val) => hole == i && 4 <= i < |arr| && val == arr[i - 4]
    case Place(_, hole) => hole == i || hole + 4 == i
    case _ => true
  }

  ghost predicate KeepInv(arr0: seq<int>, s: State) {
    && |s.arr| == |arr0| <= 8 && s.level <= 2
    && multiset(Filled(s)) == multiset(arr0)
    && forall i: nat :: i < |s.tasks| ==> PairOk(s.arr, i, s.tasks[i])
  }

  lemma QuietFilled(s: State)
    requires Quiet(s)
    ensures Filled(s) == s.arr
  {
  }

  /** A main step may replace the tasks or insert, but both only between two gap-4 passes. */
  lemma MainKeeps(arr0: seq<int>, s: State)
    requires Inv(arr0, s) && KeepInv(arr0, s) && Enabled(s, MainStep)
    ensures KeepInv(arr0, MainNext(s))
  {
    hide Top, Total, Sorted, InsertAt, AscendsTo, Gap, Breaks;
    var t := MainNext(s);
    match s.main {
      case Submit(i) => assert Filled(t) == Filled(s);
      case Insert(i) =>
        QuietFilled(s);
        QuietFilled(t);
        if 0 < s.H() <= i < |s.arr| {
          InsertAtPermutes(s.arr, s.H(), i);
        }
      case Await => assert Filled(t) == Filled(s);
      case PassStart =>
        QuietFilled(s);
        assert Quiet(t);
        QuietFilled(t);
      case _ =>
    }
  }

  /** Tasks move in the pass with gap 4 only. */
  lemma GapFour(arr0: seq<int>, s: State, i: nat)
    requires Inv(arr0, s) && s.level <= 2 && TaskEnabled(s, i)
    ensures s.H() == 4 && |s.tasks| <= |s.arr|
  {
    hide Top, Total, Sorted, AscendsTo, Breaks;
    assert Gap(1) == 1 && Gap(2) == 4;
  }

  /** A step exchanges the two elements of its pair or leaves them, holes filled. */
  lemma TaskStepKeeps(s: State, i: nat)
    requires TaskEnabled(s, i) && s.H() == 4 && |s.tasks| <= |s.arr| <= 8
    requires forall j: nat :: j < |s.tasks| ==> PairOk(s.arr, j, s.tasks[j])
    ensures var t := TaskNext(s, i);
            && (Filled(t) == Filled(s) || Filled(t) == Swap(Filled(s), i - 4, i))
            && (forall j: nat :: j < |t.tasks| ==> PairOk(t.arr, j, t.tasks[j]))
  {
    hide Gap;
    var t := TaskNext(s, i);
    if s.tasks[i].Store? {
      assert Filled(t) == Swap(Filled(s), i - 4, i);
    } else {
      assert Filled(t) == Filled(s);
    }
  }

  lemma InsertPair(arr: seq<int>, i: nat)
    requires 4 <= i < |arr| <= 8
    ensures InsertAt(arr, 4, i) == if arr[i - 4] <= arr[i] then arr else Swap(arr, i - 4, i)
  {
  }

  lemma TaskWholeKeeps(s: State, i: nat)
    requires TaskEnabled(s, i) && s.H() == 4 && |s.tasks| <= |s.arr| <= 8 && s.tasks[i].ReadSelf?
    requires forall j: nat :: j < |s.tasks| ==> PairOk(s.arr, j, s.tasks[j])
    ensures var t := WholeNext(s, i);
            && (Filled(t) == Filled(s) || Filled(t) == Swap(Filled(s), i - 4, i))
            && (forall j: nat :: j < |t.tasks| ==> PairOk(t.arr, j, t.tasks[j]))
  {
    hide Gap, InsertAt;
    InsertPair(s.arr, i);
    var t := WholeNext(s, i);
    if s.arr[i - 4] <= s.arr[i] {
      assert Filled(t) == Filled(s);
    } else {
      assert Filled(t) == Swap(Filled(s), i - 4, i);
    }
  }

  lemma StepKeeps(arr0: seq<int>, s: State, a: Action)
    requires Inv(arr0, s) && KeepInv(arr0, s) && Enabled(s, a)
    ensures KeepInv(arr0, Next(s, a))
  {
    match a {
      case MainStep => MainKeeps(arr0, s);
      case TaskStep(i) =>
        GapFour(arr0, s, i);
        hide Inv, Gap, Filled, PairOk;
        TaskStepKeeps(s, i);
        SwapPermutes(Filled(s), i - 4, i);
      case TaskWhole(i) =>
        GapFour(arr0, s, i);
        hide Inv, Gap, Filled, PairOk, InsertAt;
        TaskWholeKeeps(s, i);
        SwapPermutes(Filled(s), i - 4, i);
    }
  }

  lemma {:induction false} RunKeeps(arr0: seq<int>, s: State, acts: seq<Action>, t: State)
    requires Inv(arr0, s) && KeepInv(arr0, s) && Run(s, acts, t)
    ensures KeepInv(arr0, t)
    decreases |acts|
  {
    hide Inv, KeepInv;
    if acts != [] {
      StepInv(arr0, s, acts[0]);
      StepKeeps(arr0, s, acts[0]);
      RunKeeps(arr0, Next(s, acts[0]), acts[1..], t);
    }
  }

  lemma InitKeeps(arr0: seq<int>)
    requires |arr0| <= 8
    ensures KeepInv(arr0, Init(arr0))
  {
    QuietFilled(Init(arr0));
    TopGap(|arr0|);
    if Top(|arr0|) > 2 {
      assert Gap(1) == 1 && Gap(2) == 4 && Gap(3) == 13;
      GapMonotone(3, Top(|arr0|));
    }
  }

  /** Up to length 8 every interleaving that returns gives the array of the sequential Shell sort. */
  lemma SmallAgrees(arr0: seq<int>, acts: seq<Action>, t: State)
    requires |arr0| <= 8 && Run(Init(arr0), acts, t) && t.main.Returned?
    ensures multiset(t.arr) == multiset(arr0) && t.arr == ShellSorted(arr0)
  {
    hide Run, Top, Gap, Sorted, ShellSorted;
    InitInv(arr0);
    InitKeeps(arr0);
    RunKeeps(arr0, Init(arr0), acts, t);
    RunInv(arr0, Init(arr0), acts, t);
    QuietFilled(t);
    ReturnsSorted(arr0, acts, t);
    ShellSorts(arr0);
    SortedUnique(t.arr, ShellSorted(arr0));
  }

  // ---------- the exact condition

  /** Every call on n elements that returns, returns the elements it was given. */
  ghost predicate KeepsElements(n: nat) {
    forall arr0, acts, t | |arr0| == n && Run(Init(arr0), acts, t) && t.main.Returned? ::
      multiset(t.arr) == multiset(arr0)
  }

  /** The elements are safe exactly up to length 8 and for the lengths at which the call throws. */
  lemma KeepsExactly(n: nat)
    ensures KeepsElements(n) <==> n <= 8 || Breaks(n)
  {
    hide Run, Breaks;
    if n <= 8 || Breaks(n) {
      forall arr0, acts, t | |arr0| == n && Run(Init(arr0), acts, t) && t.main.Returned?
        ensures multiset(t.arr) == multiset(arr0)
      {
        if n <= 8 {
          SmallAgrees(arr0, acts, t);
        } else {
          ThrowsExactly(arr0, acts, t);
          assert false;
        }
      }
    } else {
      RaceLosesElement(n);
    }
  }
}
