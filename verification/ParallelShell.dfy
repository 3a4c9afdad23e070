/**
 The parallel Shell sort.  Gaps of at least 4 submit one insertion task for every position and wait on a
 latch; gap 1 is inserted by the main thread.  Tasks of one residue class touch the same chain, so they
 race.  Two granularities of task steps may be mixed in one schedule: TaskStep is a single read, write or
 count-down, TaskWhole runs a task from start to finish.
 */
module ParallelShell {
  import opened Arithmetic
  import opened Sequences
  import opened Shell
  import opened Totals

  /** Where a task stands in run(); hole is the variable j plus the gap, the position written next. */
  datatype Task =
    | NoTask
    | Unsubmitted
    | ReadSelf                              // about to read arr[i] for the test
    | ReadPrevious(self: int)               // about to read arr[i - h] and compare
    | Save                                  // tmp = arr[i]
    | Loop(tmp: int, hole: nat)             // j >= 0 && arr[j] > tmp
    | Fetch(tmp: int, hole: nat)            // read arr[j]
    | Store(tmp: int, hole: nat, val: int)  // arr[j + h] = ...
    | Place(tmp: int, hole: nat)            // arr[j + h] = tmp
    | CountDown
    | Finished

  datatype Main = PassStart | Submit(i: nat) | Insert(i: nat) | Await | Returned | Thrown

  /** The gap is Gap(level).  A latch of 0 also stands for the null latch: neither blocks the main thread. */
  datatype State = State(arr: seq<int>, level: nat, latch: int, main: Main, tasks: seq<Task>) {
    function H(): nat {
      Gap(level)
    }
  }

  datatype Action = MainStep | TaskStep(i: nat) | TaskWhole(i: nat)

  predicate Active(t: Task) {
    !(t.NoTask? || t.Unsubmitted? || t.Finished?)
  }

  predicate TaskEnabled(s: State, i: nat) {
    0 < s.H() <= i < |s.arr| && i < |s.tasks| && Active(s.tasks[i]) && HoleOk(s.H(), i, s.tasks[i])
  }

  predicate Enabled(s: State, a: Action) {
    match a
    case MainStep =>
      (match s.main
       case Await => s.latch == 0
       case Returned => false
       case Thrown => false
       case _ => true)
    case TaskStep(i) => TaskEnabled(s, i)
    case TaskWhole(i) => TaskEnabled(s, i) && s.tasks[i].ReadSelf?
  }

  /** The positions a task is about to touch lie inside the array. */
  predicate HoleOk(h: nat, i: nat, t: Task) {
    match t
    case Loop(_, hole) => hole <= i
    case Fetch(_, hole) => h <= hole <= i
    case Store(_, hole, _) => h <= hole <= i
    case Place(_, hole) => hole <= i
    case _ => true
  }

  function FreshTasks(n: nat, h: nat): (ts: seq<Task>)
    ensures |ts| == n
  {
    seq(n, i requires 0 <= i < n => if h <= i then Unsubmitted else NoTask)
  }

  function MainNext(s: State): State {
    var n, h := |s.arr|, s.H();
    match s.main
    case PassStart =>
      if s.level == 0 then s.(main := Returned)
      else if h < 4 then s.(main := Insert(h))
      else if n < h then s.(main := Thrown)
      else s.(latch := n - h, main := Submit(h), tasks := FreshTasks(n, h))
    case Submit(i) =>
      if i < n && i < |s.tasks| then s.(tasks := s.tasks[i := ReadSelf], main := Submit(i + 1))
      else s.(main := Await)
    case Insert(i) =>
      if 0 < h <= i < n then s.(arr := InsertAt(s.arr, h, i), main := Insert(i + 1))
      else s.(main := Await)
    case Await => if s.level == 0 then s else s.(level := s.level - 1, main := PassStart)
    case _ => s
  }

  function TaskNext(s: State, i: nat): State
    requires TaskEnabled(s, i)
  {
    var h := s.H();
    match s.tasks[i]
    case ReadSelf => s.(tasks := s.tasks[i := ReadPrevious(s.arr[i])])
    case ReadPrevious(self) => s.(tasks := s.tasks[i := if self < s.arr[i - h] then Save else CountDown])
    case Save => s.(tasks := s.tasks[i := Loop(s.arr[i], i)])
    case Loop(tmp, hole) =>
      s.(tasks := s.tasks[i := if hole >= h && s.arr[hole - h] > tmp then Fetch(tmp, hole) else Place(tmp, hole)])
    case Fetch(tmp, hole) => s.(tasks := s.tasks[i := Store(tmp, hole, s.arr[hole - h])])
    case Store(tmp, hole, val) => s.(arr := s.arr[hole := val], tasks := s.tasks[i := Loop(tmp, hole - h)])
    case Place(tmp, hole) => s.(arr := s.arr[hole := tmp], tasks := s.tasks[i := CountDown])
    case CountDown => s.(latch := s.latch - 1, tasks := s.tasks[i := Finished])
    case _ => s
  }

  function WholeNext(s: State, i: nat): State
    requires TaskEnabled(s, i)
  {
    s.(arr := InsertAt(s.arr, s.H(), i), latch := s.latch - 1, tasks := s.tasks[i := Finished])
  }

  function Next(s: State, a: Action): State
    requires Enabled(s, a)
  {
    match a
    case MainStep => MainNext(s)
    case TaskStep(i) => TaskNext(s, i)
    case TaskWhole(i) => WholeNext(s, i)
  }

  /** The first loop has found the largest gap. */
  function Init(arr: seq<int>): State {
    State(arr, Top(|arr|), 0, PassStart, [])
  }

  ghost predicate Run(s: State, acts: seq<Action>, t: State)
    decreases |acts|
  {
    if acts == [] then s == t else Enabled(s, acts[0]) && Run(Next(s, acts[0]), acts[1..], t)
  }

  // ---------- the coarse step is the fine steps taken in a row

  lemma RunCons(s: State, a: Action, acts: seq<Action>, t: State)
    requires Enabled(s, a) && Run(Next(s, a), acts, t)
    ensures Run(s, [a] + acts, t)
  {
    assert ([a] + acts)[1..] == acts;
  }

  /** The single steps of one task alone lead from s to t. */
  ghost predicate ByTask(s: State, i: nat, t: State) {
    exists acts :: Run(s, acts, t) && forall a :: a in acts ==> a == TaskStep(i)
  }

  lemma ThreeSteps(s: State, i: nat, t: State)
    requires TaskEnabled(s, i) && TaskEnabled(TaskNext(s, i), i) && TaskEnabled(TaskNext(TaskNext(s, i), i), i)
    requires ByTask(TaskNext(TaskNext(TaskNext(s, i), i), i), i, t)
    ensures ByTask(s, i, t)
  {
    hide Run, TaskNext, TaskEnabled;
    var a, s3 := TaskStep(i), TaskNext(TaskNext(TaskNext(s, i), i), i);
    var acts :| Run(s3, acts, t) && forall b :: b in acts ==> b == a;
    RunCons(TaskNext(TaskNext(s, i), i), a, acts, t);
    RunCons(TaskNext(s, i), a, [a] + acts, t);
    RunCons(s, a, [a] + ([a] + acts), t);
  }

  lemma NoSteps(s: State, i: nat)
    ensures ByTask(s, i, s)
  {
    assert Run(s, [], s);
  }

  /** A task in its loop, left alone, inserts the element it holds. */
  function LoopResult(s: State, i: nat): State
    requires TaskEnabled(s, i) && s.tasks[i].Loop?
  {
    var tmp, hole := s.tasks[i].tmp, s.tasks[i].hole;
    s.(arr := InsertAt(s.arr[hole := tmp], s.H(), hole), latch := s.latch - 1, tasks := s.tasks[i := Finished])
  }

  lemma LoopRound(s: State, i: nat)
    requires TaskEnabled(s, i) && s.tasks[i].Loop?
    ensures TaskEnabled(TaskNext(s, i), i) && TaskEnabled(TaskNext(TaskNext(s, i), i), i)
    ensures var t := TaskNext(TaskNext(TaskNext(s, i), i), i);
            if TaskNext(s, i).tasks[i].Fetch?
            then TaskEnabled(t, i) && t.tasks[i].Loop? && t.tasks[i].hole + s.H() == s.tasks[i].hole
                 && LoopResult(t, i) == LoopResult(s, i)
            else t == LoopResult(s, i)
  {
    var h, tmp, hole, s1 := s.H(), s.tasks[i].tmp, s.tasks[i].hole, TaskNext(s, i);
    var t := TaskNext(TaskNext(s1, i), i);
    if s1.tasks[i].Fetch? {
      assert t.arr[hole - h := tmp] == Swap(s.arr[hole := tmp], hole - h, hole);
      assert t.tasks[i := Finished] == s.tasks[i := Finished];
    } else {
      assert t.tasks == s.tasks[i := Finished];
    }
  }

  lemma {:induction false} LoopAlone(s: State, i: nat)
    requires TaskEnabled(s, i) && s.tasks[i].Loop?
    ensures ByTask(s, i, LoopResult(s, i))
    decreases s.tasks[i].hole
  {
    hide TaskNext, LoopResult, ByTask;
    LoopRound(s, i);
    var t := TaskNext(TaskNext(TaskNext(s, i), i), i);
    if TaskNext(s, i).tasks[i].Fetch? {
      LoopAlone(t, i);
    } else {
      NoSteps(t, i);
    }
    ThreeSteps(s, i, LoopResult(s, i));
  }

  lemma TestRound(s: State, i: nat)
    requires TaskEnabled(s, i) && s.tasks[i].ReadSelf?
    ensures TaskEnabled(TaskNext(s, i), i) && TaskEnabled(TaskNext(TaskNext(s, i), i), i)
    ensures var t := TaskNext(TaskNext(TaskNext(s, i), i), i);
            if TaskNext(TaskNext(s, i), i).tasks[i].Save?
            then TaskEnabled(t, i) && t.tasks[i].Loop? && LoopResult(t, i) == WholeNext(s, i)
            else t == WholeNext(s, i)
  {
    var s2 := TaskNext(TaskNext(s, i), i);
    var t := TaskNext(s2, i);
    if s2.tasks[i].Save? {
      assert t.arr[i := s.arr[i]] == s.arr;
      assert t.tasks[i := Finished] == s.tasks[i := Finished];
    } else {
      assert t.tasks == s.tasks[i := Finished];
    }
  }

  /** The coarse step is what the fine steps of one task do when nobody interferes. */
  lemma WholeIsSteps(s: State, i: nat)
    requires Enabled(s, TaskWhole(i))
    ensures ByTask(s, i, Next(s, TaskWhole(i)))
  {
    hide TaskNext, LoopResult, WholeNext, ByTask;
    TestRound(s, i);
    var t := TaskNext(TaskNext(TaskNext(s, i), i), i);
    if TaskNext(TaskNext(s, i), i).tasks[i].Save? {
      LoopAlone(t, i);
    } else {
      NoSteps(t, i);
    }
    ThreeSteps(s, i, WholeNext(s, i));
  }

  /** A task that finds its element in order is done after two reads and the count-down, and writes nothing. */
  lemma InOrderTakesThree(s: State, i: nat)
    requires Enabled(s, TaskWhole(i)) && s.arr[i - s.H()] <= s.arr[i]
    ensures Run(s, [TaskStep(i), TaskStep(i), TaskStep(i)], Next(s, TaskWhole(i)))
    ensures Next(s, TaskWhole(i)).arr == s.arr
  {
    hide WholeNext;
    TestRound(s, i);
    var t := Next(s, TaskWhole(i));
    assert TaskNext(TaskNext(s, i), i).tasks[i] == CountDown;
    assert t.arr == s.arr by { WholeInOrder(s, i); }
    assert [TaskStep(i), TaskStep(i), TaskStep(i)] == [TaskStep(i)] + ([TaskStep(i)] + ([TaskStep(i)] + []));
    RunCons(TaskNext(TaskNext(s, i), i), TaskStep(i), [], t);
    RunCons(TaskNext(s, i), TaskStep(i), [TaskStep(i)] + [], t);
    RunCons(s, TaskStep(i), [TaskStep(i)] + ([TaskStep(i)] + []), t);
  }

  lemma WholeInOrder(s: State, i: nat)
    requires Enabled(s, TaskWhole(i)) && s.arr[i - s.H()] <= s.arr[i]
    ensures WholeNext(s, i).arr == s.arr
  {
  }

  // ---------- the invariant of every interleaving

  function Pending(t: Task): nat {
    if t.NoTask? || t.Finished? then 0 else 1
  }

  /** The first gap is one more than the length. */
  predicate Breaks(n: nat) {
    n >= 3 && Gap(Top(n)) == n + 1
  }

  ghost predicate TasksOk(s: State) {
    && s.level > 0 && |s.tasks| == |s.arr|
    && s.latch == Total(s.tasks, Pending)
    && (forall i: nat :: i < |s.tasks| && !s.tasks[i].NoTask? ==> s.H() <= i && HoleOk(s.H(), i, s.tasks[i]))
    && (s.main.Await? ==> forall i: nat :: i < |s.tasks| ==> !s.tasks[i].Unsubmitted?)
    && (s.main.Submit? ==>
          s.H() <= s.main.i <= |s.arr| &&
          forall i: nat :: i < |s.tasks| ==> (s.tasks[i].Unsubmitted? <==> s.main.i <= i))
  }

  ghost predicate Quiet(s: State) {
    forall i: nat :: i < |s.tasks| ==> !Active(s.tasks[i])
  }

  ghost predicate AscendsTo(s: seq<int>, i: nat) {
    forall k :: 0 < k < i && k < |s| ==> s[k - 1] <= s[k]
  }

  ghost predicate Inv(arr0: seq<int>, s: State) {
    && |s.arr| == |arr0| && |s.tasks| <= |arr0|
    && s.level <= Top(|arr0|)
    && (Breaks(|arr0|) ==> s.main.Thrown? || s == Init(arr0))
    && (match s.main
        case PassStart => Quiet(s) && s.latch == 0 && (s.level == 0 ==> Sorted(s.arr))
        case Submit(_) => TasksOk(s) && s.level > 1
        case Insert(i) => Quiet(s) && s.latch == 0 && s.level == 1 && i >= 1 && AscendsTo(s.arr, i)
        case Await => if s.level == 1 then Quiet(s) && s.latch == 0 && Sorted(s.arr) else TasksOk(s)
        case Returned => Quiet(s) && Sorted(s.arr)
        case Thrown => Quiet(s) && Breaks(|arr0|))
  }

  lemma {:induction false} FreshTotal(n: nat, h: nat, size: nat)
    requires size <= n
    ensures Total(FreshTasks(n, h)[..size], Pending) == if size <= h then 0 else size - h
  {
    var ts := FreshTasks(n, h);
    if size > 0 {
      assert ts[..size][..size - 1] == ts[..size - 1];
      FreshTotal(n, h, size - 1);
    }
  }

  /** A latch count is negative only if the first gap already exceeds the length. */
  lemma NegativeCount(n: nat, level: nat)
    requires level <= Top(n) && 4 <= Gap(level)
    ensures n < Gap(level) ==> Breaks(n)
    ensures Breaks(n) && level == Top(n) ==> n < Gap(level)
  {
    TopGap(n);
    GapMonotone(level, Top(n));
  }

  lemma LevelOfGap(level: nat)
    ensures Gap(level) < 4 <==> level <= 1
    ensures Gap(level) == 1 <==> level == 1
    ensures Gap(level) == 0 <==> level == 0
  {
    GapShape(level);
    if level >= 2 {
      GapMonotone(2, level);
      assert Gap(2) == 4;
    }
  }

  lemma PassStartInv(arr0: seq<int>, s: State)
    requires Inv(arr0, s) && s.main.PassStart?
    ensures Inv(arr0, MainNext(s))
  {
    hide Top, Total, Gap, Sorted;
    LevelOfGap(s.level);
    TopGap(|arr0|);
    if s.level > 1 {
      NegativeCount(|arr0|, s.level);
      var ts := FreshTasks(|arr0|, s.H());
      FreshTotal(|arr0|, s.H(), |arr0|);
      assert ts[..|arr0|] == ts;
    }
  }

  lemma SubmitInv(arr0: seq<int>, s: State)
    requires Inv(arr0, s) && s.main.Submit?
    ensures Inv(arr0, MainNext(s))
  {
    hide Top, Total, Gap, Sorted;
    if s.main.i < |s.arr| {
      TotalUpdate(s.tasks, s.main.i, ReadSelf, Pending);
    }
  }

  lemma InsertInv(arr0: seq<int>, s: State)
    requires Inv(arr0, s) && s.main.Insert?
    ensures Inv(arr0, MainNext(s))
  {
    hide Top, Total, Gap, Sorted, InsertAt, Active;
    LevelOfGap(s.level);
    var i := s.main.i;
    if i < |s.arr| {
      InsertAtSorts(s.arr, 1, i, i + 1);
    } else {
      AdjacentSorted(s.arr);
    }
  }

  lemma AwaitInv(arr0: seq<int>, s: State)
    requires Inv(arr0, s) && s.main.Await? && s.latch == 0
    ensures Inv(arr0, MainNext(s))
  {
    hide Top, Total, Gap, Sorted;
    if s.level != 1 {
      forall i: nat | i < |s.tasks|
        ensures !Active(s.tasks[i])
      {
        TotalAtLeast(s.tasks, i, Pending);
      }
    }
  }

  lemma TaskStepInv(arr0: seq<int>, s: State, i: nat)
    requires Inv(arr0, s) && TaskEnabled(s, i)
    ensures Inv(arr0, TaskNext(s, i))
    ensures s.tasks[i].ReadSelf? ==> Inv(arr0, WholeNext(s, i))
  {
    hide Top, Total, Gap, Sorted, InsertAt;
    TotalUpdate(s.tasks, i, TaskNext(s, i).tasks[i], Pending);
    TotalUpdate(s.tasks, i, Finished, Pending);
  }

  lemma StepInv(arr0: seq<int>, s: State, a: Action)
    requires Inv(arr0, s) && Enabled(s, a)
    ensures Inv(arr0, Next(s, a))
  {
    hide Inv, TaskNext, WholeNext;
    match a
    case MainStep =>
      match s.main {
        case PassStart => PassStartInv(arr0, s);
        case Submit(_) => SubmitInv(arr0, s);
        case Insert(_) => InsertInv(arr0, s);
        case Await => AwaitInv(arr0, s);
        case _ =>
      }
    case TaskStep(i) => TaskStepInv(arr0, s, i);
    case TaskWhole(i) => TaskStepInv(arr0, s, i);
  }

  lemma {:induction false} RunInv(arr0: seq<int>, s: State, acts: seq<Action>, t: State)
    requires Inv(arr0, s) && Run(s, acts, t)
    ensures Inv(arr0, t)
    decreases |acts|
  {
    hide Inv;
    if acts != [] {
      StepInv(arr0, s, acts[0]);
      RunInv(arr0, Next(s, acts[0]), acts[1..], t);
    }
  }

  lemma InitInv(arr0: seq<int>)
    ensures Inv(arr0, Init(arr0))
  {
  }

  /** Every interleaving that returns leaves the array sorted, however the tasks raced before. */
  lemma ReturnsSorted(arr0: seq<int>, acts: seq<Action>, t: State)
    requires Run(Init(arr0), acts, t) && t.main.Returned?
    ensures Sorted(t.arr) && |t.arr| == |arr0|
  {
    hide Run, Top, Gap;
    InitInv(arr0);
    RunInv(arr0, Init(arr0), acts, t);
  }

  /** The latch constructor throws exactly when the first gap exceeds the length. */
  lemma ThrowsExactly(arr0: seq<int>, acts: seq<Action>, t: State)
    requires Run(Init(arr0), acts, t)
    ensures t.main.Thrown? ==> Breaks(|arr0|)
    ensures Breaks(|arr0|) ==> t.main.Thrown? || t == Init(arr0)
  {
    hide Run, Top, Gap;
    InitInv(arr0);
    RunInv(arr0, Init(arr0), acts, t);
  }

  /** No task ever reads or writes outside the array, and no reachable state is stuck. */
  lemma Progress(arr0: seq<int>, acts: seq<Action>, s: State) returns (a: Action)
    requires Run(Init(arr0), acts, s)
    ensures forall i: nat :: i < |s.tasks| && Active(s.tasks[i]) ==> TaskEnabled(s, i)
    ensures !s.main.Returned? && !s.main.Thrown? ==> Enabled(s, a)
  {
    hide Top, Total, Gap, Sorted, Run;
    InitInv(arr0);
    RunInv(arr0, Init(arr0), acts, s);
    GapShape(s.level);
    a := MainStep;
    if s.main.Await? && s.latch > 0 {
      var i := TotalWitness(s.tasks, Pending);
      a := TaskStep(i);
    }
  }

  // ---------- tasks taken as single steps

  ghost predicate Coarse(acts: seq<Action>) {
    forall a :: a in acts ==> !a.TaskStep?
  }

  lemma {:induction false} CoarseKeepsMultiset(s: State, acts: seq<Action>, t: State)
    requires Run(s, acts, t) && Coarse(acts)
    ensures multiset(t.arr) == multiset(s.arr)
    decreases |acts|
  {
    hide InsertAt, Gap;
    if acts != [] {
      match acts[0] {
        case MainStep =>
          if s.main.Insert? && 0 < s.H() <= s.main.i < |s.arr| {
            InsertAtPermutes(s.arr, s.H(), s.main.i);
          }
        case TaskWhole(i) => InsertAtPermutes(s.arr, s.H(), i);
        case TaskStep(_) => assert acts[0] in acts;
      }
      CoarseKeepsMultiset(Next(s, acts[0]), acts[1..], t);
    }
  }

  /** With tasks taken whole, in any order, the call computes what the sequential Shell sort computes. */
  lemma CoarseAgrees(arr0: seq<int>, acts: seq<Action>, t: State)
    requires Run(Init(arr0), acts, t) && t.main.Returned? && Coarse(acts)
    ensures t.arr == ShellSorted(arr0)
    ensures Sorted(t.arr) && multiset(t.arr) == multiset(arr0)
  {
    hide Run, Sorted, Coarse, Top, ShellSorted;
    ReturnsSorted(arr0, acts, t);
    CoarseKeepsMultiset(Init(arr0), acts, t);
    ShellSorts(arr0);
    SortedUnique(t.arr, ShellSorted(arr0));
  }

  // ---------- which lengths throw

  lemma {:induction false} LevelReaches(n: nat, j: nat, k: nat)
    requires 0 < j <= k && Gap(k - 1) <= n / 3 < Gap(k)
    ensures LevelFrom(n, j) == k
    decreases k - j
  {
    if j < k {
      GapMonotone(j, k - 1);
      LevelReaches(n, j + 1, k);
    }
  }

  /** The lengths that throw are 3, 12, 39, 120, ...: one less than a gap above 1. */
  lemma BreaksExactly(n: nat)
    ensures Breaks(n) <==> exists k: nat :: k >= 2 && Gap(k) == n + 1
  {
    if Breaks(n) {
      LevelOfGap(Top(n));
      assert Top(n) >= 2;
    }
    if k: nat :| k >= 2 && Gap(k) == n + 1 {
      GapMonotone(2, k);
      assert Gap(2) == 4;
      assert Gap(k) == 3 * Gap(k - 1) + 1;
      LevelReaches(n, 1, k);
    }
  }

  // ---------- bounded work

  /** An upper bound on the steps a task still has to take. */
  function Work(n: nat, t: Task): nat {
    match t
    case NoTask => 0
    case Unsubmitted => 3 * n + 9
    case ReadSelf => 3 * n + 8
    case ReadPrevious(_) => 3 * n + 7
    case Save => 3 * n + 6
    case Loop(_, hole) => 3 * hole + 4
    case Fetch(_, hole) => 3 * hole + 3
    case Store(_, hole, _) => 3 * hole + 2
    case Place(_, _) => 3
    case CountDown => 2
    case Finished => 0
  }

  function WorkBy(n: nat): Task -> nat {
    t => Work(n, t)
  }

  function PassBound(n: nat): nat {
    (3 * n + 9) * n + n + 25
  }

  function PassWork(s: State): nat {
    var n := |s.arr|;
    var left := Total(s.tasks, WorkBy(n));
    match s.main
    case PassStart => PassBound(n) - 1
    case Submit(i) => 10 + (if i <= n then n + 1 - i else 0) + left
    case Insert(i) => 10 + (if i <= n then n + 1 - i else 0) + left
    case Await => 5 + left
    case Returned => 0
    case Thrown => 0
  }

  function Rank(s: State): nat {
    s.level * PassBound(|s.arr|) + PassWork(s)
  }

  ghost predicate WorkBounded(n: nat, ts: seq<Task>) {
    forall i :: 0 <= i < |ts| ==> Work(n, ts[i]) <= 3 * n + 9
  }

  lemma WorkAtMost(n: nat, ts: seq<Task>)
    requires |ts| <= n && WorkBounded(n, ts)
    ensures Total(ts, WorkBy(n)) <= (3 * n + 9) * n
  {
    var each := 3 * n + 9;
    TotalAtMost(ts, WorkBy(n), each);
    ScaleMonotone(|ts|, n, each);
    Commute(each, |ts|);
    Commute(each, n);
  }

  lemma Commute(x: nat, y: nat)
    ensures x * y == y * x
  {
  }

  lemma MainStepWork(arr0: seq<int>, s: State)
    requires Inv(arr0, s) && Enabled(s, MainStep)
    ensures var t := MainNext(s);
            if s.main.Await? then t.level == s.level - 1 && PassWork(t) < PassBound(|s.arr|)
            else PassWork(t) < PassWork(s) && t.level == s.level
  {
    hide Total, Gap, Sorted, Top, InsertAt, AscendsTo;
    var n := |s.arr|;
    match s.main
    case PassStart =>
      WorkAtMost(n, FreshTasks(n, s.H()));
      if s.level > 0 {
        QuietWork(s);
      }
    case Submit(i) =>
      if i < n {
        TotalUpdate(s.tasks, i, ReadSelf, WorkBy(n));
      }
    case _ =>
  }

  lemma QuietWork(s: State)
    requires Quiet(s) && |s.tasks| <= |s.arr|
    ensures Total(s.tasks, WorkBy(|s.arr|)) <= (3 * |s.arr| + 9) * |s.arr|
  {
    WorkAtMost(|s.arr|, s.tasks);
  }

  lemma TaskStepWork(s: State, i: nat)
    requires TaskEnabled(s, i) && (s.main.Submit? || s.main.Await?)
    ensures PassWork(TaskNext(s, i)) < PassWork(s)
    ensures s.tasks[i].ReadSelf? ==> PassWork(WholeNext(s, i)) < PassWork(s)
  {
    hide Total, InsertAt, Gap;
    var w := WorkBy(|s.arr|);
    GapShape(s.level);
    TotalUpdate(s.tasks, i, TaskNext(s, i).tasks[i], w);
    TotalUpdate(s.tasks, i, Finished, w);
  }

  lemma StepRank(arr0: seq<int>, s: State, a: Action)
    requires Inv(arr0, s) && Enabled(s, a)
    ensures Rank(Next(s, a)) < Rank(s)
  {
    hide PassWork, PassBound, Gap, Top, Sorted, InsertAt;
    match a
    case MainStep =>
      MainStepWork(arr0, s);
      if s.main.Await? {
        assert s.level * PassBound(|s.arr|) == (s.level - 1) * PassBound(|s.arr|) + PassBound(|s.arr|);
      }
    case TaskStep(i) => TaskStepWork(s, i);
    case TaskWhole(i) => TaskStepWork(s, i);
  }

  lemma {:induction false} RunShrinks(arr0: seq<int>, s: State, acts: seq<Action>, t: State)
    requires Inv(arr0, s) && Run(s, acts, t)
    ensures |acts| + Rank(t) <= Rank(s)
    decreases |acts|
  {
    hide Inv, Rank;
    if acts != [] {
      StepInv(arr0, s, acts[0]);
      StepRank(arr0, s, acts[0]);
      RunShrinks(arr0, Next(s, acts[0]), acts[1..], t);
    }
  }

  /** Every schedule is finite. */
  lemma RunsEnd(arr0: seq<int>, acts: seq<Action>, t: State)
    requires Run(Init(arr0), acts, t)
    ensures |acts| < (Top(|arr0|) + 1) * PassBound(|arr0|)
  {
    hide Run, Inv, Top, PassBound;
    InitInv(arr0);
    RunShrinks(arr0, Init(arr0), acts, t);
    assert (Top(|arr0|) + 1) * PassBound(|arr0|) == Top(|arr0|) * PassBound(|arr0|) + PassBound(|arr0|);
  }
}
