/**
 The parallel odd-even sort: a main thread that submits one task for every pair of a phase and waits on a
 latch, and tasks whose single reads, writes, flag sets and count-downs interleave freely with each other
 and with the submitting loop.  A schedule is a sequence of actions; every interleaving is some schedule.
 */
module ParallelOddEven {
  import opened Arithmetic
  import opened OddEven
  import opened Sequences
  import opened Totals

  /** Where a task stands in run(); a value in a constructor is one the thread holds in a local. */
  datatype Task =
    | NoTask                                // this position starts no pair
    | Unsubmitted
    | ReadLeft                              // about to read arr[i] for the test
    | ReadRight(left: int)                  // about to read arr[i + 1] and compare
    | Save                                  // temp = arr[i]
    | Fetch(temp: int)                      // read arr[i + 1]
    | StoreLeft(temp: int, right: int)      // arr[i] = ...
    | StoreRight(temp: int)                 // arr[i + 1] = temp
    | SetFlag
    | CountDown
    | Finished

  datatype Main = Test | Submit(i: nat) | Await | Returned | Thrown

  /** phases counts the completed awaits; it is history, no step reads it. */
  datatype State = State(
    arr: seq<int>, flag: int, start: nat, latch: int, main: Main, tasks: seq<Task>, phases: nat)

  datatype Action = MainStep | TaskStep(i: nat)

  predicate IsPair(n: nat, start: nat, i: nat) {
    i % 2 == start && i + 1 < n
  }

  function FreshTasks(n: nat, start: nat, size: nat): (ts: seq<Task>)
    ensures |ts| == size
  {
    seq(size, i requires 0 <= i < size => if IsPair(n, start, i) then Unsubmitted else NoTask)
  }

  /** The count given to the latch constructor. */
  function LatchCount(n: nat, start: nat): int {
    n / 2 - (if n % 2 == 0 then start else 0)
  }

  predicate Enabled(s: State, a: Action) {
    match a
    case MainStep =>
      (match s.main
       case Test => true
       case Submit(_) => true
       case Await => s.latch == 0
       case Returned => false
       case Thrown => false)
    case TaskStep(i) =>
      i + 1 < |s.arr| && i < |s.tasks| && !(s.tasks[i].NoTask? || s.tasks[i].Unsubmitted? || s.tasks[i].Finished?)
  }

  function MainNext(s: State): State {
    match s.main
    case Test =>
      if s.flag == 1 || s.start == 1 then
        var count := LatchCount(|s.arr|, s.start);
        if count < 0 then s.(flag := 0, main := Thrown)
        else s.(flag := 0, latch := count, main := Submit(s.start), tasks := FreshTasks(|s.arr|, s.start, |s.arr|))
      else s.(main := Returned)
    case Submit(i) =>
      if i < |s.arr| - 1 && i < |s.tasks| then s.(tasks := s.tasks[i := ReadLeft], main := Submit(i + 2))
      else s.(main := Await)
    case Await => s.(start := if s.start == 0 then 1 else 0, main := Test, phases := s.phases + 1)
    case _ => s
  }

  function TaskNext(s: State, i: nat): State
    requires Enabled(s, TaskStep(i))
  {
    match s.tasks[i]
    case ReadLeft => s.(tasks := s.tasks[i := ReadRight(s.arr[i])])
    case ReadRight(left) => s.(tasks := s.tasks[i := if left > s.arr[i + 1] then Save else CountDown])
    case Save => s.(tasks := s.tasks[i := Fetch(s.arr[i])])
    case Fetch(temp) => s.(tasks := s.tasks[i := StoreLeft(temp, s.arr[i + 1])])
    case StoreLeft(temp, right) => s.(arr := s.arr[i := right], tasks := s.tasks[i := StoreRight(temp)])
    case StoreRight(temp) => s.(arr := s.arr[i + 1 := temp], tasks := s.tasks[i := SetFlag])
    case SetFlag => s.(flag := 1, tasks := s.tasks[i := CountDown])
    case CountDown => s.(latch := s.latch - 1, tasks := s.tasks[i := Finished])
    case _ => s
  }

  function Next(s: State, a: Action): State
    requires Enabled(s, a)
  {
    match a
    case MainStep => MainNext(s)
    case TaskStep(i) => TaskNext(s, i)
  }

  function Init(arr: seq<int>, flag: int): State {
    State(arr, flag, 0, 0, Test, [], 0)
  }

  /** The schedule acts leads from s to t. */
  ghost predicate Run(s: State, acts: seq<Action>, t: State)
    decreases |acts|
  {
    if acts == [] then s == t else Enabled(s, acts[0]) && Run(Next(s, acts[0]), acts[1..], t)
  }

  // ---------- the invariant

  /** The pair at i, given the values x and y it held when the phase began. */
  ghost predicate PairOk(x: int, y: int, l: int, r: int, flag: int, task: Task) {
    match task
    case NoTask => false
    case Unsubmitted => l == x && r == y
    case ReadLeft => l == x && r == y
    case ReadRight(left) => l == x && r == y && left == x
    case Save => l == x && r == y && x > y
    case Fetch(temp) => l == x && r == y && x > y && temp == x
    case StoreLeft(temp, right) => l == x && r == y && x > y && temp == x && right == y
    case StoreRight(temp) => l == y && r == y && x > y && temp == x
    case SetFlag => l == y && r == x && x > y
    case CountDown => l == Min(x, y) && r == Max(x, y) && (x > y ==> flag == 1)
    case Finished => l == Min(x, y) && r == Max(x, y) && (x > y ==> flag == 1)
  }

  function Pending(t: Task): nat {
    if t.NoTask? || t.Finished? then 0 else 1
  }

  /** The array entries of position i, as far as its owner has come. */
  ghost predicate SlotOk(base: seq<int>, s: State, i: nat)
    requires |base| == |s.arr| == |s.tasks| && i < |base|
  {
    if IsPair(|base|, s.start, i) then
      PairOk(base[i], base[i + 1], s.arr[i], s.arr[i + 1], s.flag, s.tasks[i])
    else
      s.tasks[i] == NoTask &&
      (i == 0 || !IsPair(|base|, s.start, i - 1) ==> s.arr[i] == base[i])
  }

  /** In the middle of a phase that began with the array base. */
  ghost predicate PhaseOk(base: seq<int>, s: State) {
    && |base| == |s.arr| == |s.tasks|
    && (forall i: nat :: i < |base| ==> SlotOk(base, s, i))
    && s.latch == Total(s.tasks, Pending)
    && (s.flag == 0 || s.flag == 1)
    && (s.flag == 1 ==> Dirty(base, s.start, |base|))
    && (s.main.Submit? ==>
          s.main.i % 2 == s.start &&
          forall i: nat :: i < |s.tasks| ==> (s.tasks[i].Unsubmitted? <==> IsPair(|base|, s.start, i) && s.main.i <= i))
    && (s.main.Await? ==> forall i: nat :: i < |s.tasks| ==> !s.tasks[i].Unsubmitted?)
  }

  /** Between phases: the array and the flag are those of the sequential sort after as many phases. */
  ghost predicate BetweenOk(arr0: seq<int>, flag0: int, s: State) {
    && s.arr == Phases(arr0, 0, s.phases)
    && (forall i: nat :: i < |s.tasks| ==> s.tasks[i].NoTask? || s.tasks[i].Finished?)
    && (if s.phases == 0 then s.flag == flag0
        else (s.flag == 1 <==> Phases(arr0, 0, s.phases) != Phases(arr0, 0, s.phases - 1)))
  }

  ghost predicate Inv(arr0: seq<int>, flag0: int, s: State) {
    && |s.arr| == |arr0|
    && s.start == s.phases % 2
    && (forall k: nat :: k < s.phases ==> !Stops(arr0, k))
    && (|arr0| == 0 ==> s.phases <= if s.main.Test? || s.main.Thrown? then 1 else 0)
    && (s.phases > 0 || s.main.Submit? || s.main.Await? ==> flag0 == 1)
    && (match s.main
        case Test => BetweenOk(arr0, flag0, s)
        case Returned => BetweenOk(arr0, flag0, s) && s.flag != 1 && s.start == 0
        case Thrown => |arr0| == 0 && flag0 == 1
        case _ => PhaseOk(Phases(arr0, 0, s.phases), s) && !Stops(arr0, s.phases))
  }

  // ---------- the latch count is the number of submitted tasks

  /** The number of pairs that start below size. */
  function PairCount(n: nat, start: nat, size: nat): nat
    requires start < 2
  {
    (if size == n && n > 0 then n - start else size + 1 - start) / 2
  }

  lemma PairCountStep(n: nat, start: nat, size: nat)
    requires start < 2 && 0 < size <= n
    ensures PairCount(n, start, size) == PairCount(n, start, size - 1) + if IsPair(n, start, size - 1) then 1 else 0
  {
  }

  lemma {:induction false} FreshTotal(n: nat, start: nat, size: nat)
    requires start < 2 && size <= n
    ensures Total(FreshTasks(n, start, size), Pending) == PairCount(n, start, size)
  {
    hide PairCount;
    var ts := FreshTasks(n, start, size);
    if size > 0 {
      assert ts[..size - 1] == FreshTasks(n, start, size - 1);
      FreshTotal(n, start, size - 1);
      PairCountStep(n, start, size);
    } else {
      PairCountZero(n, start);
    }
  }

  lemma PairCountZero(n: nat, start: nat)
    requires start < 2
    ensures PairCount(n, start, 0) == 0
  {
  }

  /** The latch is created with exactly one count for every task; only the empty array breaks it. */
  lemma LatchMatchesTasks(n: nat, start: nat)
    requires start < 2
    ensures LatchCount(n, start) < 0 <==> n == 0 && start == 1
    ensures LatchCount(n, start) >= 0 ==> LatchCount(n, start) == Total(FreshTasks(n, start, n), Pending)
  {
    FreshTotal(n, start, n);
  }

  // ---------- every step keeps the invariant

  /** The step of one task, seen by its own pair. */
  lemma OwnSlotStep(base: seq<int>, s: State, i: nat)
    requires |base| == |s.arr| == |s.tasks| && Enabled(s, TaskStep(i)) && s.start < 2
    requires SlotOk(base, s, i) && (s.flag == 1 ==> Dirty(base, s.start, |base|))
    ensures var t := TaskNext(s, i);
            && |t.arr| == |t.tasks| == |base| && t.start == s.start
            && SlotOk(base, t, i)
            && (t.flag == s.flag || t.flag == 1)
            && (t.flag == 1 ==> Dirty(base, s.start, |base|))
  {
  }

  /** A step of the pair at i leaves the slots of all other pairs as they are. */
  lemma OtherSlotStep(base: seq<int>, s: State, i: nat, k: nat)
    requires |base| == |s.arr| == |s.tasks| && Enabled(s, TaskStep(i)) && s.start < 2
    requires IsPair(|base|, s.start, i) && k < |base| && k != i
    requires SlotOk(base, s, k)
    ensures SlotOk(base, TaskNext(s, i), k)
  {
    var t := TaskNext(s, i);
    assert t.tasks[k] == s.tasks[k];
    if IsPair(|base|, s.start, k) {
      assert k + 1 != i && k != i + 1;
      assert t.arr[k] == s.arr[k] && t.arr[k + 1] == s.arr[k + 1];
    } else if k != i + 1 {
      assert t.arr[k] == s.arr[k];
    }
  }

  /** The latch counts exactly the tasks that have not counted down. */
  lemma TaskStepTotal(s: State, i: nat)
    requires Enabled(s, TaskStep(i)) && s.latch == Total(s.tasks, Pending)
    ensures TaskNext(s, i).latch == Total(TaskNext(s, i).tasks, Pending)
  {
    TotalUpdate(s.tasks, i, TaskNext(s, i).tasks[i], Pending);
  }

  lemma TaskStepPhaseOk(base: seq<int>, s: State, i: nat)
    requires PhaseOk(base, s) && Enabled(s, TaskStep(i)) && s.start < 2
    ensures PhaseOk(base, TaskNext(s, i))
  {
    hide Total, Dirty, PairOk;
    var t := TaskNext(s, i);
    assert SlotOk(base, s, i);
    OwnSlotStep(base, s, i);
    TaskStepTotal(s, i);
    forall k: nat | k < |base|
      ensures SlotOk(base, t, k)
    {
      if k != i {
        OtherSlotStep(base, s, i, k);
      }
    }
    assert forall k: nat :: k < |s.tasks| ==> (t.tasks[k].Unsubmitted? <==> s.tasks[k].Unsubmitted?);
  }

  lemma FreshPhaseOk(base: seq<int>, s: State)
    requires s.main.Test? && s.start < 2 && |base| == |s.arr| && base == s.arr && (s.flag == 1 || s.start == 1)
    requires !MainNext(s).main.Thrown?
    ensures PhaseOk(base, MainNext(s))
  {
    LatchMatchesTasks(|base|, s.start);
  }

  lemma SubmitPhaseOk(base: seq<int>, s: State)
    requires PhaseOk(base, s) && s.main.Submit? && s.start < 2
    ensures PhaseOk(base, MainNext(s))
  {
    hide Total, Dirty;
    var i, t := s.main.i, MainNext(s);
    if i < |s.arr| - 1 {
      TotalUpdate(s.tasks, i, ReadLeft, Pending);
    }
    forall k: nat | k < |base|
      ensures SlotOk(base, t, k)
    {
      assert SlotOk(base, s, k);
    }
  }

  /** When the latch reaches zero every task has finished and the array is that of the whole phase. */
  lemma AwaitedPhase(base: seq<int>, s: State)
    requires PhaseOk(base, s) && s.main.Await? && s.start < 2 && s.latch == 0
    ensures s.arr == Phase(base, s.start)
    ensures s.flag == 1 <==> Phase(base, s.start) != base
    ensures forall i: nat :: i < |s.tasks| ==> s.tasks[i].NoTask? || s.tasks[i].Finished?
  {
    forall i: nat | i < |s.tasks|
      ensures s.tasks[i].NoTask? || s.tasks[i].Finished?
    {
      TotalAtLeast(s.tasks, i, Pending);
    }
    forall i: nat | i < |base|
      ensures s.arr[i] == PhaseAt(base, s.start, i)
      ensures IsPair(|base|, s.start, i) && base[i] > base[i + 1] ==> s.flag == 1
    {
      assert SlotOk(base, s, i);
      if i > 0 {
        assert SlotOk(base, s, i - 1);
      }
    }
    assert s.arr == Phase(base, s.start);
    PhaseChanges(base, s.start);
    if Dirty(base, s.start, |base|) {
      var k :| 0 <= k < |base| && k + 1 < |base| && k % 2 == s.start && base[k] > base[k + 1];
      assert IsPair(|base|, s.start, k);
    }
  }

  lemma NextPhase(arr0: seq<int>, k: nat)
    ensures Phases(arr0, 0, k + 1) == Phase(Phases(arr0, 0, k), k % 2)
  {
    hide Phase;
  }

  lemma MainStepInv(arr0: seq<int>, flag0: int, s: State)
    requires Inv(arr0, flag0, s) && Enabled(s, MainStep)
    ensures Inv(arr0, flag0, MainNext(s))
  {
    hide PhaseOk, Phase, Phases;
    var base := Phases(arr0, 0, s.phases);
    match s.main
    case Test =>
      if s.flag == 1 || s.start == 1 {
        LatchMatchesTasks(|arr0|, s.start);
        if !MainNext(s).main.Thrown? {
          FreshPhaseOk(base, s);
        }
      }
    case Submit(_) => SubmitPhaseOk(base, s);
    case Await =>
      AwaitedPhase(base, s);
      NextPhase(arr0, s.phases);
    case _ =>
  }

  lemma TaskStepInv(arr0: seq<int>, flag0: int, s: State, i: nat)
    requires Inv(arr0, flag0, s) && Enabled(s, TaskStep(i))
    ensures Inv(arr0, flag0, TaskNext(s, i))
  {
    hide PhaseOk, Phases;
    if s.main.Submit? || s.main.Await? {
      TaskStepPhaseOk(Phases(arr0, 0, s.phases), s, i);
    }
  }

  lemma StepInv(arr0: seq<int>, flag0: int, s: State, a: Action)
    requires Inv(arr0, flag0, s) && Enabled(s, a)
    ensures Inv(arr0, flag0, Next(s, a))
  {
    hide Inv;
    match a
    case MainStep => MainStepInv(arr0, flag0, s);
    case TaskStep(i) => TaskStepInv(arr0, flag0, s, i);
  }

  lemma {:induction false} RunInv(arr0: seq<int>, flag0: int, s: State, acts: seq<Action>, t: State)
    requires Inv(arr0, flag0, s) && Run(s, acts, t)
    ensures Inv(arr0, flag0, t)
    decreases |acts|
  {
    hide Inv;
    if acts != [] {
      StepInv(arr0, flag0, s, acts[0]);
      RunInv(arr0, flag0, Next(s, acts[0]), acts[1..], t);
    }
  }

  // ---------- what every run does

  /** Whatever the interleaving, the call returns exactly what the sequential sort computes. */
  lemma ParallelAgrees(arr0: seq<int>, flag0: int, acts: seq<Action>, t: State)
    requires Run(Init(arr0, flag0), acts, t) && t.main.Returned?
    ensures flag0 == 1 ==>
              && |arr0| > 0
              && StopsFirstAt(arr0, t.phases) && t.arr == Phases(arr0, 0, t.phases)
              && Sorted(t.arr) && multiset(t.arr) == multiset(arr0)
    ensures flag0 != 1 ==> t.arr == arr0
    ensures t.flag != 1
  {
    hide Phase, Phases, Sorted;
    InitInv(arr0, flag0);
    RunInv(arr0, flag0, Init(arr0, flag0), acts, t);
    if flag0 == 1 {
      assert Stops(arr0, t.phases);
      StoppedSorted(arr0, t.phases);
    }
  }

  lemma InitInv(arr0: seq<int>, flag0: int)
    ensures Inv(arr0, flag0, Init(arr0, flag0))
  {
  }

  /** The latch constructor throws for the empty array and for no other. */
  lemma ThrowsOnlyWhenEmpty(arr0: seq<int>, flag0: int, acts: seq<Action>, t: State)
    requires Run(Init(arr0, flag0), acts, t)
    ensures t.main.Thrown? ==> |arr0| == 0 && flag0 == 1
    ensures |arr0| == 0 && flag0 == 1 ==> !t.main.Returned?
  {
    hide Phase, Phases;
    InitInv(arr0, flag0);
    RunInv(arr0, flag0, Init(arr0, flag0), acts, t);
  }

  /** No deadlock: until the call returns or throws, some thread can take a step. */
  lemma Progress(arr0: seq<int>, flag0: int, acts: seq<Action>, s: State) returns (a: Action)
    requires Run(Init(arr0, flag0), acts, s) && !s.main.Returned? && !s.main.Thrown?
    ensures Enabled(s, a)
  {
    hide Phases, Total, Run;
    InitInv(arr0, flag0);
    RunInv(arr0, flag0, Init(arr0, flag0), acts, s);
    a := MainStep;
    if s.main.Await? && s.latch > 0 {
      var i := TotalWitness(s.tasks, Pending);
      assert SlotOk(Phases(arr0, 0, s.phases), s, i);
      a := TaskStep(i);
    }
  }

  // ---------- bounded work

  /** An upper bound on the steps a task still has to take. */
  function Work(t: Task): nat {
    match t
    case NoTask => 0
    case Unsubmitted => 10
    case ReadLeft => 9
    case ReadRight(_) => 8
    case Save => 7
    case Fetch(_) => 6
    case StoreLeft(_, _) => 5
    case StoreRight(_) => 4
    case SetFlag => 3
    case CountDown => 2
    case Finished => 0
  }

  function PhaseWork(s: State): nat {
    var n := |s.arr|;
    match s.main
    case Test => 12 * n + 15
    case Submit(i) => 10 + (if i <= n then n + 1 - i else 0) + Total(s.tasks, Work)
    case Await => 5 + Total(s.tasks, Work)
    case Returned => 0
    case Thrown => 0
  }

  function Rank(s: State): int {
    (|s.arr| + 3 - s.phases) * (12 * |s.arr| + 20) + PhaseWork(s)
  }

  lemma PhasesBounded(arr0: seq<int>, flag0: int, s: State)
    requires Inv(arr0, flag0, s)
    ensures s.phases <= |s.arr| + 2
  {
    hide Stops;
    StopsInTime(arr0, s.phases);
  }

  lemma MainStepWork(s: State)
    requires Enabled(s, MainStep) && s.start < 2
    requires s.main.Submit? && s.main.i < |s.tasks| ==>
               s.tasks[s.main.i].Unsubmitted? || s.main.i + 1 >= |s.arr|
    ensures var t := MainNext(s);
            if s.main.Await? then PhaseWork(t) == 12 * |s.arr| + 15 && PhaseWork(s) >= 5 && t.phases == s.phases + 1
            else PhaseWork(t) < PhaseWork(s) && t.phases == s.phases
  {
    match s.main
    case Test => TotalAtMost(FreshTasks(|s.arr|, s.start, |s.arr|), Work, 10);
    case Submit(i) =>
      if i < |s.tasks| {
        TotalUpdate(s.tasks, i, ReadLeft, Work);
      }
    case _ =>
  }

  lemma TaskStepWork(s: State, i: nat)
    requires Enabled(s, TaskStep(i)) && (s.main.Submit? || s.main.Await?)
    ensures PhaseWork(TaskNext(s, i)) < PhaseWork(s)
  {
    hide Total;
    TotalUpdate(s.tasks, i, TaskNext(s, i).tasks[i], Work);
  }

  lemma StepRank(arr0: seq<int>, flag0: int, s: State, a: Action)
    requires Inv(arr0, flag0, s) && Enabled(s, a)
    ensures Rank(Next(s, a)) < Rank(s)
  {
    hide PhaseWork, Phases;
    var n, t := |s.arr|, Next(s, a);
    match a
    case MainStep =>
      MainStepWork(s);
      assert (n + 3 - s.phases) * (12 * n + 20) == (n + 3 - s.phases - 1) * (12 * n + 20) + (12 * n + 20);
    case TaskStep(i) =>
      TaskStepWork(s, i);
  }

  lemma {:induction false} RunShrinks(arr0: seq<int>, flag0: int, s: State, acts: seq<Action>, t: State)
    requires Inv(arr0, flag0, s) && Run(s, acts, t)
    ensures |acts| + Rank(t) <= Rank(s)
    decreases |acts|
  {
    hide Inv, Rank;
    if acts != [] {
      StepInv(arr0, flag0, s, acts[0]);
      StepRank(arr0, flag0, s, acts[0]);
      RunShrinks(arr0, flag0, Next(s, acts[0]), acts[1..], t);
    }
  }

  /** Every schedule is finite, with a bound quadratic in the length of the array. */
  lemma RunsEnd(arr0: seq<int>, flag0: int, acts: seq<Action>, t: State)
    requires Run(Init(arr0, flag0), acts, t)
    ensures |acts| <= (|arr0| + 3) * (12 * |arr0| + 20) + 12 * |arr0| + 15
  {
    hide Run, Inv, Rank;
    var s := Init(arr0, flag0);
    InitInv(arr0, flag0);
    RunShrinks(arr0, flag0, s, acts, t);
    RunInv(arr0, flag0, s, acts, t);
    RankRange(arr0, flag0, t);
    InitRank(arr0, flag0);
  }

  lemma InitRank(arr0: seq<int>, flag0: int)
    ensures Rank(Init(arr0, flag0)) == (|arr0| + 3) * (12 * |arr0| + 20) + 12 * |arr0| + 15
  {
  }

  lemma RankRange(arr0: seq<int>, flag0: int, t: State)
    requires Inv(arr0, flag0, t)
    ensures Rank(t) >= 0
  {
    hide Inv, PhaseWork;
    PhasesBounded(arr0, flag0, t);
    ProductNonNegative(|t.arr| + 3 - t.phases, 12 * |t.arr| + 20);
  }
}
