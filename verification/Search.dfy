/**
 The parallel search: the main thread submits one task per chunk and then collects the results in order;
 the tasks share one atomic cell that holds -1 until the first of them finds the value.  Every read of the
 cell, comparison and compare-and-set is one step, and steps interleave freely.
 */
module Search {
  import opened Arithmetic
  import opened Sequences
  import opened Totals

  datatype Pc =
    | Head(i: nat)                           // loop test, then the first read of the cell
    | Compare(i: nat)                        // arr[i] == searchValue
    | Cas(i: nat)                            // compare-and-set of the cell to i
    | Reread                                 // return the cell
    | Ended(r: int)

  datatype Task = Task(start: nat, end: nat, pc: Pc)

  datatype Main = Submitting(i: nat) | Collecting(k: nat) | Returned(r: int)

  /** arr, v and size never change. */
  datatype State = State(arr: seq<int>, v: int, size: nat, cell: int, tasks: seq<Task>, main: Main)

  datatype Action = MainStep | TaskStep(k: nat)

  /** The chunk size of pSearch: the length divided by the number of threads, rounded up. */
  function ChunkSize(n: nat, threads: nat): nat
    requires threads > 0
  {
    if n % threads == 0 then n / threads else n / threads + 1
  }

  function Init(arr: seq<int>, v: int, threads: nat, cell: int): State
    requires threads > 0
  {
    State(arr, v, ChunkSize(|arr|, threads), cell, [], Submitting(0))
  }

  predicate Enabled(s: State, a: Action) {
    match a
    case MainStep =>
      s.main.Submitting? ||
      (s.main.Collecting? && (s.main.k < |s.tasks| ==> s.tasks[s.main.k].pc.Ended?))
    case TaskStep(k) => k < |s.tasks| && !s.tasks[k].pc.Ended?
  }

  function MainNext(s: State): State
    requires Enabled(s, MainStep)
  {
    var n := |s.arr|;
    match s.main
    case Submitting(i) =>
      if i < n then
        var end := if i + s.size > n then n else i + s.size;
        s.(tasks := s.tasks + [Task(i, end, Head(i))], main := Submitting(i + s.size))
      else s.(main := Collecting(0))
    case Collecting(k) =>
      if k >= |s.tasks| then s.(main := Returned(-1))
      else if s.tasks[k].pc.r > 0 then s.(main := Returned(s.tasks[k].pc.r))
      else s.(main := Collecting(k + 1))
    case Returned(_) => s
  }

  /** One step of a task: its next program counter and the cell. */
  function PcNext(s: State, t: Task): (Pc, int) {
    match t.pc
    case Head(i) => (if i >= t.end then Ended(-1) else if s.cell > 0 then Reread else Compare(i), s.cell)
    case Compare(i) => (if i < |s.arr| && s.arr[i] == s.v then Cas(i) else Head(i + 1), s.cell)
    case Cas(i) => if s.cell == -1 then (Ended(i), i) else (Reread, s.cell)
    case Reread => (Ended(s.cell), s.cell)
    case Ended(r) => (Ended(r), s.cell)
  }

  function TaskNext(s: State, k: nat): State
    requires Enabled(s, TaskStep(k))
  {
    var (pc, cell) := PcNext(s, s.tasks[k]);
    s.(tasks := s.tasks[k := s.tasks[k].(pc := pc)], cell := cell)
  }

  function Next(s: State, a: Action): State
    requires Enabled(s, a)
  {
    match a
    case MainStep => MainNext(s)
    case TaskStep(k) => TaskNext(s, k)
  }

  ghost predicate Run(s: State, acts: seq<Action>, t: State)
    decreases |acts|
  {
    if acts == [] then s == t else Enabled(s, acts[0]) && Run(Next(s, acts[0]), acts[1..], t)
  }

  // ---------- the chunks

  /** The submitted tasks are consecutive non-empty chunks that partition [0, upTo). */
  ghost predicate Partition(s: State, upTo: nat) {
    && (forall k :: 0 <= k < |s.tasks| ==> s.tasks[k].start < s.tasks[k].end <= upTo)
    && (forall k :: 0 < k < |s.tasks| ==> s.tasks[k - 1].end == s.tasks[k].start)
    && (if s.tasks == [] then upTo == 0 else s.tasks[0].start == 0 && s.tasks[|s.tasks| - 1].end == upTo)
  }

  /** Where the k-th chunk begins. */
  function Offset(k: nat, size: nat): nat {
    k * size
  }

  lemma OffsetNext(k: nat, size: nat)
    ensures Offset(k + 1, size) == Offset(k, size) + size
  {
  }

  ghost predicate Submitted(s: State) {
    var n := |s.arr|;
    && SizePositive(s)
    && (s.main.Submitting? ==> Partition(s, Min(s.main.i, n)) && s.main.i == Offset(|s.tasks|, s.size))
    && (!s.main.Submitting? ==> Partition(s, n))
    && (|s.tasks| > 0 ==> Offset(|s.tasks| - 1, s.size) < n)
  }

  predicate SizePositive(s: State) {
    |s.arr| > 0 ==> s.size > 0
  }

  /** Each position belongs to a chunk. */
  lemma {:induction false} Covered(s: State, m: nat, p: nat) returns (k: nat)
    requires 0 < m <= |s.tasks|
    requires s.tasks[0].start == 0 && forall k :: 0 < k < |s.tasks| ==> s.tasks[k - 1].end == s.tasks[k].start
    requires p < s.tasks[m - 1].end
    ensures k < m && s.tasks[k].start <= p < s.tasks[k].end
  {
    if s.tasks[m - 1].start <= p {
      k := m - 1;
    } else {
      k := Covered(s, m - 1, p);
    }
  }

  /** The least size with which as many chunks as threads cover the array. */
  lemma ChunkSizeLeast(n: nat, threads: nat)
    requires threads > 0
    ensures n > 0 ==> ChunkSize(n, threads) > 0 && threads * (ChunkSize(n, threads) - 1) < n
    ensures threads * ChunkSize(n, threads) >= n
  {
    assert n == threads * (n / threads) + n % threads;
    if n % threads != 0 {
      assert threads * (n / threads + 1) == threads * (n / threads) + threads;
    }
  }

  /** No more chunks than threads. */
  lemma ChunksBounded(s: State, threads: nat)
    requires Submitted(s) && threads > 0 && s.size == ChunkSize(|s.arr|, threads)
    ensures |s.tasks| <= threads
  {
    ChunkSizeLeast(|s.arr|, threads);
    if |s.tasks| > threads {
      ScaleMonotone(threads, |s.tasks| - 1, s.size);
    }
  }

  lemma StepSubmitted(s: State, a: Action)
    requires Submitted(s) && Enabled(s, a)
    ensures Submitted(Next(s, a))
  {
    hide Submitted, PcNext;
    match a
    case MainStep => MainSubmitted(s);
    case TaskStep(k) => TaskSubmitted(s, k);
  }

  lemma MainSubmitted(s: State)
    requires Submitted(s) && Enabled(s, MainStep)
    ensures Submitted(MainNext(s))
  {
    hide Partition, Offset;
    if s.main.Submitting? && s.main.i < |s.arr| {
      SubmitPartition(s);
      OffsetNext(|s.tasks|, s.size);
    } else {
      KeepsPartition(s, MainNext(s), |s.arr|);
    }
  }

  lemma KeepsPartition(s: State, u: State, m: nat)
    requires s.tasks == u.tasks
    ensures Partition(s, m) <==> Partition(u, m)
  {
  }

  lemma TaskSubmitted(s: State, k: nat)
    requires Submitted(s) && Enabled(s, TaskStep(k))
    ensures Submitted(TaskNext(s, k))
  {
    hide Partition, Offset, PcNext;
    TaskKeepsChunks(s, k, Min(if s.main.Submitting? then s.main.i else |s.arr|, |s.arr|));
  }

  lemma TaskKeepsChunks(s: State, k: nat, m: nat)
    requires Enabled(s, TaskStep(k)) && Partition(s, m)
    ensures Partition(TaskNext(s, k), m)
  {
    hide PcNext;
    var u := TaskNext(s, k);
    assert forall j :: 0 <= j < |s.tasks| ==> u.tasks[j].start == s.tasks[j].start && u.tasks[j].end == s.tasks[j].end;
  }

  lemma SubmitPartition(s: State)
    requires s.main.Submitting? && s.main.i < |s.arr| && s.size > 0 && Partition(s, s.main.i)
    ensures Partition(MainNext(s), Min(s.main.i + s.size, |s.arr|))
  {
  }

  // ---------- a search that starts with an empty cell

  ghost predicate Absent(s: State, from: nat, to: nat)
    requires to <= |s.arr|
  {
    forall p :: from <= p < to ==> s.arr[p] != s.v
  }

  ghost predicate Found(s: State, r: int) {
    0 < r < |s.arr| && s.arr[r] == s.v
  }

  ghost predicate TaskOk(s: State, t: Task) {
    t.start < t.end <= |s.arr| &&
    match t.pc
    case Head(i) => t.start <= i <= t.end && Absent(s, t.start, i)
    case Compare(i) => t.start <= i < t.end && Absent(s, t.start, i)
    case Cas(i) => t.start <= i < t.end && s.arr[i] == s.v
    case Reread => s.cell > 0
    case Ended(r) => (r == -1 && Absent(s, t.start, t.end)) || (r == s.cell && r > 0)
  }

  ghost predicate FreshInv(s: State) {
    && Submitted(s)
    && (s.arr != [] ==> s.arr[0] != s.v)
    && (s.cell == -1 || Found(s, s.cell))
    && (forall k :: 0 <= k < |s.tasks| ==> TaskOk(s, s.tasks[k]))
    && (s.main.Collecting? ==> forall k: nat :: k < s.main.k && k < |s.tasks| ==> s.tasks[k].pc == Ended(-1))
    && (s.main.Returned? ==>
          if s.main.r == -1 then forall k :: 0 <= k < |s.tasks| ==> s.tasks[k].pc == Ended(-1)
          else s.main.r == s.cell > 0)
  }

  lemma TaskStepOk(s: State, k: nat)
    requires FreshInv(s) && Enabled(s, TaskStep(k))
    ensures var u := TaskNext(s, k);
            && (u.cell == s.cell || (s.cell == -1 && Found(u, u.cell)))
            && TaskOk(u, u.tasks[k])
  {
    hide Submitted;
    assert TaskOk(s, s.tasks[k]);
  }

  lemma OtherTaskOk(s: State, u: State, t: Task)
    requires TaskOk(s, t) && u.arr == s.arr && u.v == s.v
    requires u.cell == s.cell || (s.cell == -1 && u.cell > 0)
    ensures TaskOk(u, t)
  {
  }

  lemma StepFresh(s: State, a: Action)
    requires FreshInv(s) && Enabled(s, a)
    ensures FreshInv(Next(s, a))
  {
    hide Submitted, TaskOk;
    StepSubmitted(s, a);
    var u := Next(s, a);
    match a
    case MainStep =>
      if s.main.Submitting? && s.main.i < |s.arr| {
        NewTaskOk(s);
      }
      forall k | 0 <= k < |s.tasks|
        ensures TaskOk(u, s.tasks[k])
      {
        OtherTaskOk(s, u, s.tasks[k]);
      }
      if s.main.Collecting? && s.main.k < |s.tasks| {
        EndedOk(s, s.main.k);
      }
    case TaskStep(k) =>
      TaskStepOk(s, k);
      forall j | 0 <= j < |s.tasks|
        ensures TaskOk(u, u.tasks[j])
      {
        if j != k {
          OtherTaskOk(s, u, s.tasks[j]);
        }
      }
  }

  lemma EndedOk(s: State, k: nat)
    requires k < |s.tasks| && TaskOk(s, s.tasks[k]) && s.tasks[k].pc.Ended?
    ensures s.tasks[k].pc.r == -1 || s.tasks[k].pc.r == s.cell > 0
  {
  }

  lemma NewTaskOk(s: State)
    requires Submitted(s) && s.main.Submitting? && s.main.i < |s.arr|
    ensures var u := MainNext(s);
            |u.tasks| == |s.tasks| + 1 && TaskOk(u, u.tasks[|s.tasks|]) && u.tasks[..|s.tasks|] == s.tasks
  {
  }

  lemma {:induction false} RunFresh(s: State, acts: seq<Action>, t: State)
    requires FreshInv(s) && Run(s, acts, t)
    ensures FreshInv(t) && t.arr == s.arr && t.v == s.v && t.size == s.size
    decreases |acts|
  {
    hide FreshInv;
    if acts != [] {
      StepFresh(s, acts[0]);
      RunFresh(Next(s, acts[0]), acts[1..], t);
    }
  }

  lemma InitSubmitted(arr: seq<int>, v: int, threads: nat, cell: int)
    requires threads > 0
    ensures Submitted(Init(arr, v, threads, cell))
  {
    ChunkSizeLeast(|arr|, threads);
  }

  ghost predicate Chunked(s: State) {
    && (s.main.Submitting? ==> s.main.i == Offset(|s.tasks|, s.size))
    && forall k: nat :: k < |s.tasks| ==>
         s.tasks[k].start == Offset(k, s.size) && s.tasks[k].end == Min(Offset(k, s.size) + s.size, |s.arr|)
  }

  lemma StepChunked(s: State, a: Action)
    requires Chunked(s) && Enabled(s, a)
    ensures Chunked(Next(s, a)) && Next(s, a).size == s.size && Next(s, a).arr == s.arr
  {
    hide Offset, PcNext;
    OffsetNext(|s.tasks|, s.size);
  }

  lemma {:induction false} RunChunked(s: State, acts: seq<Action>, t: State)
    requires Chunked(s) && Run(s, acts, t)
    ensures Chunked(t) && t.size == s.size && t.arr == s.arr
    decreases |acts|
  {
    if acts != [] {
      hide Chunked, Next, Enabled;
      StepChunked(s, acts[0]);
      RunChunked(Next(s, acts[0]), acts[1..], t);
    }
  }

  /** The k-th task searches the k-th chunk, whatever the size. */
  lemma ChunksExactly(s: State, acts: seq<Action>, t: State)
    requires s.tasks == [] && s.main == Submitting(0) && Run(s, acts, t)
    ensures t.size == s.size && t.arr == s.arr
    ensures forall k: nat :: k < |t.tasks| ==>
              t.tasks[k].start == k * s.size && t.tasks[k].end == Min(k * s.size + s.size, |s.arr|)
  {
    hide Run;
    RunChunked(s, acts, t);
    assert forall k: nat :: Offset(k, t.size) == k * t.size;
  }

  /** Unless the value sits at index 0, every interleaving answers correctly. */
  lemma SearchCorrect(arr: seq<int>, v: int, threads: nat, acts: seq<Action>, t: State)
    requires threads > 0 && Run(Init(arr, v, threads, -1), acts, t) && t.main.Returned?
    requires arr != [] ==> arr[0] != v
    ensures t.main.r == -1 <==> v !in arr
    ensures t.main.r != -1 ==> 0 <= t.main.r < |arr| && arr[t.main.r] == v
    ensures forall k :: 0 <= k < |t.tasks| && t.tasks[k].pc.Ended? ==>
              t.tasks[k].pc.r == -1 || t.tasks[k].pc.r == t.cell
    ensures |t.tasks| <= threads && Partition(t, |arr|)
  {
    hide Run;
    InitSubmitted(arr, v, threads, -1);
    RunFresh(Init(arr, v, threads, -1), acts, t);
    ChunksBounded(t, threads);
    forall k | 0 <= k < |t.tasks|
      ensures TaskOk(t, t.tasks[k])
    {
    }
    if t.main.r == -1 {
      forall p: nat | p < |arr|
        ensures arr[p] != v
      {
        var k := Covered(t, |t.tasks|, p);
        assert TaskOk(t, t.tasks[k]);
      }
    }
  }

  // ---------- a search that starts with a used cell

  /** Cell contents left by an earlier search are never replaced. */
  ghost predicate StaleInv(s: State, cell0: nat) {
    && s.cell == cell0
    && (forall k :: 0 <= k < |s.tasks| ==> StaleTask(s.tasks[k], cell0))
    && (s.main.Collecting? ==> s.main.k == 0 || cell0 == 0 || |s.tasks| == 0)
    && (|s.arr| > 0 ==>
          && s.size > 0
          && (s.main.Submitting? ==> s.main.i == 0 || |s.tasks| > 0)
          && (!s.main.Submitting? ==> |s.tasks| > 0))
    && (|s.arr| == 0 ==> |s.tasks| == 0)
    && (s.main.Returned? ==> s.main.r == if cell0 > 0 && |s.arr| > 0 then cell0 else -1)
  }

  ghost predicate StaleTask(t: Task, cell0: nat) {
    t.start < t.end &&
    (t.pc.Ended? ==> t.pc.r == cell0 || (cell0 == 0 && t.pc.r == -1)) &&
    (cell0 > 0 ==> t.pc == Head(t.start) || t.pc.Reread? || t.pc.Ended?)
  }

  lemma StepStale(s: State, a: Action, cell0: nat)
    requires StaleInv(s, cell0) && Enabled(s, a)
    ensures StaleInv(Next(s, a), cell0)
  {
    hide StaleTask;
    match a
    case MainStep =>
      if s.main.Submitting? && s.main.i < |s.arr| {
        StaleNew(s, cell0);
      } else if s.main.Collecting? && s.main.k < |s.tasks| {
        StaleEnded(s, s.main.k, cell0);
      }
    case TaskStep(k) => StaleStep(s, k, cell0);
  }

  lemma StaleNew(s: State, cell0: nat)
    requires s.main.Submitting? && s.main.i < |s.arr| && s.size > 0
    ensures StaleTask(MainNext(s).tasks[|s.tasks|], cell0)
  {
  }

  lemma StaleEnded(s: State, k: nat, cell0: nat)
    requires k < |s.tasks| && StaleTask(s.tasks[k], cell0) && s.tasks[k].pc.Ended?
    ensures s.tasks[k].pc.r == cell0 || (cell0 == 0 && s.tasks[k].pc.r == -1)
  {
  }

  lemma StaleStep(s: State, k: nat, cell0: nat)
    requires s.cell == cell0 && Enabled(s, TaskStep(k)) && StaleTask(s.tasks[k], cell0)
    ensures TaskNext(s, k).cell == cell0 && StaleTask(TaskNext(s, k).tasks[k], cell0)
  {
  }

  lemma {:induction false} RunStale(s: State, acts: seq<Action>, t: State, cell0: nat)
    requires StaleInv(s, cell0) && Run(s, acts, t)
    ensures StaleInv(t, cell0) && t.arr == s.arr
    decreases |acts|
  {
    hide StaleInv;
    if acts != [] {
      StepStale(s, acts[0], cell0);
      RunStale(Next(s, acts[0]), acts[1..], t, cell0);
    }
  }

  /** A second search of a non-empty array returns the index of the first one, or -1 if that was 0. */
  lemma SecondSearch(arr: seq<int>, v: int, threads: nat, cell0: nat, acts: seq<Action>, t: State)
    requires threads > 0 && Run(Init(arr, v, threads, cell0), acts, t) && t.main.Returned?
    ensures t.main.r == if cell0 > 0 && arr != [] then cell0 else -1
  {
    hide Run;
    ChunkSizeLeast(|arr|, threads);
    RunStale(Init(arr, v, threads, cell0), acts, t, cell0);
  }

  // ---------- every search ends

  function Work(t: Task): nat {
    match t.pc
    case Head(i) => (if i < t.end then 3 * (t.end - i) else 0) + 4
    case Compare(i) => (if i < t.end then 3 * (t.end - i) else 0) + 3
    case Cas(_) => 2
    case Reread => 1
    case Ended(_) => 0
  }

  function Rank(s: State): nat {
    Total(s.tasks, Work) +
    match s.main
    case Submitting(i) => 10 * (if i < |s.arr| then |s.arr| - i else 0) + |s.tasks| + 10
    case Collecting(k) => (if k < |s.tasks| then |s.tasks| - k else 0) + 1
    case Returned(_) => 0
  }

  lemma StepRank(s: State, a: Action)
    requires Sane(s) && Enabled(s, a)
    ensures Rank(Next(s, a)) < Rank(s) && Sane(Next(s, a))
  {
    hide Total;
    match a
    case MainStep =>
      if s.main.Submitting? && s.main.i < |s.arr| {
        var t := MainNext(s).tasks[|s.tasks|];
        TotalSnoc(s.tasks, t, Work);
      }
    case TaskStep(k) =>
      TaskWork(s, s.tasks[k]);
      TotalUpdate(s.tasks, k, TaskNext(s, k).tasks[k], Work);
  }

  lemma TaskWork(s: State, t: Task)
    requires !t.pc.Ended? && (t.pc.Compare? ==> t.pc.i < t.end)
    ensures Work(t.(pc := PcNext(s, t).0)) < Work(t)
    ensures PcNext(s, t).0.Compare? ==> PcNext(s, t).0.i < t.end
  {
  }

  ghost predicate Sane(s: State) {
    (|s.arr| > 0 ==> s.size > 0) &&
    forall k :: 0 <= k < |s.tasks| && s.tasks[k].pc.Compare? ==> s.tasks[k].pc.i < s.tasks[k].end
  }

  lemma {:induction false} RunsEnd(s: State, acts: seq<Action>, t: State)
    requires Sane(s) && Run(s, acts, t)
    ensures |acts| + Rank(t) <= Rank(s)
    decreases |acts|
  {
    hide Rank;
    if acts != [] {
      StepRank(s, acts[0]);
      RunsEnd(Next(s, acts[0]), acts[1..], t);
    }
  }

  /** Every schedule is finite: no run takes more than ten steps for each element and ten more. */
  lemma SearchEnds(arr: seq<int>, v: int, threads: nat, cell: int, acts: seq<Action>, t: State)
    requires threads > 0 && Run(Init(arr, v, threads, cell), acts, t)
    ensures |acts| <= 10 * |arr| + 10
  {
    hide Run;
    ChunkSizeLeast(|arr|, threads);
    RunsEnd(Init(arr, v, threads, cell), acts, t);
  }

  /** From any state the search can be driven to its end. */
  lemma {:induction false} Finish(s: State) returns (acts: seq<Action>, t: State)
    requires Sane(s)
    ensures Run(s, acts, t) && t.main.Returned?
    decreases Rank(s)
  {
    hide Rank, Next;
    if s.main.Returned? {
      acts, t := [], s;
    } else {
      var a := if Enabled(s, MainStep) then MainStep else TaskStep(s.main.k);
      StepRank(s, a);
      StepSize(s, a);
      acts, t := Finish(Next(s, a));
      RunCons(s, a, acts, t);
      acts := [a] + acts;
    }
  }

  lemma StepSize(s: State, a: Action)
    requires Enabled(s, a)
    ensures Next(s, a).size == s.size && Next(s, a).arr == s.arr
  {
  }

  lemma RunCons(s: State, a: Action, acts: seq<Action>, t: State)
    requires Enabled(s, a) && Run(Next(s, a), acts, t)
    ensures Run(s, [a] + acts, t)
  {
    assert ([a] + acts)[1..] == acts;
  }

  // ---------- the value at index 0

  /** The first task is submitted and finds the value at index 0. */
  function FoundAtZero(s: State): State
    requires s.arr != []
  {
    s.(tasks := [Task(0, Min(s.size, |s.arr|), Ended(0))], main := Submitting(s.size), cell := 0)
  }

  lemma FirstTaskFinds(arr: seq<int>, v: int, threads: nat, acts: seq<Action>, t: State)
    requires threads > 0 && arr != [] && arr[0] == v
    requires Run(FoundAtZero(Init(arr, v, threads, -1)), acts, t)
    ensures Run(Init(arr, v, threads, -1), [MainStep] + ([TaskStep(0)] + ([TaskStep(0)] + ([TaskStep(0)] + acts))), t)
  {
    hide Run;
    ChunkSizeLeast(|arr|, threads);
    var s, a := Init(arr, v, threads, -1), TaskStep(0);
    var end := Min(s.size, |arr|);
    var s1 := s.(tasks := [Task(0, end, Head(0))], main := Submitting(s.size));
    var s2, s3 := s1.(tasks := [Task(0, end, Compare(0))]), s1.(tasks := [Task(0, end, Cas(0))]);
    assert Next(s, MainStep) == s1 && Next(s1, a) == s2 && Next(s2, a) == s3 && Next(s3, a) == FoundAtZero(s);
    RunCons(s3, a, acts, t);
    RunCons(s2, a, [a] + acts, t);
    RunCons(s1, a, [a] + ([a] + acts), t);
    RunCons(s, MainStep, [a] + ([a] + ([a] + acts)), t);
  }

  /** Whenever the value is at index 0 some interleaving reports it as absent. */
  lemma MissesIndexZero(arr: seq<int>, v: int, threads: nat) returns (acts: seq<Action>, t: State)
    requires threads > 0 && arr != [] && arr[0] == v
    ensures Run(Init(arr, v, threads, -1), acts, t) && t.main == Returned(-1)
  {
    hide Run;
    ChunkSizeLeast(|arr|, threads);
    var s := FoundAtZero(Init(arr, v, threads, -1));
    acts, t := Finish(s);
    RunStale(s, acts, t, 0);
    FirstTaskFinds(arr, v, threads, acts, t);
    acts := [MainStep] + ([TaskStep(0)] + ([TaskStep(0)] + ([TaskStep(0)] + acts)));
  }

  ghost predicate AlwaysCorrect(arr: seq<int>, v: int, threads: nat)
    requires threads > 0
  {
    forall acts, t :: Run(Init(arr, v, threads, -1), acts, t) && t.main.Returned? ==>
      if v in arr then 0 <= t.main.r < |arr| && arr[t.main.r] == v else t.main.r == -1
  }

  /** The search is right under every interleaving exactly when index 0 does not hold the value. */
  lemma CorrectExactly(arr: seq<int>, v: int, threads: nat)
    requires threads > 0
    ensures AlwaysCorrect(arr, v, threads) <==> arr == [] || arr[0] != v
  {
    hide Run;
    if arr == [] || arr[0] != v {
      forall acts, t | Run(Init(arr, v, threads, -1), acts, t) && t.main.Returned?
        ensures if v in arr then 0 <= t.main.r < |arr| && arr[t.main.r] == v else t.main.r == -1
      {
        SearchCorrect(arr, v, threads, acts, t);
      }
    } else {
      var acts, t := MissesIndexZero(arr, v, threads);
      assert v in arr;
    }
  }

  // ---------- the early exit

  /** Own steps a task still takes once the cell holds a positive index. */
  function StepsToStop(pc: Pc): nat {
    match pc
    case Head(_) => 2
    case Compare(_) => 3
    case Cas(_) => 2
    case Reread => 1
    case Ended(_) => 0
  }

  function StepsOf(acts: seq<Action>, k: nat): nat {
    if acts == [] then 0 else (if acts[0] == TaskStep(k) then 1 else 0) + StepsOf(acts[1..], k)
  }

  /** Once a positive index is found it stays, and no task takes more than three further steps. */
  lemma {:induction false} FoundStopsTasks(s: State, acts: seq<Action>, t: State, k: nat)
    requires s.cell > 0 && Run(s, acts, t) && k < |s.tasks|
    ensures t.cell == s.cell && k < |t.tasks|
    ensures StepsOf(acts, k) + StepsToStop(t.tasks[k].pc) <= StepsToStop(s.tasks[k].pc) <= 3
    decreases |acts|
  {
    if acts != [] {
      FoundStopsTasks(Next(s, acts[0]), acts[1..], t, k);
    }
  }
}
