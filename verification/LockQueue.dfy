/**
 The threads of BlockingQueueLock: one lock with two conditions woken by single signals, and a take that is
 also synchronized on the queue object.  await releases the lock but not that monitor, so a waiting taker
 keeps every other taker out.  A step is one lock-held section; which thread a signal picks, and spurious
 wake-ups, are left to the schedule.
 */
module LockQueue {
  import opened RingBuffer
  import opened Totals
  import opened Wrappers

  datatype Thread<T> =
    | Idle
    | AtMonitor                              // called take, wants the monitor
    | AtLock                                 // in take, holds the monitor, wants the lock
    | AwaitsNotEmpty                         // in take, in the wait set of notEmpty
    | WokenNotEmpty                          // in take, out of the wait set, wants the lock again
    | Putting(t: Option<T>)                  // in put, wants the lock
    | AwaitsNotFull(t: Option<T>)            // in put, in the wait set of notFull
    | WokenNotFull(t: Option<T>)             // in put, out of the wait set, wants the lock again

  /** accepted and delivered record what put stored and what take returned; no step reads them. */
  datatype State<T> = State(
    ring: Ring<T>, threads: seq<Thread<T>>, accepted: seq<Option<T>>, delivered: seq<Option<T>>)

  /** wake names the thread a signal picks; it is ignored when the wait set is empty. */
  datatype Action<T> =
    | CallTake(i: nat)
    | CallPut(i: nat, t: Option<T>)
    | EnterMonitor(i: nat)
    | TakePass(i: nat, wake: nat)
    | PutPass(i: nat, wake: nat)
    | Spurious(i: nat)

  predicate InTake<T>(t: Thread<T>) {
    t.AtLock? || t.AwaitsNotEmpty? || t.WokenNotEmpty?
  }

  predicate InPut<T>(t: Thread<T>) {
    t.Putting? || t.AwaitsNotFull? || t.WokenNotFull?
  }

  /** The wake argument is a member of the wait set, or the wait set is empty. */
  ghost predicate Wakes<T>(ts: seq<Thread<T>>, waits: Thread<T> -> bool, wake: nat) {
    (exists k: nat :: k < |ts| && waits(ts[k])) ==> wake < |ts| && waits(ts[wake])
  }

  function WakeTaker<T>(ts: seq<Thread<T>>, wake: nat): (r: seq<Thread<T>>)
    ensures |r| == |ts|
  {
    if wake < |ts| && ts[wake].AwaitsNotEmpty? then ts[wake := WokenNotEmpty] else ts
  }

  function WakePutter<T>(ts: seq<Thread<T>>, wake: nat): (r: seq<Thread<T>>)
    ensures |r| == |ts|
  {
    if wake < |ts| && ts[wake].AwaitsNotFull? then ts[wake := WokenNotFull(ts[wake].t)] else ts
  }

  ghost predicate Enabled<T>(s: State<T>, a: Action<T>) {
    a.i < |s.threads| &&
    match a
    case CallTake(i) => s.threads[i].Idle?
    case CallPut(i, _) => s.threads[i].Idle?
    case EnterMonitor(i) => s.threads[i].AtMonitor? && forall k: nat :: k < |s.threads| ==> !InTake(s.threads[k])
    case TakePass(i, wake) =>
      (s.threads[i].AtLock? || s.threads[i].WokenNotEmpty?) && s.ring.head < |s.ring.elements|
      && Wakes(s.threads, (t: Thread<T>) => t.AwaitsNotFull?, wake)
    case PutPass(i, wake) =>
      (s.threads[i].Putting? || s.threads[i].WokenNotFull?) && s.ring.tail < |s.ring.elements|
      && Wakes(s.threads, (t: Thread<T>) => t.AwaitsNotEmpty?, wake)
    case Spurious(i) => s.threads[i].AwaitsNotEmpty? || s.threads[i].AwaitsNotFull?
  }

  ghost function Next<T>(s: State<T>, a: Action<T>): State<T>
    requires Enabled(s, a)
  {
    match a
    case CallTake(i) => s.(threads := s.threads[i := AtMonitor])
    case CallPut(i, t) => s.(threads := s.threads[i := Putting(t)])
    case EnterMonitor(i) => s.(threads := s.threads[i := AtLock])
    case TakePass(i, wake) =>
      if s.ring.count == 0 then s.(threads := s.threads[i := AwaitsNotEmpty])
      else s.(ring := s.ring.Take(),
              delivered := s.delivered + [s.ring.elements[s.ring.head]],
              threads := WakePutter(s.threads[i := Idle], wake))
    case PutPass(i, wake) =>
      if s.ring.count == |s.ring.elements| then s.(threads := s.threads[i := AwaitsNotFull(s.threads[i].t)])
      else s.(ring := s.ring.Put(s.threads[i].t),
              accepted := s.accepted + [s.threads[i].t],
              threads := WakeTaker(s.threads[i := Idle], wake))
    case Spurious(i) =>
      var t := s.threads[i];
      s.(threads := s.threads[i := if t.AwaitsNotEmpty? then WokenNotEmpty else WokenNotFull(t.t)])
  }

  ghost predicate Run<T>(s: State<T>, acts: seq<Action<T>>, u: State<T>)
    decreases |acts|
  {
    if acts == [] then s == u else Enabled(s, acts[0]) && Run(Next(s, acts[0]), acts[1..], u)
  }

  /** A new queue and any number of threads that have not called it yet. */
  ghost predicate Init<T>(s: State<T>) {
    && s.ring.Valid() && s.ring.Contents() == [] && s.accepted == [] && s.delivered == []
    && forall k :: 0 <= k < |s.threads| ==> s.threads[k].Idle?
  }

  // ---------- what every reachable state satisfies

  /** A bounded FIFO: everything put is everything taken followed by the contents. */
  ghost predicate Fifo<T>(s: State<T>) {
    s.ring.Valid() && s.accepted == s.delivered + s.ring.Contents()
  }

  ghost predicate OneTaker<T>(s: State<T>) {
    forall j: nat, k: nat :: j < k < |s.threads| ==> !(InTake(s.threads[j]) && InTake(s.threads[k]))
  }

  ghost predicate TakerWaitsOnEmpty<T>(s: State<T>) {
    forall k: nat :: k < |s.threads| && s.threads[k].AwaitsNotEmpty? ==> s.ring.count == 0
  }

  function Signalled<T>(t: Thread<T>): nat {
    if t.WokenNotFull? then 1 else 0
  }

  /** While a producer waits unsignalled, every free slot is spoken for by a signalled one. */
  ghost predicate PutterWaitsCovered<T>(s: State<T>) {
    forall k: nat :: k < |s.threads| && s.threads[k].AwaitsNotFull? ==>
      |s.ring.elements| - s.ring.count <= Total(s.threads, Signalled)
  }

  ghost predicate Inv<T>(s: State<T>) {
    Fifo(s) && OneTaker(s) && TakerWaitsOnEmpty(s) && PutterWaitsCovered(s)
  }

  lemma RegroupTake<A>(accepted: seq<A>, delivered: seq<A>, x: A, rest: seq<A>, contents: seq<A>)
    requires accepted == delivered + contents && [x] + rest == contents
    ensures accepted == delivered + [x] + rest
  {
  }

  lemma RegroupPut<A>(accepted: seq<A>, delivered: seq<A>, x: A, contents: seq<A>)
    requires accepted == delivered + contents
    ensures accepted + [x] == delivered + (contents + [x])
  {
  }

  lemma StepFifo<T>(s: State<T>, a: Action<T>)
    requires Fifo(s) && Enabled(s, a)
    ensures Fifo(Next(s, a))
    ensures |Next(s, a).ring.elements| == |s.ring.elements| && |Next(s, a).threads| == |s.threads|
    ensures (a.TakePass? && s.ring.count > 0) || (a.PutPass? && s.ring.count < |s.ring.elements|)
         || Next(s, a).ring == s.ring
  {
    hide WakePutter, WakeTaker, Wakes;
    match a
    case TakePass(i, wake) =>
      if s.ring.count > 0 {
        TakeRemoves(s.ring);
        RegroupTake(s.accepted, s.delivered, s.ring.elements[s.ring.head], s.ring.Take().Contents(), s.ring.Contents());
      }
    case PutPass(i, wake) =>
      if s.ring.count < |s.ring.elements| {
        PutAppends(s.ring, s.threads[i].t);
        RegroupPut(s.accepted, s.delivered, s.threads[i].t, s.ring.Contents());
      }
    case _ =>
  }

  lemma StepOneTaker<T>(s: State<T>, a: Action<T>)
    requires OneTaker(s) && Enabled(s, a)
    ensures OneTaker(Next(s, a))
  {
    hide Next, Enabled;
    var u := Next(s, a);
    forall k: nat | k < |s.threads|
      ensures |u.threads| == |s.threads|
      ensures InTake(u.threads[k]) ==>
                InTake(s.threads[k]) || (k == a.i && forall j: nat :: j < |s.threads| ==> !InTake(s.threads[j]))
    {
      StepEntersTake(s, a, k);
    }
    StepKeepsThreads(s, a);
  }

  lemma StepKeepsThreads<T>(s: State<T>, a: Action<T>)
    requires Enabled(s, a)
    ensures |Next(s, a).threads| == |s.threads|
  {
  }

  lemma StepEntersTake<T>(s: State<T>, a: Action<T>, k: nat)
    requires Enabled(s, a) && k < |s.threads|
    ensures |Next(s, a).threads| == |s.threads|
    ensures InTake(Next(s, a).threads[k]) ==>
              InTake(s.threads[k]) || (k == a.i && forall j: nat :: j < |s.threads| ==> !InTake(s.threads[j]))
  {
    hide Wakes;
  }

  lemma StepTaker<T>(s: State<T>, a: Action<T>)
    requires s.ring.Valid() && OneTaker(s) && TakerWaitsOnEmpty(s) && Enabled(s, a)
    ensures TakerWaitsOnEmpty(Next(s, a))
  {
  }

  lemma WakePutterTotal<T>(ts: seq<Thread<T>>, wake: nat)
    ensures Total(WakePutter(ts, wake), Signalled) ==
            Total(ts, Signalled) + if wake < |ts| && ts[wake].AwaitsNotFull? then 1 else 0
  {
    if wake < |ts| && ts[wake].AwaitsNotFull? {
      TotalUpdate(ts, wake, WokenNotFull(ts[wake].t), Signalled);
    }
  }

  lemma WakeTakerTotal<T>(ts: seq<Thread<T>>, wake: nat)
    ensures Total(WakeTaker(ts, wake), Signalled) == Total(ts, Signalled)
  {
    if wake < |ts| && ts[wake].AwaitsNotEmpty? {
      TotalUpdate(ts, wake, WokenNotEmpty, Signalled);
    }
  }

  lemma StepPutter<T>(s: State<T>, a: Action<T>)
    requires s.ring.Valid() && PutterWaitsCovered(s) && Enabled(s, a)
    ensures PutterWaitsCovered(Next(s, a))
  {
    hide Total;
    var u := Next(s, a);
    match a
    case TakePass(i, wake) =>
      TotalUpdate(s.threads, i, Idle, Signalled);
      TotalUpdate(s.threads, i, AwaitsNotEmpty, Signalled);
      WakePutterTotal(s.threads[i := Idle], wake);
    case PutPass(i, wake) =>
      TotalUpdate(s.threads, i, Idle, Signalled);
      TotalUpdate(s.threads, i, AwaitsNotFull(s.threads[i].t), Signalled);
      WakeTakerTotal(s.threads[i := Idle], wake);
    case _ =>
      TotalUpdate(s.threads, a.i, u.threads[a.i], Signalled);
  }

  lemma {:induction false} RunInv<T>(s: State<T>, acts: seq<Action<T>>, u: State<T>)
    requires Inv(s) && Run(s, acts, u)
    ensures Inv(u) && |u.threads| == |s.threads| && |u.ring.elements| == |s.ring.elements|
    decreases |acts|
  {
    hide Fifo, OneTaker, TakerWaitsOnEmpty, PutterWaitsCovered, Next, Enabled;
    if acts != [] {
      StepInv(s, acts[0]);
      RunInv(Next(s, acts[0]), acts[1..], u);
    }
  }

  lemma StepInv<T>(s: State<T>, a: Action<T>)
    requires Inv(s) && Enabled(s, a)
    ensures Inv(Next(s, a)) && |Next(s, a).threads| == |s.threads|
    ensures |Next(s, a).ring.elements| == |s.ring.elements|
  {
    hide OneTaker, TakerWaitsOnEmpty, PutterWaitsCovered, Next, Enabled;
    StepFifo(s, a);
    StepOneTaker(s, a);
    StepTaker(s, a);
    StepPutter(s, a);
  }

  /** No wake-up is lost, in any run: the statement of the monitor's correctness. */
  lemma NoLostWakeUp<T>(s: State<T>, acts: seq<Action<T>>, u: State<T>)
    requires Init(s) && Run(s, acts, u)
    ensures Fifo(u) && OneTaker(u) && TakerWaitsOnEmpty(u) && PutterWaitsCovered(u)
  {
    hide Run;
    RunInv(s, acts, u);
  }

  // ---------- every call is answered once, with its own element

  /** What an action gives to put, weighed by w. */
  function Given<T>(w: Option<T> -> nat): Action<T> -> nat {
    (a: Action<T>) => if a.CallPut? then w(a.t) else 0
  }

  function TakeCalled<T>(a: Action<T>): nat {
    if a.CallTake? then 1 else 0
  }

  /** The element of a producer that is still inside put, weighed by w. */
  function CarriedBy<T>(t: Thread<T>, w: Option<T> -> nat): nat {
    if InPut(t) then w(t.t) else 0
  }

  function Carried<T>(w: Option<T> -> nat): Thread<T> -> nat {
    (t: Thread<T>) => CarriedBy(t, w)
  }

  function InsideTake<T>(t: Thread<T>): nat {
    if t.AtMonitor? || InTake(t) then 1 else 0
  }

  lemma WakeKeeps<T>(ts: seq<Thread<T>>, wake: nat, w: Option<T> -> nat)
    ensures Total(WakePutter(ts, wake), Carried(w)) == Total(WakeTaker(ts, wake), Carried(w)) == Total(ts, Carried(w))
    ensures Total(WakePutter(ts, wake), InsideTake) == Total(WakeTaker(ts, wake), InsideTake) == Total(ts, InsideTake)
  {
    hide Total;
    if wake < |ts| && ts[wake].AwaitsNotFull? {
      TotalUpdate(ts, wake, WokenNotFull(ts[wake].t), Carried(w));
      TotalUpdate(ts, wake, WokenNotFull(ts[wake].t), InsideTake);
    }
    if wake < |ts| && ts[wake].AwaitsNotEmpty? {
      TotalUpdate(ts, wake, WokenNotEmpty, Carried(w));
      TotalUpdate(ts, wake, WokenNotEmpty, InsideTake);
    }
  }

  lemma StepAccounts<T>(s: State<T>, a: Action<T>, w: Option<T> -> nat)
    requires Enabled(s, a)
    ensures var u := Next(s, a);
            && Total(u.accepted, w) + Total(u.threads, Carried(w)) ==
               Total(s.accepted, w) + Total(s.threads, Carried(w)) + Given(w)(a)
            && |u.delivered| + Total(u.threads, InsideTake) ==
               |s.delivered| + Total(s.threads, InsideTake) + TakeCalled(a)
  {
    hide Total, WakePutter, WakeTaker, Wakes;
    var i, u := a.i, Next(s, a);
    TotalUpdate(s.threads, i, Idle, Carried(w));
    TotalUpdate(s.threads, i, Idle, InsideTake);
    match a {
      case TakePass(_, wake) =>
        WakeKeeps(s.threads[i := Idle], wake, w);
        TotalUpdate(s.threads, i, AwaitsNotEmpty, Carried(w));
        TotalUpdate(s.threads, i, AwaitsNotEmpty, InsideTake);
      case PutPass(_, wake) =>
        TotalSnoc(s.accepted, s.threads[i].t, w);
        WakeKeeps(s.threads[i := Idle], wake, w);
        TotalUpdate(s.threads, i, AwaitsNotFull(s.threads[i].t), Carried(w));
        TotalUpdate(s.threads, i, AwaitsNotFull(s.threads[i].t), InsideTake);
      case _ =>
        TotalUpdate(s.threads, i, u.threads[i], Carried(w));
        TotalUpdate(s.threads, i, u.threads[i], InsideTake);
    }
  }

  lemma {:induction false} RunAccounts<T>(s: State<T>, acts: seq<Action<T>>, u: State<T>, w: Option<T> -> nat)
    requires Run(s, acts, u)
    ensures Total(u.accepted, w) + Total(u.threads, Carried(w)) ==
            Total(s.accepted, w) + Total(s.threads, Carried(w)) + Total(acts, Given(w))
    ensures |u.delivered| + Total(u.threads, InsideTake) ==
            |s.delivered| + Total(s.threads, InsideTake) + Total(acts, TakeCalled)
    decreases |acts|
  {
    if acts != [] {
      hide Total, Next, Enabled;
      StepAccounts(s, acts[0], w);
      RunAccounts(Next(s, acts[0]), acts[1..], u, w);
      TotalFirst(acts, Given(w));
      TotalFirst(acts, TakeCalled);
    }
  }

  /**
   No element is dropped, doubled or changed, and no call is forgotten: under every weighing the elements given
   to put are those stored and those their producers still carry; every take has delivered or is still inside.
   */
  lemma CallsAccounted<T>(s: State<T>, acts: seq<Action<T>>, u: State<T>, w: Option<T> -> nat)
    requires Init(s) && Run(s, acts, u)
    ensures Total(acts, Given(w)) == Total(u.accepted, w) + Total(u.threads, Carried(w))
    ensures Total(acts, TakeCalled) == |u.delivered| + Total(u.threads, InsideTake)
  {
    hide Run;
    TotalAtMost(s.threads, Carried(w), 0);
    TotalAtMost(s.threads, InsideTake, 0);
    RunAccounts(s, acts, u, w);
  }

  /** A producer leaves put only with its element stored last, a taker leaves take only with the oldest element. */
  lemma ReturnsServed<T>(s: State<T>, a: Action<T>, k: nat)
    requires Fifo(s) && Enabled(s, a) && k < |s.threads|
    ensures |Next(s, a).threads| == |s.threads| && Next(s, a).ring.Valid()
    ensures var u, t := Next(s, a), s.threads[k];
            && (InPut(t) ==>
                  if InPut(u.threads[k]) then u.threads[k].t == t.t
                  else u.ring.Contents() == s.ring.Contents() + [t.t] && u.accepted == s.accepted + [t.t])
            && (InTake(t) && !InTake(u.threads[k]) ==>
                  && s.ring.Contents() == [u.delivered[|s.delivered|]] + u.ring.Contents()
                  && u.delivered == s.delivered + [s.ring.Contents()[0]])
  {
    hide Wakes;
    StepFifo(s, a);
    match a {
      case TakePass(i, wake) =>
        if s.ring.count > 0 {
          TakeRemoves(s.ring);
        }
      case PutPass(i, wake) =>
        if s.ring.count < |s.ring.elements| {
          PutAppends(s.ring, s.threads[i].t);
        }
      case _ =>
    }
  }

  // ---------- bounded work

  /** Steps a thread still has to take, and one to give away when it signals. */
  function Effort<T>(t: Thread<T>): nat {
    match t
    case Idle => 0
    case AtMonitor => 3
    case AtLock => 2
    case AwaitsNotEmpty => 1
    case WokenNotEmpty => 2
    case Putting(_) => 2
    case AwaitsNotFull(_) => 1
    case WokenNotFull(_) => 2
  }

  function Pass<T>(a: Action<T>): nat {
    if a.EnterMonitor? || a.TakePass? || a.PutPass? then 1 else 0
  }

  function Credit<T>(a: Action<T>): nat {
    if a.CallTake? then 3 else if a.CallPut? then 2 else if a.Spurious? then 1 else 0
  }

  lemma WakeEffort<T>(ts: seq<Thread<T>>, wake: nat)
    ensures Total(WakePutter(ts, wake), Effort) <= Total(ts, Effort) + 1
    ensures Total(WakeTaker(ts, wake), Effort) <= Total(ts, Effort) + 1
  {
    hide Total;
    if wake < |ts| && ts[wake].AwaitsNotFull? {
      TotalUpdate(ts, wake, WokenNotFull(ts[wake].t), Effort);
    }
    if wake < |ts| && ts[wake].AwaitsNotEmpty? {
      TotalUpdate(ts, wake, WokenNotEmpty, Effort);
    }
  }

  lemma StepEffort<T>(s: State<T>, a: Action<T>)
    requires Enabled(s, a)
    ensures Total(Next(s, a).threads, Effort) + Pass(a) <= Total(s.threads, Effort) + Credit(a)
  {
    hide Total, WakePutter, WakeTaker, Wakes;
    var i, u := a.i, Next(s, a);
    match a {
      case TakePass(_, wake) =>
        TotalUpdate(s.threads, i, Idle, Effort);
        TotalUpdate(s.threads, i, AwaitsNotEmpty, Effort);
        WakeEffort(s.threads[i := Idle], wake);
      case PutPass(_, wake) =>
        TotalUpdate(s.threads, i, Idle, Effort);
        TotalUpdate(s.threads, i, AwaitsNotFull(s.threads[i].t), Effort);
        WakeEffort(s.threads[i := Idle], wake);
      case _ =>
        TotalUpdate(s.threads, i, u.threads[i], Effort);
    }
  }

  lemma {:induction false} RunEffort<T>(s: State<T>, acts: seq<Action<T>>, u: State<T>)
    requires Run(s, acts, u)
    ensures Total(acts, Pass) + Total(u.threads, Effort) <= Total(acts, Credit) + Total(s.threads, Effort)
    decreases |acts|
  {
    if acts != [] {
      hide Total, Next, Enabled, Pass, Credit;
      StepEffort(s, acts[0]);
      RunEffort(Next(s, acts[0]), acts[1..], u);
      TotalFirst(acts, Pass);
      TotalFirst(acts, Credit);
    }
  }

  /** No schedule keeps the threads busy: at most three steps for a take, two for a put, one for a spurious wake-up. */
  lemma PassesBounded<T>(s: State<T>, acts: seq<Action<T>>, u: State<T>)
    requires Init(s) && Run(s, acts, u)
    ensures Total(acts, Pass) <= Total(acts, Credit)
  {
    hide Run;
    TotalAtMost(s.threads, Effort, 0);
    RunEffort(s, acts, u);
  }

  // ---------- deadlocks

  /** No thread inside a call can take a step. */
  ghost predicate Stuck<T(!new)>(s: State<T>) {
    forall a: Action<T> :: a.EnterMonitor? || a.TakePass? || a.PutPass? ==> !Enabled(s, a)
  }

  ghost predicate Busy<T>(s: State<T>, k: nat) {
    k < |s.threads| && !s.threads[k].Idle?
  }

  lemma StuckThread<T(!new)>(s: State<T>, k: nat)
    requires Inv(s) && Stuck(s) && Busy(s, k)
    ensures s.threads[k].AtMonitor? || s.threads[k].AwaitsNotEmpty? || s.threads[k].AwaitsNotFull?
  {
    var p := (t: Thread<T>) => t.AwaitsNotFull?;
    var q := (t: Thread<T>) => t.AwaitsNotEmpty?;
    var w := if j: nat :| j < |s.threads| && p(s.threads[j]) then j else 0;
    var v := if j: nat :| j < |s.threads| && q(s.threads[j]) then j else 0;
    assert !Enabled(s, TakePass(k, w)) && !Enabled(s, PutPass(k, v));
  }

  /** A taker that waits for an element, or waits for its turn behind one that does. */
  ghost predicate TakerStuck<T>(s: State<T>, k: nat)
    requires k < |s.threads|
  {
    s.ring.count == 0 &&
    (s.threads[k].AwaitsNotEmpty? ||
     (s.threads[k].AtMonitor? && exists j: nat :: j < |s.threads| && s.threads[j].AwaitsNotEmpty?))
  }

  ghost predicate PutterStuck<T>(s: State<T>, k: nat)
    requires k < |s.threads|
  {
    s.ring.count == |s.ring.elements| && s.threads[k].AwaitsNotFull?
  }

  lemma StuckThreads<T(!new)>(s: State<T>, k: nat)
    requires Inv(s) && Stuck(s) && Busy(s, k)
    ensures if s.threads[k].AwaitsNotFull? then PutterStuck(s, k) else TakerStuck(s, k)
  {
    StuckThread(s, k);
    if s.threads[k].AwaitsNotFull? {
      if Total(s.threads, Signalled) > 0 {
        var j := TotalWitness(s.threads, Signalled);
        StuckThread(s, j);
      }
    } else if s.threads[k].AtMonitor? {
      assert !Enabled(s, EnterMonitor(k));
      var j: nat :| j < |s.threads| && InTake(s.threads[j]);
      StuckThread(s, j);
    }
  }

  lemma NobodySteps<T(!new)>(s: State<T>)
    requires forall k: nat :: Busy(s, k) ==> TakerStuck(s, k) || PutterStuck(s, k)
    ensures Stuck(s)
  {
    forall a: Action<T> | a.EnterMonitor? || a.TakePass? || a.PutPass?
      ensures !Enabled(s, a)
    {
      if a.i < |s.threads| && Busy(s, a.i) {
        assert TakerStuck(s, a.i) || PutterStuck(s, a.i);
      }
    }
  }

  /**
   The only deadlocks are impossible demands: a reachable state is stuck exactly if all busy threads are takers
   of an empty queue, waiting or lined up behind one that waits, or all are producers waiting at a full one.
   */
  lemma StuckExactly<T(!new)>(s0: State<T>, acts: seq<Action<T>>, s: State<T>)
    requires Init(s0) && Run(s0, acts, s)
    ensures Stuck(s) <==>
            ((forall k: nat :: Busy(s, k) ==> TakerStuck(s, k)) || (forall k: nat :: Busy(s, k) ==> PutterStuck(s, k)))
  {
    hide Run, Stuck;
    RunInv(s0, acts, s);
    if Stuck(s) {
      forall k: nat | Busy(s, k)
        ensures if s.threads[k].AwaitsNotFull? then PutterStuck(s, k) else TakerStuck(s, k)
      {
        StuckThreads(s, k);
      }
    } else {
      if (forall k: nat :: Busy(s, k) ==> TakerStuck(s, k)) || (forall k: nat :: Busy(s, k) ==> PutterStuck(s, k)) {
        NobodySteps(s);
      }
    }
  }
}
