/**
 The threads of BlockingQueueSyc: one monitor, one wait set shared by takers and producers, notifyAll after
 every change.  A step is one stretch of code inside the monitor; spurious wake-ups are allowed.
 */
module SycQueue {
  import opened RingBuffer
  import opened Totals
  import opened Wrappers

  datatype Thread<T> =
    | Idle
    | Taking                                 // in take, wants the monitor
    | TakeWaits                              // in take, in the wait set
    | Putting(t: Option<T>)                  // in put, wants the monitor
    | PutWaits(t: Option<T>)                 // in put, in the wait set

  datatype State<T> = State(
    ring: Ring<T>, threads: seq<Thread<T>>, accepted: seq<Option<T>>, delivered: seq<Option<T>>)

  datatype Action<T> =
    | CallTake(i: nat)
    | CallPut(i: nat, t: Option<T>)
    | TakePass(i: nat)
    | PutPass(i: nat)
    | Spurious(i: nat)

  function Woken<T>(t: Thread<T>): Thread<T> {
    match t
    case TakeWaits => Taking
    case PutWaits(x) => Putting(x)
    case _ => t
  }

  function NotifyAll<T>(ts: seq<Thread<T>>): (r: seq<Thread<T>>)
    ensures |r| == |ts|
  {
    seq(|ts|, k requires 0 <= k < |ts| => Woken(ts[k]))
  }

  predicate Enabled<T>(s: State<T>, a: Action<T>) {
    a.i < |s.threads| &&
    match a
    case CallTake(i) => s.threads[i].Idle?
    case CallPut(i, _) => s.threads[i].Idle?
    case TakePass(i) => s.threads[i].Taking? && s.ring.head < |s.ring.elements|
    case PutPass(i) => s.threads[i].Putting? && s.ring.tail < |s.ring.elements|
    case Spurious(i) => s.threads[i].TakeWaits? || s.threads[i].PutWaits?
  }

  function Next<T>(s: State<T>, a: Action<T>): State<T>
    requires Enabled(s, a)
  {
    match a
    case CallTake(i) => s.(threads := s.threads[i := Taking])
    case CallPut(i, t) => s.(threads := s.threads[i := Putting(t)])
    case TakePass(i) =>
      if s.ring.count == 0 then s.(threads := s.threads[i := TakeWaits])
      else s.(ring := s.ring.Take(),
              delivered := s.delivered + [s.ring.elements[s.ring.head]],
              threads := NotifyAll(s.threads[i := Idle]))
    case PutPass(i) =>
      if s.ring.count == |s.ring.elements| then s.(threads := s.threads[i := PutWaits(s.threads[i].t)])
      else s.(ring := s.ring.Put(s.threads[i].t),
              accepted := s.accepted + [s.threads[i].t],
              threads := NotifyAll(s.threads[i := Idle]))
    case Spurious(i) => s.(threads := s.threads[i := Woken(s.threads[i])])
  }

  ghost predicate Run<T>(s: State<T>, acts: seq<Action<T>>, u: State<T>)
    decreases |acts|
  {
    if acts == [] then s == u else Enabled(s, acts[0]) && Run(Next(s, acts[0]), acts[1..], u)
  }

  ghost predicate Init<T>(s: State<T>) {
    && s.ring.Valid() && s.ring.Contents() == [] && s.accepted == [] && s.delivered == []
    && forall k :: 0 <= k < |s.threads| ==> s.threads[k].Idle?
  }

  ghost predicate Fifo<T>(s: State<T>) {
    s.ring.Valid() && s.accepted == s.delivered + s.ring.Contents()
  }

  /** Waiting threads wait for what is really impossible now. */
  ghost predicate WaitsJustified<T>(s: State<T>) {
    forall k: nat :: k < |s.threads| ==>
      (s.threads[k].TakeWaits? ==> s.ring.count == 0) &&
      (s.threads[k].PutWaits? ==> s.ring.count == |s.ring.elements|)
  }

  lemma StepFifo<T>(s: State<T>, a: Action<T>)
    requires Fifo(s) && Enabled(s, a)
    ensures Fifo(Next(s, a))
    ensures |Next(s, a).ring.elements| == |s.ring.elements|
  {
    hide NotifyAll;
    match a
    case TakePass(i) =>
      if s.ring.count > 0 {
        TakeRemoves(s.ring);
        var x, rest := s.ring.elements[s.ring.head], s.ring.Take().Contents();
        assert s.delivered + ([x] + rest) == s.delivered + [x] + rest;
      }
    case PutPass(i) =>
      if s.ring.count < |s.ring.elements| {
        PutAppends(s.ring, s.threads[i].t);
        var x := [s.threads[i].t];
        assert s.delivered + s.ring.Contents() + x == s.delivered + (s.ring.Contents() + x);
      }
    case _ =>
  }

  lemma StepWaits<T>(s: State<T>, a: Action<T>)
    requires s.ring.Valid() && WaitsJustified(s) && Enabled(s, a)
    ensures WaitsJustified(Next(s, a))
  {
  }

  lemma {:induction false} RunInv<T>(s: State<T>, acts: seq<Action<T>>, u: State<T>)
    requires Fifo(s) && WaitsJustified(s) && Run(s, acts, u)
    ensures Fifo(u) && WaitsJustified(u) && |u.ring.elements| == |s.ring.elements|
    decreases |acts|
  {
    hide WaitsJustified, Next, Enabled;
    if acts != [] {
      StepFifo(s, acts[0]);
      StepWaits(s, acts[0]);
      RunInv(Next(s, acts[0]), acts[1..], u);
    }
  }

  /** In every run: a bounded FIFO, and takers and producers never wait at the same time. */
  lemma SafeInEveryRun<T>(s: State<T>, acts: seq<Action<T>>, u: State<T>)
    requires Init(s) && Run(s, acts, u)
    ensures Fifo(u) && WaitsJustified(u)
    ensures forall j: nat, k: nat :: j < |u.threads| && k < |u.threads| ==>
              !(u.threads[j].TakeWaits? && u.threads[k].PutWaits?)
  {
    hide Run;
    RunInv(s, acts, u);
  }

  // ---------- every call is answered once, with its own element

  /** What an action gives to put, weighed by w. */
  function Given<T>(w: Option<T> -> nat): Action<T> -> nat {
    (a: Action<T>) => if a.CallPut? then w(a.t) else 0
  }

  function TakeCalled<T>(a: Action<T>): nat {
    if a.CallTake? then 1 else 0
  }

  function CarriedBy<T>(t: Thread<T>, w: Option<T> -> nat): nat {
    if t.Putting? || t.PutWaits? then w(t.t) else 0
  }

  /** The element of a producer that is still inside put, weighed by w. */
  function Carried<T>(w: Option<T> -> nat): Thread<T> -> nat {
    (t: Thread<T>) => CarriedBy(t, w)
  }

  function InsideTake<T>(t: Thread<T>): nat {
    if t.Taking? || t.TakeWaits? then 1 else 0
  }

  /** A sum of thread weights that waking changes by at most each for every thread. */
  lemma {:induction false} NotifyTotal<T>(ts: seq<Thread<T>>, w: Thread<T> -> nat, each: nat)
    requires forall t :: w(t) <= w(Woken(t)) <= w(t) + each
    ensures Total(ts, w) <= Total(NotifyAll(ts), w) <= Total(ts, w) + each * |ts|
  {
    if ts != [] {
      var n := |ts| - 1;
      assert NotifyAll(ts)[..n] == NotifyAll(ts[..n]) && NotifyAll(ts)[n] == Woken(ts[n]);
      NotifyTotal(ts[..n], w, each);
      assert each * |ts| == each * n + each;
    }
  }

  lemma NotifyKeeps<T>(ts: seq<Thread<T>>, w: Option<T> -> nat)
    ensures Total(NotifyAll(ts), Carried(w)) == Total(ts, Carried(w))
    ensures Total(NotifyAll(ts), InsideTake) == Total(ts, InsideTake)
  {
    hide Total;
    NotifyTotal(ts, Carried(w), 0);
    NotifyTotal(ts, InsideTake, 0);
  }

  lemma StepAccounts<T>(s: State<T>, a: Action<T>, w: Option<T> -> nat)
    requires Enabled(s, a)
    ensures var u := Next(s, a);
            && Total(u.accepted, w) + Total(u.threads, Carried(w)) ==
               Total(s.accepted, w) + Total(s.threads, Carried(w)) + Given(w)(a)
            && |u.delivered| + Total(u.threads, InsideTake) ==
               |s.delivered| + Total(s.threads, InsideTake) + TakeCalled(a)
  {
    hide Total, NotifyAll;
    var i, u := a.i, Next(s, a);
    TotalUpdate(s.threads, i, Idle, Carried(w));
    TotalUpdate(s.threads, i, Idle, InsideTake);
    NotifyKeeps(s.threads[i := Idle], w);
    match a {
      case TakePass(_) =>
        TotalUpdate(s.threads, i, TakeWaits, Carried(w));
        TotalUpdate(s.threads, i, TakeWaits, InsideTake);
      case PutPass(_) =>
        TotalSnoc(s.accepted, s.threads[i].t, w);
        TotalUpdate(s.threads, i, PutWaits(s.threads[i].t), Carried(w));
        TotalUpdate(s.threads, i, PutWaits(s.threads[i].t), InsideTake);
      case _ =>
        TotalUpdate(s.threads, i, u.threads[i], Carried(w));
        TotalUpdate(s.threads, i, u.threads[i], InsideTake);
    }
  }

  lemma {:induction false} RunAccounts<T>(s: State<T>, acts: seq<Action<T>>, u: State<T>, w: Option<T> -> nat)
    requires Run(s, acts, u)
    ensures Total(u.accepted, w) + Total(u.threads, Carried(w)) ==
            Total(s.accepted, w) + Total(s.threads, Carried(w)) + Total(acts, Given(w))
    ensures |u.delivered| + Total(u.threads, InsideTake) ==
            |s.delivered| + Total(s.threads, InsideTake) + Total(acts, TakeCalled)
    decreases |acts|
  {
    if acts != [] {
      hide Total, Next, Enabled;
      StepAccounts(s, acts[0], w);
      RunAccounts(Next(s, acts[0]), acts[1..], u, w);
      TotalFirst(acts, Given(w));
      TotalFirst(acts, TakeCalled);
    }
  }

  /**
   No element is dropped, doubled or changed, and no call is forgotten: under every weighing the elements given
   to put are those stored and those their producers still carry; every take has delivered or is still inside.
   */
  lemma CallsAccounted<T>(s: State<T>, acts: seq<Action<T>>, u: State<T>, w: Option<T> -> nat)
    requires Init(s) && Run(s, acts, u)
    ensures Total(acts, Given(w)) == Total(u.accepted, w) + Total(u.threads, Carried(w))
    ensures Total(acts, TakeCalled) == |u.delivered| + Total(u.threads, InsideTake)
  {
    hide Run;
    TotalAtMost(s.threads, Carried(w), 0);
    TotalAtMost(s.threads, InsideTake, 0);
    RunAccounts(s, acts, u, w);
  }

  /** A producer leaves put only with its element stored last, a taker leaves take only with the oldest element. */
  lemma ReturnsServed<T>(s: State<T>, a: Action<T>, k: nat)
    requires Fifo(s) && Enabled(s, a) && k < |s.threads|
    ensures |Next(s, a).threads| == |s.threads| && Next(s, a).ring.Valid()
    ensures var u, t, t' := Next(s, a), s.threads[k], Next(s, a).threads[k];
            && (t.Putting? || t.PutWaits? ==>
                  if t'.Putting? || t'.PutWaits? then t'.t == t.t
                  else u.ring.Contents() == s.ring.Contents() + [t.t] && u.accepted == s.accepted + [t.t])
            && ((t.Taking? || t.TakeWaits?) && !(t'.Taking? || t'.TakeWaits?) ==>
                  && s.ring.Contents() == [u.delivered[|s.delivered|]] + u.ring.Contents()
                  && u.delivered == s.delivered + [s.ring.Contents()[0]])
  {
    StepFifo(s, a);
    match a {
      case TakePass(i) =>
        if s.ring.count > 0 {
          TakeRemoves(s.ring);
        }
      case PutPass(i) =>
        if s.ring.count < |s.ring.elements| {
          PutAppends(s.ring, s.threads[i].t);
        }
      case _ =>
    }
  }

  // ---------- bounded work

  /** With n threads: the pass a thread has before it, and one for each thread it notifies when it succeeds. */
  function EffortOf<T>(t: Thread<T>, n: nat): nat {
    match t
    case Idle => 0
    case Taking => n + 1
    case Putting(_) => n + 1
    case TakeWaits => n
    case PutWaits(_) => n
  }

  function Effort<T>(n: nat): Thread<T> -> nat {
    (t: Thread<T>) => EffortOf(t, n)
  }

  function Pass<T>(a: Action<T>): nat {
    if a.TakePass? || a.PutPass? then 1 else 0
  }

  function CreditOf<T>(a: Action<T>, n: nat): nat {
    if a.CallTake? || a.CallPut? then n + 1 else if a.Spurious? then 1 else 0
  }

  function Credit<T>(n: nat): Action<T> -> nat {
    (a: Action<T>) => CreditOf(a, n)
  }

  lemma StepEffort<T>(s: State<T>, a: Action<T>, n: nat)
    requires Enabled(s, a) && n == |s.threads|
    ensures |Next(s, a).threads| == n
    ensures Total(Next(s, a).threads, Effort(n)) + Pass(a) <= Total(s.threads, Effort(n)) + CreditOf(a, n)
  {
    hide Total, NotifyAll;
    var i, u := a.i, Next(s, a);
    TotalUpdate(s.threads, i, Idle, Effort(n));
    NotifyTotal(s.threads[i := Idle], Effort(n), 1);
    match a {
      case TakePass(_) => TotalUpdate(s.threads, i, TakeWaits, Effort(n));
      case PutPass(_) => TotalUpdate(s.threads, i, PutWaits(s.threads[i].t), Effort(n));
      case _ => TotalUpdate(s.threads, i, u.threads[i], Effort(n));
    }
  }

  lemma {:induction false} RunEffort<T>(s: State<T>, acts: seq<Action<T>>, u: State<T>, n: nat)
    requires Run(s, acts, u) && n == |s.threads|
    ensures Total(acts, Pass) + Total(u.threads, Effort(n)) <= Total(acts, Credit(n)) + Total(s.threads, Effort(n))
    decreases |acts|
  {
    if acts != [] {
      hide Total, Next, Enabled, Pass, CreditOf;
      StepEffort(s, acts[0], n);
      RunEffort(Next(s, acts[0]), acts[1..], u, n);
      TotalFirst(acts, Pass);
      TotalFirst(acts, Credit(n));
    }
  }

  /** No schedule keeps n threads busy: at most n + 1 passes for each call and one for a spurious wake-up. */
  lemma PassesBounded<T>(s: State<T>, acts: seq<Action<T>>, u: State<T>)
    requires Init(s) && Run(s, acts, u)
    ensures Total(acts, Pass) <= Total(acts, Credit(|s.threads|))
  {
    hide Run;
    TotalAtMost(s.threads, Effort(|s.threads|), 0);
    RunEffort(s, acts, u, |s.threads|);
  }

  // ---------- deadlocks

  /** No thread inside a call can take a step. */
  ghost predicate Stuck<T>(s: State<T>) {
    forall i: nat :: !Enabled(s, TakePass(i)) && !Enabled(s, PutPass(i))
  }

  ghost predicate Busy<T>(s: State<T>, k: nat) {
    k < |s.threads| && !s.threads[k].Idle?
  }

  /** A reachable state is stuck exactly when all busy threads wait for the same impossible operation. */
  lemma StuckExactly<T>(s0: State<T>, acts: seq<Action<T>>, s: State<T>)
    requires Init(s0) && Run(s0, acts, s)
    ensures Stuck(s) <==>
            || (s.ring.count == 0 && forall k: nat :: Busy(s, k) ==> s.threads[k].TakeWaits?)
            || (s.ring.count == |s.ring.elements| && forall k: nat :: Busy(s, k) ==> s.threads[k].PutWaits?)
            || (forall k: nat :: !Busy(s, k))
  {
    hide Run;
    RunInv(s0, acts, s);
    if Stuck(s) {
      forall k: nat | Busy(s, k)
        ensures s.threads[k].TakeWaits? || s.threads[k].PutWaits?
      {
        assert !Enabled(s, TakePass(k)) && !Enabled(s, PutPass(k));
      }
    } else {
      var i: nat :| Enabled(s, TakePass(i)) || Enabled(s, PutPass(i));
      assert Busy(s, i);
    }
  }
}
