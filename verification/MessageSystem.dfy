/**
 The message system around the queue pool: pool queues, the failure queue, and consumer threads that take,
 handle, retry or drop messages.  The failure queue is the last queue.  Between a consumer's check that the
 failure queue has room and its put other threads may run, so the put may block.
 */
module MessageSystem {
  import opened Totals

  const RETRY_LIMIT := 3

  datatype Msg = Msg(id: nat, retries: int)

  datatype Outcome = NoHandlerFound | Success | Retryable | NotRetryable

  datatype Fate = Succeeded | FinalFail | Fatal | NoHandler | FailureQueueFull

  datatype Job =
    | Free
    | Holding(m: Msg)                        // taken, the handler not yet called
    | Repushing(m: Msg)                      // retry counted, about to test whether the failure queue is full
    | Appending(m: Msg)                      // inside put on the failure queue

  datatype Consumer = Consumer(home: nat, job: Job)

  /** accepted and called are history: the messages pushed and the identities passed to handlers. */
  datatype State = State(
    queues: seq<seq<Msg>>, capacities: seq<nat>, consumers: seq<Consumer>,
    finished: seq<(Msg, Fate)>, accepted: seq<Msg>, called: seq<nat>)

  datatype Action =
    | Push(q: nat, m: Msg)
    | Take(c: nat)
    | Handle(c: nat, outcome: Outcome)
    | CheckRepush(c: nat)
    | Append(c: nat)

  ghost predicate WellFormed(s: State) {
    && |s.queues| == |s.capacities| > 0
    && (forall k :: 0 <= k < |s.capacities| ==> s.capacities[k] > 0)
    && (forall c :: 0 <= c < |s.consumers| ==> s.consumers[c].home < |s.queues|)
  }

  function Failure(s: State): nat
    requires |s.queues| > 0
  {
    |s.queues| - 1
  }

  predicate Full(s: State, q: nat)
    requires q < |s.queues| == |s.capacities|
  {
    |s.queues[q]| >= s.capacities[q]
  }

  ghost predicate Enabled(s: State, a: Action) {
    WellFormed(s) &&
    match a
    case Push(q, m) => q < Failure(s) && !Full(s, q)
    case Take(c) => c < |s.consumers| && s.consumers[c].job.Free? && s.queues[s.consumers[c].home] != []
    case Handle(c, _) => c < |s.consumers| && s.consumers[c].job.Holding?
    case CheckRepush(c) => c < |s.consumers| && s.consumers[c].job.Repushing?
    case Append(c) => c < |s.consumers| && s.consumers[c].job.Appending? && !Full(s, Failure(s))
  }

  function WithJob(s: State, c: nat, job: Job): State
    requires c < |s.consumers|
  {
    s.(consumers := s.consumers[c := s.consumers[c].(job := job)])
  }

  function Finish(s: State, c: nat, fate: Fate): State
    requires c < |s.consumers| && !s.consumers[c].job.Free?
  {
    WithJob(s, c, Free).(finished := s.finished + [(s.consumers[c].job.m, fate)])
  }

  /** One round of the consumer loop after take, up to the call of rePush. */
  function Handled(s: State, c: nat, outcome: Outcome): State
    requires c < |s.consumers| && s.consumers[c].job.Holding?
  {
    var m := s.consumers[c].job.m;
    if outcome.NoHandlerFound? then Finish(s, c, NoHandler)
    else
      var t := s.(called := s.called + [m.id]);
      if outcome.Success? then Finish(t, c, Succeeded)
      else if outcome.NotRetryable? then Finish(t, c, Fatal)
      else if m.retries < RETRY_LIMIT then WithJob(t, c, Repushing(m.(retries := m.retries + 1)))
      else Finish(t, c, FinalFail)
  }

  ghost function Next(s: State, a: Action): State
    requires Enabled(s, a)
  {
    match a
    case Push(q, m) => s.(queues := s.queues[q := s.queues[q] + [m]], accepted := s.accepted + [m])
    case Take(c) =>
      var q := s.consumers[c].home;
      WithJob(s, c, Holding(s.queues[q][0])).(queues := s.queues[q := s.queues[q][1..]])
    case Handle(c, outcome) => Handled(s, c, outcome)
    case CheckRepush(c) =>
      if Full(s, Failure(s)) then Finish(s, c, FailureQueueFull)
      else WithJob(s, c, Appending(s.consumers[c].job.m))
    case Append(c) =>
      var q := Failure(s);
      WithJob(s, c, Free).(queues := s.queues[q := s.queues[q] + [s.consumers[c].job.m]])
  }

  ghost predicate Run(s: State, acts: seq<Action>, t: State)
    decreases |acts|
  {
    if acts == [] then s == t else Enabled(s, acts[0]) && Run(Next(s, acts[0]), acts[1..], t)
  }

  /** Nothing pushed yet, all consumers free. */
  ghost predicate Init(s: State) {
    && WellFormed(s) && s.finished == [] && s.accepted == [] && s.called == []
    && (forall q :: 0 <= q < |s.queues| ==> s.queues[q] == [])
    && (forall c :: 0 <= c < |s.consumers| ==> s.consumers[c].job == Free)
  }

  // ---------- every place a message can be, weighed

  /** A place of a message: a queue, or the hands of a consumer of that queue. */
  datatype Stage = Queued(q: nat) | Held(q: nat) | Checking(q: nat) | Blocked(q: nat) | Done(fate: Fate)

  datatype Token = Token(m: Msg, stage: Stage)

  function QueuedWeight(w: Token -> nat, q: nat): Msg -> nat {
    m => w(Token(m, Queued(q)))
  }

  function QueueWeight(w: Token -> nat, q: nat, xs: seq<Msg>): nat {
    Total(xs, QueuedWeight(w, q))
  }

  function QueuesWeight(w: Token -> nat, queues: seq<seq<Msg>>): nat {
    if queues == [] then 0
    else
      var q := |queues| - 1;
      QueuesWeight(w, queues[..q]) + QueueWeight(w, q, queues[q])
  }

  function JobTokenWeight(w: Token -> nat, q: nat, job: Job): nat {
    match job
    case Free => 0
    case Holding(m) => w(Token(m, Held(q)))
    case Repushing(m) => w(Token(m, Checking(q)))
    case Appending(m) => w(Token(m, Blocked(q)))
  }

  function ConsumerWeight(w: Token -> nat): Consumer -> nat {
    (c: Consumer) => JobTokenWeight(w, c.home, c.job)
  }

  function DoneWeight(w: Token -> nat): ((Msg, Fate)) -> nat {
    (p: (Msg, Fate)) => w(Token(p.0, Done(p.1)))
  }

  /** The sum of w over all places. */
  function Weight(s: State, w: Token -> nat): nat {
    QueuesWeight(w, s.queues) + Total(s.consumers, ConsumerWeight(w)) + Total(s.finished, DoneWeight(w))
  }

  lemma AppendWeight(xs: seq<Msg>, m: Msg, w: Token -> nat, q: nat)
    ensures QueueWeight(w, q, xs + [m]) == QueueWeight(w, q, xs) + w(Token(m, Queued(q)))
  {
    TotalSnoc(xs, m, QueuedWeight(w, q));
  }

  lemma HeadWeight(xs: seq<Msg>, w: Token -> nat, q: nat)
    requires xs != []
    ensures QueueWeight(w, q, xs) == QueueWeight(w, q, xs[1..]) + w(Token(xs[0], Queued(q)))
  {
    assert xs == [xs[0]] + xs[1..];
    TotalConcat([xs[0]], xs[1..], QueuedWeight(w, q));
    TotalSnoc([], xs[0], QueuedWeight(w, q));
    assert [] + [xs[0]] == [xs[0]];
  }

  lemma {:induction false} QueuesUpdate(queues: seq<seq<Msg>>, q: nat, xs: seq<Msg>, w: Token -> nat)
    requires q < |queues|
    ensures QueuesWeight(w, queues[q := xs]) + QueueWeight(w, q, queues[q]) ==
            QueuesWeight(w, queues) + QueueWeight(w, q, xs)
  {
    hide QueueWeight;
    var n := |queues| - 1;
    if q == n {
      assert queues[q := xs][..n] == queues[..n];
    } else {
      assert queues[q := xs][..n] == queues[..n][q := xs];
      QueuesUpdate(queues[..n], q, xs, w);
    }
  }

  lemma FinishWeight(s: State, c: nat, fate: Fate, w: Token -> nat)
    requires c < |s.consumers| && !s.consumers[c].job.Free?
    ensures Weight(Finish(s, c, fate), w) + ConsumerWeight(w)(s.consumers[c]) ==
            Weight(s, w) + w(Token(s.consumers[c].job.m, Done(fate)))
  {
    hide Total;
    TotalUpdate(s.consumers, c, s.consumers[c].(job := Free), ConsumerWeight(w));
    var p := (s.consumers[c].job.m, fate);
    TotalSnoc(s.finished, p, DoneWeight(w));
  }

  lemma JobWeight(s: State, c: nat, job: Job, w: Token -> nat)
    requires c < |s.consumers|
    ensures Weight(WithJob(s, c, job), w) + ConsumerWeight(w)(s.consumers[c]) ==
            Weight(s, w) + ConsumerWeight(w)(Consumer(s.consumers[c].home, job))
  {
    hide Total;
    TotalUpdate(s.consumers, c, s.consumers[c].(job := job), ConsumerWeight(w));
  }

  lemma QueueUpdateWeight(s: State, q: nat, xs: seq<Msg>, w: Token -> nat)
    requires q < |s.queues|
    ensures Weight(s.(queues := s.queues[q := xs]), w) + QueueWeight(w, q, s.queues[q]) ==
            Weight(s, w) + QueueWeight(w, q, xs)
  {
    hide Total, QueuesWeight, QueueWeight;
    QueuesUpdate(s.queues, q, xs, w);
  }

  /** The one message a consumer action moves: where it is before the step. */
  ghost function Before(s: State, a: Action): Token
    requires Enabled(s, a) && !a.Push?
  {
    match a
    case Take(c) => Token(s.queues[s.consumers[c].home][0], Queued(s.consumers[c].home))
    case Handle(c, _) => Token(s.consumers[c].job.m, Held(s.consumers[c].home))
    case CheckRepush(c) => Token(s.consumers[c].job.m, Checking(s.consumers[c].home))
    case Append(c) => Token(s.consumers[c].job.m, Blocked(s.consumers[c].home))
  }

  /** ... and after it. */
  ghost function After(s: State, a: Action): Token
    requires Enabled(s, a) && !a.Push?
  {
    var m, home := Before(s, a).m, s.consumers[a.c].home;
    match a
    case Take(c) => Token(m, Held(home))
    case Handle(_, NoHandlerFound) => Token(m, Done(NoHandler))
    case Handle(_, Success) => Token(m, Done(Succeeded))
    case Handle(_, NotRetryable) => Token(m, Done(Fatal))
    case Handle(_, Retryable) =>
      if m.retries < RETRY_LIMIT then Token(m.(retries := m.retries + 1), Checking(home)) else Token(m, Done(FinalFail))
    case CheckRepush(_) =>
      if Full(s, Failure(s)) then Token(m, Done(FailureQueueFull)) else Token(m, Blocked(home))
    case Append(_) => Token(m, Queued(Failure(s)))
  }

  /** Every consumer step moves exactly one message; all other places keep what they hold. */
  lemma StepMovesOne(s: State, a: Action, w: Token -> nat)
    requires Enabled(s, a) && !a.Push?
    ensures Weight(Next(s, a), w) + w(Before(s, a)) == Weight(s, w) + w(After(s, a))
  {
    hide Weight, QueueWeight;
    match a
    case Take(c) =>
      var q := s.consumers[c].home;
      var t := WithJob(s, c, Holding(s.queues[q][0]));
      JobWeight(s, c, Holding(s.queues[q][0]), w);
      QueueUpdateWeight(t, q, s.queues[q][1..], w);
      HeadWeight(s.queues[q], w, q);
    case Handle(c, outcome) =>
      var m := s.consumers[c].job.m;
      CalledWeightless(s, s.called + [m.id], w);
      var t := if outcome.NoHandlerFound? then s else s.(called := s.called + [m.id]);
      if outcome.Retryable? && m.retries < RETRY_LIMIT {
        JobWeight(t, c, Repushing(m.(retries := m.retries + 1)), w);
      } else {
        FinishWeight(t, c, After(s, a).stage.fate, w);
      }
    case CheckRepush(c) =>
      if Full(s, Failure(s)) {
        FinishWeight(s, c, FailureQueueFull, w);
      } else {
        JobWeight(s, c, Appending(s.consumers[c].job.m), w);
      }
    case Append(c) =>
      var q := Failure(s);
      JobWeight(s, c, Free, w);
      QueueUpdateWeight(WithJob(s, c, Free), q, s.queues[q] + [s.consumers[c].job.m], w);
      AppendWeight(s.queues[q], s.consumers[c].job.m, w, q);
  }

  lemma CalledWeightless(s: State, called: seq<nat>, w: Token -> nat)
    ensures Weight(s.(called := called), w) == Weight(s, w)
  {
  }

  lemma PushAddsOne(s: State, q: nat, m: Msg, w: Token -> nat)
    requires Enabled(s, Push(q, m))
    ensures Weight(Next(s, Push(q, m)), w) == Weight(s, w) + w(Token(m, Queued(q)))
  {
    hide QueueWeight;
    QueueUpdateWeight(s, q, s.queues[q] + [m], w);
    AppendWeight(s.queues[q], m, w, q);
  }

  lemma {:induction false} NoQueuesWeight(queues: seq<seq<Msg>>, w: Token -> nat)
    requires forall q :: 0 <= q < |queues| ==> queues[q] == []
    ensures QueuesWeight(w, queues) == 0
  {
    if queues != [] {
      NoQueuesWeight(queues[..|queues| - 1], w);
    }
  }

  lemma {:induction false} InitWeight(s: State, w: Token -> nat)
    requires Init(s)
    ensures Weight(s, w) == 0
  {
    NoQueuesWeight(s.queues, w);
    TotalAtMost(s.consumers, ConsumerWeight(w), 0);
  }

  // ---------- every queue is first in, first out

  /** The message a step puts into queue q: a push into a pool queue, a consumer's retry into the failure queue. */
  ghost function PutBy(s: State, a: Action, q: nat): seq<Msg>
    requires Enabled(s, a)
  {
    match a
    case Push(p, m) => if p == q then [m] else []
    case Append(c) => if q == Failure(s) then [s.consumers[c].job.m] else []
    case _ => []
  }

  /** The message a step hands from queue q to one of its consumers. */
  ghost function TakenBy(s: State, a: Action, q: nat): seq<Msg>
    requires Enabled(s, a)
  {
    if a.Take? && s.consumers[a.c].home == q then [Next(s, a).consumers[a.c].job.m] else []
  }

  ghost function AllPut(s: State, acts: seq<Action>, t: State, q: nat): seq<Msg>
    requires Run(s, acts, t)
    decreases |acts|
  {
    if acts == [] then [] else PutBy(s, acts[0], q) + AllPut(Next(s, acts[0]), acts[1..], t, q)
  }

  ghost function AllTaken(s: State, acts: seq<Action>, t: State, q: nat): seq<Msg>
    requires Run(s, acts, t)
    decreases |acts|
  {
    if acts == [] then [] else TakenBy(s, acts[0], q) + AllTaken(Next(s, acts[0]), acts[1..], t, q)
  }

  ghost predicate WithinCapacity(s: State) {
    |s.queues| == |s.capacities| && forall q :: 0 <= q < |s.queues| ==> |s.queues[q]| <= s.capacities[q]
  }

  lemma StepIsFifo(s: State, a: Action, q: nat)
    requires Enabled(s, a) && q < |s.queues|
    ensures |Next(s, a).queues| == |s.queues| && Next(s, a).capacities == s.capacities
    ensures s.queues[q] + PutBy(s, a, q) == TakenBy(s, a, q) + Next(s, a).queues[q]
    ensures WithinCapacity(s) ==> WithinCapacity(Next(s, a))
  {
    if a.Take? {
      var home := s.consumers[a.c].home;
      assert s.queues[home] == [s.queues[home][0]] + s.queues[home][1..];
    }
  }

  lemma Regroup<T>(x: seq<T>, p: seq<T>, ps: seq<T>, t: seq<T>, y: seq<T>, ts: seq<T>, z: seq<T>)
    requires x + p == t + y && y + ps == ts + z
    ensures x + (p + ps) == t + ts + z
  {
    assert x + (p + ps) == (x + p) + ps;
    assert t + (y + ps) == (t + y) + ps;
  }

  lemma {:induction false} RunIsFifo(s: State, acts: seq<Action>, t: State, q: nat)
    requires Run(s, acts, t) && q < |s.queues| && WithinCapacity(s)
    ensures |t.queues| == |s.queues| && t.capacities == s.capacities && WithinCapacity(t)
    ensures s.queues[q] + AllPut(s, acts, t, q) == AllTaken(s, acts, t, q) + t.queues[q]
    decreases |acts|
  {
    if acts != [] {
      hide Next, Enabled, PutBy, TakenBy, WithinCapacity;
      var u := Next(s, acts[0]);
      StepIsFifo(s, acts[0], q);
      RunIsFifo(u, acts[1..], t, q);
      Regroup(s.queues[q], PutBy(s, acts[0], q), AllPut(u, acts[1..], t, q),
              TakenBy(s, acts[0], q), u.queues[q], AllTaken(u, acts[1..], t, q), t.queues[q]);
    }
  }

  /** In every run the messages put into a queue are those taken from it, in the same order, and then its contents. */
  lemma QueueIsFifo(s: State, acts: seq<Action>, t: State, q: nat)
    requires Init(s) && Run(s, acts, t) && q < |s.queues|
    ensures q < |t.queues| && AllPut(s, acts, t, q) == AllTaken(s, acts, t, q) + t.queues[q]
    ensures t.capacities == s.capacities && |t.queues[q]| <= s.capacities[q]
  {
    hide Run, AllPut, AllTaken;
    RunIsFifo(s, acts, t, q);
  }

  // ---------- conservation

  function IsMsg(x: nat): Msg -> nat {
    (m: Msg) => if m.id == x then 1 else 0
  }

  function IsToken(x: nat): Token -> nat {
    (t: Token) => if t.m.id == x then 1 else 0
  }

  lemma {:induction false} RunConserves(s: State, acts: seq<Action>, t: State, x: nat)
    requires Weight(s, IsToken(x)) == Total(s.accepted, IsMsg(x)) && Run(s, acts, t)
    ensures Weight(t, IsToken(x)) == Total(t.accepted, IsMsg(x))
    decreases |acts|
  {
    hide Weight;
    if acts != [] {
      var u := Next(s, acts[0]);
      if acts[0].Push? {
        PushAddsOne(s, acts[0].q, acts[0].m, IsToken(x));
        assert u.accepted[..|s.accepted|] == s.accepted;
      } else {
        StepMovesOne(s, acts[0], IsToken(x));
      }
      RunConserves(u, acts[1..], t, x);
    }
  }

  lemma {:induction false} DistinctIds(ms: seq<Msg>, x: nat)
    requires forall i, j :: 0 <= i < j < |ms| ==> ms[i].id != ms[j].id
    ensures Total(ms, IsMsg(x)) == if exists i :: 0 <= i < |ms| && ms[i].id == x then 1 else 0
  {
    if ms != [] {
      var n := |ms| - 1;
      DistinctIds(ms[..n], x);
      if ms[n].id == x {
        assert forall i :: 0 <= i < n ==> ms[..n][i].id != x;
      } else if i :| 0 <= i < |ms| && ms[i].id == x {
        assert ms[..n][i].id == x;
      }
    }
  }

  /** In every reachable state each accepted message is in exactly one place, and nothing else is anywhere. */
  lemma Conservation(s: State, acts: seq<Action>, t: State, x: nat)
    requires Init(s) && Run(s, acts, t)
    requires forall i, j :: 0 <= i < j < |t.accepted| ==> t.accepted[i].id != t.accepted[j].id
    ensures Weight(t, IsToken(x)) == if exists i :: 0 <= i < |t.accepted| && t.accepted[i].id == x then 1 else 0
  {
    hide Weight, Run;
    InitWeight(s, IsToken(x));
    RunConserves(s, acts, t, x);
    DistinctIds(t.accepted, x);
  }

  // ---------- bounded work

  /** How many handler calls a message can still cause: the first one and up to three retries. */
  function Budget(m: Msg): nat {
    1 + if m.retries < 3 then 3 - m.retries else 0
  }

  function ChosenBudget(chosen: nat -> bool, m: Msg): nat {
    if chosen(m.id) then Budget(m) else 0
  }

  /** The budget of the messages with chosen identities, in the places where they can still be handled. */
  function LiveBudget(chosen: nat -> bool): Token -> nat {
    (t: Token) => if t.stage.Done? then 0 else ChosenBudget(chosen, t.m)
  }

  function MsgBudget(chosen: nat -> bool): Msg -> nat {
    (m: Msg) => ChosenBudget(chosen, m)
  }

  function Chosen(chosen: nat -> bool): nat -> nat {
    (x: nat) => if chosen(x) then 1 else 0
  }

  lemma {:induction false} RunSpendsBudget(s: State, acts: seq<Action>, t: State, chosen: nat -> bool)
    requires Run(s, acts, t)
    requires Total(s.called, Chosen(chosen)) + Weight(s, LiveBudget(chosen)) <= Total(s.accepted, MsgBudget(chosen))
    ensures Total(t.called, Chosen(chosen)) + Weight(t, LiveBudget(chosen)) <= Total(t.accepted, MsgBudget(chosen))
    decreases |acts|
  {
    hide Weight;
    if acts != [] {
      StepSpendsBudget(s, acts[0], chosen);
      RunSpendsBudget(Next(s, acts[0]), acts[1..], t, chosen);
    }
  }

  lemma StepSpendsBudget(s: State, a: Action, chosen: nat -> bool)
    requires Enabled(s, a)
    ensures var t := Next(s, a);
            Total(t.called, Chosen(chosen)) + Weight(t, LiveBudget(chosen)) + Total(s.accepted, MsgBudget(chosen)) <=
            Total(s.called, Chosen(chosen)) + Weight(s, LiveBudget(chosen)) + Total(t.accepted, MsgBudget(chosen))
  {
    hide Weight, Total;
    if a.Push? {
      PushAddsOne(s, a.q, a.m, LiveBudget(chosen));
      TotalSnoc(s.accepted, a.m, MsgBudget(chosen));
    } else {
      StepMovesOne(s, a, LiveBudget(chosen));
      if a.Handle? {
        TotalSnoc(s.called, s.consumers[a.c].job.m.id, Chosen(chosen));
      }
    }
  }

  /** Handler calls, for any choice of messages, stay within the sum of 1 + max(0, 3 - initial retry count). */
  lemma CallsBounded(s: State, acts: seq<Action>, t: State, chosen: nat -> bool)
    requires Init(s) && Run(s, acts, t)
    ensures Total(t.called, Chosen(chosen)) <= Total(t.accepted, MsgBudget(chosen))
  {
    hide Weight, Run;
    InitWeight(s, LiveBudget(chosen));
    RunSpendsBudget(s, acts, t, chosen);
  }

  /** Steps a message can still take part in. */
  function StepsLeft(): Token -> nat {
    (t: Token) => match t.stage
         case Queued(_) => 4 * Budget(t.m)
         case Held(_) => 4 * Budget(t.m) - 1
         case Checking(_) => 4 * Budget(t.m) + 2
         case Blocked(_) => 4 * Budget(t.m) + 1
         case Done(_) => 0
  }

  function MsgSteps(): Msg -> nat {
    (m: Msg) => 4 * Budget(m) + 1
  }

  lemma StepUsesOne(s: State, a: Action)
    requires Enabled(s, a)
    ensures var t := Next(s, a);
            1 + Weight(t, StepsLeft()) + Total(s.accepted, MsgSteps()) <=
            Weight(s, StepsLeft()) + Total(t.accepted, MsgSteps())
  {
    hide Weight, Total;
    if a.Push? {
      PushAddsOne(s, a.q, a.m, StepsLeft());
      TotalSnoc(s.accepted, a.m, MsgSteps());
    } else {
      StepMovesOne(s, a, StepsLeft());
    }
  }

  lemma {:induction false} RunUsesSteps(s: State, acts: seq<Action>, t: State)
    requires Run(s, acts, t)
    ensures |acts| + Weight(t, StepsLeft()) + Total(s.accepted, MsgSteps()) <=
            Weight(s, StepsLeft()) + Total(t.accepted, MsgSteps())
    decreases |acts|
  {
    hide Weight;
    if acts != [] {
      StepUsesOne(s, acts[0]);
      RunUsesSteps(Next(s, acts[0]), acts[1..], t);
    }
  }

  /** Finitely many pushes cause finite work: the length of a run is bounded by what was pushed. */
  lemma WorkBounded(s: State, acts: seq<Action>, t: State)
    requires Init(s) && Run(s, acts, t)
    ensures |acts| <= Total(t.accepted, MsgSteps())
  {
    hide Weight, Run;
    InitWeight(s, StepsLeft());
    RunUsesSteps(s, acts, t);
  }
}
