/**
 How the message system comes to rest: with every message finished, or with the failure queue full and all
 of its consumers blocked putting into it.  The second kind of rest can be reached exactly if enough of the
 pushed messages may be retried, counted against the room in the failure queue and its consumers.
 */
module MessageRest {
  import opened MessageSystem
  import opened Totals

  // ---------- the shape of rest

  /** No consumer can take a step. */
  ghost predicate Stuck(s: State) {
    WellFormed(s) && forall a: Action :: !a.Push? ==> !Enabled(s, a)
  }

  ghost predicate ConsumerStuck(s: State, c: nat)
    requires WellFormed(s) && c < |s.consumers|
  {
    (s.consumers[c].job.Free? && s.queues[s.consumers[c].home] == []) ||
    (s.consumers[c].job.Appending? && Full(s, Failure(s)))
  }

  lemma StuckConsumers(s: State)
    requires WellFormed(s)
    ensures Stuck(s) <==> forall c: nat :: c < |s.consumers| ==> ConsumerStuck(s, c)
  {
    if Stuck(s) {
      forall c: nat | c < |s.consumers|
        ensures ConsumerStuck(s, c)
      {
        assert !Enabled(s, Take(c)) && !Enabled(s, Handle(c, Success));
        assert !Enabled(s, CheckRepush(c)) && !Enabled(s, Append(c));
      }
    } else {
      var a: Action :| !a.Push? && Enabled(s, a);
      assert !ConsumerStuck(s, a.c);
    }
  }

  /** A message is still in a queue or in the hands of a consumer. */
  ghost predicate Unfinished(s: State) {
    (exists q :: 0 <= q < |s.queues| && s.queues[q] != []) ||
    (exists c :: 0 <= c < |s.consumers| && !s.consumers[c].job.Free?)
  }

  /** Some consumer serves the queue. */
  ghost predicate Served(s: State, q: nat) {
    exists c: nat :: c < |s.consumers| && s.consumers[c].home == q
  }

  /**
   With a consumer at every queue the system comes to rest in two ways only: every message is finished, or
   the failure queue is full while each of its own consumers is blocked putting into it.
   */
  lemma RestExactly(s: State)
    requires Stuck(s) && forall q: nat :: q < |s.queues| ==> Served(s, q)
    ensures Unfinished(s) <==> Full(s, Failure(s))
    ensures Full(s, Failure(s)) ==>
              forall c: nat :: c < |s.consumers| && s.consumers[c].home == Failure(s) ==> s.consumers[c].job.Appending?
  {
    StuckConsumers(s);
    assert Full(s, Failure(s)) ==> s.queues[Failure(s)] != [];
    forall c: nat | c < |s.consumers|
      ensures s.consumers[c].job.Free? || (s.consumers[c].job.Appending? && Full(s, Failure(s)))
      ensures s.consumers[c].job.Free? ==> s.queues[s.consumers[c].home] == []
    {
      assert ConsumerStuck(s, c);
    }
    if !Full(s, Failure(s)) {
      forall q: nat | q < |s.queues|
        ensures s.queues[q] == []
      {
        assert Served(s, q);
        var c: nat :| c < |s.consumers| && s.consumers[c].home == q;
      }
    }
  }

  lemma {:induction false} RunSnoc(s: State, acts: seq<Action>, t: State, a: Action)
    requires Run(s, acts, t) && Enabled(t, a)
    ensures Run(s, acts + [a], Next(t, a))
    decreases |acts|
  {
    if acts == [] {
      assert (acts + [a])[1..] == [];
    } else {
      RunSnoc(Next(s, acts[0]), acts[1..], t, a);
      assert (acts + [a])[1..] == acts[1..] + [a];
    }
  }

  ghost predicate Reaches(s: State, t: State) {
    exists acts :: Run(s, acts, t)
  }

  lemma Then(s: State, t: State, a: Action, u: State)
    requires Reaches(s, t) && Enabled(t, a) && Next(t, a) == u
    ensures Reaches(s, u)
  {
    var acts :| Run(s, acts, t);
    RunSnoc(s, acts, t, a);
  }

  // ---------- how many messages must have been retried

  /** 1 for a message that may still be retried k times. */
  function MayRetry(k: nat, m: Msg): nat {
    if m.retries + k <= 3 then 1 else 0
  }

  function CanRetry(k: nat): Msg -> nat {
    (m: Msg) => MayRetry(k, m)
  }

  function HomeAt(q: nat): Consumer -> nat {
    (c: Consumer) => if c.home == q then 1 else 0
  }

  /** How many consumers serve the failure queue. */
  function FailureConsumers(s: State): nat
    requires |s.queues| > 0
  {
    Total(s.consumers, HomeAt(Failure(s)))
  }

  /** How often a message must have been retried to be at this stage, with failure queue f. */
  function Passed(f: nat, stage: Stage): nat {
    match stage
    case Queued(q) => if q == f then 1 else 0
    case Held(q) => if q == f then 1 else 0
    case Checking(q) => if q == f then 2 else 1
    case Blocked(q) => if q == f then 2 else 1
    case Done(_) => 0
  }

  /** 1 for an unfinished message that has been, or may still be, retried k times in all. */
  function RetriedOrMay(f: nat, k: nat, t: Token): nat {
    if t.stage.Done? then 0
    else if Passed(f, t.stage) >= k then 1
    else MayRetry(k - Passed(f, t.stage), t.m)
  }

  function RetriedOrCan(f: nat, k: nat): Token -> nat {
    (t: Token) => RetriedOrMay(f, k, t)
  }

  lemma StepRetries(s: State, a: Action, k: nat)
    requires Enabled(s, a) && k > 0
    ensures var w, t := RetriedOrCan(Failure(s), k), Next(s, a);
            Weight(t, w) + Total(s.accepted, CanRetry(k)) <= Weight(s, w) + Total(t.accepted, CanRetry(k))
  {
    hide Weight, Total;
    var w := RetriedOrCan(Failure(s), k);
    if a.Push? {
      PushAddsOne(s, a.q, a.m, w);
      TotalSnoc(s.accepted, a.m, CanRetry(k));
    } else {
      StepMovesOne(s, a, w);
    }
  }

  /** What no step changes. */
  ghost predicate SameSystem(s: State, t: State) {
    && t.capacities == s.capacities && |t.queues| == |s.queues| && |t.consumers| == |s.consumers|
    && forall c :: 0 <= c < |s.consumers| ==> t.consumers[c].home == s.consumers[c].home
  }

  lemma StepSameSystem(s: State, a: Action)
    requires Enabled(s, a)
    ensures SameSystem(s, Next(s, a))
    ensures |s.queues| == 1 ==> Next(s, a).accepted == s.accepted
  {
  }

  lemma {:induction false} RunRetries(s: State, acts: seq<Action>, t: State, k: nat)
    requires Run(s, acts, t) && |s.queues| > 0 && k > 0
    requires Weight(s, RetriedOrCan(Failure(s), k)) <= Total(s.accepted, CanRetry(k))
    ensures SameSystem(s, t)
    ensures Weight(t, RetriedOrCan(Failure(s), k)) <= Total(t.accepted, CanRetry(k))
    ensures |s.queues| == 1 ==> t.accepted == s.accepted
    decreases |acts|
  {
    hide Weight, Total, RetriedOrCan, CanRetry, Next, Enabled;
    if acts != [] {
      var u := Next(s, acts[0]);
      StepRetries(s, acts[0], k);
      StepSameSystem(s, acts[0]);
      RunRetries(u, acts[1..], t, k);
    }
  }

  lemma {:induction false} TotalPointwise<T>(xs: seq<T>, ys: seq<T>, v: T -> nat, w: T -> nat)
    requires |xs| == |ys| && forall i :: 0 <= i < |xs| ==> v(xs[i]) <= w(ys[i])
    ensures Total(xs, v) <= Total(ys, w)
  {
    if xs != [] {
      TotalPointwise(xs[..|xs| - 1], ys[..|xs| - 1], v, w);
    }
  }

  /** Each message in the failure queue was retried once, each one blocked at it by its own consumers twice. */
  lemma RestRetries(s0: State, t: State)
    requires WellFormed(s0) && WellFormed(t) && SameSystem(s0, t) && Full(t, Failure(t))
    requires forall c: nat :: c < |t.consumers| && t.consumers[c].home == Failure(t) ==> t.consumers[c].job.Appending?
    ensures Weight(t, RetriedOrCan(Failure(s0), 1)) >= s0.capacities[Failure(s0)] + FailureConsumers(s0)
    ensures Weight(t, RetriedOrCan(Failure(s0), 2)) >= FailureConsumers(s0)
  {
    hide Total;
    var f := Failure(s0);
    var once, twice := RetriedOrCan(f, 1), RetriedOrCan(f, 2);
    TotalPointwise(s0.consumers, t.consumers, HomeAt(f), ConsumerWeight(once));
    TotalPointwise(s0.consumers, t.consumers, HomeAt(f), ConsumerWeight(twice));
    AllCount(t.queues[f], QueuedWeight(once, f));
  }

  lemma {:induction false} AllCount<T>(xs: seq<T>, w: T -> nat)
    requires forall x :: x in xs ==> w(x) >= 1
    ensures Total(xs, w) >= |xs|
  {
    if xs != [] {
      AllCount(xs[..|xs| - 1], w);
    }
  }

  lemma TotalRemove<T>(xs: seq<T>, i: nat, w: T -> nat)
    requires i < |xs|
    ensures Total(xs, w) == Total(xs[..i] + xs[i + 1..], w) + w(xs[i])
    ensures multiset(xs) == multiset(xs[..i] + xs[i + 1..]) + multiset{xs[i]}
  {
    hide Total;
    assert xs == xs[..i] + [xs[i]] + xs[i + 1..];
    TotalConcat(xs[..i] + [xs[i]], xs[i + 1..], w);
    TotalSnoc(xs[..i], xs[i], w);
    TotalConcat(xs[..i], xs[i + 1..], w);
  }

  lemma SamePosition<T>(xs: seq<T>, ys: seq<T>) returns (i: nat)
    requires multiset(xs) == multiset(ys) && xs != []
    ensures i < |ys| && ys[i] == xs[0]
  {
    assert xs[0] in multiset(ys);
    i :| 0 <= i < |ys| && ys[i] == xs[0];
  }

  lemma SameEmpty<T>(xs: seq<T>, ys: seq<T>)
    requires multiset(xs) == multiset(ys) && xs == []
    ensures ys == []
  {
    assert |multiset(ys)| == |ys|;
  }

  lemma CancelOne<T>(a: multiset<T>, b: multiset<T>, x: T)
    requires a + multiset{x} == b + multiset{x}
    ensures a == b
  {
    assert a == (a + multiset{x}) - multiset{x};
    assert b == (b + multiset{x}) - multiset{x};
  }

  /** A sum does not depend on the order. */
  lemma {:induction false} TotalPermuted<T>(xs: seq<T>, ys: seq<T>, w: T -> nat)
    requires multiset(xs) == multiset(ys)
    ensures Total(xs, w) == Total(ys, w)
  {
    hide Total;
    if xs == [] {
      SameEmpty(xs, ys);
    } else {
      var i := SamePosition(xs, ys);
      var xs', ys' := xs[..0] + xs[1..], ys[..i] + ys[i + 1..];
      TotalRemove(xs, 0, w);
      TotalRemove(ys, i, w);
      CancelOne(multiset(xs'), multiset(ys'), xs[0]);
      TotalPermuted(xs', ys', w);
    }
  }

  // ---------- reaching the second kind of rest

  /** Consumer w serves the first pool queue, which is empty, and is free. */
  ghost predicate Ready(s: State, w: nat) {
    && WellFormed(s) && |s.queues| > 1 && s.queues[0] == []
    && w < |s.consumers| && s.consumers[w] == Consumer(0, Free)
  }

  lemma Receive(s0: State, s: State, w: nat, m: Msg) returns (u: State)
    requires Reaches(s0, s) && Ready(s, w)
    ensures u == WithJob(s, w, Holding(m)).(accepted := s.accepted + [m]) && Reaches(s0, u)
  {
    hide Reaches;
    var p := Next(s, Push(0, m));
    Then(s0, s, Push(0, m), p);
    assert [] + [m] == [m] && [m][1..] == [];
    u := Next(p, Take(w));
    assert s.queues[0 := [m]][0 := []] == s.queues;
    Then(s0, p, Take(w), u);
  }

  /** A message that is handled without failure leaves no trace but in the history. */
  lemma PassThrough(s0: State, s: State, w: nat, m: Msg) returns (u: State)
    requires Reaches(s0, s) && Ready(s, w)
    ensures u == s.(accepted := s.accepted + [m], called := u.called, finished := u.finished) && Reaches(s0, u)
  {
    hide Reaches;
    var p := Receive(s0, s, w, m);
    u := Next(p, Handle(w, Success));
    assert u.consumers == s.consumers;
    Then(s0, p, Handle(w, Success), u);
  }

  /** A consumer's message fails and gets into put on the failure queue. */
  lemma Fails(s0: State, s: State, c: nat, m: Msg) returns (u: State)
    requires Reaches(s0, s) && WellFormed(s) && !Full(s, Failure(s)) && m.retries < RETRY_LIMIT
    requires c < |s.consumers| && s.consumers[c].job == Holding(m)
    ensures u == WithJob(s, c, Appending(Retried(m))).(called := s.called + [m.id]) && Reaches(s0, u)
  {
    hide Reaches;
    var p := Next(s, Handle(c, Retryable));
    Then(s0, s, Handle(c, Retryable), p);
    u := Next(p, CheckRepush(c));
    Then(s0, p, CheckRepush(c), u);
  }

  function Retried(m: Msg): Msg {
    m.(retries := m.retries + 1)
  }

  /** A message pushed, taken from the pool, and retried once lies in the failure queue. */
  lemma AddOne(s0: State, s: State, w: nat, m: Msg) returns (u: State)
    requires Reaches(s0, s) && Ready(s, w) && !Full(s, Failure(s)) && m.retries < RETRY_LIMIT
    ensures u == s.(accepted := s.accepted + [m], called := s.called + [m.id],
                    queues := s.queues[Failure(s) := s.queues[Failure(s)] + [Retried(m)]])
    ensures Reaches(s0, u)
  {
    hide Reaches;
    var p := Receive(s0, s, w, m);
    p := Fails(s0, p, w, m);
    u := Next(p, Append(w));
    assert u.consumers == s.consumers;
    Then(s0, p, Append(w), u);
  }

  /** A consumer of the failure queue takes its only message, fails it, and sees room to put it back. */
  lemma BlockOne(s0: State, s: State, w: nat, m: Msg, c: nat) returns (u: State)
    requires Reaches(s0, s) && Ready(s, w) && s.queues[Failure(s)] == [] && m.retries + 1 < RETRY_LIMIT
    requires c < |s.consumers| && s.consumers[c] == Consumer(Failure(s), Free)
    ensures u == WithJob(s, c, Appending(Retried(Retried(m)))).(accepted := s.accepted + [m], called := u.called)
    ensures Reaches(s0, u)
  {
    hide Reaches;
    var f := Failure(s);
    var p := AddOne(s0, s, w, m);
    assert [] + [Retried(m)] == [Retried(m)] && [Retried(m)][1..] == [];
    var q := Next(p, Take(c));
    assert q.queues == s.queues;
    Then(s0, p, Take(c), q);
    u := Fails(s0, q, c, Retried(m));
  }

  lemma {:induction false} PassAll(s0: State, s: State, w: nat, ms: seq<Msg>) returns (u: State)
    requires Reaches(s0, s) && Ready(s, w)
    ensures u == s.(accepted := s.accepted + ms, called := u.called, finished := u.finished) && Reaches(s0, u)
    decreases |ms|
  {
    hide Reaches;
    u := s;
    if ms == [] {
      assert s.accepted + ms == s.accepted;
    } else {
      u := PassThrough(s0, s, w, ms[0]);
      u := PassAll(s0, u, w, ms[1..]);
      assert s.accepted + [ms[0]] + ms[1..] == s.accepted + ms;
    }
  }

  lemma {:induction false} AddAll(s0: State, s: State, w: nat, ms: seq<Msg>) returns (u: State)
    requires Reaches(s0, s) && Ready(s, w) && |s.queues[Failure(s)]| + |ms| <= s.capacities[Failure(s)]
    requires forall m :: m in ms ==> m.retries < RETRY_LIMIT
    ensures |u.queues| == |s.queues| && u == s.(accepted := s.accepted + ms, called := u.called,
                    queues := s.queues[Failure(s) := u.queues[Failure(s)]])
    ensures Reaches(s0, u) && |u.queues[Failure(s)]| == |s.queues[Failure(s)]| + |ms|
    decreases |ms|
  {
    hide Reaches;
    u := s;
    if ms == [] {
      assert s.accepted + ms == s.accepted;
    } else {
      u := AddOne(s0, s, w, ms[0]);
      u := AddAll(s0, u, w, ms[1..]);
      assert s.accepted + [ms[0]] + ms[1..] == s.accepted + ms;
    }
  }

  /** The failure queue's consumers among the first n get blocked one after the other. */
  lemma {:induction false} BlockAll(s0: State, s: State, w: nat, n: nat, ms: seq<Msg>) returns (u: State)
    requires Reaches(s0, s) && Ready(s, w) && s.queues[Failure(s)] == [] && n <= |s.consumers|
    requires |ms| == Total(s.consumers[..n], HomeAt(Failure(s))) && forall m :: m in ms ==> m.retries + 1 < RETRY_LIMIT
    requires forall c :: 0 <= c < n ==> s.consumers[c].job.Free?
    ensures Reaches(s0, u) && |u.consumers| == |s.consumers|
    ensures u == s.(accepted := s.accepted + ms, called := u.called, consumers := u.consumers)
    ensures forall c :: 0 <= c < |s.consumers| ==>
              if c < n && s.consumers[c].home == Failure(s)
              then u.consumers[c].home == Failure(s) && u.consumers[c].job.Appending?
              else u.consumers[c] == s.consumers[c]
  {
    hide Reaches;
    u := s;
    if n == 0 {
      assert s.accepted + ms == s.accepted;
    } else {
      assert s.consumers[..n][..n - 1] == s.consumers[..n - 1];
      if s.consumers[n - 1].home == Failure(s) {
        var k := |ms| - 1;
        u := BlockAll(s0, s, w, n - 1, ms[..k]);
        u := BlockOne(s0, u, w, ms[k], n - 1);
        assert s.accepted + ms[..k] + [ms[k]] == s.accepted + ms;
      } else {
        u := BlockAll(s0, s, w, n - 1, ms);
      }
    }
  }

  /** Selects k of the messages that can be retried r times. */
  lemma {:induction false} Select(ms: seq<Msg>, r: nat, k: nat) returns (chosen: seq<Msg>, rest: seq<Msg>)
    requires k <= Total(ms, CanRetry(r))
    ensures |chosen| == k && multiset(chosen) + multiset(rest) == multiset(ms)
    ensures forall m :: m in chosen ==> m.retries + r <= 3
  {
    chosen, rest := [], ms;
    if k > 0 {
      var n := |ms| - 1;
      assert ms == ms[..n] + [ms[n]];
      if ms[n].retries + r <= 3 {
        chosen, rest := Select(ms[..n], r, k - 1);
        chosen := chosen + [ms[n]];
      } else {
        chosen, rest := Select(ms[..n], r, k);
        rest := rest + [ms[n]];
      }
    }
  }

  /** Messages to block the consumers, messages to fill the failure queue, and the others. */
  lemma Distribute(ms: seq<Msg>, blocked: nat, filling: nat)
    returns (twice: seq<Msg>, once: seq<Msg>, others: seq<Msg>)
    requires blocked <= Total(ms, CanRetry(2)) && filling + blocked <= Total(ms, CanRetry(1))
    ensures |twice| == blocked && |once| == filling
    ensures multiset(others) + multiset(twice) + multiset(once) == multiset(ms)
    ensures forall m :: m in twice ==> m.retries + 1 < RETRY_LIMIT
    ensures forall m :: m in once ==> m.retries < RETRY_LIMIT
  {
    hide Total;
    var rest;
    twice, rest := Select(ms, 2, blocked);
    assert multiset(ms) == multiset(twice + rest);
    TotalPermuted(ms, twice + rest, CanRetry(1));
    TotalConcat(twice, rest, CanRetry(1));
    TotalAtMost(twice, CanRetry(1), 1);
    once, others := Select(rest, 1, filling);
  }

  // ---------- a message that always fails

  /** The identities handed to handlers until a message has failed for the last time. */
  function CallsOf(m: Msg): (calls: seq<nat>)
    ensures |calls| == Budget(m) && forall k :: 0 <= k < |calls| ==> calls[k] == m.id
  {
    seq(Budget(m), _ => m.id)
  }

  /** A message whose retries are used up fails for good. */
  lemma LastFailure(s0: State, s: State, c: nat, m: Msg) returns (u: State)
    requires Reaches(s0, s) && WellFormed(s) && c < |s.consumers| && s.consumers[c].job == Holding(m)
    requires m.retries >= 3
    ensures u == WithJob(s, c, Free).(called := s.called + [m.id], finished := s.finished + [(m, FinalFail)])
    ensures Reaches(s0, u)
  {
    hide Reaches;
    u := Next(s, Handle(c, Retryable));
    Then(s0, s, Handle(c, Retryable), u);
  }

  /** From the failure queue a message goes round until its retries are used up. */
  lemma {:induction false} GoesRound(s0: State, s: State, c: nat, m: Msg) returns (u: State)
    requires Reaches(s0, s) && WellFormed(s) && s.queues[Failure(s)] == [m] && m.retries <= 3
    requires c < |s.consumers| && s.consumers[c] == Consumer(Failure(s), Free)
    ensures u == s.(queues := s.queues[Failure(s) := []], called := s.called + CallsOf(m),
                    finished := s.finished + [(Msg(m.id, 3), FinalFail)])
    ensures Reaches(s0, u)
    decreases 3 - m.retries
  {
    hide Reaches;
    var f := Failure(s);
    assert [m][1..] == [];
    var p := Next(s, Take(c));
    Then(s0, s, Take(c), p);
    if m.retries == 3 {
      u := LastFailure(s0, p, c, m);
      assert u.consumers == s.consumers && CallsOf(m) == [m.id];
    } else {
      p := Fails(s0, p, c, m);
      var q := Next(p, Append(c));
      Then(s0, p, Append(c), q);
      assert [] + [Retried(m)] == [Retried(m)];
      assert q.consumers == s.consumers && q.queues == s.queues[f := [Retried(m)]];
      u := GoesRound(s0, q, c, Retried(m));
      assert s.called + [m.id] + CallsOf(Retried(m)) == s.called + CallsOf(m);
    }
  }

  /** A run with this message alone: handled 1 + max(0, 3 - retries) times, then finally failed with 3 counted. */
  ghost predicate CanUseAllRetries(s0: State, m: Msg) {
    exists acts, t :: Run(s0, acts, t) && t.accepted == [m] &&
                      t.called == seq(1 + if m.retries < 3 then 3 - m.retries else 0, _ => m.id) &&
                      t.finished == [(Msg(m.id, if m.retries < 3 then 3 else m.retries), FinalFail)]
  }

  /** The bound on handler calls is attained, by every message in every system whose queues are served. */
  lemma RetriesToTheEnd(s0: State, m: Msg)
    requires Init(s0) && AllServed(s0) && |s0.queues| > 1
    ensures CanUseAllRetries(s0, m)
  {
    assert Served(s0, 0) && Served(s0, Failure(s0));
    var w: nat :| w < |s0.consumers| && s0.consumers[w].home == 0;
    var c: nat :| c < |s0.consumers| && s0.consumers[c].home == Failure(s0);
    assert Reaches(s0, s0) by { assert Run(s0, [], s0); }
    hide Reaches;
    assert [] + [m] == [m] && [] + [m.id] == [m.id] && [] + [Retried(m)] == [Retried(m)];
    var t;
    if m.retries < 3 {
      var p := AddOne(s0, s0, w, m);
      t := GoesRound(s0, p, c, Retried(m));
      assert [m.id] + CallsOf(Retried(m)) == CallsOf(m);
    } else {
      var p := Receive(s0, s0, w, m);
      t := LastFailure(s0, p, w, m);
    }
    ReachedByRun(s0, t);
    var acts :| Run(s0, acts, t);
  }

  // ---------- the exact condition

  /** Some run that accepts exactly these messages, in some order, comes to rest with one of them unfinished. */
  ghost predicate CanDeadlock(s0: State, ms: seq<Msg>) {
    exists acts, t :: Run(s0, acts, t) && multiset(t.accepted) == multiset(ms) && Stuck(t) && Unfinished(t)
  }

  ghost predicate AllServed(s: State) {
    forall q: nat :: q < |s.queues| ==> Served(s, q)
  }

  /** Enough retries to block every consumer of the failure queue and to fill the queue behind them. */
  ghost predicate EnoughRetries(s: State, ms: seq<Msg>)
    requires WellFormed(s)
  {
    && |s.queues| > 1
    && Total(ms, CanRetry(2)) >= FailureConsumers(s)
    && Total(ms, CanRetry(1)) >= FailureConsumers(s) + s.capacities[Failure(s)]
  }

  lemma SameServed(s: State, t: State)
    requires SameSystem(s, t) && AllServed(s)
    ensures AllServed(t)
  {
    forall q: nat | q < |t.queues|
      ensures Served(t, q)
    {
      assert Served(s, q);
      var c: nat :| c < |s.consumers| && s.consumers[c].home == q;
      assert t.consumers[c].home == q;
    }
  }

  lemma SomeFailureConsumer(s: State)
    requires WellFormed(s) && AllServed(s)
    ensures FailureConsumers(s) > 0
  {
    assert Served(s, Failure(s));
    var c: nat :| c < |s.consumers| && s.consumers[c].home == Failure(s);
    TotalAtLeast(s.consumers, c, HomeAt(Failure(s)));
  }

  /** A run that rests with a message unfinished rests in the second way and has accepted enough retries. */
  lemma DeadlockNeedsRetries(s0: State, acts: seq<Action>, t: State)
    requires Init(s0) && AllServed(s0) && Run(s0, acts, t) && Stuck(t) && Unfinished(t)
    ensures EnoughRetries(s0, t.accepted)
    ensures WellFormed(t) && SameSystem(s0, t) && Full(t, Failure(t))
    ensures forall c: nat :: c < |t.consumers| && t.consumers[c].home == Failure(t) ==> t.consumers[c].job.Appending?
  {
    hide Run, Weight, RetriedOrCan, CanRetry, Served, Unfinished;
    var f := Failure(s0);
    InitWeight(s0, RetriedOrCan(f, 1));
    InitWeight(s0, RetriedOrCan(f, 2));
    RunRetries(s0, acts, t, 1);
    RunRetries(s0, acts, t, 2);
    SameServed(s0, t);
    RestExactly(t);
    RestRetries(s0, t);
    SomeFailureConsumer(s0);
  }

  /** The failure queue is full, its consumers are blocked, and everything else is empty and free. */
  lemma BlockedState(s0: State, u: State)
    requires Init(s0) && SameSystem(s0, u) && Full(u, Failure(u))
    requires forall q :: 0 <= q < Failure(u) ==> u.queues[q] == []
    requires forall c :: 0 <= c < |u.consumers| ==>
               if u.consumers[c].home == Failure(u) then u.consumers[c].job.Appending? else u.consumers[c].job.Free?
    ensures Stuck(u) && Unfinished(u)
  {
    StuckConsumers(u);
    assert u.queues[Failure(u)] != [];
  }

  lemma DeadlockReached(s0: State, ms: seq<Msg>)
    requires Init(s0) && AllServed(s0) && EnoughRetries(s0, ms)
    ensures CanDeadlock(s0, ms)
  {
    hide Total, CanRetry, Reaches, Run, Stuck, Unfinished;
    var f := Failure(s0);
    assert Served(s0, 0);
    var w: nat :| w < |s0.consumers| && s0.consumers[w].home == 0;
    var twice, once, others := Distribute(ms, FailureConsumers(s0), s0.capacities[f]);
    var u := DeadlockRun(s0, w, twice, once, others);
    BlockedState(s0, u);
    assert multiset(others + twice + once) == multiset(ms);
    ReachedByRun(s0, u);
    var acts :| Run(s0, acts, u);
  }

  lemma DeadlockRun(s0: State, w: nat, twice: seq<Msg>, once: seq<Msg>, others: seq<Msg>) returns (u: State)
    requires Init(s0) && Ready(s0, w)
    requires |twice| == FailureConsumers(s0) && |once| == s0.capacities[Failure(s0)]
    requires forall m :: m in twice ==> m.retries + 1 < RETRY_LIMIT
    requires forall m :: m in once ==> m.retries < RETRY_LIMIT
    ensures Reaches(s0, u) && SameSystem(s0, u) && Full(u, Failure(u)) && u.accepted == others + twice + once
    ensures forall q :: 0 <= q < Failure(u) ==> u.queues[q] == []
    ensures forall c :: 0 <= c < |u.consumers| ==>
              if u.consumers[c].home == Failure(u) then u.consumers[c].job.Appending? else u.consumers[c].job.Free?
  {
    assert Reaches(s0, s0) by { assert Run(s0, [], s0); }
    hide Reaches, Total;
    assert s0.consumers[..|s0.consumers|] == s0.consumers;
    u := PassAll(s0, s0, w, others);
    u := BlockAll(s0, u, w, |s0.consumers|, twice);
    u := AddAll(s0, u, w, once);
    assert [] + others == others;
  }

  lemma ReachedByRun(s: State, t: State)
    requires Reaches(s, t)
    ensures exists acts :: Run(s, acts, t)
  {
  }

  /**
   The failure queue and its consumers can block each other for good exactly if as many messages as the queue
   has consumers can be retried twice, and as many more as it has places can be retried once.
   */
  lemma DeadlockExactly(s0: State, ms: seq<Msg>)
    requires Init(s0) && AllServed(s0)
    ensures CanDeadlock(s0, ms) <==> EnoughRetries(s0, ms)
  {
    if CanDeadlock(s0, ms) {
      var acts, t :| Run(s0, acts, t) && multiset(t.accepted) == multiset(ms) && Stuck(t) && Unfinished(t);
      DeadlockNeedsRetries(s0, acts, t);
      TotalPermuted(t.accepted, ms, CanRetry(1));
      TotalPermuted(t.accepted, ms, CanRetry(2));
    }
    if EnoughRetries(s0, ms) {
      DeadlockReached(s0, ms);
    }
  }
}
