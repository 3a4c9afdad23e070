/**
 The three-stage pipeline: Plus, Multiply and Div each take a message from their queue, overwrite one of its
 fields and hand it on.  Taking, computing and handing on are separate steps of three threads.
 */
module Pipeline {

  // ---------- the stage bodies, in place

  class Msg {
    var i: real
    var j: real

    constructor (i: real, j: real)
      ensures this.i == i && this.j == j
    {
      this.i, this.j := i, j;
    }

    function Value(): Message
      reads this
    {
      Message(i, j)
    }
  }

  /** Overwrites j with the sum; the number the message will finally print stays what it was. */
  method PlusBody(msg: Msg)
    modifies msg
    ensures FinishedAfter(Plus, msg.Value()) == Finished(Plus, old(msg.Value()))
    ensures msg.Value() == Compute(Plus, old(msg.Value()))
  {
    msg.j := msg.i + msg.j;
  }

  /** Overwrites i with the product; what is left to do is to halve it. */
  method MultiplyBody(msg: Msg)
    modifies msg
    ensures FinishedAfter(Multiply, msg.Value()) == Finished(Multiply, old(msg.Value()))
    ensures msg.Value() == Compute(Multiply, old(msg.Value()))
  {
    msg.i := msg.i * msg.j;
  }

  /** Halves i, which now is the number to print. */
  method DivBody(msg: Msg)
    modifies msg
    ensures FinishedAfter(Div, msg.Value()) == Finished(Div, old(msg.Value()))
    ensures msg.Value() == Compute(Div, old(msg.Value()))
  {
    msg.i := msg.i / 2.0;
  }

  /** One message object handed through all three stages ends up holding its formula. */
  method PassStages(msg: Msg)
    modifies msg
    ensures msg.i == old(msg.i * (msg.i + msg.j) / 2.0)
  {
    hide Compute;
    PlusBody(msg);
    MultiplyBody(msg);
    DivBody(msg);
  }

  // ---------- the step system

  datatype Message = Message(i: real, j: real)

  datatype Stage = Plus | Multiply | Div

  function Compute(stage: Stage, m: Message): Message {
    match stage
    case Plus => m.(j := m.i + m.j)
    case Multiply => m.(i := m.i * m.j)
    case Div => m.(i := m.i / 2.0)
  }

  datatype Hand = Empty | Taken(m: Message) | Ready(m: Message)

  /** One thread with the queue it takes from. */
  datatype Worker = Worker(queue: seq<Message>, hand: Hand)

  /** inputs is history; outputs is what Div prints. */
  datatype State = State(
    inputs: seq<Message>, plus: Worker, multiply: Worker, div: Worker, outputs: seq<real>)

  datatype Action = Submit(m: Message) | Take(stage: Stage) | Overwrite(stage: Stage) | HandOn(stage: Stage)

  function At(s: State, stage: Stage): Worker {
    match stage case Plus => s.plus case Multiply => s.multiply case Div => s.div
  }

  function With(s: State, stage: Stage, w: Worker): State {
    match stage case Plus => s.(plus := w) case Multiply => s.(multiply := w) case Div => s.(div := w)
  }

  predicate Enabled(s: State, a: Action) {
    match a
    case Submit(_) => true
    case Take(stage) => At(s, stage).hand.Empty? && At(s, stage).queue != []
    case Overwrite(stage) => At(s, stage).hand.Taken?
    case HandOn(stage) => At(s, stage).hand.Ready?
  }

  function Next(s: State, a: Action): State
    requires Enabled(s, a)
  {
    match a
    case Submit(m) => s.(inputs := s.inputs + [m], plus := s.plus.(queue := s.plus.queue + [m]))
    case Take(stage) =>
      var w := At(s, stage);
      With(s, stage, Worker(w.queue[1..], Taken(w.queue[0])))
    case Overwrite(stage) =>
      var w := At(s, stage);
      With(s, stage, w.(hand := Ready(Compute(stage, w.hand.m))))
    case HandOn(Plus) =>
      s.(plus := s.plus.(hand := Empty), multiply := s.multiply.(queue := s.multiply.queue + [s.plus.hand.m]))
    case HandOn(Multiply) =>
      s.(multiply := s.multiply.(hand := Empty), div := s.div.(queue := s.div.queue + [s.multiply.hand.m]))
    case HandOn(Div) =>
      s.(div := s.div.(hand := Empty), outputs := s.outputs + [s.div.hand.m.i])
  }

  ghost predicate Run(s: State, acts: seq<Action>, t: State)
    decreases |acts|
  {
    if acts == [] then s == t else Enabled(s, acts[0]) && Run(Next(s, acts[0]), acts[1..], t)
  }

  const INITIAL := State([], Worker([], Empty), Worker([], Empty), Worker([], Empty), [])

  // ---------- what a message will become

  /** The number printed for a message that still has to pass the given stage and all later ones. */
  function Finished(stage: Stage, m: Message): real {
    match stage
    case Plus => m.i * (m.i + m.j) / 2.0
    case Multiply => m.i * m.j / 2.0
    case Div => m.i / 2.0
  }

  /** ... or has just passed it. */
  function FinishedAfter(stage: Stage, m: Message): real {
    match stage
    case Plus => Finished(Multiply, m)
    case Multiply => Finished(Div, m)
    case Div => m.i
  }

  lemma ComputeAdvances(stage: Stage, m: Message)
    ensures FinishedAfter(stage, Compute(stage, m)) == Finished(stage, m)
  {
  }

  function All(stage: Stage, ms: seq<Message>): (r: seq<real>)
    ensures |r| == |ms|
  {
    seq(|ms|, k requires 0 <= k < |ms| => Finished(stage, ms[k]))
  }

  function InHand(stage: Stage, h: Hand): seq<real> {
    match h
    case Empty => []
    case Taken(m) => [Finished(stage, m)]
    case Ready(m) => [FinishedAfter(stage, m)]
  }

  /** The outputs to come from one thread and its queue, in order. */
  function Pending(stage: Stage, w: Worker): seq<real> {
    InHand(stage, w.hand) + All(stage, w.queue)
  }

  /** Everything printed or still to be printed, in order. */
  function Stream(s: State): seq<real> {
    s.outputs + Pending(Div, s.div) + Pending(Multiply, s.multiply) + Pending(Plus, s.plus)
  }

  lemma AllSnoc(stage: Stage, ms: seq<Message>, m: Message)
    ensures All(stage, ms + [m]) == All(stage, ms) + [Finished(stage, m)]
  {
  }

  lemma TakeKeepsPending(stage: Stage, w: Worker)
    requires w.hand.Empty? && w.queue != []
    ensures Pending(stage, Worker(w.queue[1..], Taken(w.queue[0]))) == Pending(stage, w)
  {
  }

  lemma HandOnKeepsPending(stage: Stage, next: Stage, w: Worker, v: Worker)
    requires w.hand.Ready? && FinishedAfter(stage, w.hand.m) == Finished(next, w.hand.m)
    ensures Pending(next, v.(queue := v.queue + [w.hand.m])) + Pending(stage, w.(hand := Empty)) ==
            Pending(next, v) + Pending(stage, w)
  {
    AllSnoc(next, v.queue, w.hand.m);
  }

  /** No step of a thread changes the stream; a submission appends to it. */
  lemma StepStream(s: State, a: Action)
    requires Enabled(s, a)
    ensures Stream(Next(s, a)) == Stream(s) + if a.Submit? then [Finished(Plus, a.m)] else []
  {
    hide Pending;
    match a
    case Submit(m) => SubmitAppends(s.plus, m);
    case Take(stage) => TakeKeepsPending(stage, At(s, stage));
    case Overwrite(stage) => OverwriteKeepsPending(stage, At(s, stage));
    case HandOn(Plus) =>
      HandOnKeepsPending(Plus, Multiply, s.plus, s.multiply);
      var u := Next(s, a);
      assert Stream(s) == s.outputs + Pending(Div, s.div) + (Pending(Multiply, s.multiply) + Pending(Plus, s.plus));
      assert Stream(u) == s.outputs + Pending(Div, s.div) + (Pending(Multiply, u.multiply) + Pending(Plus, u.plus));
    case HandOn(Multiply) =>
      HandOnKeepsPending(Multiply, Div, s.multiply, s.div);
      var u := Next(s, a);
      assert Stream(s) == s.outputs + (Pending(Div, s.div) + Pending(Multiply, s.multiply)) + Pending(Plus, s.plus);
      assert Stream(u) == s.outputs + (Pending(Div, u.div) + Pending(Multiply, u.multiply)) + Pending(Plus, s.plus);
    case HandOn(Div) => PrintMoves(s.outputs, s.div);
  }

  lemma SubmitAppends(w: Worker, m: Message)
    ensures Pending(Plus, w.(queue := w.queue + [m])) == Pending(Plus, w) + [Finished(Plus, m)]
  {
    AllSnoc(Plus, w.queue, m);
  }

  lemma OverwriteKeepsPending(stage: Stage, w: Worker)
    requires w.hand.Taken?
    ensures Pending(stage, w.(hand := Ready(Compute(stage, w.hand.m)))) == Pending(stage, w)
  {
    ComputeAdvances(stage, w.hand.m);
  }

  lemma PrintMoves(outputs: seq<real>, w: Worker)
    requires w.hand.Ready?
    ensures outputs + [w.hand.m.i] + Pending(Div, w.(hand := Empty)) == outputs + Pending(Div, w)
  {
  }

  lemma {:induction false} RunStream(s: State, acts: seq<Action>, t: State)
    requires Run(s, acts, t) && Stream(s) == All(Plus, s.inputs)
    ensures Stream(t) == All(Plus, t.inputs)
    decreases |acts|
  {
    hide Stream, Pending;
    if acts != [] {
      StepStream(s, acts[0]);
      if acts[0].Submit? {
        AllSnoc(Plus, s.inputs, acts[0].m);
      }
      RunStream(Next(s, acts[0]), acts[1..], t);
    }
  }

  /**
   Under every interleaving the printed numbers are those of the first messages, in submission order, each
   i * (i + j) / 2 of the values it was submitted with; none is lost, repeated or overtaken.
   */
  lemma OutputsInOrder(acts: seq<Action>, t: State)
    requires Run(INITIAL, acts, t)
    ensures t.outputs <= All(Plus, t.inputs)
    ensures |t.inputs| ==
            |t.outputs| + |Pending(Div, t.div)| + |Pending(Multiply, t.multiply)| + |Pending(Plus, t.plus)|
  {
    hide Run;
    RunStream(INITIAL, acts, t);
  }

  /** When no thread can take a step every submitted message has been printed. */
  lemma QuietMeansDone(acts: seq<Action>, t: State)
    requires Run(INITIAL, acts, t)
    requires forall a: Action :: Enabled(t, a) ==> a.Submit?
    ensures t.outputs == All(Plus, t.inputs)
  {
    hide Run;
    RunStream(INITIAL, acts, t);
    forall stage: Stage
      ensures Pending(stage, At(t, stage)) == []
    {
      assert !Enabled(t, Take(stage)) && !Enabled(t, Overwrite(stage)) && !Enabled(t, HandOn(stage));
    }
    assert Pending(Div, At(t, Div)) == Pending(Multiply, At(t, Multiply)) == Pending(Plus, At(t, Plus)) == [];
  }

  // ---------- bounded work

  /** Thread steps still to come for a message at the front of a stage's queue. */
  function StepsFrom(stage: Stage): nat {
    match stage case Plus => 9 case Multiply => 6 case Div => 3
  }

  function HandSteps(stage: Stage, h: Hand): nat {
    match h
    case Empty => 0
    case Taken(_) => StepsFrom(stage) - 1
    case Ready(_) => StepsFrom(stage) - 2
  }

  function WorkerSteps(stage: Stage, w: Worker): nat {
    HandSteps(stage, w.hand) + StepsFrom(stage) * |w.queue|
  }

  function StepsLeft(s: State): nat {
    WorkerSteps(Plus, s.plus) + WorkerSteps(Multiply, s.multiply) + WorkerSteps(Div, s.div)
  }

  function ThreadSteps(acts: seq<Action>): nat {
    if acts == [] then 0 else (if acts[0].Submit? then 0 else 1) + ThreadSteps(acts[1..])
  }

  /** Every thread step brings the pipeline one step closer to its end, a submission adds nine. */
  lemma StepCounts(s: State, a: Action)
    requires Enabled(s, a)
    ensures StepsLeft(Next(s, a)) == if a.Submit? then StepsLeft(s) + 9 else StepsLeft(s) - 1
    ensures Next(s, a).inputs == if a.Submit? then s.inputs + [a.m] else s.inputs
  {
    hide Compute;
  }

  lemma {:induction false} RunCounts(s: State, acts: seq<Action>, t: State)
    requires Run(s, acts, t)
    ensures ThreadSteps(acts) + StepsLeft(t) + 9 * |s.inputs| == StepsLeft(s) + 9 * |t.inputs|
    decreases |acts|
  {
    hide StepsLeft, Next, Enabled;
    if acts != [] {
      StepCounts(s, acts[0]);
      RunCounts(Next(s, acts[0]), acts[1..], t);
    }
  }

  /** The threads take exactly nine steps for each message: those taken and those left. */
  lemma NineSteps(acts: seq<Action>, t: State)
    requires Run(INITIAL, acts, t)
    ensures ThreadSteps(acts) + StepsLeft(t) == 9 * |t.inputs|
  {
    hide Run;
    RunCounts(INITIAL, acts, t);
  }

  /** What the first stage with work does next. */
  function NextThreadStep(s: State): Action {
    var stage := if WorkerSteps(Plus, s.plus) > 0 then Plus
                 else if WorkerSteps(Multiply, s.multiply) > 0 then Multiply else Div;
    match At(s, stage).hand
    case Empty => Take(stage)
    case Taken(_) => Overwrite(stage)
    case Ready(_) => HandOn(stage)
  }

  /** While a step is left some thread can take one. */
  lemma SomeStep(s: State)
    requires StepsLeft(s) > 0
    ensures Enabled(s, NextThreadStep(s)) && !NextThreadStep(s).Submit?
  {
  }

  /** The threads alone get from s to t, where nothing is left, in as many steps as are left. */
  ghost predicate Drains(s: State, acts: seq<Action>, t: State) {
    && Run(s, acts, t) && StepsLeft(t) == 0 && t.inputs == s.inputs
    && ThreadSteps(acts) == |acts| == StepsLeft(s)
  }

  lemma {:induction false} Drain(s: State)
    ensures exists acts, t :: Drains(s, acts, t)
    decreases StepsLeft(s)
  {
    hide StepsLeft, Next, Enabled, NextThreadStep;
    if StepsLeft(s) == 0 {
      assert Drains(s, [], s);
    } else {
      var a := NextThreadStep(s);
      SomeStep(s);
      StepCounts(s, a);
      Drain(Next(s, a));
      var rest, t :| Drains(Next(s, a), rest, t);
      assert ([a] + rest)[1..] == rest;
      assert Drains(s, [a] + rest, t);
    }
  }

  lemma NothingLeft(s: State)
    requires StepsLeft(s) == 0
    ensures Stream(s) == s.outputs
  {
  }

  /** The threads alone can go on until everything submitted is printed, in as many steps as are left. */
  ghost predicate CanPrintAll(t: State) {
    exists more, u :: Run(t, more, u) && ThreadSteps(more) == |more| == StepsLeft(t) &&
                      u.inputs == t.inputs && u.outputs == All(Plus, t.inputs)
  }

  /** No message is ever stuck: from every reachable state the threads alone can print all that was submitted. */
  lemma AllGetsPrinted(acts: seq<Action>, t: State)
    requires Run(INITIAL, acts, t)
    ensures CanPrintAll(t)
  {
    hide Run;
    RunStream(INITIAL, acts, t);
    Drain(t);
    var more, u :| Drains(t, more, u);
    RunStream(t, more, u);
    NothingLeft(u);
  }

  /** Nothing left is the same as everything printed. */
  lemma PrintedExactly(acts: seq<Action>, t: State)
    requires Run(INITIAL, acts, t)
    ensures t.outputs == All(Plus, t.inputs) <==> ThreadSteps(acts) == 9 * |t.inputs|
  {
    hide Run;
    NineSteps(acts, t);
    OutputsInOrder(acts, t);
    RunStream(INITIAL, acts, t);
    if StepsLeft(t) == 0 {
      NothingLeft(t);
    }
  }
}
