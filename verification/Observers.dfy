/**
 Observers that remove themselves from the subject's list while the subject is walking it by index.  The
 element after a removed one slides into its place and is skipped.
 */
module Observers {
  import opened Arithmetic

  // ---------- one round on a list without duplicates

  /** The observers left after a round; removes tells which ones remove themselves when notified. */
  function Remaining<O>(obs: seq<O>, removes: O -> bool): seq<O> {
    if obs == [] then []
    else if !removes(obs[0]) then [obs[0]] + Remaining(obs[1..], removes)
    else if |obs| == 1 then []
    else [obs[1]] + Remaining(obs[2..], removes)
  }

  /** The observers a round notifies, in order. */
  function Notified<O>(obs: seq<O>, removes: O -> bool): seq<O> {
    if obs == [] then []
    else if !removes(obs[0]) then [obs[0]] + Notified(obs[1..], removes)
    else [obs[0]] + if |obs| == 1 then [] else Notified(obs[2..], removes)
  }

  function Keepers<O>(obs: seq<O>, removes: O -> bool): seq<O> {
    if obs == [] then []
    else if removes(obs[0]) then Keepers(obs[1..], removes) else [obs[0]] + Keepers(obs[1..], removes)
  }

  function Removers<O>(obs: seq<O>, removes: O -> bool): nat {
    if obs == [] then 0 else (if removes(obs[0]) then 1 else 0) + Removers(obs[1..], removes)
  }

  lemma ConsRest<O>(x: O, xs: seq<O>)
    ensures ([x] + xs)[0] == x && ([x] + xs)[1..] == xs
  {
  }

  /** A round keeps the observers that stay, in order, and removes at least half of the others, rounded up. */
  lemma {:induction false} RoundKeepsAndHalves<O>(obs: seq<O>, removes: O -> bool)
    ensures Keepers(Remaining(obs, removes), removes) == Keepers(obs, removes)
    ensures Removers(Remaining(obs, removes), removes) <= Removers(obs, removes) / 2
  {
    if obs == [] {
    } else if !removes(obs[0]) {
      RoundKeepsAndHalves(obs[1..], removes);
      ConsRest(obs[0], Remaining(obs[1..], removes));
    } else if |obs| > 1 {
      RoundKeepsAndHalves(obs[2..], removes);
      ConsRest(obs[1], Remaining(obs[2..], removes));
      assert obs[1..][1..] == obs[2..] && obs[1..][0] == obs[1];
    }
  }

  function Rounds<O>(obs: seq<O>, removes: O -> bool, k: nat): seq<O> {
    if k == 0 then obs else Remaining(Rounds(obs, removes, k - 1), removes)
  }

  lemma {:induction false} RoundsHalve<O>(obs: seq<O>, removes: O -> bool, k: nat)
    ensures Keepers(Rounds(obs, removes, k), removes) == Keepers(obs, removes)
    ensures Pow2(k) * Removers(Rounds(obs, removes, k), removes) <= Removers(obs, removes)
  {
    if k > 0 {
      RoundsHalve(obs, removes, k - 1);
      RoundKeepsAndHalves(Rounds(obs, removes, k - 1), removes);
      Halved(Pow2(k - 1), Removers(Rounds(obs, removes, k), removes), Removers(Rounds(obs, removes, k - 1), removes));
    }
  }

  lemma Halved(p: nat, x: nat, y: nat)
    requires 2 * x <= y
    ensures 2 * p * x <= p * y
  {
    assert p * y == p * (2 * x) + p * (y - 2 * x);
  }

  lemma {:induction false} NoRemoversIsKeepers<O>(obs: seq<O>, removes: O -> bool)
    requires Removers(obs, removes) == 0
    ensures Keepers(obs, removes) == obs
  {
    if obs != [] {
      NoRemoversIsKeepers(obs[1..], removes);
    }
  }

  /** After enough rounds exactly the observers that stay are left, in their order. */
  lemma EnoughRounds<O>(obs: seq<O>, removes: O -> bool, k: nat)
    requires Pow2(k) > Removers(obs, removes)
    ensures Rounds(obs, removes, k) == Keepers(obs, removes)
  {
    RoundsHalve(obs, removes, k);
    MustBeZero(Pow2(k), Removers(Rounds(obs, removes, k), removes), Removers(obs, removes));
    NoRemoversIsKeepers(Rounds(obs, removes, k), removes);
  }

  lemma MustBeZero(p: nat, r: nat, bound: nat)
    requires p > bound && p * r <= bound
    ensures r == 0
  {
    if r > 0 {
      ScaleMonotone(1, r, p);
    }
  }

  /** xs are the elements of obs at ascending positions. */
  ghost predicate PicksInOrder<O>(xs: seq<O>, obs: seq<O>, at: seq<nat>) {
    && |at| == |xs|
    && (forall i :: 0 <= i < |at| ==> at[i] < |obs| && xs[i] == obs[at[i]])
    && (forall i, j :: 0 <= i < j < |at| ==> at[i] < at[j])
  }

  function Shift(at: seq<nat>, offset: nat): (r: seq<nat>)
    ensures |r| == |at| && forall i :: 0 <= i < |at| ==> r[i] == at[i] + offset
  {
    seq(|at|, i requires 0 <= i < |at| => at[i] + offset)
  }

  lemma PickFirst<O>(xs: seq<O>, obs: seq<O>, at: seq<nat>, skip: nat)
    requires 0 < skip <= |obs| && PicksInOrder(xs, obs[skip..], at)
    ensures PicksInOrder([obs[0]] + xs, obs, [0] + Shift(at, skip))
  {
    var all := [0] + Shift(at, skip);
    assert forall i :: 0 < i < |all| ==> all[i] == at[i - 1] + skip && obs[skip..][at[i - 1]] == obs[all[i]];
  }

  /** Every notified observer is one of the list, at most once, in list order. */
  lemma {:induction false} NotifiedIsSubsequence<O>(obs: seq<O>, removes: O -> bool) returns (at: seq<nat>)
    ensures PicksInOrder(Notified(obs, removes), obs, at)
  {
    if obs == [] {
      at := [];
    } else {
      hide Notified, PicksInOrder;
      var skip := if removes(obs[0]) && |obs| > 1 then 2 else 1;
      var rest := NotifiedIsSubsequence(obs[skip..], removes);
      NotifiedRest(obs, removes, skip);
      PickFirst(Notified(obs[skip..], removes), obs, rest, skip);
      at := [0] + Shift(rest, skip);
    }
  }

  lemma NotifiedRest<O>(obs: seq<O>, removes: O -> bool, skip: nat)
    requires obs != [] && skip == if removes(obs[0]) && |obs| > 1 then 2 else 1
    ensures Notified(obs, removes) == [obs[0]] + Notified(obs[skip..], removes)
  {
  }

  // ---------- the loop over the live list

  /** List.remove: the first occurrence, if any. */
  function RemoveFirst<O(==)>(obs: seq<O>, o: O): seq<O> {
    if obs == [] then []
    else if obs[0] == o then obs[1..] else [obs[0]] + RemoveFirst(obs[1..], o)
  }

  /** after is before without the first occurrence of o, or is before if there is none. */
  ghost predicate FirstRemoved<O>(before: seq<O>, o: O, after: seq<O>) {
    if o in before
    then exists i :: 0 <= i < |before| && before[i] == o && o !in before[..i] && after == before[..i] + before[i + 1..]
    else after == before
  }

  lemma {:induction false} RemoveFirstOccurrence<O>(obs: seq<O>, i: nat)
    requires i < |obs| && forall j :: 0 <= j < i ==> obs[j] != obs[i]
    ensures RemoveFirst(obs, obs[i]) == obs[..i] + obs[i + 1..]
  {
    if i > 0 {
      RemoveFirstOccurrence(obs[1..], i - 1);
    }
  }

  lemma {:induction false} RemoveAbsent<O>(obs: seq<O>, o: O)
    requires o !in obs
    ensures RemoveFirst(obs, o) == obs
  {
    if obs != [] {
      RemoveAbsent(obs[1..], o);
    }
  }

  lemma {:induction false} FirstOccurrence<O>(obs: seq<O>, o: O) returns (i: nat)
    requires o in obs
    ensures i < |obs| && obs[i] == o && forall j :: 0 <= j < i ==> obs[j] != o
  {
    i := 0;
    if obs[0] != o {
      i := FirstOccurrence(obs[1..], o);
      i := i + 1;
    }
  }

  lemma RemoveFirstExactly<O>(obs: seq<O>, o: O)
    ensures FirstRemoved(obs, o, RemoveFirst(obs, o))
  {
    hide RemoveFirst;
    if o in obs {
      var i := FirstOccurrence(obs, o);
      RemoveFirstOccurrence(obs, i);
      assert o !in obs[..i];
    } else {
      RemoveAbsent(obs, o);
    }
  }

  lemma {:induction false} RemoveFirstLength<O>(obs: seq<O>, o: O)
    requires o in obs
    ensures |RemoveFirst(obs, o)| == |obs| - 1
  {
    if obs[0] != o {
      RemoveFirstLength(obs[1..], o);
    }
  }

  class Observer {
    const selfRemoving: bool
    var temperature: real
    var humidity: real
    var pressure: real

    constructor (selfRemoving: bool)
      ensures this.selfRemoving == selfRemoving
    {
      this.selfRemoving := selfRemoving;
    }
  }

  class WeatherData {
    var observers: seq<Observer>
    var temperature: real
    var humidity: real
    var pressure: real

    constructor ()
      ensures observers == []
    {
      observers := [];
    }

    method RegisterObserver(o: Observer)
      modifies this`observers
      ensures observers == old(observers) + [o]
    {
      observers := observers + [o];
    }

    method RemoveObserver(o: Observer)
      modifies this`observers
      ensures FirstRemoved(old(observers), o, observers)
      ensures observers == RemoveFirst(old(observers), o)
    {
      RemoveFirstExactly(observers, o);
      observers := RemoveFirst(observers, o);
    }

    /** update of either kind of observer; OtherObserver stores the values and then removes itself. */
    method Update(o: Observer)
      modifies this`observers, o
      ensures observers == if o.selfRemoving then RemoveFirst(old(observers), o) else old(observers)
      ensures o.selfRemoving ==> o.temperature == temperature && o.humidity == humidity && o.pressure == pressure
      ensures !o.selfRemoving ==> unchanged(o)
    {
      if o.selfRemoving {
        o.temperature := temperature;
        o.humidity := humidity;
        o.pressure := pressure;
        RemoveObserver(o);
      }
    }

    /** The index loop; it ends for every list, since an index step comes with every removal. */
    method NotifyObserver() returns (ghost log: seq<Observer>)
      modifies this`observers, observers
      ensures observers == RoundFrom(old(observers), 0)
      ensures log == LogFrom(old(observers), 0)
      ensures forall o :: o in log && o.selfRemoving ==>
                o.temperature == temperature && o.humidity == humidity && o.pressure == pressure
      ensures forall o :: o in old(observers) && !(o in log && o.selfRemoving) ==> unchanged(o)
    {
      log := [];
      var i := 0;
      hide RemoveFirst, RoundFrom, LogFrom;
      while i < |observers|
        invariant RoundFrom(observers, i) == RoundFrom(old(observers), 0)
        invariant log + LogFrom(observers, i) == LogFrom(old(observers), 0)
        invariant forall o :: o in observers ==> o in old(observers)
        invariant forall o :: o in log && o.selfRemoving ==>
                    o.temperature == temperature && o.humidity == humidity && o.pressure == pressure
        invariant forall o :: o in old(observers) && !(o in log && o.selfRemoving) ==> unchanged(o)
        decreases |observers| - i
      {
        var o := observers[i];
        assert o in old(observers);
        RoundStep(observers, i);
        RemoveFirstMembers(observers, o);
        Regroup(log, o, LogFrom(AfterUpdate(observers, o), i + 1));
        Update(o);
        log := log + [o];
        i := i + 1;
      }
      RoundEnds(observers, i);
    }
  }

  lemma Regroup<O>(log: seq<O>, o: O, rest: seq<O>)
    ensures log + ([o] + rest) == log + [o] + rest
  {
  }

  lemma RoundStep(obs: seq<Observer>, i: nat)
    requires i < |obs|
    ensures |AfterUpdate(obs, obs[i])| <= |obs|
    ensures RoundFrom(obs, i) == RoundFrom(AfterUpdate(obs, obs[i]), i + 1)
    ensures LogFrom(obs, i) == [obs[i]] + LogFrom(AfterUpdate(obs, obs[i]), i + 1)
  {
    RemoveFirstLength(obs, obs[i]);
  }

  lemma RoundEnds(obs: seq<Observer>, i: nat)
    requires i >= |obs|
    ensures RoundFrom(obs, i) == obs && LogFrom(obs, i) == []
  {
  }

  lemma {:induction false} RemoveFirstMembers<O>(obs: seq<O>, o: O)
    ensures forall x :: x in RemoveFirst(obs, o) ==> x in obs
  {
    if obs != [] && obs[0] != o {
      RemoveFirstMembers(obs[1..], o);
    }
  }

  function AfterUpdate(obs: seq<Observer>, o: Observer): seq<Observer> {
    if o.selfRemoving then RemoveFirst(obs, o) else obs
  }

  /** The list at the end of a round that has come to index i. */
  function RoundFrom(obs: seq<Observer>, i: nat): seq<Observer>
    decreases |obs| - i
  {
    if i >= |obs| then obs
    else
      RemoveFirstLength(obs, obs[i]);
      RoundFrom(AfterUpdate(obs, obs[i]), i + 1)
  }

  /** The observers notified from index i on. */
  function LogFrom(obs: seq<Observer>, i: nat): seq<Observer>
    decreases |obs| - i
  {
    if i >= |obs| then []
    else
      RemoveFirstLength(obs, obs[i]);
      [obs[i]] + LogFrom(AfterUpdate(obs, obs[i]), i + 1)
  }

  ghost predicate Distinct(obs: seq<Observer>) {
    forall j, k :: 0 <= j < k < |obs| ==> obs[j] != obs[k]
  }

  const SELF_REMOVING := (o: Observer) => o.selfRemoving

  /** On distinct observers the live loop is the structural round. */
  lemma {:induction false} RoundIsStructural(obs: seq<Observer>, i: nat)
    requires Distinct(obs) && i <= |obs|
    ensures RoundFrom(obs, i) == obs[..i] + Remaining(obs[i..], SELF_REMOVING)
    ensures LogFrom(obs, i) == Notified(obs[i..], SELF_REMOVING)
    decreases |obs| - i
  {
    hide RemoveFirst, Remaining, Notified, RoundFrom, LogFrom;
    if i == |obs| {
      RoundEnds(obs, i);
      EmptyRound();
      assert obs[i..] == [] && obs[..i] == obs;
    } else {
      RoundStep(obs, i);
      var next := AfterUpdate(obs, obs[i]);
      if obs[i].selfRemoving {
        RemoveFirstOccurrence(obs, i);
        if i + 1 == |obs| {
          RoundEnds(next, i + 1);
        } else {
          RoundIsStructural(next, i + 1);
        }
      } else {
        RoundIsStructural(next, i + 1);
      }
      StructuralStep(obs, next, i);
    }
  }

  lemma EmptyRound()
    ensures Remaining<Observer>([], SELF_REMOVING) == [] && Notified<Observer>([], SELF_REMOVING) == []
  {
  }

  /** The structural round unfolded once, in terms of positions in the list. */
  lemma StructuralStep(obs: seq<Observer>, next: seq<Observer>, i: nat)
    requires i < |obs| && next == if obs[i].selfRemoving then obs[..i] + obs[i + 1..] else obs
    ensures obs[..i] + Remaining(obs[i..], SELF_REMOVING) ==
            if i + 1 <= |next| then next[..i + 1] + Remaining(next[i + 1..], SELF_REMOVING) else next
    ensures Notified(obs[i..], SELF_REMOVING) ==
            [obs[i]] + if i + 1 <= |next| then Notified(next[i + 1..], SELF_REMOVING) else []
  {
    var rest := obs[i..];
    assert rest[0] == obs[i];
    if !obs[i].selfRemoving {
      assert rest[1..] == obs[i + 1..] && obs[..i + 1] == obs[..i] + [obs[i]];
    } else if i + 1 < |obs| {
      assert rest[2..] == obs[i + 2..] == next[i + 1..] && next[..i + 1] == obs[..i] + [rest[1]];
    }
  }

  lemma {:induction false} RemainingMembers(obs: seq<Observer>, o: Observer)
    requires o in Remaining(obs, SELF_REMOVING)
    ensures o in obs
  {
    if !obs[0].selfRemoving {
      if o != obs[0] {
        RemainingMembers(obs[1..], o);
      }
    } else if |obs| > 1 && o != obs[1] {
      RemainingMembers(obs[2..], o);
    }
  }

  lemma {:induction false} RemainingDistinct(obs: seq<Observer>)
    requires Distinct(obs)
    ensures Distinct(Remaining(obs, SELF_REMOVING))
  {
    if obs != [] && (!obs[0].selfRemoving || |obs| > 1) {
      var skip := if obs[0].selfRemoving then 2 else 1;
      var rest := Remaining(obs[skip..], SELF_REMOVING);
      RemainingDistinct(obs[skip..]);
      forall j | 0 <= j < |rest|
        ensures rest[j] != obs[skip - 1]
      {
        RemainingMembers(obs[skip..], rest[j]);
      }
      assert Remaining(obs, SELF_REMOVING) == [obs[skip - 1]] + rest;
    }
  }

  /** k rounds of the live loop, one after the other. */
  function LiveRounds(obs: seq<Observer>, k: nat): seq<Observer> {
    if k == 0 then obs else RoundFrom(LiveRounds(obs, k - 1), 0)
  }

  lemma {:induction false} LiveRoundsAreStructural(obs: seq<Observer>, k: nat)
    requires Distinct(obs)
    ensures LiveRounds(obs, k) == Rounds(obs, SELF_REMOVING, k) && Distinct(LiveRounds(obs, k))
  {
    hide RoundFrom, Remaining;
    if k > 0 {
      LiveRoundsAreStructural(obs, k - 1);
      var before := LiveRounds(obs, k - 1);
      RoundIsStructural(before, 0);
      RemainingDistinct(before);
      assert before[..0] == [] && before[0..] == before;
    }
  }

  /** Notifying often enough removes all self-removing observers and leaves the others in order. */
  lemma NotifyingEmptiesOut(obs: seq<Observer>, k: nat)
    requires Distinct(obs) && Pow2(k) > Removers(obs, SELF_REMOVING)
    ensures LiveRounds(obs, k) == Keepers(obs, SELF_REMOVING)
  {
    LiveRoundsAreStructural(obs, k);
    EnoughRounds(obs, SELF_REMOVING, k);
  }
}
