/**
 The queue pool as an object: round-robin choice of a queue with one fallback, the failure queue, and one
 round of a consumer.  Calls are taken one after the other, so the test for fullness and the put that
 follows it are not separated; MessageSystem separates them.
 */
module SyncPool {
  import opened Arithmetic
  import MessageSystem
  import opened RingBuffer
  import opened Wrappers

  const INT_MAX := 0x7fff_ffff

  /** Two's complement 32-bit wrap-around. */
  function Wrap32(x: int): int {
    (x + 0x8000_0000) % 0x1_0000_0000 - 0x8000_0000
  }

  /** The remainder operator of Java: the result has the sign of the dividend. */
  function JavaRem(x: int, n: int): int
    requires n > 0
  {
    if x >= 0 then x % n else -((-x) % n)
  }

  /** The counter after one call of getQueue: reset at the largest int, then incremented. */
  function Bump(counter: int): int {
    if counter >= INT_MAX then 2 else counter + 1
  }

  /** The index computed from an incremented counter and n queues. */
  function RawIndex(counter: int, n: int): int
    requires n > 0
  {
    JavaRem(Wrap32(counter + n), n)
  }

  datatype Choice =
    | Queue(index: nat)
    | PoolFull                               // PoolFullException
    | IndexOutOfBounds                       // a negative index
    | DivisionByZero                         // a pool without queues

  function NextIndex(index: nat, n: nat): nat {
    if index + 1 < n then index + 1 else 0
  }

  /** The queue getQueue settles on, given the incremented counter, n queues and which of them are full. */
  function Choose(counter: int, n: nat, full: set<nat>): Choice {
    if n == 0 then DivisionByZero
    else
      var index := RawIndex(counter, n);
      if index < 0 || index >= n then IndexOutOfBounds
      else if index !in full then Queue(index)
      else if n == 1 || NextIndex(index, n) in full then PoolFull
      else Queue(NextIndex(index, n))
  }

  // ---------- the index arithmetic

  /** Without overflow the index is the counter modulo the number of queues. */
  lemma IndexIsModulo(counter: int, n: int)
    requires 0 < counter <= INT_MAX && 0 < n <= INT_MAX - counter
    ensures RawIndex(counter, n) == counter % n
  {
    ModShift(counter, n);
  }

  lemma ModShift(x: nat, n: nat)
    requires n > 0
    ensures (x + n) % n == x % n
  {
    var q, r := x / n, x % n;
    assert x == q * n + r;
    ModUnique(x + n, n, q + 1, r);
  }

  lemma ModUnique(x: nat, n: nat, q: nat, r: nat)
    requires x == q * n + r && r < n
    ensures x % n == r
  {
    var q', r' := x / n, x % n;
    assert q' * n + r' == q * n + r;
    if q' < q {
      NextMultiple(q', q, n);
    } else if q < q' {
      NextMultiple(q, q', n);
    }
  }

  /** The index lies in the pool exactly when the addition does not overflow or wraps onto a multiple of n. */
  lemma IndexInPool(counter: int, n: int)
    requires 0 < counter <= INT_MAX && 0 < n <= INT_MAX
    ensures 0 <= RawIndex(counter, n) < n <==> counter + n <= INT_MAX || (0x1_0000_0000 - counter - n) % n == 0
  {
    if counter + n <= INT_MAX {
      IndexIsModulo(counter, n);
    } else {
      assert Wrap32(counter + n) == counter + n - 0x1_0000_0000;
    }
  }

  /** A concrete overflow: the largest counter value and a pool of five queues. */
  lemma OverflowExample()
    ensures RawIndex(INT_MAX, 5) == -4
    ensures forall full: set<nat> :: Choose(INT_MAX, 5, full) == IndexOutOfBounds
  {
  }

  /** The counter after k calls of getQueue. */
  function BumpTimes(counter: int, k: nat): int {
    if k == 0 then counter else Bump(BumpTimes(counter, k - 1))
  }

  lemma {:induction false} BumpsWithoutReset(counter: int, k: nat)
    requires counter + k <= INT_MAX
    ensures BumpTimes(counter, k) == counter + k
  {
    if k > 0 {
      BumpsWithoutReset(counter, k - 1);
    }
  }

  /** What the call after j others chooses while no queue is full. */
  function ChoiceAfter(counter: nat, j: nat, n: nat): Choice {
    Choose(BumpTimes(counter, j + 1), n, {})
  }

  lemma ChoiceAfterFormula(counter: nat, j: nat, n: nat)
    requires 0 < counter && j < n && counter + n + n <= INT_MAX
    ensures var r := (counter + 1) % n;
            ChoiceAfter(counter, j, n) == Queue(if r + j < n then r + j else r + j - n)
  {
    hide RawIndex, BumpTimes;
    BumpsWithoutReset(counter, j + 1);
    IndexIsModulo(counter + 1 + j, n);
    ModAdd(counter + 1, j, n);
  }

  /** As many consecutive calls as there are queues, none of them full, choose every queue exactly once. */
  lemma RoundCovers(counter: nat, n: nat, q: nat) returns (k: nat)
    requires 0 < counter && counter + n + n <= INT_MAX && q < n
    ensures k < n && ChoiceAfter(counter, k, n) == Queue(q)
    ensures forall j: nat :: j < n && ChoiceAfter(counter, j, n) == Queue(q) ==> j == k
  {
    hide ChoiceAfter;
    var r := (counter + 1) % n;
    k := if q >= r then q - r else q - r + n;
    forall j: nat | j < n
      ensures ChoiceAfter(counter, j, n) == Queue(if r + j < n then r + j else r + j - n)
    {
      ChoiceAfterFormula(counter, j, n);
    }
  }

  lemma ModAdd(x: nat, j: nat, n: nat)
    requires n > 0 && j < n
    ensures (x + j) % n == if x % n + j < n then x % n + j else x % n + j - n
  {
    var q, r := x / n, x % n;
    assert x == q * n + r;
    if r + j < n {
      ModUnique(x + j, n, q, r + j);
    } else {
      assert x + j == (q + 1) * n + (r + j - n);
      ModUnique(x + j, n, q + 1, r + j - n);
    }
  }

  /** The choice tries the queue at the counter modulo n, on fullness the cyclically next one, and no other. */
  lemma ChooseExactly(counter: nat, n: nat, full: set<nat>)
    requires 0 < counter && n > 0 && counter + n <= INT_MAX
    ensures var i := counter % n;
            var next := (i + 1) % n;
            Choose(counter, n, full) ==
            if i !in full then Queue(i) else if next !in full then Queue(next) else PoolFull
  {
    hide RawIndex;
    IndexIsModulo(counter, n);
    SuccessorModulo(counter % n, n);
  }

  lemma SuccessorModulo(i: nat, n: nat)
    requires i < n
    ensures (i + 1) % n == NextIndex(i, n)
  {
  }

  /** The full pool queues of the message system. */
  ghost function FullQueues(s: MessageSystem.State): set<nat>
    requires MessageSystem.WellFormed(s)
  {
    set q: nat | q < |s.queues| && MessageSystem.Full(s, q)
  }

  /** A counter value, without overflow, that makes getQueue choose q of n queues. */
  ghost predicate Chooses(counter: nat, n: nat, full: set<nat>, q: nat) {
    0 < counter && counter + n <= INT_MAX && Choose(counter, n, full) == Queue(q)
  }

  lemma ChooseWithRoom(n: nat, full: set<nat>, q: nat)
    requires q < n && n + n <= INT_MAX && q !in full
    ensures Chooses(if q > 0 then q else n, n, full, q)
  {
    hide Choose;
    var counter := if q > 0 then q else n;
    assert counter % n == q;
    ChooseExactly(counter, n, full);
  }

  lemma ChosenHasRoom(counter: nat, n: nat, full: set<nat>, q: nat)
    requires Chooses(counter, n, full, q)
    ensures q < n && q !in full
  {
    if n > 0 {
      ChooseExactly(counter, n, full);
    }
  }

  /** The message system allows exactly those pushes that some counter value makes getQueue choose. */
  lemma PushesAreChoices(s: MessageSystem.State, q: nat, m: MessageSystem.Msg)
    requires MessageSystem.WellFormed(s) && |s.queues| + |s.queues| <= INT_MAX
    ensures MessageSystem.Enabled(s, MessageSystem.Push(q, m)) <==>
            exists counter: nat :: Chooses(counter, MessageSystem.Failure(s), FullQueues(s), q)
  {
    hide Chooses;
    var n, full := MessageSystem.Failure(s), FullQueues(s);
    if MessageSystem.Enabled(s, MessageSystem.Push(q, m)) {
      ChooseWithRoom(n, full, q);
    }
    if counter: nat :| Chooses(counter, n, full, q) {
      ChosenHasRoom(counter, n, full, q);
    }
  }

  // ---------- the pool object

  class Dto {
    var retryCount: int

    constructor (retryCount: int)
      ensures this.retryCount == retryCount
    {
      this.retryCount := retryCount;
    }

    method AddRetryCount()
      modifies this
      ensures retryCount == old(retryCount) + 1
    {
      retryCount := retryCount + 1;
    }
  }

  type DtoQueue = BlockingQueue<Dto>

  datatype PushResult = Ignored | Stored(index: nat) | Failed(reason: Choice)

  class Pool {
    var queues: seq<DtoQueue>
    var failureQueue: DtoQueue
    var roundRobin: int

    ghost function Objects(): set<object>
      reads this
    {
      (set k | 0 <= k < |queues| :: queues[k] as object) +
      (set k | 0 <= k < |queues| :: queues[k].elements as object)
    }

    ghost predicate Separate()
      reads this
    {
      && (forall j, k :: 0 <= j < k < |queues| ==> queues[j] != queues[k] && queues[j].elements != queues[k].elements)
      && (forall k :: 0 <= k < |queues| ==> queues[k] != failureQueue && queues[k].elements != failureQueue.elements)
    }

    ghost predicate Valid()
      reads this, Objects(), failureQueue, failureQueue.elements
    {
      && Separate()
      && (forall k :: 0 <= k < |queues| ==> queues[k].Valid())
      && failureQueue.Valid()
      && 0 < roundRobin <= INT_MAX
    }

    /** The indices of the full queues. */
    ghost function FullSet(): set<nat>
      reads this, Objects(), failureQueue, failureQueue.elements
      requires Valid()
    {
      set k: nat | k < |queues| && |queues[k].Contents()| == queues[k].elements.Length
    }

    /** What each pool queue holds. */
    ghost function Held(): (r: seq<seq<Option<Dto>>>)
      reads this, Objects(), failureQueue, failureQueue.elements
      requires Valid()
      ensures |r| == |queues| && forall k :: 0 <= k < |queues| ==> r[k] == queues[k].Contents()
    {
      seq(|queues|, k
          requires 0 <= k < |queues| && Valid()
          reads this, Objects(), failureQueue, failureQueue.elements =>
            queues[k].Contents())
    }

    /** The capacity of each pool queue. */
    ghost function Sizes(): (r: seq<nat>)
      reads this
      ensures |r| == |queues| && forall k :: 0 <= k < |queues| ==> r[k] == queues[k].elements.Length
    {
      seq(|queues|, k requires 0 <= k < |queues| reads this => queues[k].elements.Length)
    }

    /** The configuration step: empty queues of the given sizes, counter at 1. */
    constructor (queueCount: nat, queueSize: nat, failureQueueSize: nat)
      requires (queueCount == 0 || queueSize > 0) && failureQueueSize > 0
      ensures Valid() && |queues| == queueCount && roundRobin == 1
      ensures forall k :: 0 <= k < queueCount ==> Sizes()[k] == queueSize && Held()[k] == []
      ensures failureQueue.elements.Length == failureQueueSize && failureQueue.Contents() == []
    {
      queues := [];
      roundRobin := 1;
      failureQueue := new BlockingQueue<Dto>(failureQueueSize);
      new;
      assert Valid();
      hide *;
      var i := 0;
      while i < queueCount
        invariant |queues| == i <= queueCount && Valid() && roundRobin == 1 && fresh(failureQueue)
        invariant forall k :: 0 <= k < i ==> Sizes()[k] == queueSize
        invariant forall k :: 0 <= k < i ==> Held()[k] == []
        invariant failureQueue.elements.Length == failureQueueSize && failureQueue.Contents() == []
      {
        AddQueue(queueSize);
        i := i + 1;
      }
    }

    /** The configuration step with its error: a queue to be created with a size below 1 throws. */
    static method Create(queueCount: int, queueSize: int, failureQueueSize: int) returns (pool: Pool?)
      ensures pool == null <==> (queueCount > 0 && queueSize <= 0) || failureQueueSize <= 0
      ensures pool != null ==>
                && fresh(pool) && pool.Valid() && pool.roundRobin == 1
                && |pool.queues| == (if queueCount <= 0 then 0 else queueCount)
                && (forall k :: 0 <= k < |pool.queues| ==> pool.Sizes()[k] == queueSize && pool.Held()[k] == [])
                && pool.failureQueue.elements.Length == failureQueueSize && pool.failureQueue.Contents() == []
    {
      if (queueCount > 0 && queueSize <= 0) || failureQueueSize <= 0 {
        return null;
      }
      var count := if queueCount <= 0 then 0 else queueCount;
      pool := new Pool(count, if count == 0 then 1 else queueSize, failureQueueSize);
    }

    method AddQueue(size: nat)
      requires Valid() && size > 0
      modifies this`queues
      ensures Valid() && |queues| == |old(queues)| + 1 && queues[..|old(queues)|] == old(queues)
      ensures Sizes() == old(Sizes()) + [size] && Held() == old(Held()) + [[]]
    {
      hide BlockingQueue.Valid, BlockingQueue.Contents;
      var q := new BlockingQueue<Dto>(size);
      queues := queues + [q];
    }

    method GetQueue() returns (choice: Choice)
      requires Valid()
      modifies this`roundRobin
      ensures Valid() && roundRobin == Bump(old(roundRobin))
      ensures roundRobin == if old(roundRobin) == 2_147_483_647 then 2 else old(roundRobin) + 1
      ensures choice == Choose(roundRobin, |queues|, FullSet())
      ensures choice.Queue? ==> choice.index < |queues| && choice.index !in FullSet()
      ensures FullSet() == old(FullSet())
    {
      hide RawIndex, BlockingQueue.Valid, BlockingQueue.Contents;
      if roundRobin >= INT_MAX {
        roundRobin := 1;
      }
      var queueCount := |queues|;
      roundRobin := roundRobin + 1;
      if queueCount == 0 {
        return DivisionByZero;
      }
      var index := RawIndex(roundRobin, queueCount);
      if index < 0 || index >= queueCount {
        return IndexOutOfBounds;
      }
      var full := queues[index].IsFull();
      if full {
        if queueCount > 1 {
          index := if index + 1 < queueCount then index + 1 else 0;
          full := queues[index].IsFull();
          if full {
            return PoolFull;
          }
        } else {
          return PoolFull;
        }
      }
      choice := Queue(index);
    }

    /** Stores the message in one queue, or fails and changes no queue; null is ignored. */
    method Push(message: Option<Dto>) returns (result: PushResult)
      requires Valid()
      modifies this`roundRobin, Objects()
      ensures Valid() && failureQueue.Contents() == old(failureQueue.Contents())
      ensures message == None ==> result == Ignored && roundRobin == old(roundRobin)
      ensures message != None ==>
                && roundRobin == Bump(old(roundRobin))
                && roundRobin == (if old(roundRobin) == 2_147_483_647 then 2 else old(roundRobin) + 1) &&
                var choice := Choose(roundRobin, |queues|, old(FullSet()));
                result == if choice.Queue? then Stored(choice.index) else Failed(choice)
      ensures result.Stored? ==> result.index < |queues|
      ensures forall k :: 0 <= k < |queues| ==>
                queues[k].Contents() ==
                if result == Stored(k) then old(queues[k].Contents()) + [message] else old(queues[k].Contents())
    {
      hide Choose, BlockingQueue.Valid, BlockingQueue.Contents;
      if message == None {
        return Ignored;
      }
      var choice := GetQueue();
      if !choice.Queue? {
        return Failed(choice);
      }
      var q := choice.index;
      var done := queues[q].PutPass(message);
      result := Stored(q);
    }

    /** Stores the message in the failure queue unless that is full. */
    method RePush(message: Option<Dto>) returns (result: PushResult)
      requires Valid()
      modifies failureQueue, failureQueue.elements
      ensures Valid() && forall k :: 0 <= k < |queues| ==> queues[k].Contents() == old(queues[k].Contents())
      ensures result == (if message == None then Ignored
                         else if |old(failureQueue.Contents())| == failureQueue.elements.Length then Failed(PoolFull)
                         else Stored(|queues|))
      ensures failureQueue.Contents() ==
              if result.Stored? then old(failureQueue.Contents()) + [message] else old(failureQueue.Contents())
    {
      hide BlockingQueue.Valid, BlockingQueue.Contents;
      if message == None {
        return Ignored;
      }
      var full := failureQueue.IsFull();
      if full {
        return Failed(PoolFull);
      }
      var done := failureQueue.PutPass(message);
      result := Stored(|queues|);
    }
  }

  /** Which of n consecutive pushes goes to queue q. */
  function Turn(counter: nat, q: nat, n: nat): (k: nat)
    requires q < n
    ensures k < n
  {
    var r := (counter + 1) % n;
    if q >= r then q - r else q + n - r
  }

  /** The push after k others is the turn of the queue it starts with, and of no other queue. */
  lemma TurnOfIndex(counter: nat, k: nat, n: nat)
    requires k < n
    ensures 0 <= (counter + 1 + k) % n < n
    ensures forall q: nat :: q < n ==> (Turn(counter, q, n) == k <==> q == (counter + 1 + k) % n)
  {
    ModAdd(counter + 1, k, n);
  }

  function AddTo<T>(contents: seq<seq<T>>, q: nat, x: T): seq<seq<T>>
    requires q < |contents|
  {
    contents[q := contents[q] + [x]]
  }

  /** A push finds room in the queue whose turn it is. */
  method PushAtTurn(pool: Pool, message: Dto, ghost q: nat)
    requires pool.Valid() && |pool.queues| > 0 && pool.roundRobin + 1 + |pool.queues| <= INT_MAX
    requires q == (pool.roundRobin + 1) % |pool.queues|
    requires q < |pool.queues| && |pool.Held()[q]| < pool.queues[q].elements.Length
    modifies pool`roundRobin, pool.Objects()
    ensures pool.Valid() && pool.roundRobin == old(pool.roundRobin) + 1
    ensures pool.failureQueue.Contents() == old(pool.failureQueue.Contents())
    ensures pool.queues == old(pool.queues) && pool.Objects() == old(pool.Objects())
    ensures pool.Held() == AddTo(old(pool.Held()), q, Some(message))
  {
    hide BlockingQueue.Valid, BlockingQueue.Contents, Choose;
    ChooseExactly(pool.roundRobin + 1, |pool.queues|, pool.FullSet());
    var result := pool.Push(Some(message));
  }

  /** The contents after the first k pushes of a round. */
  ghost predicate RoundTo(
      before: seq<seq<Option<Dto>>>, after: seq<seq<Option<Dto>>>, start: nat, messages: seq<Dto>, k: nat)
  {
    && |before| == |after| == |messages|
    && forall q: nat :: q < |before| ==>
         after[q] ==
         if Turn(start, q, |before|) < k then before[q] + [Some(messages[Turn(start, q, |before|)])] else before[q]
  }

  lemma RoundStep(
      before: seq<seq<Option<Dto>>>, after: seq<seq<Option<Dto>>>, start: nat, messages: seq<Dto>, k: nat, q: nat)
    requires RoundTo(before, after, start, messages, k) && k < |messages| && q == (start + 1 + k) % |messages|
    ensures q < |before| && after[q] == before[q]
    ensures RoundTo(before, AddTo(after, q, Some(messages[k])), start, messages, k + 1)
  {
    hide Turn;
    TurnOfIndex(start, k, |messages|);
  }

  ghost predicate Roomy(queues: seq<DtoQueue>, contents: seq<seq<Option<Dto>>>) {
    |queues| == |contents| && forall q: nat :: q < |queues| ==> |contents[q]| < queues[q].elements.Length
  }

  lemma RoomAt(queues: seq<DtoQueue>, contents: seq<seq<Option<Dto>>>, q: nat)
    requires Roomy(queues, contents) && q < |contents|
    ensures q < |queues| && |contents[q]| < queues[q].elements.Length
  {
  }

  lemma HasRoom(pool: Pool)
    requires pool.Valid() && pool.FullSet() == {}
    ensures 0 < pool.roundRobin && Roomy(pool.queues, pool.Held())
  {
    forall q: nat | q < |pool.queues|
      ensures |pool.Held()[q]| < pool.queues[q].elements.Length
    {
      assert q !in pool.FullSet();
      assert |pool.queues[q].Contents()| <= pool.queues[q].elements.Length;
    }
  }

  lemma RoundStart(before: seq<seq<Option<Dto>>>, start: nat, messages: seq<Dto>)
    requires |before| == |messages|
    ensures RoundTo(before, before, start, messages, 0)
  {
  }

  lemma RoundEnds(before: seq<seq<Option<Dto>>>, after: seq<seq<Option<Dto>>>, start: nat, messages: seq<Dto>)
    requires RoundTo(before, after, start, messages, |messages|)
    ensures |before| == |after| == |messages|
    ensures forall q: nat :: q < |messages| ==> after[q] == before[q] + [Some(messages[Turn(start, q, |messages|)])]
  {
  }

  /** The pool after k pushes of a round, everything else unchanged. */
  ghost predicate InRound(
      pool: Pool, before: seq<seq<Option<Dto>>>, failure: seq<Option<Dto>>, start: nat, messages: seq<Dto>, k: nat)
    reads pool, pool.Objects(), pool.failureQueue, pool.failureQueue.elements
  {
    && pool.Valid() && pool.failureQueue.Contents() == failure && pool.roundRobin == start + k
    && |messages| == |pool.queues| && 0 < start && start + |messages| + |messages| <= INT_MAX
    && Roomy(pool.queues, before) && RoundTo(before, pool.Held(), start, messages, k)
  }

  method PushNext(
      pool: Pool, ghost before: seq<seq<Option<Dto>>>, ghost failure: seq<Option<Dto>>, ghost start: nat,
      messages: seq<Dto>, k: nat)
    requires k < |messages| && InRound(pool, before, failure, start, messages, k)
    modifies pool`roundRobin, pool.Objects()
    ensures InRound(pool, before, failure, start, messages, k + 1)
    ensures pool.queues == old(pool.queues) && pool.Objects() == old(pool.Objects())
  {
    hide *;
    ghost var q := (start + 1 + k) % |messages|;
    OpenRound(pool, before, failure, start, messages, k);
    RoundStep(before, pool.Held(), start, messages, k, q);
    RoomAt(pool.queues, before, q);
    PushAtTurn(pool, messages[k], q);
    CloseRound(pool, before, failure, start, messages, k + 1);
  }

  lemma OpenRound(
      pool: Pool, before: seq<seq<Option<Dto>>>, failure: seq<Option<Dto>>, start: nat, messages: seq<Dto>, k: nat)
    requires InRound(pool, before, failure, start, messages, k)
    ensures pool.Valid() && pool.failureQueue.Contents() == failure && pool.roundRobin == start + k
    ensures |messages| == |pool.queues| && 0 < start && start + |messages| + |messages| <= INT_MAX
    ensures Roomy(pool.queues, before) && RoundTo(before, pool.Held(), start, messages, k)
  {
  }

  lemma CloseRound(
      pool: Pool, before: seq<seq<Option<Dto>>>, failure: seq<Option<Dto>>, start: nat, messages: seq<Dto>, k: nat)
    requires pool.Valid() && pool.failureQueue.Contents() == failure && pool.roundRobin == start + k
    requires |messages| == |pool.queues| && 0 < start && start + |messages| + |messages| <= INT_MAX
    requires Roomy(pool.queues, before) && RoundTo(before, pool.Held(), start, messages, k)
    ensures InRound(pool, before, failure, start, messages, k)
  {
  }

  /** As many pushes as there are queues, none of them full, put one message into each queue. */
  method PushRound(pool: Pool, messages: seq<Dto>)
    requires pool.Valid() && |messages| == |pool.queues| > 0 && pool.FullSet() == {}
    requires pool.roundRobin + |messages| + |messages| <= INT_MAX
    modifies pool`roundRobin, pool.Objects()
    ensures pool.Valid() && pool.roundRobin == old(pool.roundRobin) + |messages|
    ensures pool.failureQueue.Contents() == old(pool.failureQueue.Contents())
    ensures |pool.queues| == |messages| && pool.queues == old(pool.queues)
    ensures forall q: nat :: q < |messages| ==>
              pool.Held()[q] == old(pool.Held()[q]) + [Some(messages[Turn(old(pool.roundRobin), q, |messages|)])]
  {
    ghost var start, before, failure := pool.roundRobin, pool.Held(), pool.failureQueue.Contents();
    HasRoom(pool);
    RoundStart(before, start, messages);
    assert InRound(pool, before, failure, start, messages, 0);
    var k := 0;
    hide *;
    while k < |messages|
      invariant 0 <= k <= |messages| && InRound(pool, before, failure, start, messages, k)
      invariant pool.queues == old(pool.queues) && pool.Objects() == old(pool.Objects())
    {
      PushNext(pool, before, failure, start, messages, k);
      k := k + 1;
    }
    OpenRound(pool, before, failure, start, messages, |messages|);
    RoundEnds(before, pool.Held(), start, messages);
  }

  /** How one round of a consumer leaves its message. */
  datatype RoundEnd = Dropped(fate: MessageSystem.Fate) | Requeued

  /**
   The body of the consumer loop after take.  The retry is counted before the failure queue is asked, so a
   message dropped because that queue is full has counted a retry it never gets.
   */
  method ConsumeRound(pool: Pool, dto: Dto, outcome: MessageSystem.Outcome) returns (end: RoundEnd)
    requires pool.Valid()
    modifies dto, pool.failureQueue, pool.failureQueue.elements
    ensures pool.Valid()
    ensures var retry := outcome.Retryable? && old(dto.retryCount) <= 2;
            var full := |old(pool.failureQueue.Contents())| == pool.failureQueue.elements.Length;
            && dto.retryCount == old(dto.retryCount) + (if retry then 1 else 0)
            && end == (match outcome
                       case NoHandlerFound => Dropped(MessageSystem.NoHandler)
                       case Success => Dropped(MessageSystem.Succeeded)
                       case NotRetryable => Dropped(MessageSystem.Fatal)
                       case Retryable =>
                         if !retry then Dropped(MessageSystem.FinalFail)
                         else if full then Dropped(MessageSystem.FailureQueueFull) else Requeued)
            && pool.failureQueue.Contents() ==
               old(pool.failureQueue.Contents()) + if end.Requeued? then [Some(dto)] else []
    ensures forall k :: 0 <= k < |pool.queues| ==> pool.queues[k].Contents() == old(pool.queues[k].Contents())
  {
    hide BlockingQueue.Valid, BlockingQueue.Contents;
    match outcome
    case NoHandlerFound => end := Dropped(MessageSystem.NoHandler);
    case Success => end := Dropped(MessageSystem.Succeeded);
    case NotRetryable => end := Dropped(MessageSystem.Fatal);
    case Retryable =>
      if dto.retryCount < MessageSystem.RETRY_LIMIT {
        dto.AddRetryCount();
        var result := pool.RePush(Some(dto));
        end := if result.Stored? then Requeued else Dropped(MessageSystem.FailureQueueFull);
      } else {
        end := Dropped(MessageSystem.FinalFail);
      }
  }
}
