/** The circular array that both hand-written blocking queues keep behind their locks. */
module RingBuffer {
  import opened Wrappers

  /** The fields of a queue as one value.  An element is an optional reference: None is null. */
  datatype Ring<T> = Ring(elements: seq<Option<T>>, head: nat, tail: nat, count: nat) {

    /** The array position k places after the head. */
    function Slot(k: nat): nat {
      if head + k < |elements| then head + k else head + k - |elements|
    }

    /** Head and tail agree with the count, and every slot outside the live window is null. */
    ghost predicate Valid() {
      && head < |elements| && tail < |elements| && count <= |elements|
      && tail == Slot(count)
      && (forall k :: count <= k < |elements| ==> elements[Slot(k)] == None)
    }

    /** The queued elements, oldest first. */
    function Contents(): (s: seq<Option<T>>)
      requires head < |elements| && count <= |elements|
      ensures |s| == count
    {
      seq(count, k requires 0 <= k < count => elements[Slot(k)])
    }

    /** The statements of put after its wait loop. */
    function Put(t: Option<T>): Ring<T>
      requires tail < |elements|
    {
      Ring(elements[tail := t], head, if tail + 1 == |elements| then 0 else tail + 1, count + 1)
    }

    /** The statements of take after its wait loop. */
    function Take(): Ring<T>
      requires head < |elements| && count > 0
    {
      Ring(elements[head := None], if head + 1 == |elements| then 0 else head + 1, tail, count - 1)
    }
  }

  /** tail = (head + count) mod capacity. */
  lemma TailFormula<T>(r: Ring<T>)
    requires r.Valid()
    ensures r.tail == (r.head + r.count) % |r.elements|
  {
    ModOnce(r.head + r.count, |r.elements|);
  }

  lemma ModOnce(x: nat, n: nat)
    requires x < n + n
    ensures x % n == if x < n then x else x - n
  {
    if x >= n {
      assert x / n == 1;
    }
  }

  /** put appends to the contents. */
  lemma PutAppends<T>(r: Ring<T>, t: Option<T>)
    requires r.Valid() && r.count < |r.elements|
    ensures r.Put(t).Valid() && r.Put(t).Contents() == r.Contents() + [t]
  {
    var p := r.Put(t);
    assert p.tail == p.Slot(p.count);
    forall k: nat | k < |r.elements|
      ensures p.Slot(k) == r.Slot(k) && (k == r.count || p.elements[p.Slot(k)] == r.elements[r.Slot(k)])
    {
      DistinctSlots(r, k, r.count);
    }
    assert p.Contents() == r.Contents() + [t];
  }

  lemma DistinctSlots<T>(r: Ring<T>, j: nat, k: nat)
    requires r.head < |r.elements| && j < |r.elements| && k < |r.elements|
    ensures r.Slot(j) < |r.elements|
    ensures r.Slot(j) == r.Slot(k) <==> j == k
  {
  }

  /** take removes the oldest element and nulls its slot. */
  lemma TakeRemoves<T>(r: Ring<T>)
    requires r.Valid() && r.count > 0
    ensures r.Take().Valid() && [r.elements[r.head]] + r.Take().Contents() == r.Contents()
  {
    var p, n := r.Take(), |r.elements|;
    forall k: nat | k + 1 < n
      ensures p.Slot(k) == r.Slot(k + 1) && p.elements[p.Slot(k)] == r.elements[r.Slot(k + 1)]
    {
      DistinctSlots(r, 0, k + 1);
    }
    assert p.Slot(n - 1) == r.head;
    assert p.tail == p.Slot(p.count);
    assert [r.elements[r.head]] + p.Contents() == r.Contents();
  }

  /** The queue object; a pass is what one thread does between acquiring the lock and releasing or waiting. */
  class BlockingQueue<T> {
    var tail: nat
    var head: nat
    var count: nat
    const elements: array<Option<T>>

    ghost function Fields(): Ring<T>
      reads this, elements
    {
      Ring(elements[..], head, tail, count)
    }

    ghost predicate Valid()
      reads this, elements
    {
      Fields().Valid()
    }

    ghost function Contents(): (s: seq<Option<T>>)
      reads this, elements
      requires Valid()
      ensures |s| <= elements.Length
    {
      Fields().Contents()
    }

    constructor (capacity: nat)
      requires capacity > 0
      ensures Valid() && fresh(elements) && elements.Length == capacity && Contents() == []
    {
      elements := new Option<T>[capacity](_ => None);
      head, tail, count := 0, 0, 0;
    }

    /** The argument check of the source's constructor. */
    static method Create(capacity: int) returns (q: BlockingQueue?<T>)
      ensures q == null <==> capacity <= 0
      ensures q != null ==> fresh(q) && fresh(q.elements) && q.Valid()
      ensures q != null ==> q.elements.Length == capacity && q.Contents() == []
    {
      if capacity <= 0 {
        return null;
      }
      q := new BlockingQueue<T>(capacity);
    }

    method IsFull() returns (full: bool)
      requires Valid()
      ensures full <==> |Contents()| == elements.Length
    {
      full := elements.Length == count;
    }

    method IsEmpty() returns (empty: bool)
      requires Valid()
      ensures empty <==> Contents() == []
    {
      empty := count == 0;
    }

    /** Appends, or changes nothing and reports that the thread has to wait. */
    method PutPass(t: Option<T>) returns (done: bool)
      requires Valid()
      modifies this, elements
      ensures Valid()
      ensures done <==> |old(Contents())| < elements.Length
      ensures Fields() == if done then old(Fields()).Put(t) else old(Fields())
      ensures Contents() == if done then old(Contents()) + [t] else old(Contents())
    {
      var full := IsFull();
      if full {
        return false;
      }
      ghost var before := Fields();
      PutAppends(before, t);
      elements[tail] := t;
      tail := tail + 1;
      if tail == elements.Length {
        tail := 0;
      }
      count := count + 1;
      assert Fields() == before.Put(t);
      done := true;
    }

    /** Removes the oldest element, or changes nothing and reports that the thread has to wait. */
    method TakePass() returns (done: bool, element: Option<T>)
      requires Valid()
      modifies this, elements
      ensures Valid()
      ensures done <==> old(Contents()) != []
      ensures Fields() == if done then old(Fields()).Take() else old(Fields())
      ensures if done then [element] + Contents() == old(Contents()) else Contents() == old(Contents())
    {
      var empty := IsEmpty();
      if empty {
        return false, None;
      }
      ghost var before := Fields();
      TakeRemoves(before);
      element := elements[head];
      elements[head] := None;
      head := head + 1;
      if head == elements.Length {
        head := 0;
      }
      count := count - 1;
      assert Fields() == before.Take();
      done := true;
    }
  }
}
