/**
 The queue object of producer-consumer.c and the code that its functions run on it between
 the wait loop and the signal.  The waiting itself is the subject of `QueueSteps`; each
 method here is proved to be the steps that `QueueSteps` gives that part of its function.
 */
module PcQueue {
  import opened Ring
  import opened QueueSteps

  /** Thread `t` goes from `EnqStore` to `EnqSignal`. */
  function Inserted(s: State, t: nat): State
    requires t < |s.threads| && s.threads[t].EnqStore? && s.head < s.Cap() && s.tail < s.Cap()
  {
    Moved(Moved(Moved(s, t, {}), t, {}), t, {})
  }

  /** Thread `t` goes from `DeqLoad` to `DeqSignal`. */
  function Removed(s: State, t: nat): State
    requires t < |s.threads| && s.threads[t].DeqLoad? && s.head < s.Cap() && s.tail < s.Cap()
  {
    Moved(Moved(Moved(s, t, {}), t, {}), t, {})
  }

  class PcQueue {
    const buffer: array<Elem>
    var head: nat
    var tail: nat
    var size: nat

    ghost predicate Valid()
      reads this
    {
      && 0 < buffer.Length && head < buffer.Length && size <= buffer.Length
      && tail == Slot(head, size, buffer.Length)
    }

    /** The elements in the queue, oldest first. */
    ghost function Queued(): (s: seq<Elem>)
      requires Valid()
      reads this, buffer
    {
      Contents(buffer[..], head, size)
    }

    /** The object is the shared queue of `s`. */
    ghost predicate Mirrors(s: State)
      reads this, buffer
    {
      s.buf == buffer[..] && s.head == head && s.tail == tail && s.size == size
    }

    /** `pcq_create` */
    constructor (capacity: nat, ghost threads: nat)
      requires capacity > 0
      ensures Valid() && fresh(buffer) && buffer.Length == capacity
      ensures Queued() == [] && Mirrors(Created(buffer[..], threads))
    {
      buffer := new Elem[capacity];
      head, tail, size := 0, 0, 0;
      new;
      SlotIs(0, 0, capacity);
    }

    /** `pcq_enqueue` by thread `t` once its loop has found room. */
    method Insert(elem: Elem, ghost s: State, ghost t: nat)
      requires Valid() && size < buffer.Length
      requires Mirrors(s) && t < |s.threads| && s.threads[t] == EnqStore(elem)
      modifies this, buffer
      ensures Valid() && Queued() == old(Queued()) + [elem]
      ensures Mirrors(Inserted(s, t)) && Inserted(s, t).threads[t] == EnqSignal
    {
      ghost var cap, was := buffer.Length, buffer[..];
      SlotNext(head, size, cap);
      ContentsAppend(was, head, size, elem);
      buffer[tail] := elem;
      assert buffer[..] == was[Slot(head, size, cap) := elem];
      tail := (tail + 1) % buffer.Length;
      size := size + 1;
    }

    /** `pcq_dequeue` by thread `t` once its loop has found an element. */
    method Remove(ghost s: State, ghost t: nat) returns (result: Elem)
      requires Valid() && size > 0
      requires Mirrors(s) && t < |s.threads| && s.threads[t] == DeqLoad
      modifies this
      ensures Valid() && old(Queued()) == [result] + Queued()
      ensures buffer[..] == old(buffer[..])
      ensures Mirrors(Removed(s, t)) && Removed(s, t).threads[t] == DeqSignal(result)
    {
      ContentsDrop(buffer[..], head, size);
      SlotShift(head, size - 1, buffer.Length);
      result := buffer[head];
      head := (head + 1) % buffer.Length;
      size := size - 1;
    }
  }
}
