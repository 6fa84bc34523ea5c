// The frame queue of a mixer channel. engine/containers/ring_buffer.c.
module Rings {
  import opened Arith

  /** The slot i places after `tail` in a ring of cap slots. */
  function SlotAt(tail: nat, i: nat, cap: nat): (s: nat)
    requires cap > 0
    ensures s < cap
  {
    (tail + i) % cap
  }

  lemma SlotAfterSlot(tail: nat, i: nat, j: nat, cap: nat)
    requires cap > 0
    ensures SlotAt(SlotAt(tail, i, cap), j, cap) == SlotAt(tail, i + j, cap)
  {
    var k := (tail + i) / cap;
    assert tail + i + j == (tail + i) % cap + j + k * cap;
    ModShift((tail + i) % cap + j, cap, k);
  }

  lemma SlotsDistinct(tail: nat, i: nat, j: nat, cap: nat)
    requires cap > 0 && i < j < i + cap
    ensures SlotAt(tail, i, cap) != SlotAt(tail, j, cap)
  {
    if SlotAt(tail, i, cap) == SlotAt(tail, j, cap) {
      SameResidueNear(tail + j, tail + i, cap);
    }
  }

  lemma SlotEnds(tail: nat, cap: nat)
    requires tail < cap
    ensures SlotAt(tail, 0, cap) == tail == SlotAt(tail, cap, cap)
  {
    DivModUnique(tail, cap, 0, tail);
    ModShift(tail, cap, 1);
  }

  /** What the queue holds, oldest first. */
  function Queue<T>(storage: seq<T>, tail: nat, count: nat): (q: seq<T>)
    requires |storage| > 0
    ensures |q| == count
  {
    seq(count, i requires 0 <= i < count && |storage| > 0 => storage[SlotAt(tail, i, |storage|)])
  }

  /** Storing at the head appends; a full queue loses its oldest element. */
  lemma StoreAppends<T>(storage: seq<T>, tail: nat, count: nat, x: T)
    requires tail < |storage| && count < |storage|
    ensures Queue(storage[SlotAt(tail, count, |storage|) := x], tail, count + 1) == Queue(storage, tail, count) + [x]
  {
    hide SlotAt;
    var head := SlotAt(tail, count, |storage|);
    var after, want := Queue(storage[head := x], tail, count + 1), Queue(storage, tail, count) + [x];
    forall i | 0 <= i < count + 1
      ensures after[i] == want[i]
    {
      if i < count {
        SlotsDistinct(tail, i, count, |storage|);
      }
    }
  }

  lemma StoreOverwrites<T>(storage: seq<T>, tail: nat, x: T)
    requires tail < |storage|
    ensures SlotAt(tail, |storage|, |storage|) == tail
    ensures Queue(storage[tail := x], SlotAt(tail, 1, |storage|), |storage|) ==
            Queue(storage, tail, |storage|)[1..] + [x]
  {
    hide SlotAt;
    var cap := |storage|;
    SlotEnds(tail, cap);
    var after, want := Queue(storage[tail := x], SlotAt(tail, 1, cap), cap), Queue(storage, tail, cap)[1..] + [x];
    forall i | 0 <= i < cap
      ensures after[i] == want[i]
    {
      SlotAfterSlot(tail, 1, i, cap);
      if i < cap - 1 {
        SlotsDistinct(tail, 0, i + 1, cap);
      }
    }
  }

  lemma TakeDrops<T>(storage: seq<T>, tail: nat, count: nat)
    requires tail < |storage| && 0 < count
    ensures Queue(storage, tail, count)[0] == storage[tail]
    ensures Queue(storage, SlotAt(tail, 1, |storage|), count - 1) == Queue(storage, tail, count)[1..]
  {
    hide SlotAt;
    SlotEnds(tail, |storage|);
    var after, want := Queue(storage, SlotAt(tail, 1, |storage|), count - 1), Queue(storage, tail, count)[1..];
    forall i | 0 <= i < count - 1
      ensures after[i] == want[i]
    {
      SlotAfterSlot(tail, 1, i, |storage|);
    }
  }

  class Ring<T> {
    const storage: array<T>
    var head: nat
    var tail: nat
    var count: nat

    ghost predicate Valid()
      reads this
    {
      && tail < storage.Length && count <= storage.Length
      && head == SlotAt(tail, count, storage.Length)
    }

    ghost function Contents(): (q: seq<T>)
      reads this, storage
      requires Valid()
      ensures |q| == count
    {
      Queue(storage[..], tail, count)
    }

    /** rb_init over caller storage. */
    constructor (storage: array<T>)
      requires storage.Length > 0
      ensures Valid() && this.storage == storage && Contents() == []
    {
      this.storage := storage;
      head, tail, count := 0, 0, 0;
      new;
      SlotEnds(0, storage.Length);
    }

    /** rb_push: append, dropping the oldest element of a full queue. */
    method Push(x: T)
      requires Valid()
      modifies this, storage
      ensures Valid()
      ensures Contents() == (if old(count) == storage.Length then old(Contents())[1..] else old(Contents())) + [x]
    {
      hide SlotAt, Queue;
      ghost var before := storage[..];
      if count == storage.Length {
        StoreOverwrites(before, tail, x);
        SlotAfterSlot(tail, 1, count, storage.Length);
        SlotAfterSlot(tail, count, 1, storage.Length);
      } else {
        StoreAppends(before, tail, count, x);
        SlotAfterSlot(tail, count, 1, storage.Length);
      }
      storage[head] := x;
      assert storage[..] == before[head := x];
      head := SlotAt(head, 1, storage.Length);
      if count == storage.Length {
        tail := SlotAt(tail, 1, storage.Length);
      } else {
        count := count + 1;
      }
    }

    /** rb_pop. */
    method Pop() returns (r: Option<T>)
      requires Valid()
      modifies this
      ensures Valid()
      ensures old(count) == 0 ==> r == None && Contents() == []
      ensures old(count) > 0 ==> r == Some(old(Contents())[0]) && Contents() == old(Contents())[1..]
    {
      hide SlotAt, Queue;
      if count == 0 { return None; }
      TakeDrops(storage[..], tail, count);
      SlotAfterSlot(tail, 1, count - 1, storage.Length);
      r := Some(storage[tail]);
      tail := SlotAt(tail, 1, storage.Length);
      count := count - 1;
    }

    /** rb_peek_at. */
    method PeekAt(offset: nat) returns (r: Option<T>)
      requires Valid()
      ensures r == if offset < count then Some(Contents()[offset]) else None
    {
      if offset >= count { return None; }
      return Some(storage[SlotAt(tail, offset, storage.Length)]);
    }
  }
}
