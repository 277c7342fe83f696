/**
 * The bounded queue of the worker pool as it is changed under its mutex (examples/worker_pool.c:144-232):
 * a ring of slots, a head and a count, against the sequence of jobs it holds.
 */
module JobQueue {
  class Job {
    const id: nat

    constructor (id: nat)
      ensures this.id == id
    {
      this.id := id;
    }
  }

  datatype Attempt = Done | Refused | MustWait

  /** The slot of the `i`-th job in a ring of `n` slots that starts at `head`. */
  function Slot(head: nat, i: nat, n: nat): (k: nat)
    requires head < n && i < n
    ensures k < n
  {
    if head + i < n then head + i else head + i - n
  }

  lemma SlotIsRemainder(head: nat, i: nat, n: nat)
    requires head < n && i < n
    ensures (head + i) % n == Slot(head, i, n)
  {
    if head + i >= n {
      RemainderOnceAround(head + i - n, n);
    }
  }

  lemma RemainderOnceAround(k: nat, n: nat)
    requires k < n
    ensures (k + n) % n == k
  {
  }

  class Queue {
    const slots: array<Job?>
    var head: nat
    var count: nat
    var closed: bool

    constructor (capacity: nat)
      requires capacity > 0
      ensures Valid() && Contents() == [] && slots.Length == capacity && !closed && fresh(slots)
    {
      slots := new Job?[capacity](_ => null);
      head, count, closed := 0, 0, false;
    }

    ghost predicate Valid()
      reads this, slots
    {
      && head < slots.Length && count <= slots.Length
      && forall i {:trigger Slot(head, i, slots.Length)} :: 0 <= i < slots.Length
           ==> (slots[Slot(head, i, slots.Length)] != null <==> i < count)
    }

    ghost function Contents(): (s: seq<Job>)
      requires Valid()
      reads this, slots
      ensures |s| == count
      ensures forall i {:trigger s[i]} :: 0 <= i < count ==> s[i] == slots[Slot(head, i, slots.Length)]
    {
      seq(count, i requires 0 <= i < count && Valid() reads this, slots => slots[Slot(head, i, slots.Length)])
    }

    /** The critical section of `queue_push` once the mutex is held. */
    method Push(job: Job) returns (r: Attempt)
      requires Valid()
      modifies this`count, slots
      ensures Valid() && closed == old(closed)
      ensures r == if closed then Refused else if old(count) == slots.Length then MustWait else Done
      ensures Contents() == if r == Done then old(Contents()) + [job] else old(Contents())
    {
      if count == slots.Length && !closed {
        return MustWait;
      }
      if closed {
        return Refused;
      }
      SlotIsRemainder(head, count, slots.Length);
      slots[(head + count) % slots.Length] := job;
      count := count + 1;
      r := Done;
    }

    /** Takes the first job out of its slot. */
    method TakeFirst() returns (job: Job)
      requires Valid() && count > 0
      modifies this`head, this`count, slots
      ensures Valid() && closed == old(closed)
      ensures [job] + Contents() == old(Contents())
    {
      ghost var n, h := slots.Length, head;
      assert Slot(h, 0, n) == h;
      job := slots[head];
      NextHead(h, n);
      slots[head] := null;
      head := (head + 1) % slots.Length;
      count := count - 1;
      forall i {:trigger Slot(head, i, n)} | 0 <= i < n
        ensures slots[Slot(head, i, n)] != null <==> i < count
        ensures i < count ==> slots[Slot(head, i, n)] == old(slots[Slot(h, i + 1, n)])
      {
        if i + 1 < n {
          assert Slot(head, i, n) == Slot(h, i + 1, n) != h;
        } else {
          assert Slot(head, i, n) == h;
        }
      }
    }

    /** The critical section of `queue_pop` once the mutex is held. */
    method Pop() returns (r: Attempt, job: Job?)
      requires Valid()
      modifies this`head, this`count, slots
      ensures Valid() && closed == old(closed)
      ensures r == if old(count) > 0 then Done else if closed then Refused else MustWait
      ensures r == Done ==> job != null && [job] + Contents() == old(Contents())
      ensures r != Done ==> job == null && Contents() == old(Contents())
    {
      if count == 0 && !closed {
        return MustWait, null;
      }
      if count == 0 {
        return Refused, null;
      }
      job := TakeFirst();
      r := Done;
    }

    method Close()
      requires Valid()
      modifies this`closed
      ensures Valid() && closed && Contents() == old(Contents())
    {
      closed := true;
    }

    /** Hands every remaining job back to its allocator, first in first out, and counts them. */
    method ReleaseRemaining() returns (released: nat, ghost jobs: seq<Job>)
      requires Valid()
      modifies this`head, this`count, slots
      ensures Valid() && Contents() == [] && jobs == old(Contents()) && released == |jobs|
    {
      ghost var all := Contents();
      released, jobs := 0, [];
      while count != 0
        invariant Valid() && released == |jobs| <= |all|
        invariant jobs == all[..released] && Contents() == all[released..]
        decreases count
      {
        var job := TakeFirst();
        assert [job] + Contents() == all[released..];
        assert job == all[released] && Contents() == all[released..][1..];
        released, jobs := released + 1, jobs + [job];
      }
    }
  }

  lemma NextHead(head: nat, n: nat)
    requires head < n
    ensures (head + 1) % n == if head + 1 < n then head + 1 else 0
  {
    if head + 1 == n {
      RemainderOnceAround(0, n);
    }
  }
}
