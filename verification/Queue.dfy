/** Admission control: a counter of in-flight requests and the guards that hold it up. */
module Queue {
  function SaturatingDec(n: nat): nat {
    if n == 0 then 0 else n - 1
  }

  class Slot {
    const queue: BoundedQueue

    constructor (queue: BoundedQueue)
      ensures this.queue == queue
    {
      this.queue := queue;
    }
  }

  class BoundedQueue {
    const capacity: nat
    var inFlight: nat
    ghost var live: set<Slot>

    ghost predicate Valid()
      reads this
    {
      && capacity > 0 && inFlight == |live| && inFlight <= capacity
      && forall s :: s in live ==> s.queue == this
    }

    constructor (capacity: nat)
      requires capacity > 0
      ensures Valid() && this.capacity == capacity && inFlight == 0 && live == {}
    {
      this.capacity, inFlight, live := capacity, 0, {};
    }

    /** One slot, or null when the queue is full. */
    method TryAcquire() returns (slot: Slot?)
      requires Valid()
      modifies this
      ensures Valid()
      ensures slot == null <==> old(inFlight) == capacity
      ensures slot == null ==> live == old(live)
      ensures slot != null ==> fresh(slot) && slot.queue == this && live == old(live) + {slot}
    {
      if inFlight >= capacity {
        return null;
      }
      inFlight := inFlight + 1;
      var s := new Slot(this);
      live := live + {s};
      return s;
    }

    /** The guard going out of scope. */
    method Drop(slot: Slot)
      requires Valid() && slot in live
      modifies this
      ensures Valid() && live == old(live) - {slot} && inFlight == old(inFlight) - 1
    {
      inFlight := SaturatingDec(inFlight);
      live := live - {slot};
    }
  }
}
