/** The bounded queue between producer and consumer: what its critical sections do. Waiting
    and notification are steps of the capture protocol. */
module BoundedQueues {
  import opened Numbers

  datatype QueueState<T> = QueueState(capacity: nat, items: seq<T>, closed: bool) {
    predicate Accepts() {
      !closed && capacity != 0 && |items| < capacity
    }

    /** The condition that `pop` waits for. */
    predicate Ready() {
      closed || items != []
    }

    predicate Valid() {
      |items| <= capacity
    }

    function Pushed(value: T): (q: QueueState<T>)
      ensures Valid() ==> q.Valid()
    {
      if Accepts() then this.(items := items + [value]) else this
    }

    function Front(): Option<T> {
      if items == [] then None else Some(items[0])
    }

    function Popped(): (q: QueueState<T>)
      ensures Valid() ==> q.Valid()
    {
      if items == [] then this else this.(items := items[1..])
    }

    function Closed(): QueueState<T> {
      this.(closed := true)
    }
  }

  class BoundedQueue<T> {
    const capacity: nat
    var items: seq<T>
    var closed: bool

    function State(): QueueState<T>
      reads this
    {
      QueueState(capacity, items, closed)
    }

    constructor (capacity: nat)
      ensures State() == QueueState(capacity, [], false)
    {
      this.capacity := capacity;
      items, closed := [], false;
    }

    /** Never blocks: a full, closed or zero-capacity queue refuses the value and stays as it
        was. */
    method TryPush(value: T) returns (accepted: bool)
      requires State().Valid()
      modifies this
      ensures State() == old(State()).Pushed(value) && State().Valid()
      ensures accepted <==> !old(closed) && |old(items)| < capacity
      ensures items == old(items) + (if accepted then [value] else []) && closed == old(closed)
    {
      if closed || capacity == 0 || |items| >= capacity {
        return false;
      }
      items := items + [value];
      return true;
    }

    /** The part of `pop` after its wait: the oldest value, or nothing once the queue is
        closed and drained. */
    method Take() returns (value: Option<T>)
      requires State().Valid() && State().Ready()
      modifies this
      ensures State() == old(State()).Popped() && State().Valid()
      ensures value == (if old(items) == [] then None else Some(old(items)[0])) && value == old(State()).Front()
      ensures items == (if old(items) == [] then [] else old(items)[1..]) && closed == old(closed)
      ensures value == None ==> closed && items == []
    {
      if items == [] {
        return None;
      }
      value := Some(items[0]);
      items := items[1..];
    }

    /** Closing keeps what is queued, so it is still delivered. */
    method Close()
      modifies this
      ensures State() == old(State()).Closed()
      ensures closed && items == old(items)
    {
      closed := true;
    }
  }
}
