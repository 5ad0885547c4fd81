/** The single-producer single-consumer ring as an object on an array. Each method is one pass through the loop of
    `push` or `pop` in which the other thread takes no step; `SpscRing` is about the interleavings. */
module SpscQueue {
  import opened Events
  import Ring = SpscRing

  datatype PushPass = Accepted | Refused | Full

  datatype PopPass = Taken(ev: Event) | Ended | Empty

  /** The next index meets the head exactly when the ring is full. */
  lemma FullOrRoom(capacity: nat, buffer: seq<Event>, head: nat, tail: nat, pushed: seq<Event>, popped: seq<Event>)
    requires capacity > 0 && Ring.Live(capacity, buffer, head, tail, pushed, popped)
    ensures NextIndex(tail, capacity + 1) == head <==> |pushed| - |popped| == capacity
  {
    SlotsDiffer(|popped|, |pushed| + 1, capacity + 1);
  }

  /** Storing an event at the tail of a ring with room adds it behind the others, and the depth formula counts it. */
  lemma StoreIsLive(capacity: nat, buffer: seq<Event>, head: nat, tail: nat, pushed: seq<Event>, popped: seq<Event>,
                    ev: Event)
    requires capacity > 0 && Ring.Live(capacity, buffer, head, tail, pushed, popped) && |pushed| - |popped| < capacity
    ensures tail < |buffer|
    ensures Ring.Live(capacity, buffer[tail := ev], head, NextIndex(tail, capacity + 1), pushed + [ev], popped)
    ensures Ring.ReportedDepth(NextIndex(tail, capacity + 1), head, capacity + 1) == |pushed| + 1 - |popped|
  {
    var buffer', pushed' := buffer[tail := ev], pushed + [ev];
    forall k | |popped| <= k < |pushed'| ensures Ring.Holding(buffer', pushed', k) {
      if k < |pushed| {
        assert Ring.Holding(buffer, pushed, k);
        SlotsDiffer(k, |pushed|, capacity + 1);
      }
    }
    SlotAhead(|popped|, |pushed| + 1 - |popped|, capacity + 1);
  }

  class RingQueue {
    const capacity: nat
    const buffer: array<Event>
    var head: nat
    var tail: nat
    var closed: bool
    var maxDepth: nat
    ghost var pushed: seq<Event>
    ghost var popped: seq<Event>

    ghost predicate Valid()
      reads this, buffer
    {
      capacity > 0 && Ring.Live(capacity, buffer[..], head, tail, pushed, popped) && maxDepth <= capacity
    }

    ghost function Contents(): seq<Event>
      requires Valid()
      reads this, buffer
    {
      pushed[|popped|..]
    }

    constructor (capacity: nat, unused: Event)
      requires capacity > 0
      ensures Valid() && fresh(buffer) && this.capacity == capacity && Contents() == [] && !closed && maxDepth == 0
    {
      this.capacity := capacity;
      buffer := new Event[capacity + 1](_ => unused);
      head, tail, closed, maxDepth := 0, 0, false, 0;
      pushed, popped := [], [];
    }

    method PushPass(ev: Event, stop: bool) returns (pass: PushPass)
      requires Valid()
      modifies this`tail, this`maxDepth, this`pushed, buffer
      ensures Valid()
      ensures pass == if closed || stop then Refused else if |old(Contents())| == capacity then Full else Accepted
      ensures Contents() == if pass.Accepted? then old(Contents()) + [ev] else old(Contents())
      ensures maxDepth == if pass.Accepted? then Max(old(maxDepth), |Contents()|) else old(maxDepth)
    {
      if closed || stop {
        return Refused;
      }
      var next := NextIndex(tail, buffer.Length);
      FullOrRoom(capacity, buffer[..], head, tail, pushed, popped);
      if next == head {
        return Full;
      }
      StoreIsLive(capacity, buffer[..], head, tail, pushed, popped, ev);
      ghost var before := buffer[..];
      buffer[tail] := ev;
      assert buffer[..] == before[tail := ev];
      tail, pushed := next, pushed + [ev];
      var depth := Ring.ReportedDepth(next, head, buffer.Length);
      if depth > maxDepth {
        maxDepth := depth;
      }
      return Accepted;
    }

    method PopPass(stop: bool) returns (pass: PopPass)
      requires Valid()
      modifies this`head, this`popped
      ensures Valid()
      ensures if old(Contents()) == [] then
                pass == (if closed || stop then Ended else Empty) && Contents() == []
              else
                pass == Taken(old(Contents())[0]) && Contents() == old(Contents())[1..]
    {
      SlotsDiffer(|popped|, |pushed|, capacity + 1);
      if head == tail {
        return if closed || stop then Ended else Empty;
      }
      assert Ring.Holding(buffer[..], pushed, |popped|);
      var ev := buffer[head];
      head, popped := NextIndex(head, buffer.Length), popped + [ev];
      assert popped == pushed[..|popped|];
      return Taken(ev);
    }

    method Close()
      requires Valid()
      modifies this`closed
      ensures Valid() && closed && Contents() == old(Contents())
    {
      closed := true;
    }
  }
}
