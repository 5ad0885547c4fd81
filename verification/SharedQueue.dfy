/** What the dispatch pipeline relies on in the queue that its ingress threads share: a first-in first-out queue whose
    pushes may be refused and whose pops may end, each for stated reasons only. The three shared queues are proved to be
    such queues. */
module SharedQueue {
  import opened Events

  datatype Queue = Queue(events: seq<Event>, closed: bool)

  /** The flag of the queue, and the stop flags that its pushes and its pops are given. */
  datatype Flags = Flags(closed: bool, pushStop: bool, popStop: bool)

  /** What one step does to the queue. `stop` is the stop flag of the call that gives up. */
  datatype Move =
    | Quiet
    | Put(ev: Event)
    | Refuse(policy: Policy, stop: bool)
    | Take(ev: Event)
    | End(stop: bool)
    | Shut

  /** A push is refused only under `Drop`, or once stopped or closed; a pop takes the oldest event, or ends only once
      stopped or closed, whether anything is left or not. */
  predicate Allows(q: Queue, m: Move) {
    match m
    case Refuse(policy, stop) => policy.Drop? || stop || q.closed
    case Take(ev) => q.events != [] && ev == q.events[0]
    case End(stop) => stop || q.closed
    case _ => true
  }

  function After(q: Queue, m: Move): Queue
    requires Allows(q, m)
  {
    match m
    case Put(ev) => q.(events := q.events + [ev])
    case Take(_) => q.(events := q.events[1..])
    case Shut => q.(closed := true)
    case _ => q
  }

  /** How far a call has come: a push that has put its event and a pop that has taken one only have to return. */
  datatype Call = NoCall | PushCall(ev: Event) | Refusing | HasPut | PopCall | HasTaken

  /** A call makes its one move and returns: true after `Put` or `Take`, false with `Refuse` or `End`. */
  predicate Follows(c: Call, m: Move, c': Call) {
    match m
    case Put(ev) => c == PushCall(ev) && c'.HasPut?
    case Refuse(_, _) => (c.PushCall? || c.Refusing?) && c'.NoCall?
    case Take(_) => c.PopCall? && c'.HasTaken?
    case End(_) => c.PopCall? && c'.NoCall?
    case Quiet => c' == c || (c.PushCall? && c'.Refusing?) || ((c.HasPut? || c.HasTaken?) && c'.NoCall?)
    case Shut => false
  }
}
