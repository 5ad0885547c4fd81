/** The queue behind one mutex. Everything a thread does while it holds the mutex is one step, a "section": a `push` or
    `pop` is one section, or several when it lets go of the mutex to wait and looks again. */
module GlobalLockQueue {
  import opened Events
  import opened Threads
  import S = SharedQueue

  datatype Strategy = ConditionVariable | SpinYield

  datatype Attempt = Succeeded | Failed | Waiting

  /** The value of a queue object. Capacity 0 means unbounded. */
  datatype Queue = Queue(capacity: nat, strategy: Strategy, events: seq<Event>, closed: bool, maxDepth: nat)

  predicate Full(q: Queue) {
    q.capacity != 0 && |q.events| >= q.capacity
  }

  /** How a section of `push` ends. `retry`: this call has waited before. `stop` and `later` are two reads of the stop
      flag, which is never lowered. */
  function PushAttempt(q: Queue, policy: Policy, retry: bool, stop: bool, later: bool): Attempt {
    if q.closed && !(retry && q.strategy.SpinYield? && !Full(q)) then Failed
    else if Full(q) then (if policy.Drop? || stop then Failed else Waiting)
    else if q.capacity != 0 && policy.Block? && q.strategy.ConditionVariable? && later then Failed
    else Succeeded
  }

  function Pushed(q: Queue, ev: Event, attempt: Attempt): Queue {
    if attempt.Succeeded?
    then q.(events := q.events + [ev], maxDepth := Max(q.maxDepth, |q.events| + 1))
    else q
  }

  /** How a section of `pop` ends, whatever the strategy. */
  function PopAttempt(q: Queue, stop: bool): Attempt {
    if q.events != [] then Succeeded else if q.closed || stop then Failed else Waiting
  }

  function Popped(q: Queue): Queue {
    if q.events == [] then q else q.(events := q.events[1..])
  }

  /** Only a call that has waited comes back, and only a blocking call on a bounded queue waits. */
  predicate MayRetry(q: Queue, policy: Policy, retry: bool) {
    retry ==> policy.Block? && q.capacity != 0
  }

  /** The queue object, one method a section. */
  class EventQueue {
    const capacity: nat
    const strategy: Strategy
    var events: seq<Event>
    var closed: bool
    var maxDepth: nat

    ghost function Value(): Queue
      reads this
    {
      Queue(capacity, strategy, events, closed, maxDepth)
    }

    constructor (capacity: nat, strategy: Strategy)
      ensures Value() == Queue(capacity, strategy, [], false, 0)
    {
      this.capacity, this.strategy := capacity, strategy;
      events, closed, maxDepth := [], false, 0;
    }

    /** From locking the mutex (or being woken, or locking it again after a pause) to returning or to waiting. */
    method PushSection(ev: Event, policy: Policy, retry: bool, stop: bool, later: bool) returns (attempt: Attempt)
      requires (stop ==> later) && MayRetry(Value(), policy, retry)
      modifies this
      ensures attempt == PushAttempt(old(Value()), policy, retry, stop, later)
      ensures Value() == Pushed(old(Value()), ev, attempt)
      ensures !old(closed) && !later ==>
                attempt == if capacity == 0 || |old(events)| < capacity then Succeeded
                           else if policy.Drop? then Failed else Waiting
      ensures events == if attempt.Succeeded? then old(events) + [ev] else old(events)
    {
      if !retry && closed {
        return Failed;
      }
      if capacity != 0 {
        if policy.Block? {
          if strategy.ConditionVariable? {
            if !(closed || stop || |events| < capacity) {
              return Waiting;
            }
            if closed || later {
              return Failed;
            }
          } else {
            if |events| >= capacity {
              if closed || stop {
                return Failed;
              }
              return Waiting;
            }
          }
        } else {
          if |events| >= capacity {
            return Failed;
          }
        }
      }
      events := events + [ev];
      if |events| > maxDepth {
        maxDepth := |events|;
      }
      return Succeeded;
    }

    method PopSection(stop: bool) returns (attempt: Attempt, out: Option<Event>)
      modifies this
      ensures attempt == PopAttempt(old(Value()), stop)
      ensures Value() == Popped(old(Value()))
      ensures out == if attempt.Succeeded? then Some(old(events)[0]) else None
      ensures attempt == if old(events) != [] then Succeeded else if closed || stop then Failed else Waiting
    {
      out := None;
      if strategy.ConditionVariable? {
        if !(closed || stop || events != []) {
          return Waiting, out;
        }
      } else {
        if events == [] {
          if closed || stop {
            return Failed, out;
          }
          return Waiting, out;
        }
      }
      if events == [] {
        return Failed, out;
      }
      out := Some(events[0]);
      events := events[1..];
      return Succeeded, out;
    }

    method Close()
      modifies this
      ensures Value() == old(Value()).(closed := true)
    {
      closed := true;
    }
  }

  // ---- Any number of threads ----

  datatype Pc = Idle | Pushing(ev: Event, policy: Policy, retry: bool) | Popping

  /** `enqueued` and `dequeued` are histories; `reported` are the sizes after each push. */
  datatype State = State(
    queue: Queue,
    pushStop: bool,
    popStop: bool,
    pcs: map<Tid, Pc>,
    enqueued: seq<Event>,
    dequeued: seq<Event>,
    reported: seq<nat>)

  datatype Action =
    | StartPush(t: Tid, ev: Event, policy: Policy)
    | StartPop(t: Tid)
    /** `later`: what a second read of the stop flag within the section gives. */
    | PushSection(t: Tid, later: bool)
    | PopSection(t: Tid)
    | Close
    | RaisePushStop
    | RaisePopStop

  ghost predicate Init(s: State) {
    && s.queue == Queue(s.queue.capacity, s.queue.strategy, [], false, 0)
    && (forall t :: t in s.pcs ==> s.pcs[t].Idle?) && !s.pushStop && !s.popStop
    && s.enqueued == s.dequeued == [] && s.reported == []
  }

  predicate Enabled(s: State, a: Action) {
    match a
    case StartPush(t, _, _) => t in s.pcs && s.pcs[t].Idle?
    case StartPop(t) => t in s.pcs && s.pcs[t].Idle?
    case PushSection(t, later) => t in s.pcs && s.pcs[t].Pushing? && (s.pushStop ==> later)
    case PopSection(t) => t in s.pcs && s.pcs[t].Popping?
    case _ => true
  }

  function DoPush(s: State, t: Tid, later: bool): State
    requires Enabled(s, PushSection(t, later))
  {
    var Pushing(ev, policy, retry) := s.pcs[t];
    var attempt := PushAttempt(s.queue, policy, retry, s.pushStop, later);
    var s1 := s.(queue := Pushed(s.queue, ev, attempt),
                 pcs := s.pcs[t := if attempt.Waiting? then Pushing(ev, policy, true) else Idle]);
    if attempt.Succeeded?
    then s1.(enqueued := s.enqueued + [ev], reported := s.reported + [|s.queue.events| + 1])
    else s1
  }

  function DoPop(s: State, t: Tid): State
    requires Enabled(s, PopSection(t))
  {
    var attempt := PopAttempt(s.queue, s.popStop);
    var s1 := s.(queue := Popped(s.queue), pcs := s.pcs[t := if attempt.Waiting? then Popping else Idle]);
    if attempt.Succeeded? then s1.(dequeued := s.dequeued + [s.queue.events[0]]) else s1
  }

  function Do(s: State, a: Action): State
    requires Enabled(s, a)
  {
    match a
    case StartPush(t, ev, policy) => s.(pcs := s.pcs[t := Pushing(ev, policy, false)])
    case StartPop(t) => s.(pcs := s.pcs[t := Popping])
    case PushSection(t, later) => DoPush(s, t, later).(pushStop := s.pushStop || later)
    case PopSection(t) => DoPop(s, t)
    case Close => s.(queue := s.queue.(closed := true))
    case RaisePushStop => s.(pushStop := true)
    case RaisePopStop => s.(popStop := true)
  }

  ghost predicate Next(s: State, s': State) {
    exists a :: Enabled(s, a) && s' == Do(s, a)
  }

  ghost predicate Reachable(s: State, run: seq<State>) {
    && run != [] && Init(run[0]) && run[|run| - 1] == s
    && forall i :: 0 < i < |run| ==> Next(run[i - 1], run[i])
  }

  ghost predicate DepthsReported(s: State) {
    && (forall i :: 0 <= i < |s.reported| ==> 1 <= s.reported[i] <= s.queue.maxDepth)
    && (if s.reported == [] then s.queue.maxDepth == 0 else s.queue.maxDepth in s.reported)
    && (s.queue.capacity > 0 ==> s.queue.maxDepth <= s.queue.capacity)
  }

  ghost predicate Inv(s: State) {
    && s.dequeued + s.queue.events == s.enqueued
    && (s.queue.capacity > 0 ==> |s.queue.events| <= s.queue.capacity)
    && DepthsReported(s)
    && forall t :: t in s.pcs ==> RetryIsAllowed(s, t)
  }

  ghost predicate RetryIsAllowed(s: State, t: Tid)
    requires t in s.pcs
  {
    s.pcs[t].Pushing? ==> MayRetry(s.queue, s.pcs[t].policy, s.pcs[t].retry)
  }

  lemma PushKeepsInv(s: State, t: Tid, later: bool)
    requires Inv(s) && Enabled(s, PushSection(t, later))
    ensures Inv(Do(s, PushSection(t, later)))
  {
    var s' := Do(s, PushSection(t, later));
    forall u | u in s'.pcs ensures RetryIsAllowed(s', u) {
      assert RetryIsAllowed(s, u);
    }
    var d := |s.queue.events| + 1;
    if s'.reported != s.reported {
      assert s'.reported == s.reported + [d];
      assert s'.queue.maxDepth == d || (s.reported != [] && s.queue.maxDepth in s.reported);
    }
  }

  lemma PopKeepsInv(s: State, t: Tid)
    requires Inv(s) && Enabled(s, PopSection(t))
    ensures Inv(Do(s, PopSection(t)))
  {
  }

  lemma ActionKeepsInv(s: State, a: Action)
    requires Inv(s) && Enabled(s, a)
    ensures Inv(Do(s, a))
  {
    match a
    case PushSection(t, later) => PushKeepsInv(s, t, later);
    case PopSection(t) => PopKeepsInv(s, t);
    case _ =>
      var s' := Do(s, a);
      forall u | u in s'.pcs ensures RetryIsAllowed(s', u) {
        assert RetryIsAllowed(s, u);
      }
  }

  lemma {:induction false} RunKeepsInv(s: State, run: seq<State>)
    requires Reachable(s, run)
    ensures Inv(s)
    decreases |run|
  {
    if |run| > 1 {
      var before := run[|run| - 2];
      assert Next(before, s);
      RunKeepsInv(before, run[..|run| - 1]);
      var a :| Enabled(before, a) && s == Do(before, a);
      ActionKeepsInv(before, a);
    }
  }

  // ---- What holds in every run ----

  /** Exactly the events pushed and not yet popped are inside, in push order, and never more than the capacity. */
  lemma AlwaysFifo(s: State, run: seq<State>)
    requires Reachable(s, run)
    ensures s.enqueued == s.dequeued + s.queue.events
    ensures s.queue.capacity > 0 ==> |s.queue.events| <= s.queue.capacity
  {
    RunKeepsInv(s, run);
  }

  lemma MaxDepthIsMaximum(s: State, run: seq<State>)
    requires Reachable(s, run)
    ensures s.queue.capacity > 0 ==> s.queue.maxDepth <= s.queue.capacity
    ensures forall d :: d in s.reported ==> 1 <= d <= s.queue.maxDepth
    ensures s.reported != [] ==> s.queue.maxDepth in s.reported
  {
    RunKeepsInv(s, run);
  }

  predicate Room(q: Queue) {
    q.capacity == 0 || |q.events| < q.capacity
  }

  /** What a section of `push` by `t` that appends its event leaves. */
  ghost predicate Appends(s: State, s': State, t: Tid, ev: Event) {
    && s'.queue.events == s.queue.events + [ev] && s'.enqueued == s.enqueued + [ev]
    && s'.reported == s.reported + [|s.queue.events| + 1]
    && s' == s.(queue := s'.queue, pcs := s.pcs[t := Idle], enqueued := s'.enqueued, reported := s'.reported,
                pushStop := s'.pushStop)
    && s'.queue == s.queue.(events := s'.queue.events, maxDepth := s'.queue.maxDepth)
  }

  /** A `push` to an open queue, its caller not being stopped: with room it appends its event and returns, under either
      policy and strategy; without, it fails under `Drop` and waits under `Block`, and changes nothing. */
  lemma PushOnOpen(s: State, t: Tid)
    requires Enabled(s, PushSection(t, false)) && !s.queue.closed
    ensures var s', policy := Do(s, PushSection(t, false)), s.pcs[t].policy;
            if Room(s.queue) then Appends(s, s', t, s.pcs[t].ev)
            else s' == s.(pcs := s.pcs[t := if policy.Drop? then Idle else s.pcs[t].(retry := true)])
  {
  }

  /** A `push` to an open queue whose caller turns out to be stopped: without room it fails or, if it saw the flag too
      late, waits; with room it still appends, except for a blocking push under the condition variable. */
  lemma PushOnStopped(s: State, t: Tid)
    requires Enabled(s, PushSection(t, true)) && !s.queue.closed
    ensures var s', pc := Do(s, PushSection(t, true)), s.pcs[t];
            && s'.pushStop
            && if Room(s.queue) then
                 if s.queue.capacity > 0 && pc.policy.Block? && s.queue.strategy.ConditionVariable?
                 then s' == s.(pcs := s.pcs[t := Idle], pushStop := true)
                 else Appends(s, s', t, pc.ev)
               else
                 s' == s.(pcs := s.pcs[t := if pc.policy.Drop? || s.pushStop then Idle else pc.(retry := true)],
                          pushStop := true)
  {
  }

  /** A `push` to a closed queue fails and changes nothing, unless it has waited, spinning, and now finds room. */
  lemma PushOnClosed(s: State, t: Tid, later: bool)
    requires Enabled(s, PushSection(t, later)) && s.queue.closed
    ensures var s', pc := Do(s, PushSection(t, later)), s.pcs[t];
            if pc.retry && s.queue.strategy.SpinYield? && Room(s.queue) then Appends(s, s', t, pc.ev)
            else s' == s.(pcs := s.pcs[t := Idle], pushStop := s.pushStop || later)
  {
  }

  /** A flag goes up when it is raised or a section sees it raised, and stays up. */
  lemma FlagsOnlyRise(s: State, a: Action)
    requires Enabled(s, a)
    ensures Do(s, a).queue.closed <==> s.queue.closed || a.Close?
    ensures Do(s, a).pushStop <==> s.pushStop || a.RaisePushStop? || (a.PushSection? && a.later)
    ensures Do(s, a).popStop <==> s.popStop || a.RaisePopStop?
  {
  }

  /** A `pop` takes the oldest event if there is one; else it fails when closed or stopped, and waits otherwise. */
  lemma PopExactly(s: State, t: Tid)
    requires Enabled(s, PopSection(t))
    ensures var s', q := Do(s, PopSection(t)), s.queue;
            if q.events != [] then
              s' == s.(queue := q.(events := q.events[1..]), pcs := s.pcs[t := Idle],
                       dequeued := s.dequeued + [q.events[0]])
            else
              s' == if q.closed || s.popStop then s.(pcs := s.pcs[t := Idle]) else s
  {
    assert s.pcs[t := Popping] == s.pcs;
  }

  /** A `pop` gives up exactly when everything pushed so far has been popped and the queue is closed or the caller
      stopped: unlike in the other queues, both are seen under the mutex. */
  lemma PopFailsExactlyWhenDrained(s: State, run: seq<State>, t: Tid)
    requires Reachable(s, run) && Enabled(s, PopSection(t))
    ensures PopAttempt(s.queue, s.popStop).Failed? <==> s.dequeued == s.enqueued && (s.queue.closed || s.popStop)
  {
    RunKeepsInv(s, run);
  }

  /** A `push` takes effect on a closed queue exactly when it is a spinning call that has waited and now finds room. */
  lemma PushesAfterClose(s: State, run: seq<State>, t: Tid, later: bool)
    requires Reachable(s, run) && Enabled(s, PushSection(t, later)) && s.queue.closed
    ensures |Do(s, PushSection(t, later)).enqueued| > |s.enqueued| <==>
            s.pcs[t].retry && s.queue.strategy.SpinYield? && |s.queue.events| < s.queue.capacity
  {
    RunKeepsInv(s, run);
    assert RetryIsAllowed(s, t);
  }

  // ---- Calls ----

  function CallOf(pc: Pc): S.Call {
    match pc
    case Idle => S.NoCall
    case Pushing(ev, _, _) => S.PushCall(ev)
    case Popping => S.PopCall
  }

  /** What a step is on the shared queue; a section that ends a call is the call's move and its return. */
  function MoveOf(s: State, a: Action): S.Move
    requires Enabled(s, a)
  {
    match a
    case Close => S.Shut
    case PushSection(t, later) =>
      var Pushing(ev, policy, retry) := s.pcs[t];
      (match PushAttempt(s.queue, policy, retry, s.pushStop, later)
       case Succeeded => S.Put(ev)
       case Failed => S.Refuse(policy, s.pushStop || later)
       case Waiting => S.Quiet)
    case PopSection(t) =>
      (match PopAttempt(s.queue, s.popStop)
       case Succeeded => S.Take(s.queue.events[0])
       case Failed => S.End(s.popStop)
       case Waiting => S.Quiet)
    case _ => S.Quiet
  }

  function Abstract(s: State): S.Queue {
    S.Queue(s.queue.events, s.queue.closed)
  }

  /** The queue behind the mutex is a shared queue as the dispatch pipeline takes it to be: each section is a move that
      such a queue allows, with its effect, and each call makes one such move and returns. */
  lemma IsSharedQueue(s: State, a: Action)
    requires Enabled(s, a)
    ensures var m := MoveOf(s, a);
            && S.Allows(Abstract(s), m) && Abstract(Do(s, a)) == S.After(Abstract(s), m)
            && (a.PushSection? || a.PopSection? ==> MovesAndReturns(CallOf(s.pcs[a.t]), m, CallOf(Do(s, a).pcs[a.t])))
  {
    if a.PushSection? || a.PopSection? {
      var c, m, c' := CallOf(s.pcs[a.t]), MoveOf(s, a), CallOf(Do(s, a).pcs[a.t]);
      var mid := if m.Put? then S.HasPut else if m.Take? then S.HasTaken else c';
      assert S.Follows(c, m, mid) && S.Follows(mid, S.Quiet, c');
    }
  }

  /** The move and the return in one step. */
  ghost predicate MovesAndReturns(c: S.Call, m: S.Move, c': S.Call) {
    exists mid: S.Call :: S.Follows(c, m, mid) && S.Follows(mid, S.Quiet, c')
  }

  lemma Extend(run: seq<State>, s: State, a: Action) returns (longer: seq<State>)
    requires Reachable(s, run) && Enabled(s, a)
    ensures Reachable(Do(s, a), longer) && longer == run + [Do(s, a)]
  {
    longer := run + [Do(s, a)];
    forall i | 0 < i < |longer| ensures Next(longer[i - 1], longer[i]) {
      if i < |run| { assert Next(run[i - 1], run[i]); }
    }
  }

  /** A run that leaves thread 0 waiting for room to push `b` behind `a`. */
  lemma WaitingForRoom(a: Event, b: Event) returns (s: State, run: seq<State>)
    ensures Reachable(s, run)
    ensures s == State(Queue(1, SpinYield, [a], false, 1), false, false,
                       map[0 := Pushing(b, Block, true), 1 := Idle], [a], [], [1])
  {
    s := State(Queue(1, SpinYield, [], false, 0), false, false, map[0 := Idle, 1 := Idle], [], [], []);
    run := [s];
    run := Extend(run, s, StartPush(0, a, Block));
    s := Do(s, StartPush(0, a, Block));
    run := Extend(run, s, PushSection(0, false));
    s := Do(s, PushSection(0, false));
    run := Extend(run, s, StartPush(0, b, Block));
    s := Do(s, StartPush(0, b, Block));
    run := Extend(run, s, PushSection(0, false));
    s := Do(s, PushSection(0, false));
  }

  /** Such a run exists: a pusher waits for room, the queue is closed, a popper makes room, and the pusher succeeds. */
  lemma SpinningPushOutlivesClose(a: Event, b: Event) returns (s: State, run: seq<State>)
    ensures Reachable(s, run) && s.queue.closed && Enabled(s, PushSection(0, false))
    ensures Do(s, PushSection(0, false)).queue.events == [b]
  {
    s, run := WaitingForRoom(a, b);
    run := Extend(run, s, Close);
    s := Do(s, Close);
    run := Extend(run, s, StartPop(1));
    s := Do(s, StartPop(1));
    run := Extend(run, s, PopSection(1));
    s := Do(s, PopSection(1));
  }
}
