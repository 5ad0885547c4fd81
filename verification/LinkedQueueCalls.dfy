/** What single calls on the linked queue do: when they give up, what they do when nothing interrupts them, and what
    they do once the queue is closed. */
module LinkedQueueCalls {
  import opened Events
  import opened LinkedQueue
  import opened LinkedQueueAccesses
  import opened LinkedQueueRuns
  import opened LinkedQueueSteps
  import opened Threads
  import opened Trails

  // ---- When a push gives up ----

  /** Before the node is linked, where a push can still be refused. */
  predicate Deciding(pc: Pc) {
    || pc.CheckClosedFirst? || pc.AcquireSlot? || pc.SlotRetryClosed? || pc.SlotRetryStop? || pc.NewNode?
    || pc.LockTail? || pc.CheckClosed?
  }

  /** A push turns back (it returns, or goes to delete its node first) exactly when it reads `closed` as true, at the
      start, while it waits for a slot or inside the tail lock, when it reads the stop flag as true while it waits, or
      when its `try_acquire` fails under `Drop`; then it has linked nothing. */
  lemma PushGivesUpExactlyWhen(s: State, t: Tid, choice: bool, newId: NodeId)
    requires CanStep(s, t, choice, newId) && Deciding(s.pcs[t])
    ensures var pc, s' := s.pcs[t], Do(s, Step(t, choice, newId));
            && (s'.pcs[t].Idle? || s'.pcs[t].DeleteNode? <==>
                  || (pc.CheckClosedFirst? && s.flags.closed)
                  || (pc.AcquireSlot? && pc.policy.Drop? && !choice)
                  || (pc.SlotRetryClosed? && s.flags.closed) || (pc.SlotRetryStop? && s.flags.pushStop)
                  || (pc.CheckClosed? && s.flags.closed))
            && (s'.pcs[t].DeleteNode? ==> pc.CheckClosed? && s'.pcs[t].node == pc.node)
            && Contents(s') == Contents(s)
  {
  }

  /** In every run a thread in the queue can take its next access, except that it may have to wait for a lock. */
  lemma NeverStuck(s: State, run: seq<State>, t: Tid, choice: bool, newId: NodeId)
    requires Reachable(s, run) && t in s.pcs && !s.pcs[t].Idle? && newId !in s.memory.nodes
    ensures CanStep(s, t, choice, newId) <==>
            && (s.pcs[t].LockTail? ==> s.sync.tailLock.Free?) && (s.pcs[t].LockHead? ==> s.sync.headLock.Free?)
            && (choice && s.pcs[t].AcquireSlot? ==> s.sync.slots > 0)
            && (choice && s.pcs[t].AcquireItem? ==> s.sync.items > 0)
  {
    if !s.pcs[t].LockTail? && !s.pcs[t].LockHead? { NoFreedNodeIsAccessed(s, run, t, newId); }
  }

  // ---- Calls that nothing interrupts ----

  /** A closed queue refuses a push at once. */
  lemma PushAloneOnClosed(s: State, t: Tid, id: NodeId, ev: Event, policy: Policy)
    requires t in s.pcs && s.pcs[t].Idle? && s.flags.closed
    ensures Enabled(s, StartPush(t, ev, policy)) && Alone(Do(s, StartPush(t, ev, policy)), t, id, 1, s)
  {
    var end := ReadsClosedFirst(Do(s, StartPush(t, ev, policy)), t, id, ev, policy);
    assert end.pcs == s.pcs;
  }

  /** Without a slot to be had, a push to an open queue is refused under `Drop`, and under `Block` when stopped; else it
      goes on waiting for a slot. */
  lemma PushAloneWithoutSlot(s: State, t: Tid, id: NodeId, ev: Event, policy: Policy) returns (n: nat, end: State)
    requires t in s.pcs && s.pcs[t].Idle? && !s.flags.closed && s.capacity > 0 && s.sync.slots == 0
    ensures Enabled(s, StartPush(t, ev, policy)) && Alone(Do(s, StartPush(t, ev, policy)), t, id, n, end)
    ensures end == if policy.Drop? || s.flags.pushStop then s else At(s, t, AcquireSlot(ev, policy))
    ensures n == if policy.Drop? then 2 else 4
  {
    var begun := Do(s, StartPush(t, ev, policy));
    var s1 := ReadsClosedFirst(begun, t, id, ev, policy);
    end := FindsNoSlot(s1, t, id, ev, policy);
    Then(Goes(t, id), begun, 1, s1, 1, end);
    n := 2;
    if policy.Block? {
      var s2 := RetryReadsClosed(end, t, id, ev, policy);
      Then(Goes(t, id), begun, 2, end, 1, s2);
      var s3 := RetryReadsStop(s2, t, id, ev, policy);
      Then(Goes(t, id), begun, 3, s2, 1, s3);
      n, end := 4, s3;
    }
    assert end.pcs == if policy.Drop? || s.flags.pushStop then s.pcs else s.pcs[t := AcquireSlot(ev, policy)];
  }

  /** What a push that has returned has left: its event behind the others, and all tokens and counters in step. */
  ghost predicate HasPushed(s: State, s': State, ev: Event) {
    && s'.history.enqueued == s.history.enqueued + [ev] && s'.history.dequeued == s.history.dequeued
    && s'.stats.depth == s.stats.depth + 1 && s'.stats.reported == s.stats.reported + [s.stats.depth + 1]
    && s.sync.slots == (if s.capacity > 0 then s'.sync.slots + 1 else s'.sync.slots)
    && s'.sync == s.sync.(slots := s'.sync.slots, items := s.sync.items + 1)
    && s'.capacity == s.capacity && s'.flags == s.flags && s'.pcs == s.pcs && s'.memory.head == s.memory.head
  }

  /** On an open queue that is unbounded or has a slot, with the tail lock free, a push links its event and returns,
      under either policy and whether the caller has been stopped or not. */
  lemma PushAlone(s: State, run: seq<State>, t: Tid, id: NodeId, ev: Event, policy: Policy)
      returns (n: nat, end: State)
    requires Reachable(s, run) && t in s.pcs && s.pcs[t].Idle? && s.sync.tailLock.Free? && id !in s.memory.nodes
    requires !s.flags.closed && (s.capacity > 0 ==> s.sync.slots > 0)
    ensures Enabled(s, StartPush(t, ev, policy)) && Alone(Do(s, StartPush(t, ev, policy)), t, id, n, end)
    ensures HasPushed(s, end, ev)
  {
    assert s.memory.tail in s.memory.nodes by {
      RunKeepsInv(s, run);
      EndsAreInQueue(s);
    }
    n, end := PushesAlone(Do(s, StartPush(t, ev, policy)), t, id, ev, policy);
    assert end.pcs == s.pcs;
  }

  lemma PushesAlone(s: State, t: Tid, id: NodeId, ev: Event, policy: Policy) returns (n: nat, end: State)
    requires t in s.pcs && s.pcs[t] == CheckClosedFirst(ev, policy) && !s.flags.closed
    requires s.capacity > 0 ==> s.sync.slots > 0
    requires id !in s.memory.nodes && s.memory.tail in s.memory.nodes && s.sync.tailLock.Free?
    ensures Alone(s, t, id, n, end) && HasPushed(At(s, t, Idle), end, ev)
  {
    var m, s3 := LinksAlone(s, t, id, ev, policy);
    end := Announces(s3, t, id, id);
    Then(Goes(t, id), s, m, s3, 5, end);
    n := m + 5;
    assert end.pcs == s.pcs[t := Idle];
  }

  /** As far as linking the node. */
  lemma LinksAlone(s: State, t: Tid, id: NodeId, ev: Event, policy: Policy) returns (n: nat, end: State)
    requires t in s.pcs && s.pcs[t] == CheckClosedFirst(ev, policy) && !s.flags.closed
    requires s.capacity > 0 ==> s.sync.slots > 0
    requires id !in s.memory.nodes && s.memory.tail in s.memory.nodes && s.sync.tailLock.Free?
    ensures Alone(s, t, id, n, end)
    ensures s.sync.slots == if s.capacity > 0 then end.sync.slots + 1 else end.sync.slots
    ensures end == At(s, t, MoveTail(id)).(memory := end.memory, history := end.history,
                     sync := s.sync.(slots := end.sync.slots, tailLock := HeldBy(t)))
    ensures end.history.enqueued == s.history.enqueued + [ev] && end.history.dequeued == s.history.dequeued
    ensures end.memory.head == s.memory.head
  {
    var m, s1 := Reserves(s, t, id, ev, policy);
    var s2 := Prepares(s1, t, id, ev);
    Then(Goes(t, id), s, m, s1, 3, s2);
    end := Links(s2, t, id, ev, id);
    Then(Goes(t, id), s, m + 3, s2, 1, end);
    n := m + 4;
    assert end.pcs == s.pcs[t := MoveTail(id)];
  }

  lemma Reserves(s: State, t: Tid, id: NodeId, ev: Event, policy: Policy) returns (n: nat, end: State)
    requires t in s.pcs && s.pcs[t] == CheckClosedFirst(ev, policy) && !s.flags.closed
    requires s.capacity > 0 ==> s.sync.slots > 0
    ensures Alone(s, t, id, n, end)
    ensures end == At(s, t, NewNode(ev))
                   .(sync := s.sync.(slots := if s.capacity > 0 then s.sync.slots - 1 else s.sync.slots))
  {
    end := ReadsClosedFirst(s, t, id, ev, policy);
    n := 1;
    if s.capacity > 0 {
      var s2 := TakesSlot(end, t, id, ev, policy);
      Then(Goes(t, id), s, 1, end, 1, s2);
      n, end := 2, s2;
    }
    assert end.pcs == s.pcs[t := NewNode(ev)];
  }

  /** From the allocation into the tail lock. */
  lemma Prepares(s: State, t: Tid, id: NodeId, ev: Event) returns (end: State)
    requires t in s.pcs && s.pcs[t] == NewNode(ev) && id !in s.memory.nodes && s.sync.tailLock.Free?
    requires !s.flags.closed
    ensures Alone(s, t, id, 3, end)
    ensures end == At(s, t, LinkNext(ev, id))
                   .(memory := s.memory.(nodes := s.memory.nodes[id := Node(Some(ev), None)]),
                     history := s.history.(owner := s.history.owner[id := Private(t)]),
                     sync := s.sync.(tailLock := HeldBy(t)))
  {
    var s1 := Allocates(s, t, id, ev);
    var s2 := LocksTail(s1, t, id, ev, id);
    Then(Goes(t, id), s, 1, s1, 1, s2);
    end := ReadsClosed(s2, t, id, ev, id);
    Then(Goes(t, id), s, 2, s2, 1, end);
    assert end.pcs == s.pcs[t := LinkNext(ev, id)];
  }

  lemma Announces(s: State, t: Tid, id: NodeId, node: NodeId) returns (end: State)
    requires t in s.pcs && s.pcs[t] == MoveTail(node)
    ensures Alone(s, t, id, 5, end)
    ensures end == At(s, t, Idle)
                   .(memory := s.memory.(tail := node),
                     stats := Stats(s.stats.depth + 1, Max(s.stats.maxDepth, s.stats.depth + 1),
                                    s.stats.reported + [s.stats.depth + 1]),
                     sync := s.sync.(tailLock := Free, items := s.sync.items + 1))
  {
    var s1 := MovesTail(s, t, id, node);
    var s2 := CountsUp(s1, t, id);
    Then(Goes(t, id), s, 1, s1, 1, s2);
    var s3 := RecordsDepth(s2, t, id, s.stats.depth + 1);
    Then(Goes(t, id), s, 2, s2, 1, s3);
    var s4 := UnlocksTail(s3, t, id);
    Then(Goes(t, id), s, 3, s3, 1, s4);
    end := ReleasesItem(s4, t, id);
    Then(Goes(t, id), s, 4, s4, 1, end);
    assert end.pcs == s.pcs[t := Idle];
  }

  /** A push that finds the queue closed inside the tail lock returns with its node deleted, its slot given back, and
      the lock free. */
  lemma RefusedAlone(s: State, t: Tid, id: NodeId, ev: Event, node: NodeId) returns (end: State)
    requires t in s.pcs && s.pcs[t] == CheckClosed(ev, node) && s.flags.closed
    ensures Alone(s, t, id, 4, end)
    ensures end == At(s, t, Idle)
                   .(memory := s.memory.(nodes := s.memory.nodes - {node}),
                     history := s.history.(owner := s.history.owner - {node}),
                     sync := s.sync.(tailLock := Free,
                                     slots := OneBack(s)))
  {
    var s1 := ReadsClosed(s, t, id, ev, node);
    var s2 := DeletesNode(s1, t, id, node);
    Then(Goes(t, id), s, 1, s1, 1, s2);
    var s3 := GivesSlotBack(s2, t, id);
    Then(Goes(t, id), s, 2, s2, 1, s3);
    end := UnlocksRefused(s3, t, id);
    Then(Goes(t, id), s, 3, s3, 1, end);
    assert end.pcs == s.pcs[t := Idle];
  }

  /** A pop that nothing interrupts: without an item to be had it fails when closed or stopped and is else back where it
      began. */
  lemma PopAloneWithoutItem(s: State, t: Tid, id: NodeId) returns (n: nat, end: State)
    requires t in s.pcs && s.pcs[t].Idle? && s.sync.items == 0
    ensures Enabled(s, StartPop(t)) && n > 0 && Alone(Do(s, StartPop(t)), t, id, n, end)
    ensures end == if s.flags.closed || s.flags.popStop then s else Do(s, StartPop(t))
  {
    var begun := Do(s, StartPop(t));
    var s1 := FindsNoItem(begun, t, id);
    end := PopReadsClosed(s1, t, id);
    Then(Goes(t, id), begun, 1, s1, 1, end);
    n := 2;
    if !s.flags.closed {
      var s3 := PopReadsStop(end, t, id);
      Then(Goes(t, id), begun, 2, end, 1, s3);
      n, end := 3, s3;
    }
    assert end.pcs == if s.flags.closed || s.flags.popStop then s.pcs else begun.pcs;
  }

  /** What a pop that has returned has left: the oldest event taken, its node the new dummy, the old dummy deleted. */
  ghost predicate HasPopped(s: State, s': State) {
    && |s.history.dequeued| < |s.history.enqueued|
    && s'.history.dequeued == s.history.dequeued + [s.history.enqueued[|s.history.dequeued|]]
    && s'.history.enqueued == s.history.enqueued && s'.stats.depth == Decremented(s.stats.depth)
    && s.sync.items == s'.sync.items + 1 && s'.sync == s.sync.(slots := OneBack(s), items := s'.sync.items)
    && s'.capacity == s.capacity && s'.flags == s.flags && s'.pcs == s.pcs
    && s'.memory.tail == s.memory.tail && s'.memory.nodes == s.memory.nodes - {s.memory.head}
  }

  /** With an item to be had and the head lock free, a pop takes the oldest event, whatever the flags. */
  lemma PopAlone(s: State, run: seq<State>, t: Tid, id: NodeId) returns (end: State)
    requires Reachable(s, run) && t in s.pcs && s.pcs[t].Idle? && s.sync.headLock.Free? && s.sync.items > 0
    ensures Enabled(s, StartPop(t)) && Alone(Do(s, StartPop(t)), t, id, 10, end) && HasPopped(s, end)
  {
    OldestIsNext(s, run);
    var node := s.memory.nodes[s.memory.head].next.value;
    end := PopsAlone(Do(s, StartPop(t)), t, id, node, s.history.enqueued[|s.history.dequeued|]);
    assert end.pcs == s.pcs;
  }

  lemma PopsAlone(s: State, t: Tid, id: NodeId, node: NodeId, ev: Event) returns (end: State)
    requires t in s.pcs && s.pcs[t].AcquireItem? && s.sync.headLock.Free? && s.sync.items > 0
    requires s.memory.head in s.memory.nodes && node in s.memory.nodes
    requires s.memory.nodes[s.memory.head].next == Some(node) && s.memory.nodes[node].value == Some(ev)
    requires |s.history.dequeued| < |s.history.enqueued| && ev == s.history.enqueued[|s.history.dequeued|]
    ensures Alone(s, t, id, 10, end) && HasPopped(At(s, t, Idle), end)
  {
    var s1 := TakesItem(s, t, id);
    var s2 := LocksHead(s1, t, id);
    Then(Goes(t, id), s, 1, s1, 1, s2);
    var s3 := Reads(s2, t, id, node, ev);
    Then(Goes(t, id), s, 2, s2, 3, s3);
    end := Takes(s3, t, id, s.memory.head, node, ev);
    Then(Goes(t, id), s, 5, s3, 5, end);
    assert end.pcs == s.pcs[t := Idle];
  }

  lemma OldestIsNext(s: State, run: seq<State>)
    requires Reachable(s, run) && s.sync.items > 0
    ensures |s.history.dequeued| < |s.history.enqueued| && s.memory.head in s.memory.nodes
    ensures var next := s.memory.nodes[s.memory.head].next;
            && next.Some? && next.value in s.memory.nodes
            && s.memory.nodes[next.value].value == Some(s.history.enqueued[|s.history.dequeued|])
  {
    RunKeepsInv(s, run);
    assert ChainAt(s, |s.history.dequeued|) && ChainAt(s, |s.history.dequeued| + 1);
  }

  lemma Reads(s: State, t: Tid, id: NodeId, node: NodeId, ev: Event) returns (end: State)
    requires t in s.pcs && s.pcs[t].LoadHead? && s.memory.head in s.memory.nodes && node in s.memory.nodes
    requires s.memory.nodes[s.memory.head].next == Some(node) && s.memory.nodes[node].value == Some(ev)
    ensures Alone(s, t, id, 3, end) && end == At(s, t, MoveHead(s.memory.head, node, ev))
  {
    var s1 := LoadsHead(s, t, id);
    var s2 := LoadsNext(s1, t, id, s.memory.head);
    Then(Goes(t, id), s, 1, s1, 1, s2);
    end := ReadsValue(s2, t, id, s.memory.head, node);
    Then(Goes(t, id), s, 2, s2, 1, end);
    assert end.pcs == s.pcs[t := MoveHead(s.memory.head, node, ev)];
  }

  lemma Takes(s: State, t: Tid, id: NodeId, first: NodeId, node: NodeId, ev: Event) returns (end: State)
    requires t in s.pcs && s.pcs[t] == MoveHead(first, node, ev)
    ensures Alone(s, t, id, 5, end)
    ensures end == At(s, t, Idle)
                   .(memory := s.memory.(head := node, nodes := s.memory.nodes - {first}),
                     history := s.history.(owner := s.history.owner[first := Private(t)] - {first},
                                           dequeued := s.history.dequeued + [ev]),
                     stats := s.stats.(depth := Decremented(s.stats.depth)),
                     sync := s.sync.(headLock := Free,
                                     slots := OneBack(s)))
  {
    var s1 := MovesHead(s, t, id, first, node, ev);
    var s2 := CountsDown(s1, t, id, first);
    Then(Goes(t, id), s, 1, s1, 1, s2);
    var s3 := UnlocksHead(s2, t, id, first);
    Then(Goes(t, id), s, 2, s2, 1, s3);
    var s4 := DeletesOld(s3, t, id, first);
    Then(Goes(t, id), s, 3, s3, 1, s4);
    end := ReturnsSlot(s4, t, id);
    Then(Goes(t, id), s, 4, s4, 1, end);
    assert end.pcs == s.pcs[t := Idle];
  }

  // ---- After close ----

  /** A flag goes up when it is raised, and stays up. */
  lemma FlagsOnlyRise(s: State, a: Action)
    requires Enabled(s, a)
    ensures Do(s, a).flags.closed <==> s.flags.closed || a.Close?
    ensures Do(s, a).flags.pushStop <==> s.flags.pushStop || a.RaisePushStop?
    ensures Do(s, a).flags.popStop <==> s.flags.popStop || a.RaisePopStop?
  {
  }

  /** A run that goes on from `s`. */
  ghost predicate Continues(s: State, later: seq<State>) {
    && later != [] && later[0] == s
    && forall i :: 0 < i < |later| ==> Next(later[i - 1], later[i])
  }

  predicate AtLink(pc: Pc) { pc.LinkNext? }

  /** The events linked, and those that pushes past their last check will still link. */
  ghost function Bound(s: State): nat {
    |s.history.enqueued| + Count(s.pcs, AtLink)
  }

  /** Thread `t` has no push that links its event. */
  predicate Barred(s: State, t: Tid) {
    t in s.pcs ==> !s.pcs[t].LinkNext? && !Announcing(s.pcs[t])
  }

  /** What a step changes as far as linking is concerned. */
  predicate LinksNoMore(s: State, s': State, t: Tid)
    requires t in s.pcs && t in s'.pcs
  {
    && s'.flags == s.flags
    && |s'.history.enqueued| + One(AtLink(s'.pcs[t])) == |s.history.enqueued| + One(AtLink(s.pcs[t]))
    && (Barred(s, t) ==> Barred(s', t) && s'.history.enqueued == s.history.enqueued)
  }

  lemma PushOnce(s: State, t: Tid, choice: bool, newId: NodeId)
    requires s.flags.closed && CanStep(s, t, choice, newId) && Pushing(s.pcs[t])
    ensures LinksNoMore(s, PushStep(s, t, choice, newId), t)
  {
  }

  lemma PopOnce(s: State, t: Tid, choice: bool)
    requires CanStep(s, t, choice, 0) && !Pushing(s.pcs[t])
    ensures LinksNoMore(s, PopStep(s, t, choice), t)
  {
  }

  lemma {:induction false} ClosedStep(s: State, a: Action)
    requires s.flags.closed && Enabled(s, a)
    ensures Do(s, a).flags.closed && Bound(Do(s, a)) == Bound(s)
    ensures forall t :: Barred(s, t) ==> Barred(Do(s, a), t)
  {
    var s' := Do(s, a);
    match a
    case Step(t, choice, newId) =>
      if Pushing(s.pcs[t]) { PushOnce(s, t, choice, newId); } else { PopOnce(s, t, choice); }
      CountMoved(s.pcs, t, s'.pcs[t], AtLink);
    case StartPush(t, ev, policy) => CountMoved(s.pcs, t, s'.pcs[t], AtLink);
    case StartPop(t) => CountMoved(s.pcs, t, s'.pcs[t], AtLink);
    case _ =>
  }

  /** The thread about to link is alone in the tail lock. */
  lemma {:induction false} OneAtLink(s: State, run: seq<State>)
    requires Reachable(s, run)
    ensures Count(s.pcs, AtLink) <= 1
  {
    RunKeepsInv(s, run);
    var linkers := Those(s.pcs, AtLink);
    forall t | t in linkers ensures s.sync.tailLock == HeldBy(t) {
      assert LockedAt(s, t);
    }
    if s.sync.tailLock.HeldBy? { SubsetCount(linkers, {s.sync.tailLock.owner}); } else { assert linkers == {}; }
  }

  /** After `close` at most one more event is ever linked, that of a push which is past its last check; a thread without
      such a push links nothing any more, so that all its pushes, begun before or after, fail. */
  lemma {:induction false} PushesAfterClose(s: State, run: seq<State>, later: seq<State>)
    requires Reachable(s, run) && Continues(Do(s, Close), later)
    ensures var end := later[|later| - 1];
            && end.flags.closed && Bound(end) == Bound(s) <= |s.history.enqueued| + 1
            && forall t :: Barred(s, t) ==> Barred(end, t)
    decreases |later|
  {
    OneAtLink(s, run);
    if |later| > 1 {
      var before, end := later[|later| - 2], later[|later| - 1];
      PushesAfterClose(s, run, later[..|later| - 1]);
      assert Next(before, end);
      var b :| Enabled(before, b) && end == Do(before, b);
      ClosedStep(before, b);
    }
  }
}
