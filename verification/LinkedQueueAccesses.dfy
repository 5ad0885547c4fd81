/** The accesses of one thread to the linked queue, one by one. A `try_acquire` succeeds if there is a token, and an
    allocation gives node `id`. */
module LinkedQueueAccesses {
  import opened Events
  import opened LinkedQueue
  import opened Threads
  import opened Trails

  predicate Acquires(s: State, t: Tid)
    requires t in s.pcs
  {
    (s.pcs[t].AcquireSlot? && s.sync.slots > 0) || (s.pcs[t].AcquireItem? && s.sync.items > 0)
  }

  /** One access of thread `t`. */
  predicate Accesses(s: State, t: Tid, id: NodeId, s': State) {
    t in s.pcs && CanStep(s, t, Acquires(s, t), id) && s' == Do(s, Step(t, Acquires(s, t), id))
  }

  ghost function Goes(t: Tid, id: NodeId): (State, State) -> bool {
    (s: State, s': State) => Accesses(s, t, id, s')
  }

  /** `n` accesses of thread `t`, with no other thread between them, lead from `s` to `s'`. */
  ghost predicate Alone(s: State, t: Tid, id: NodeId, n: nat, s': State) {
    Leads(Goes(t, id), s, n, s')
  }

  lemma GoesOnce(s: State, t: Tid, id: NodeId, s': State)
    requires Accesses(s, t, id, s')
    ensures Alone(s, t, id, 1, s')
  {
    Once(Goes(t, id), s, s');
  }

  /** Where thread `t` is, and everything else as in `s`. */
  function At(s: State, t: Tid, pc: Pc): State {
    s.(pcs := s.pcs[t := pc])
  }

  /** The slots once a thread has given one back; an unbounded queue has none. */
  function OneBack(s: State): nat {
    if s.capacity > 0 then s.sync.slots + 1 else s.sync.slots
  }

  // ---- Push ----

  lemma ReadsClosedFirst(s: State, t: Tid, id: NodeId, ev: Event, policy: Policy) returns (s': State)
    requires t in s.pcs && s.pcs[t] == CheckClosedFirst(ev, policy)
    ensures Alone(s, t, id, 1, s')
    ensures s' == At(s, t, if s.flags.closed then Idle
                        else if s.capacity > 0 then AcquireSlot(ev, policy) else NewNode(ev))
  {
    s' := At(s, t, if s.flags.closed then Idle else if s.capacity > 0 then AcquireSlot(ev, policy) else NewNode(ev));
    GoesOnce(s, t, id, s');
  }

  lemma TakesSlot(s: State, t: Tid, id: NodeId, ev: Event, policy: Policy) returns (s': State)
    requires t in s.pcs && s.pcs[t] == AcquireSlot(ev, policy) && s.sync.slots > 0
    ensures Alone(s, t, id, 1, s') && s' == At(s, t, NewNode(ev)).(sync := s.sync.(slots := s.sync.slots - 1))
  {
    s' := At(s, t, NewNode(ev)).(sync := s.sync.(slots := s.sync.slots - 1));
    GoesOnce(s, t, id, s');
  }

  lemma FindsNoSlot(s: State, t: Tid, id: NodeId, ev: Event, policy: Policy) returns (s': State)
    requires t in s.pcs && s.pcs[t] == AcquireSlot(ev, policy) && s.sync.slots == 0
    ensures Alone(s, t, id, 1, s') && s' == At(s, t, if policy.Drop? then Idle else SlotRetryClosed(ev, policy))
  {
    s' := At(s, t, if policy.Drop? then Idle else SlotRetryClosed(ev, policy));
    GoesOnce(s, t, id, s');
  }

  lemma RetryReadsClosed(s: State, t: Tid, id: NodeId, ev: Event, policy: Policy) returns (s': State)
    requires t in s.pcs && s.pcs[t] == SlotRetryClosed(ev, policy)
    ensures Alone(s, t, id, 1, s') && s' == At(s, t, if s.flags.closed then Idle else SlotRetryStop(ev, policy))
  {
    s' := At(s, t, if s.flags.closed then Idle else SlotRetryStop(ev, policy));
    GoesOnce(s, t, id, s');
  }

  lemma RetryReadsStop(s: State, t: Tid, id: NodeId, ev: Event, policy: Policy) returns (s': State)
    requires t in s.pcs && s.pcs[t] == SlotRetryStop(ev, policy)
    ensures Alone(s, t, id, 1, s') && s' == At(s, t, if s.flags.pushStop then Idle else AcquireSlot(ev, policy))
  {
    s' := At(s, t, if s.flags.pushStop then Idle else AcquireSlot(ev, policy));
    GoesOnce(s, t, id, s');
  }

  lemma Allocates(s: State, t: Tid, id: NodeId, ev: Event) returns (s': State)
    requires t in s.pcs && s.pcs[t] == NewNode(ev) && id !in s.memory.nodes
    ensures Alone(s, t, id, 1, s')
    ensures s' == At(s, t, LockTail(ev, id))
                  .(memory := s.memory.(nodes := s.memory.nodes[id := Node(Some(ev), None)]),
                    history := s.history.(owner := s.history.owner[id := Private(t)]))
  {
    s' := At(s, t, LockTail(ev, id))
            .(memory := s.memory.(nodes := s.memory.nodes[id := Node(Some(ev), None)]),
              history := s.history.(owner := s.history.owner[id := Private(t)]));
    GoesOnce(s, t, id, s');
  }

  lemma LocksTail(s: State, t: Tid, id: NodeId, ev: Event, node: NodeId) returns (s': State)
    requires t in s.pcs && s.pcs[t] == LockTail(ev, node) && s.sync.tailLock.Free?
    ensures Alone(s, t, id, 1, s') && s' == At(s, t, CheckClosed(ev, node)).(sync := s.sync.(tailLock := HeldBy(t)))
  {
    s' := At(s, t, CheckClosed(ev, node)).(sync := s.sync.(tailLock := HeldBy(t)));
    GoesOnce(s, t, id, s');
  }

  lemma ReadsClosed(s: State, t: Tid, id: NodeId, ev: Event, node: NodeId) returns (s': State)
    requires t in s.pcs && s.pcs[t] == CheckClosed(ev, node)
    ensures Alone(s, t, id, 1, s') && s' == At(s, t, if s.flags.closed then DeleteNode(node) else LinkNext(ev, node))
  {
    s' := At(s, t, if s.flags.closed then DeleteNode(node) else LinkNext(ev, node));
    GoesOnce(s, t, id, s');
  }

  lemma DeletesNode(s: State, t: Tid, id: NodeId, node: NodeId) returns (s': State)
    requires t in s.pcs && s.pcs[t] == DeleteNode(node)
    ensures Alone(s, t, id, 1, s')
    ensures s' == At(s, t, GiveSlotBack)
                  .(memory := s.memory.(nodes := s.memory.nodes - {node}),
                    history := s.history.(owner := s.history.owner - {node}))
  {
    s' := At(s, t, GiveSlotBack)
            .(memory := s.memory.(nodes := s.memory.nodes - {node}),
              history := s.history.(owner := s.history.owner - {node}));
    GoesOnce(s, t, id, s');
  }

  lemma GivesSlotBack(s: State, t: Tid, id: NodeId) returns (s': State)
    requires t in s.pcs && s.pcs[t] == GiveSlotBack
    ensures Alone(s, t, id, 1, s')
    ensures s' == At(s, t, UnlockRefused).(sync := s.sync.(slots := OneBack(s)))
  {
    s' := At(s, t, UnlockRefused).(sync := s.sync.(slots := OneBack(s)));
    GoesOnce(s, t, id, s');
  }

  lemma UnlocksRefused(s: State, t: Tid, id: NodeId) returns (s': State)
    requires t in s.pcs && s.pcs[t] == UnlockRefused
    ensures Alone(s, t, id, 1, s') && s' == At(s, t, Idle).(sync := s.sync.(tailLock := Free))
  {
    s' := At(s, t, Idle).(sync := s.sync.(tailLock := Free));
    GoesOnce(s, t, id, s');
  }

  lemma Links(s: State, t: Tid, id: NodeId, ev: Event, node: NodeId) returns (s': State)
    requires t in s.pcs && s.pcs[t] == LinkNext(ev, node) && s.memory.tail in s.memory.nodes
    ensures Alone(s, t, id, 1, s') && s' == At(s, t, MoveTail(node)).(memory := s'.memory, history := s'.history)
    ensures s'.history.enqueued == s.history.enqueued + [ev] && s'.history.dequeued == s.history.dequeued
    ensures s'.memory.head == s.memory.head
  {
    s' := Do(s, Step(t, false, id));
    GoesOnce(s, t, id, s');
  }

  lemma MovesTail(s: State, t: Tid, id: NodeId, node: NodeId) returns (s': State)
    requires t in s.pcs && s.pcs[t] == MoveTail(node)
    ensures Alone(s, t, id, 1, s') && s' == At(s, t, IncDepth).(memory := s.memory.(tail := node))
  {
    s' := At(s, t, IncDepth).(memory := s.memory.(tail := node));
    GoesOnce(s, t, id, s');
  }

  lemma CountsUp(s: State, t: Tid, id: NodeId) returns (s': State)
    requires t in s.pcs && s.pcs[t] == IncDepth
    ensures Alone(s, t, id, 1, s')
    ensures s' == At(s, t, RecordDepth(s.stats.depth + 1)).(stats := s.stats.(depth := s.stats.depth + 1))
  {
    s' := At(s, t, RecordDepth(s.stats.depth + 1)).(stats := s.stats.(depth := s.stats.depth + 1));
    GoesOnce(s, t, id, s');
  }

  lemma RecordsDepth(s: State, t: Tid, id: NodeId, depth: nat) returns (s': State)
    requires t in s.pcs && s.pcs[t] == RecordDepth(depth)
    ensures Alone(s, t, id, 1, s')
    ensures s' == At(s, t, UnlockTail)
                  .(stats := Stats(s.stats.depth, Max(s.stats.maxDepth, depth), s.stats.reported + [depth]))
  {
    s' := At(s, t, UnlockTail)
            .(stats := Stats(s.stats.depth, Max(s.stats.maxDepth, depth), s.stats.reported + [depth]));
    GoesOnce(s, t, id, s');
  }

  lemma UnlocksTail(s: State, t: Tid, id: NodeId) returns (s': State)
    requires t in s.pcs && s.pcs[t] == UnlockTail
    ensures Alone(s, t, id, 1, s') && s' == At(s, t, ReleaseItem).(sync := s.sync.(tailLock := Free))
  {
    s' := At(s, t, ReleaseItem).(sync := s.sync.(tailLock := Free));
    GoesOnce(s, t, id, s');
  }

  lemma ReleasesItem(s: State, t: Tid, id: NodeId) returns (s': State)
    requires t in s.pcs && s.pcs[t] == ReleaseItem
    ensures Alone(s, t, id, 1, s') && s' == At(s, t, Idle).(sync := s.sync.(items := s.sync.items + 1))
  {
    s' := At(s, t, Idle).(sync := s.sync.(items := s.sync.items + 1));
    GoesOnce(s, t, id, s');
  }

  // ---- Pop ----

  lemma TakesItem(s: State, t: Tid, id: NodeId) returns (s': State)
    requires t in s.pcs && s.pcs[t] == AcquireItem && s.sync.items > 0
    ensures Alone(s, t, id, 1, s') && s' == At(s, t, LockHead).(sync := s.sync.(items := s.sync.items - 1))
  {
    s' := At(s, t, LockHead).(sync := s.sync.(items := s.sync.items - 1));
    GoesOnce(s, t, id, s');
  }

  lemma FindsNoItem(s: State, t: Tid, id: NodeId) returns (s': State)
    requires t in s.pcs && s.pcs[t] == AcquireItem && s.sync.items == 0
    ensures Alone(s, t, id, 1, s') && s' == At(s, t, ItemRetryClosed)
  {
    s' := At(s, t, ItemRetryClosed);
    GoesOnce(s, t, id, s');
  }

  lemma PopReadsClosed(s: State, t: Tid, id: NodeId) returns (s': State)
    requires t in s.pcs && s.pcs[t] == ItemRetryClosed
    ensures Alone(s, t, id, 1, s') && s' == At(s, t, if s.flags.closed then Idle else ItemRetryStop)
  {
    s' := At(s, t, if s.flags.closed then Idle else ItemRetryStop);
    GoesOnce(s, t, id, s');
  }

  lemma PopReadsStop(s: State, t: Tid, id: NodeId) returns (s': State)
    requires t in s.pcs && s.pcs[t] == ItemRetryStop
    ensures Alone(s, t, id, 1, s') && s' == At(s, t, if s.flags.popStop then Idle else AcquireItem)
  {
    s' := At(s, t, if s.flags.popStop then Idle else AcquireItem);
    GoesOnce(s, t, id, s');
  }

  lemma LocksHead(s: State, t: Tid, id: NodeId) returns (s': State)
    requires t in s.pcs && s.pcs[t] == LockHead && s.sync.headLock.Free?
    ensures Alone(s, t, id, 1, s') && s' == At(s, t, LoadHead).(sync := s.sync.(headLock := HeldBy(t)))
  {
    s' := At(s, t, LoadHead).(sync := s.sync.(headLock := HeldBy(t)));
    GoesOnce(s, t, id, s');
  }

  lemma LoadsHead(s: State, t: Tid, id: NodeId) returns (s': State)
    requires t in s.pcs && s.pcs[t] == LoadHead
    ensures Alone(s, t, id, 1, s') && s' == At(s, t, LoadNext(s.memory.head))
  {
    s' := At(s, t, LoadNext(s.memory.head));
    GoesOnce(s, t, id, s');
  }

  lemma LoadsNext(s: State, t: Tid, id: NodeId, first: NodeId) returns (s': State)
    requires t in s.pcs && s.pcs[t] == LoadNext(first) && first in s.memory.nodes && s.memory.nodes[first].next.Some?
    ensures Alone(s, t, id, 1, s') && s' == At(s, t, ReadValue(first, s.memory.nodes[first].next.value))
  {
    s' := At(s, t, ReadValue(first, s.memory.nodes[first].next.value));
    GoesOnce(s, t, id, s');
  }

  lemma ReadsValue(s: State, t: Tid, id: NodeId, first: NodeId, node: NodeId) returns (s': State)
    requires t in s.pcs && s.pcs[t] == ReadValue(first, node)
    requires node in s.memory.nodes && s.memory.nodes[node].value.Some?
    ensures Alone(s, t, id, 1, s') && s' == At(s, t, MoveHead(first, node, s.memory.nodes[node].value.value))
  {
    s' := At(s, t, MoveHead(first, node, s.memory.nodes[node].value.value));
    GoesOnce(s, t, id, s');
  }

  lemma MovesHead(s: State, t: Tid, id: NodeId, first: NodeId, node: NodeId, ev: Event) returns (s': State)
    requires t in s.pcs && s.pcs[t] == MoveHead(first, node, ev)
    ensures Alone(s, t, id, 1, s')
    ensures s' == At(s, t, DecDepth(first))
                  .(memory := s.memory.(head := node),
                    history := s.history.(owner := s.history.owner[first := Private(t)],
                                          dequeued := s.history.dequeued + [ev]))
  {
    s' := At(s, t, DecDepth(first))
            .(memory := s.memory.(head := node),
              history := s.history.(owner := s.history.owner[first := Private(t)],
                                    dequeued := s.history.dequeued + [ev]));
    GoesOnce(s, t, id, s');
  }

  lemma CountsDown(s: State, t: Tid, id: NodeId, first: NodeId) returns (s': State)
    requires t in s.pcs && s.pcs[t] == DecDepth(first)
    ensures Alone(s, t, id, 1, s')
    ensures s' == At(s, t, UnlockHead(first)).(stats := s.stats.(depth := Decremented(s.stats.depth)))
  {
    s' := At(s, t, UnlockHead(first)).(stats := s.stats.(depth := Decremented(s.stats.depth)));
    GoesOnce(s, t, id, s');
  }

  lemma UnlocksHead(s: State, t: Tid, id: NodeId, first: NodeId) returns (s': State)
    requires t in s.pcs && s.pcs[t] == UnlockHead(first)
    ensures Alone(s, t, id, 1, s') && s' == At(s, t, DeleteOld(first)).(sync := s.sync.(headLock := Free))
  {
    s' := At(s, t, DeleteOld(first)).(sync := s.sync.(headLock := Free));
    GoesOnce(s, t, id, s');
  }

  lemma DeletesOld(s: State, t: Tid, id: NodeId, first: NodeId) returns (s': State)
    requires t in s.pcs && s.pcs[t] == DeleteOld(first)
    ensures Alone(s, t, id, 1, s')
    ensures s' == At(s, t, ReturnSlot)
                  .(memory := s.memory.(nodes := s.memory.nodes - {first}),
                    history := s.history.(owner := s.history.owner - {first}))
  {
    s' := At(s, t, ReturnSlot)
            .(memory := s.memory.(nodes := s.memory.nodes - {first}),
              history := s.history.(owner := s.history.owner - {first}));
    GoesOnce(s, t, id, s');
  }

  lemma ReturnsSlot(s: State, t: Tid, id: NodeId) returns (s': State)
    requires t in s.pcs && s.pcs[t] == ReturnSlot
    ensures Alone(s, t, id, 1, s')
    ensures s' == At(s, t, Idle).(sync := s.sync.(slots := OneBack(s)))
  {
    s' := At(s, t, Idle).(sync := s.sync.(slots := OneBack(s)));
    GoesOnce(s, t, id, s');
  }
}
