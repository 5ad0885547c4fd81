/** The accesses of one thread to the ring with two locks, one by one. A `try_acquire` succeeds if there is a token. */
module MpmcAccesses {
  import opened Events
  import opened MpmcRing
  import opened Threads
  import opened Trails

  predicate Acquires(s: State, t: Tid)
    requires t in s.pcs
  {
    (s.pcs[t].AcquireSlot? && s.slots > 0) || (s.pcs[t].AcquireItem? && s.items > 0)
  }

  /** One access of thread `t`. */
  predicate Accesses(s: State, t: Tid, s': State) {
    t in s.pcs && CanStep(s, t, Acquires(s, t)) && s' == Do(s, Step(t, Acquires(s, t)))
  }

  ghost function Goes(t: Tid): (State, State) -> bool {
    (s: State, s': State) => Accesses(s, t, s')
  }

  /** `n` accesses of thread `t`, with no other thread between them, lead from `s` to `s'`. */
  ghost predicate Alone(s: State, t: Tid, n: nat, s': State) {
    Leads(Goes(t), s, n, s')
  }

  lemma GoesOnce(s: State, t: Tid, s': State)
    requires Accesses(s, t, s')
    ensures Alone(s, t, 1, s')
  {
    Once(Goes(t), s, s');
  }

  /** Where thread `t` is, and everything else as in `s`. */
  function At(s: State, t: Tid, pc: Pc): State {
    s.(pcs := s.pcs[t := pc])
  }

  // ---- Push ----

  lemma TakesSlot(s: State, t: Tid, ev: Event, policy: Policy) returns (s': State)
    requires t in s.pcs && s.pcs[t] == AcquireSlot(ev, policy) && s.slots > 0
    ensures s' == At(s, t, CheckClosed(ev)).(slots := s.slots - 1) && Alone(s, t, 1, s')
  {
    s' := At(s, t, CheckClosed(ev)).(slots := s.slots - 1);
    GoesOnce(s, t, s');
  }

  lemma FindsNoSlot(s: State, t: Tid, ev: Event, policy: Policy) returns (s': State)
    requires t in s.pcs && s.pcs[t] == AcquireSlot(ev, policy) && s.slots == 0
    ensures s' == At(s, t, if policy.Drop? then Idle else SlotRetryClosed(ev, policy)) && Alone(s, t, 1, s')
  {
    s' := At(s, t, if policy.Drop? then Idle else SlotRetryClosed(ev, policy));
    GoesOnce(s, t, s');
  }

  lemma RetryReadsClosed(s: State, t: Tid, ev: Event, policy: Policy) returns (s': State)
    requires t in s.pcs && s.pcs[t] == SlotRetryClosed(ev, policy)
    ensures s' == At(s, t, if s.flags.closed then Idle else SlotRetryStop(ev, policy)) && Alone(s, t, 1, s')
  {
    s' := At(s, t, if s.flags.closed then Idle else SlotRetryStop(ev, policy));
    GoesOnce(s, t, s');
  }

  lemma RetryReadsStop(s: State, t: Tid, ev: Event, policy: Policy) returns (s': State)
    requires t in s.pcs && s.pcs[t] == SlotRetryStop(ev, policy)
    ensures s' == At(s, t, if s.flags.pushStop then Idle else AcquireSlot(ev, policy)) && Alone(s, t, 1, s')
  {
    s' := At(s, t, if s.flags.pushStop then Idle else AcquireSlot(ev, policy));
    GoesOnce(s, t, s');
  }

  lemma ReadsClosed(s: State, t: Tid, ev: Event) returns (s': State)
    requires t in s.pcs && s.pcs[t] == CheckClosed(ev)
    ensures s' == At(s, t, if s.flags.closed then GiveSlotBack else CheckStop(ev)) && Alone(s, t, 1, s')
  {
    s' := At(s, t, if s.flags.closed then GiveSlotBack else CheckStop(ev));
    GoesOnce(s, t, s');
  }

  lemma ReadsStop(s: State, t: Tid, ev: Event) returns (s': State)
    requires t in s.pcs && s.pcs[t] == CheckStop(ev)
    ensures s' == At(s, t, if s.flags.pushStop then GiveSlotBack else LockTail(ev)) && Alone(s, t, 1, s')
  {
    s' := At(s, t, if s.flags.pushStop then GiveSlotBack else LockTail(ev));
    GoesOnce(s, t, s');
  }

  lemma GivesSlotBack(s: State, t: Tid) returns (s': State)
    requires t in s.pcs && s.pcs[t].GiveSlotBack?
    ensures s' == At(s, t, Idle).(slots := s.slots + 1) && Alone(s, t, 1, s')
  {
    s' := At(s, t, Idle).(slots := s.slots + 1);
    GoesOnce(s, t, s');
  }

  lemma LocksTail(s: State, t: Tid, ev: Event) returns (s': State)
    requires t in s.pcs && s.pcs[t] == LockTail(ev) && s.tailLock.Free?
    ensures s' == At(s, t, WriteSlot(ev)).(tailLock := HeldBy(t)) && Alone(s, t, 1, s')
  {
    s' := At(s, t, WriteSlot(ev)).(tailLock := HeldBy(t));
    GoesOnce(s, t, s');
  }

  lemma WritesSlot(s: State, t: Tid, ev: Event) returns (s': State)
    requires t in s.pcs && s.pcs[t] == WriteSlot(ev) && s.tail < |s.buffer|
    ensures s' == At(s, t, AdvanceTail(ev)).(buffer := s.buffer[s.tail := ev]) && Alone(s, t, 1, s')
  {
    s' := At(s, t, AdvanceTail(ev)).(buffer := s.buffer[s.tail := ev]);
    GoesOnce(s, t, s');
  }

  lemma AdvancesTail(s: State, t: Tid, ev: Event) returns (s': State)
    requires t in s.pcs && s.pcs[t] == AdvanceTail(ev)
    ensures s' == At(s, t, IncDepth).(tail := NextIndex(s.tail, s.capacity), enqueued := s.enqueued + [ev])
    ensures Alone(s, t, 1, s')
  {
    s' := At(s, t, IncDepth).(tail := NextIndex(s.tail, s.capacity), enqueued := s.enqueued + [ev]);
    GoesOnce(s, t, s');
  }

  lemma CountsUp(s: State, t: Tid) returns (s': State)
    requires t in s.pcs && s.pcs[t].IncDepth?
    ensures s' == At(s, t, RecordDepth(s.depth + 1)).(depth := s.depth + 1) && Alone(s, t, 1, s')
  {
    s' := At(s, t, RecordDepth(s.depth + 1)).(depth := s.depth + 1);
    GoesOnce(s, t, s');
  }

  lemma RecordsDepth(s: State, t: Tid, depth: nat) returns (s': State)
    requires t in s.pcs && s.pcs[t] == RecordDepth(depth)
    ensures s' == At(s, t, UnlockTail).(maxDepth := Max(s.maxDepth, depth), reported := s.reported + [depth])
    ensures Alone(s, t, 1, s')
  {
    s' := At(s, t, UnlockTail).(maxDepth := Max(s.maxDepth, depth), reported := s.reported + [depth]);
    GoesOnce(s, t, s');
  }

  lemma UnlocksTail(s: State, t: Tid) returns (s': State)
    requires t in s.pcs && s.pcs[t].UnlockTail?
    ensures s' == At(s, t, ReleaseItem).(tailLock := Free) && Alone(s, t, 1, s')
  {
    s' := At(s, t, ReleaseItem).(tailLock := Free);
    GoesOnce(s, t, s');
  }

  lemma ReleasesItem(s: State, t: Tid) returns (s': State)
    requires t in s.pcs && s.pcs[t].ReleaseItem?
    ensures s' == At(s, t, Idle).(items := s.items + 1) && Alone(s, t, 1, s')
  {
    s' := At(s, t, Idle).(items := s.items + 1);
    GoesOnce(s, t, s');
  }

  // ---- Pop ----

  lemma TakesItem(s: State, t: Tid) returns (s': State)
    requires t in s.pcs && s.pcs[t].AcquireItem? && s.items > 0
    ensures s' == At(s, t, LockHead).(items := s.items - 1) && Alone(s, t, 1, s')
  {
    s' := At(s, t, LockHead).(items := s.items - 1);
    GoesOnce(s, t, s');
  }

  lemma FindsNoItem(s: State, t: Tid) returns (s': State)
    requires t in s.pcs && s.pcs[t].AcquireItem? && s.items == 0
    ensures s' == At(s, t, ItemRetryClosed) && Alone(s, t, 1, s')
  {
    s' := At(s, t, ItemRetryClosed);
    GoesOnce(s, t, s');
  }

  lemma PopReadsClosed(s: State, t: Tid) returns (s': State)
    requires t in s.pcs && s.pcs[t].ItemRetryClosed?
    ensures s' == At(s, t, if s.flags.closed then Idle else ItemRetryStop) && Alone(s, t, 1, s')
  {
    s' := At(s, t, if s.flags.closed then Idle else ItemRetryStop);
    GoesOnce(s, t, s');
  }

  lemma PopReadsStop(s: State, t: Tid) returns (s': State)
    requires t in s.pcs && s.pcs[t].ItemRetryStop?
    ensures s' == At(s, t, if s.flags.popStop then Idle else AcquireItem) && Alone(s, t, 1, s')
  {
    s' := At(s, t, if s.flags.popStop then Idle else AcquireItem);
    GoesOnce(s, t, s');
  }

  lemma LocksHead(s: State, t: Tid) returns (s': State)
    requires t in s.pcs && s.pcs[t].LockHead? && s.headLock.Free?
    ensures s' == At(s, t, ReadSlot).(headLock := HeldBy(t)) && Alone(s, t, 1, s')
  {
    s' := At(s, t, ReadSlot).(headLock := HeldBy(t));
    GoesOnce(s, t, s');
  }

  lemma ReadsSlot(s: State, t: Tid) returns (s': State)
    requires t in s.pcs && s.pcs[t].ReadSlot? && s.head < |s.buffer|
    ensures s' == At(s, t, AdvanceHead(s.buffer[s.head])) && Alone(s, t, 1, s')
  {
    s' := At(s, t, AdvanceHead(s.buffer[s.head]));
    GoesOnce(s, t, s');
  }

  lemma AdvancesHead(s: State, t: Tid, ev: Event) returns (s': State)
    requires t in s.pcs && s.pcs[t] == AdvanceHead(ev)
    ensures s' == At(s, t, DecDepth).(head := NextIndex(s.head, s.capacity), dequeued := s.dequeued + [ev])
    ensures Alone(s, t, 1, s')
  {
    s' := At(s, t, DecDepth).(head := NextIndex(s.head, s.capacity), dequeued := s.dequeued + [ev]);
    GoesOnce(s, t, s');
  }

  lemma CountsDown(s: State, t: Tid) returns (s': State)
    requires t in s.pcs && s.pcs[t].DecDepth?
    ensures s' == At(s, t, UnlockHead).(depth := Decremented(s.depth)) && Alone(s, t, 1, s')
  {
    s' := At(s, t, UnlockHead).(depth := Decremented(s.depth));
    GoesOnce(s, t, s');
  }

  lemma UnlocksHead(s: State, t: Tid) returns (s': State)
    requires t in s.pcs && s.pcs[t].UnlockHead?
    ensures s' == At(s, t, ReturnSlot).(headLock := Free) && Alone(s, t, 1, s')
  {
    s' := At(s, t, ReturnSlot).(headLock := Free);
    GoesOnce(s, t, s');
  }

  lemma ReturnsSlot(s: State, t: Tid) returns (s': State)
    requires t in s.pcs && s.pcs[t].ReturnSlot?
    ensures s' == At(s, t, Idle).(slots := s.slots + 1) && Alone(s, t, 1, s')
  {
    s' := At(s, t, Idle).(slots := s.slots + 1);
    GoesOnce(s, t, s');
  }
}
