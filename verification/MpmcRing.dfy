/** The ring with two locks and two semaphores, used by any number of threads, one shared access per step.

    `enqueued` and `dequeued` are histories: events in the order in which the tail and the head moved past them.
    A failed `try_acquire` needs no reason (the semaphore may fail spuriously). All pushes share one stop flag and all
    pops another. */
module MpmcRing {
  import opened Events
  import opened SharedQueue
  import opened Threads

  datatype Pc =
    | Idle
    // push
    | AcquireSlot(ev: Event, policy: Policy)
    | SlotRetryClosed(ev: Event, policy: Policy)
    | SlotRetryStop(ev: Event, policy: Policy)
    | CheckClosed(ev: Event)
    | CheckStop(ev: Event)
    | GiveSlotBack
    | LockTail(ev: Event)
    | WriteSlot(ev: Event)
    | AdvanceTail(ev: Event)
    | IncDepth
    | RecordDepth(depth: nat)
    | UnlockTail
    | ReleaseItem
    // pop
    | AcquireItem
    | ItemRetryClosed
    | ItemRetryStop
    | LockHead
    | ReadSlot
    | AdvanceHead(ev: Event)
    | DecDepth
    | UnlockHead
    | ReturnSlot

  datatype State = State(
    capacity: nat,
    buffer: seq<Event>,
    head: nat,
    tail: nat,
    headLock: Lock,
    tailLock: Lock,
    items: nat,
    slots: nat,
    depth: nat,
    maxDepth: nat,
    flags: Flags,
    pcs: map<Tid, Pc>,
    enqueued: seq<Event>,
    dequeued: seq<Event>,
    reported: seq<nat>)

  datatype Action =
    | StartPush(t: Tid, ev: Event, policy: Policy)
    | StartPop(t: Tid)
    /** One access by `t`; `choice` is the result of a `try_acquire`. */
    | Step(t: Tid, choice: bool)
    | Close
    | RaisePushStop
    | RaisePopStop

  predicate HoldsSlot(pc: Pc) {
    pc.CheckClosed? || pc.CheckStop? || pc.GiveSlotBack? || pc.LockTail? || pc.WriteSlot? || pc.AdvanceTail?
  }

  /** Between moving the tail and releasing the item. */
  predicate Announcing(pc: Pc) {
    pc.IncDepth? || pc.RecordDepth? || pc.UnlockTail? || pc.ReleaseItem?
  }

  predicate HoldsItem(pc: Pc) {
    pc.LockHead? || pc.ReadSlot? || pc.AdvanceHead?
  }

  /** Between moving the head and returning the slot. */
  predicate Returning(pc: Pc) {
    pc.DecDepth? || pc.UnlockHead? || pc.ReturnSlot?
  }

  predicate InTail(pc: Pc) {
    pc.WriteSlot? || pc.AdvanceTail? || pc.IncDepth? || pc.RecordDepth? || pc.UnlockTail?
  }

  predicate InHead(pc: Pc) {
    pc.ReadSlot? || pc.AdvanceHead? || pc.DecDepth? || pc.UnlockHead?
  }

  predicate AtIncDepth(pc: Pc) { pc.IncDepth? }

  predicate AtDecDepth(pc: Pc) { pc.DecDepth? }

  /** Any number of threads, none of them in the queue. */
  ghost predicate Init(s: State) {
    && s.capacity > 0 && |s.buffer| == s.capacity
    && s.head == s.tail == 0 && s.headLock == s.tailLock == Free
    && s.items == 0 && s.slots == s.capacity && s.depth == s.maxDepth == 0
    && s.flags == Flags(false, false, false)
    && (forall t :: t in s.pcs ==> s.pcs[t].Idle?) && s.enqueued == s.dequeued == [] && s.reported == []
  }

  predicate CanStep(s: State, t: Tid, choice: bool) {
    && t in s.pcs && !s.pcs[t].Idle?
    && match s.pcs[t]
       case AcquireSlot(_, _) => choice ==> s.slots > 0
       case AcquireItem => choice ==> s.items > 0
       case LockTail(_) => s.tailLock.Free?
       case LockHead => s.headLock.Free?
       case WriteSlot(_) => s.tail < |s.buffer|
       case ReadSlot => s.head < |s.buffer|
       case _ => true
  }

  predicate Enabled(s: State, a: Action) {
    match a
    case StartPush(t, _, _) => t in s.pcs && s.pcs[t].Idle?
    case StartPop(t) => t in s.pcs && s.pcs[t].Idle?
    case Step(t, choice) => CanStep(s, t, choice)
    case _ => true
  }

  /** Where thread `t` goes. */
  function NextPc(s: State, t: Tid, choice: bool): Pc
    requires CanStep(s, t, choice)
  {
    match s.pcs[t]
    case Idle => Idle
    case AcquireSlot(ev, policy) =>
      if choice then CheckClosed(ev) else if policy.Drop? then Idle else SlotRetryClosed(ev, policy)
    case SlotRetryClosed(ev, policy) => if s.flags.closed then Idle else SlotRetryStop(ev, policy)
    case SlotRetryStop(ev, policy) => if s.flags.pushStop then Idle else AcquireSlot(ev, policy)
    case CheckClosed(ev) => if s.flags.closed then GiveSlotBack else CheckStop(ev)
    case CheckStop(ev) => if s.flags.pushStop then GiveSlotBack else LockTail(ev)
    case GiveSlotBack => Idle
    case LockTail(ev) => WriteSlot(ev)
    case WriteSlot(ev) => AdvanceTail(ev)
    case AdvanceTail(_) => IncDepth
    case IncDepth => RecordDepth(s.depth + 1)
    case RecordDepth(_) => UnlockTail
    case UnlockTail => ReleaseItem
    case ReleaseItem => Idle
    case AcquireItem => if choice then LockHead else ItemRetryClosed
    case ItemRetryClosed => if s.flags.closed then Idle else ItemRetryStop
    case ItemRetryStop => if s.flags.popStop then Idle else AcquireItem
    case LockHead => ReadSlot
    case ReadSlot => AdvanceHead(s.buffer[s.head])
    case AdvanceHead(_) => DecDepth
    case DecDepth => UnlockHead
    case UnlockHead => ReturnSlot
    case ReturnSlot => Idle
  }

  /** What the access of thread `t` does to shared memory. */
  function Access(s: State, t: Tid, choice: bool): State
    requires CanStep(s, t, choice)
  {
    match s.pcs[t]
    case AcquireSlot(_, _) => if choice then s.(slots := s.slots - 1) else s
    case GiveSlotBack => s.(slots := s.slots + 1)
    case LockTail(_) => s.(tailLock := HeldBy(t))
    case WriteSlot(ev) => s.(buffer := s.buffer[s.tail := ev])
    case AdvanceTail(ev) => s.(tail := NextIndex(s.tail, s.capacity), enqueued := s.enqueued + [ev])
    case IncDepth => s.(depth := s.depth + 1)
    case RecordDepth(depth) => s.(maxDepth := Max(s.maxDepth, depth), reported := s.reported + [depth])
    case UnlockTail => s.(tailLock := Free)
    case ReleaseItem => s.(items := s.items + 1)
    case AcquireItem => if choice then s.(items := s.items - 1) else s
    case LockHead => s.(headLock := HeldBy(t))
    case AdvanceHead(ev) => s.(head := NextIndex(s.head, s.capacity), dequeued := s.dequeued + [ev])
    case DecDepth => s.(depth := Decremented(s.depth))
    case UnlockHead => s.(headLock := Free)
    case ReturnSlot => s.(slots := s.slots + 1)
    case _ => s
  }

  function Do(s: State, a: Action): State
    requires Enabled(s, a)
  {
    match a
    case StartPush(t, ev, policy) => s.(pcs := s.pcs[t := AcquireSlot(ev, policy)])
    case StartPop(t) => s.(pcs := s.pcs[t := AcquireItem])
    case Step(t, choice) => Access(s, t, choice).(pcs := s.pcs[t := NextPc(s, t, choice)])
    case Close => s.(flags := s.flags.(closed := true))
    case RaisePushStop => s.(flags := s.flags.(pushStop := true))
    case RaisePopStop => s.(flags := s.flags.(popStop := true))
  }

  ghost predicate Next(s: State, s': State) {
    exists a :: Enabled(s, a) && s' == Do(s, a)
  }

  ghost predicate Reachable(s: State, run: seq<State>) {
    && run != [] && Init(run[0]) && run[|run| - 1] == s
    && forall i :: 0 < i < |run| ==> Next(run[i - 1], run[i])
  }

  // ---- The invariant ----

  /** How many threads are where, as far as semaphores and depth are concerned. */
  datatype Tally = Tally(holdSlot: int, announcing: int, holdItem: int, returning: int, atInc: int, atDec: int)

  ghost function TallyOf(pcs: map<Tid, Pc>): Tally {
    Tally(Count(pcs, HoldsSlot), Count(pcs, Announcing), Count(pcs, HoldsItem), Count(pcs, Returning),
      Count(pcs, AtIncDepth), Count(pcs, AtDecDepth))
  }

  predicate Balanced(s: State, n: Tally) {
    var live := |s.enqueued| - |s.dequeued|;
    && live >= 0
    && s.slots + n.holdSlot + live + n.returning == s.capacity
    && s.items + n.holdItem + n.announcing == live
    && s.depth + n.atInc == live + n.atDec
  }

  /** Every slot is free, held by a pusher, live, or on its way back from a popper; every live event has a token that is
      free, held by a popper, or about to be released by its pusher; the depth is off only by moves in progress. */
  ghost predicate Accounting(s: State) {
    Balanced(s, TallyOf(s.pcs))
  }

  /** A thread is inside a lock exactly while it owns it. */
  ghost predicate Locked(s: State) {
    forall t :: t in s.pcs ==> LockedAt(s, t)
  }

  ghost predicate LockedAt(s: State, t: Tid)
    requires t in s.pcs
  {
    && (InTail(s.pcs[t]) <==> s.tailLock == HeldBy(t))
    && (InHead(s.pcs[t]) <==> s.headLock == HeldBy(t))
  }

  ghost predicate Live(s: State) {
    && s.capacity > 0 && |s.buffer| == s.capacity
    && |s.dequeued| <= |s.enqueued|
    && s.head == Slot(|s.dequeued|, s.capacity)
    && s.tail == Slot(|s.enqueued|, s.capacity)
    && s.dequeued == s.enqueued[..|s.dequeued|]
    && forall k :: |s.dequeued| <= k < |s.enqueued| ==> Holding(s, k)
  }

  ghost predicate Holding(s: State, k: nat)
    requires k < |s.enqueued| && |s.buffer| == s.capacity > 0
  {
    s.buffer[Slot(k, s.capacity)] == s.enqueued[k]
  }

  /** What a thread between the access to the buffer and the move of the index knows, and one that has been stopped. */
  ghost predicate Knows(s: State) {
    forall t :: t in s.pcs ==> KnowsAt(s, t)
  }

  ghost predicate KnowsAt(s: State, t: Tid)
    requires t in s.pcs
  {
    match s.pcs[t]
    case AdvanceTail(ev) => s.tail < |s.buffer| && s.buffer[s.tail] == ev
    case AdvanceHead(ev) => |s.dequeued| < |s.enqueued| && ev == s.enqueued[|s.dequeued|]
    case RecordDepth(depth) => 1 <= depth <= s.capacity
    case GiveSlotBack => s.flags.closed || s.flags.pushStop
    case _ => true
  }

  ghost predicate DepthsReported(s: State) {
    && (forall i :: 0 <= i < |s.reported| ==> 1 <= s.reported[i] <= s.maxDepth)
    && (if s.reported == [] then s.maxDepth == 0 else s.maxDepth in s.reported)
    && s.maxDepth <= s.capacity
  }

  ghost predicate Inv(s: State) {
    Accounting(s) && Locked(s) && Live(s) && Knows(s) && DepthsReported(s)
  }

  // ---- Tokens ----

  /** The tally after one thread has moved. */
  predicate Shifted(n: Tally, n': Tally, was: Pc, now: Pc) {
    && n'.holdSlot == n.holdSlot - One(HoldsSlot(was)) + One(HoldsSlot(now))
    && n'.announcing == n.announcing - One(Announcing(was)) + One(Announcing(now))
    && n'.holdItem == n.holdItem - One(HoldsItem(was)) + One(HoldsItem(now))
    && n'.returning == n.returning - One(Returning(was)) + One(Returning(now))
    && n'.atInc == n.atInc - One(AtIncDepth(was)) + One(AtIncDepth(now))
    && n'.atDec == n.atDec - One(AtDecDepth(was)) + One(AtDecDepth(now))
  }

  lemma CountsMoved(pcs: map<Tid, Pc>, t: Tid, pc: Pc)
    requires t in pcs
    ensures Shifted(TallyOf(pcs), TallyOf(pcs[t := pc]), pcs[t], pc)
  {
    CountMoved(pcs, t, pc, HoldsSlot);
    CountMoved(pcs, t, pc, Announcing);
    CountMoved(pcs, t, pc, HoldsItem);
    CountMoved(pcs, t, pc, Returning);
    CountMoved(pcs, t, pc, AtIncDepth);
    CountMoved(pcs, t, pc, AtDecDepth);
  }

  /** A popper that holds a token has a live event to take, even while another pusher is between its two moves. */
  lemma TokenMeansLive(s: State, t: Tid)
    requires Accounting(s) && t in s.pcs && HoldsItem(s.pcs[t])
    ensures |s.dequeued| < |s.enqueued|
  {
    CountedIsPositive(s.pcs, t, HoldsItem);
  }

  /** A pusher that holds a slot finds the ring not full. */
  lemma SlotMeansRoom(s: State, t: Tid)
    requires Accounting(s) && t in s.pcs && HoldsSlot(s.pcs[t])
    ensures |s.enqueued| - |s.dequeued| < s.capacity
  {
    CountedIsPositive(s.pcs, t, HoldsSlot);
  }

  /** A popper about to lower the depth finds it positive: its event was counted before its token existed. */
  lemma DepthIsPositive(s: State, t: Tid)
    requires Accounting(s) && t in s.pcs && s.pcs[t].DecDepth?
    ensures s.depth >= 1
  {
    CountedIsPositive(s.pcs, t, AtDecDepth);
    IncrementersAnnounce(s.pcs);
  }

  lemma IncrementersAnnounce(pcs: map<Tid, Pc>)
    ensures Count(pcs, AtIncDepth) <= Count(pcs, Announcing)
    ensures Count(pcs, AtDecDepth) <= Count(pcs, Returning)
  {
    SubsetCount(Those(pcs, AtIncDepth), Those(pcs, Announcing));
    SubsetCount(Those(pcs, AtDecDepth), Those(pcs, Returning));
  }

  predicate Pushing(pc: Pc) {
    HoldsSlot(pc) || Announcing(pc) || pc.AcquireSlot? || pc.SlotRetryClosed? || pc.SlotRetryStop?
  }

  lemma PushStepBalances(s: State, t: Tid, choice: bool, n: Tally, n': Tally)
    requires Balanced(s, n) && CanStep(s, t, choice) && Pushing(s.pcs[t])
    requires Shifted(n, n', s.pcs[t], NextPc(s, t, choice))
    ensures Balanced(Access(s, t, choice), n')
  {
  }

  lemma PopStepBalances(s: State, t: Tid, choice: bool, n: Tally, n': Tally)
    requires Balanced(s, n) && CanStep(s, t, choice) && !Pushing(s.pcs[t])
    requires s.pcs[t].AdvanceHead? ==> |s.dequeued| < |s.enqueued|
    requires s.pcs[t].DecDepth? ==> s.depth >= 1
    requires Shifted(n, n', s.pcs[t], NextPc(s, t, choice))
    ensures Balanced(Access(s, t, choice), n')
  {
  }

  lemma StepKeepsAccounting(s: State, t: Tid, choice: bool)
    requires Accounting(s) && CanStep(s, t, choice)
    ensures Accounting(Do(s, Step(t, choice)))
  {
    var pcs' := s.pcs[t := NextPc(s, t, choice)];
    CountsMoved(s.pcs, t, NextPc(s, t, choice));
    if Pushing(s.pcs[t]) {
      PushStepBalances(s, t, choice, TallyOf(s.pcs), TallyOf(pcs'));
    } else {
      if s.pcs[t].AdvanceHead? { TokenMeansLive(s, t); }
      if s.pcs[t].DecDepth? { DepthIsPositive(s, t); }
      PopStepBalances(s, t, choice, TallyOf(s.pcs), TallyOf(pcs'));
    }
  }

  // ---- Locks ----

  lemma StepKeepsLocked(s: State, t: Tid, choice: bool)
    requires Locked(s) && CanStep(s, t, choice)
    ensures Locked(Do(s, Step(t, choice)))
  {
    var s' := Do(s, Step(t, choice));
    assert LockedAt(s, t);
    forall u | u in s'.pcs ensures LockedAt(s', u) {
      assert LockedAt(s, u);
    }
  }

  // ---- Ring contents ----

  /** The slot about to be written is no live one, so in particular not the one a consumer is reading. */
  lemma {:induction false} WriteHitsNoLiveSlot(s: State, t: Tid, k: nat)
    requires Accounting(s) && Live(s) && t in s.pcs && HoldsSlot(s.pcs[t]) && |s.dequeued| <= k < |s.enqueued|
    ensures Slot(k, s.capacity) != s.tail
  {
    SlotMeansRoom(s, t);
    SlotsDiffer(k, |s.enqueued|, s.capacity);
  }

  lemma WriteKeepsLive(s: State, t: Tid)
    requires Accounting(s) && Live(s) && CanStep(s, t, true) && s.pcs[t].WriteSlot?
    ensures Live(Do(s, Step(t, true)))
  {
    var s' := Do(s, Step(t, true));
    forall k | |s.dequeued| <= k < |s.enqueued| ensures Holding(s', k) {
      assert Holding(s, k);
      WriteHitsNoLiveSlot(s, t, k);
    }
  }

  lemma AdvanceTailKeepsLive(s: State, t: Tid)
    requires Live(s) && Knows(s) && CanStep(s, t, true) && s.pcs[t].AdvanceTail?
    ensures Live(Do(s, Step(t, true)))
  {
    var s' := Do(s, Step(t, true));
    assert KnowsAt(s, t);
    forall k | |s'.dequeued| <= k < |s'.enqueued| ensures Holding(s', k) {
      if k < |s.enqueued| { assert Holding(s, k); }
    }
  }

  lemma AdvanceHeadKeepsLive(s: State, t: Tid)
    requires Live(s) && Knows(s) && CanStep(s, t, true) && s.pcs[t].AdvanceHead?
    ensures Live(Do(s, Step(t, true)))
  {
    var s' := Do(s, Step(t, true));
    assert KnowsAt(s, t);
    assert s'.dequeued == s.enqueued[..|s.dequeued| + 1];
    forall k | |s'.dequeued| <= k < |s'.enqueued| ensures Holding(s', k) {
      assert Holding(s, k);
    }
  }

  predicate TouchesRing(pc: Pc) {
    pc.WriteSlot? || pc.AdvanceTail? || pc.AdvanceHead?
  }

  lemma OtherStepKeepsLive(s: State, t: Tid, choice: bool)
    requires Live(s) && CanStep(s, t, choice) && !TouchesRing(s.pcs[t])
    ensures Live(Do(s, Step(t, choice)))
  {
    var s' := Do(s, Step(t, choice));
    assert s'.buffer == s.buffer && s'.head == s.head && s'.tail == s.tail;
    assert s'.enqueued == s.enqueued && s'.dequeued == s.dequeued && s'.capacity == s.capacity;
    forall k | |s.dequeued| <= k < |s.enqueued| ensures Holding(s', k) {
      assert Holding(s, k);
    }
  }

  lemma StepKeepsLive(s: State, t: Tid, choice: bool)
    requires Inv(s) && CanStep(s, t, choice)
    ensures Live(Do(s, Step(t, choice)))
  {
    if s.pcs[t].WriteSlot? {
      WriteKeepsLive(s, t);
    } else if s.pcs[t].AdvanceTail? {
      AdvanceTailKeepsLive(s, t);
    } else if s.pcs[t].AdvanceHead? {
      AdvanceHeadKeepsLive(s, t);
    } else {
      OtherStepKeepsLive(s, t, choice);
    }
  }

  // ---- What threads know ----

  /** The thread that steps: what it just read or wrote is what it believes. */
  lemma StepperKnows(s: State, t: Tid, choice: bool)
    requires Inv(s) && CanStep(s, t, choice)
    ensures KnowsAt(Do(s, Step(t, choice)), t)
  {
    if s.pcs[t].ReadSlot? {
      TokenMeansLive(s, t);
      assert Holding(s, |s.dequeued|);
    }
    if s.pcs[t].IncDepth? {
      DepthReportedFits(s, t);
    }
  }

  /** The depth that a push reports is at least 1 and at most the capacity. */
  lemma DepthReportedFits(s: State, t: Tid)
    requires Inv(s) && t in s.pcs && s.pcs[t].IncDepth?
    ensures 1 <= s.depth + 1 <= s.capacity
  {
    CountedIsPositive(s.pcs, t, AtIncDepth);
    IncrementersAnnounce(s.pcs);
  }

  /** The other threads: the lock keeps the index and the slot they work on as they are. */
  lemma OthersStillKnow(s: State, t: Tid, choice: bool, u: Tid)
    requires Inv(s) && CanStep(s, t, choice) && u in s.pcs && u != t
    ensures KnowsAt(Do(s, Step(t, choice)), u)
  {
    assert KnowsAt(s, u) && LockedAt(s, t) && LockedAt(s, u);
    var s' := Do(s, Step(t, choice));
    assert s'.pcs[u] == s.pcs[u];
    if s.pcs[u].AdvanceTail? {
      assert !InTail(s.pcs[t]);
      assert s'.tail == s.tail && s'.buffer == s.buffer;
    } else if s.pcs[u].AdvanceHead? {
      assert !InHead(s.pcs[t]);
      assert s'.dequeued == s.dequeued && s.enqueued <= s'.enqueued;
    }
  }

  lemma StepKeepsKnows(s: State, t: Tid, choice: bool)
    requires Inv(s) && CanStep(s, t, choice)
    ensures Knows(Do(s, Step(t, choice)))
  {
    var s' := Do(s, Step(t, choice));
    forall u | u in s'.pcs ensures KnowsAt(s', u) {
      if u == t { StepperKnows(s, t, choice); } else { OthersStillKnow(s, t, choice, u); }
    }
  }

  lemma StepKeepsDepths(s: State, t: Tid, choice: bool)
    requires Inv(s) && CanStep(s, t, choice)
    ensures DepthsReported(Do(s, Step(t, choice)))
  {
    var s' := Do(s, Step(t, choice));
    if s.pcs[t].RecordDepth? {
      assert KnowsAt(s, t);
      var d := s.pcs[t].depth;
      assert s'.reported == s.reported + [d];
      assert s'.maxDepth == d || (s.reported != [] && s.maxDepth in s.reported);
    } else {
      assert s'.reported == s.reported && s'.maxDepth == s.maxDepth;
    }
  }

  // ---- Runs ----

  lemma StartKeepsAccounting(s: State, t: Tid, pc: Pc)
    requires Accounting(s) && t in s.pcs && s.pcs[t].Idle? && (pc.AcquireSlot? || pc.AcquireItem?)
    ensures Accounting(s.(pcs := s.pcs[t := pc]))
  {
    CountsMoved(s.pcs, t, pc);
    assert TallyOf(s.pcs[t := pc]) == TallyOf(s.pcs);
  }

  /** Starting a call or raising a flag moves no one else and touches nothing but flags. */
  ghost predicate SameMemory(s: State, s': State, t: Tid) {
    && s' == s.(pcs := s'.pcs, flags := s'.flags) && s'.pcs.Keys == s.pcs.Keys
    && (s.flags.closed || s.flags.pushStop ==> s'.flags.closed || s'.flags.pushStop)
    && (forall u :: u in s.pcs && u != t ==> s'.pcs[u] == s.pcs[u])
    && (t in s.pcs && s'.pcs[t] != s.pcs[t] ==> s.pcs[t].Idle? && (s'.pcs[t].AcquireSlot? || s'.pcs[t].AcquireItem?))
  }

  lemma SameMemoryThread(s: State, s': State, t: Tid, u: Tid)
    requires u in s.pcs && LockedAt(s, u) && KnowsAt(s, u) && SameMemory(s, s', t)
    ensures LockedAt(s', u) && KnowsAt(s', u)
  {
  }

  lemma SameMemoryKeepsThreads(s: State, s': State, t: Tid)
    requires Locked(s) && Knows(s) && SameMemory(s, s', t)
    ensures Locked(s') && Knows(s')
  {
    forall u | u in s'.pcs ensures LockedAt(s', u) && KnowsAt(s', u) {
      assert LockedAt(s, u) && KnowsAt(s, u);
      SameMemoryThread(s, s', t, u);
    }
  }

  lemma SameMemoryKeepsLive(s: State, s': State, t: Tid)
    requires Live(s) && DepthsReported(s) && SameMemory(s, s', t)
    ensures Live(s') && DepthsReported(s')
  {
    forall k | |s.dequeued| <= k < |s.enqueued| ensures Holding(s', k) {
      assert Holding(s, k);
    }
  }

  lemma SameMemoryKeepsInv(s: State, s': State, t: Tid)
    requires Inv(s) && SameMemory(s, s', t) && Accounting(s')
    ensures Inv(s')
  {
    SameMemoryKeepsThreads(s, s', t);
    SameMemoryKeepsLive(s, s', t);
  }

  lemma ActionKeepsInv(s: State, a: Action)
    requires Inv(s) && Enabled(s, a)
    ensures Inv(Do(s, a))
  {
    var s' := Do(s, a);
    match a
    case Step(t, choice) =>
      StepKeepsAccounting(s, t, choice);
      StepKeepsLocked(s, t, choice);
      StepKeepsLive(s, t, choice);
      StepKeepsKnows(s, t, choice);
      StepKeepsDepths(s, t, choice);
    case StartPush(t, ev, policy) =>
      StartKeepsAccounting(s, t, AcquireSlot(ev, policy));
      SameMemoryKeepsInv(s, s', t);
    case StartPop(t) =>
      StartKeepsAccounting(s, t, AcquireItem);
      SameMemoryKeepsInv(s, s', t);
    case _ => SameMemoryKeepsInv(s, s', 0);
  }

  lemma {:induction false} RunKeepsInv(s: State, run: seq<State>)
    requires Reachable(s, run)
    ensures Inv(s)
    decreases |run|
  {
    if |run| > 1 {
      var before := run[|run| - 2];
      assert Next(before, s);
      RunKeepsInv(before, run[..|run| - 1]);
      var a :| Enabled(before, a) && s == Do(before, a);
      ActionKeepsInv(before, a);
    }
  }

  // ---- What holds in every run ----

  /** Slots are conserved: free, held by pushers, live, or on their way back, they always add up to the capacity. */
  lemma SlotsAreConserved(s: State, run: seq<State>)
    requires Reachable(s, run)
    ensures s.slots + Count(s.pcs, HoldsSlot) + (|s.enqueued| - |s.dequeued|) + Count(s.pcs, Returning) == s.capacity
  {
    RunKeepsInv(s, run);
  }

  /** With any number of threads: events leave in the order in which they came, never more than `capacity` inside. */
  lemma AlwaysFifo(s: State, run: seq<State>)
    requires Reachable(s, run)
    ensures s.dequeued <= s.enqueued && |s.enqueued| - |s.dequeued| <= s.capacity
  {
    RunKeepsInv(s, run);
  }

  /** A producer about to write finds a slot that is neither live nor being read, and no other thread can be writing. */
  lemma WritesAreExclusive(s: State, run: seq<State>, t: Tid)
    requires Reachable(s, run) && t in s.pcs && s.pcs[t].WriteSlot?
    ensures s.tail < |s.buffer| && s.capacity > 0
    ensures forall k :: |s.dequeued| <= k < |s.enqueued| ==> Slot(k, s.capacity) != s.tail
    ensures forall u :: u in s.pcs && s.pcs[u].ReadSlot? ==> s.head != s.tail
    ensures forall u :: u in s.pcs && InTail(s.pcs[u]) ==> u == t
  {
    RunKeepsInv(s, run);
    forall k | |s.dequeued| <= k < |s.enqueued| ensures Slot(k, s.capacity) != s.tail {
      WriteHitsNoLiveSlot(s, t, k);
    }
    forall u | u in s.pcs && s.pcs[u].ReadSlot? ensures s.head != s.tail {
      TokenMeansLive(s, u);
      WriteHitsNoLiveSlot(s, t, |s.dequeued|);
    }
    forall u | u in s.pcs && InTail(s.pcs[u]) ensures u == t {
      assert LockedAt(s, u) && LockedAt(s, t);
    }
  }

  /** A consumer about to read finds the oldest event that has not been taken. */
  lemma ReadsAreLive(s: State, run: seq<State>, t: Tid)
    requires Reachable(s, run) && t in s.pcs && s.pcs[t].ReadSlot?
    ensures s.head < |s.buffer| && |s.dequeued| < |s.enqueued| && s.buffer[s.head] == s.enqueued[|s.dequeued|]
    ensures forall u :: u in s.pcs && InHead(s.pcs[u]) ==> u == t
  {
    RunKeepsInv(s, run);
    TokenMeansLive(s, t);
    assert Holding(s, |s.dequeued|);
    forall u | u in s.pcs && InHead(s.pcs[u]) ensures u == t {
      assert LockedAt(s, u) && LockedAt(s, t);
    }
  }

  /** The depth counter never underflows; the recorded maximum is that of the reported depths, at most the capacity. */
  lemma DepthIsSound(s: State, run: seq<State>)
    requires Reachable(s, run)
    ensures forall t :: t in s.pcs && s.pcs[t].DecDepth? ==> s.depth >= 1
    ensures s.maxDepth <= s.capacity
    ensures forall d :: d in s.reported ==> 1 <= d <= s.maxDepth
    ensures s.reported != [] ==> s.maxDepth in s.reported
  {
    RunKeepsInv(s, run);
    forall t | t in s.pcs && s.pcs[t].DecDepth? ensures s.depth >= 1 {
      DepthIsPositive(s, t);
    }
  }

  /** When all threads are out of the queue, semaphores and depth agree exactly with what is inside. */
  lemma QuiescentCountersAgree(s: State, run: seq<State>)
    requires Reachable(s, run) && forall t :: t in s.pcs ==> s.pcs[t].Idle?
    ensures s.items == s.depth == |s.enqueued| - |s.dequeued| == s.capacity - s.slots
  {
    RunKeepsInv(s, run);
    NoneCounted(s.pcs, HoldsSlot);
    NoneCounted(s.pcs, Announcing);
    NoneCounted(s.pcs, HoldsItem);
    NoneCounted(s.pcs, Returning);
    NoneCounted(s.pcs, AtIncDepth);
    NoneCounted(s.pcs, AtDecDepth);
  }

  // ---- The ring as a bounded queue ----

  function Contents(s: State): seq<Event> {
    if |s.dequeued| <= |s.enqueued| then s.enqueued[|s.dequeued|..] else []
  }

  /** Moving the tail enqueues, moving the head dequeues the oldest event, every other access leaves the queue alone. */
  predicate QueueStep(q: seq<Event>, q': seq<Event>, capacity: nat, s: State, a: Action)
    requires Enabled(s, a)
  {
    if a.Step? && s.pcs[a.t].AdvanceTail? then |q| < capacity && q' == q + [s.pcs[a.t].ev]
    else if a.Step? && s.pcs[a.t].AdvanceHead? then q != [] && s.pcs[a.t].ev == q[0] && q' == q[1..]
    else q' == q
  }

  lemma RefinesBoundedQueue(s: State, run: seq<State>, a: Action)
    requires Reachable(s, run) && Enabled(s, a)
    ensures QueueStep(Contents(s), Contents(Do(s, a)), s.capacity, s, a)
  {
    RunKeepsInv(s, run);
    if a.Step? {
      var t := a.t;
      assert KnowsAt(s, t);
      if s.pcs[t].AdvanceTail? {
        SlotMeansRoom(s, t);
        assert Do(s, a).enqueued[|s.dequeued|..] == Contents(s) + [s.pcs[t].ev];
      } else if s.pcs[t].AdvanceHead? {
        assert |Do(s, a).dequeued| == |s.dequeued| + 1 && Do(s, a).enqueued == s.enqueued;
      } else {
        HistoriesStay(s, t, a.choice);
      }
    }
  }

  // ---- Calls ----

  predicate GivingUp(pc: Pc, pc': Pc) {
    pc'.Idle? && !pc.ReleaseItem? && !pc.ReturnSlot?
  }

  predicate Refused(pc: Pc, pc': Pc) {
    GivingUp(pc, pc') && (HoldsSlot(pc) || pc.AcquireSlot? || pc.SlotRetryClosed? || pc.SlotRetryStop?)
  }

  /** A push gives up only once closed or stopped, or, under `Drop`, without a slot; nothing is then enqueued. */
  lemma PushGivesUpOnlyFor(s: State, run: seq<State>, t: Tid, choice: bool)
    requires Reachable(s, run) && CanStep(s, t, choice) && Refused(s.pcs[t], NextPc(s, t, choice))
    ensures s.flags.closed || s.flags.pushStop || (s.pcs[t].AcquireSlot? && s.pcs[t].policy.Drop? && !choice)
    ensures Contents(Do(s, Step(t, choice))) == Contents(s)
  {
    RunKeepsInv(s, run);
    assert KnowsAt(s, t);
  }

  /** A pop gives up only once closed or stopped, and has then taken nothing. */
  lemma PopGivesUpOnlyFor(s: State, t: Tid, choice: bool)
    requires CanStep(s, t, choice)
    requires GivingUp(s.pcs[t], NextPc(s, t, choice)) && !Refused(s.pcs[t], NextPc(s, t, choice))
    ensures (s.pcs[t].ItemRetryClosed? && s.flags.closed) || (s.pcs[t].ItemRetryStop? && s.flags.popStop)
    ensures Contents(Do(s, Step(t, choice))) == Contents(s)
  {
  }

  function CallOf(pc: Pc): Call {
    match pc
    case Idle => NoCall
    case AcquireSlot(ev, _) => PushCall(ev)
    case SlotRetryClosed(ev, _) => PushCall(ev)
    case SlotRetryStop(ev, _) => PushCall(ev)
    case CheckClosed(ev) => PushCall(ev)
    case CheckStop(ev) => PushCall(ev)
    case GiveSlotBack => Refusing
    case LockTail(ev) => PushCall(ev)
    case WriteSlot(ev) => PushCall(ev)
    case AdvanceTail(ev) => PushCall(ev)
    case _ => if Announcing(pc) then HasPut else if Returning(pc) then HasTaken else PopCall
  }

  /** What a step is on the shared queue. */
  function MoveOf(s: State, a: Action): Move
    requires Enabled(s, a)
  {
    match a
    case Close => Shut
    case Step(t, choice) =>
      var pc, pc' := s.pcs[t], NextPc(s, t, choice);
      if pc.AdvanceTail? then Put(pc.ev)
      else if pc.AdvanceHead? then Take(pc.ev)
      else if Refused(pc, pc') then Refuse(if pc.AcquireSlot? then pc.policy else Block, s.flags.pushStop)
      else if GivingUp(pc, pc') then End(s.flags.popStop)
      else Quiet
    case _ => Quiet
  }

  function Abstract(s: State): Queue {
    Queue(Contents(s), s.flags.closed)
  }

  /** The ring is a shared queue as the dispatch pipeline takes it to be: each access is a move that such a queue
      allows, with its effect, and each call makes one such move and returns. */
  lemma IsSharedQueue(s: State, run: seq<State>, a: Action)
    requires Reachable(s, run) && Enabled(s, a)
    ensures var m := MoveOf(s, a);
            && Allows(Abstract(s), m) && Abstract(Do(s, a)) == After(Abstract(s), m)
            && (a.Step? ==> Follows(CallOf(s.pcs[a.t]), m, CallOf(Do(s, a).pcs[a.t])))
  {
    RefinesBoundedQueue(s, run, a);
    if a.Step? {
      ClosedStays(s, a.t, a.choice);
      CallFollows(s, a.t, a.choice);
      if Refused(s.pcs[a.t], NextPc(s, a.t, a.choice)) { PushGivesUpOnlyFor(s, run, a.t, a.choice); }
    }
  }

  lemma ClosedStays(s: State, t: Tid, choice: bool)
    requires CanStep(s, t, choice)
    ensures Access(s, t, choice).flags == s.flags
  {
  }

  lemma CallFollows(s: State, t: Tid, choice: bool)
    requires CanStep(s, t, choice)
    ensures Follows(CallOf(s.pcs[t]), MoveOf(s, Step(t, choice)), CallOf(NextPc(s, t, choice)))
  {
  }

  lemma HistoriesStay(s: State, t: Tid, choice: bool)
    requires CanStep(s, t, choice) && !s.pcs[t].AdvanceTail? && !s.pcs[t].AdvanceHead?
    ensures Access(s, t, choice).enqueued == s.enqueued && Access(s, t, choice).dequeued == s.dequeued
  {
  }
}
