/** What holds in every run of the linked queue. */
module LinkedQueueRuns {
  import opened Events
  import opened Threads
  import opened LinkedQueue
  import opened LinkedQueueSteps
  import opened SharedQueue

  /** Events leave in link order, each as it was pushed; a bounded queue never holds more than its capacity. */
  lemma AlwaysFifo(s: State, run: seq<State>)
    requires Reachable(s, run)
    ensures s.history.dequeued <= s.history.enqueued
    ensures s.capacity > 0 ==> |s.history.enqueued| - |s.history.dequeued| <= s.capacity
  {
    RunKeepsInv(s, run);
  }

  lemma SlotsAreConserved(s: State, run: seq<State>)
    requires Reachable(s, run) && s.capacity > 0
    ensures var live := |s.history.enqueued| - |s.history.dequeued|;
            s.sync.slots + Count(s.pcs, HoldsSlot) + live + Count(s.pcs, Returning) == s.capacity
  {
    RunKeepsInv(s, run);
  }

  /** A consumer with a token always finds a next node with a value in it: it never takes the branch for null. */
  lemma NullBranchUnreachable(s: State, run: seq<State>, t: Tid)
    requires Reachable(s, run) && t in s.pcs
    ensures !s.pcs[t].NullNext?
    ensures s.pcs[t].LoadNext? ==>
              && s.pcs[t].first == s.memory.head && s.memory.head in s.memory.nodes
              && s.memory.nodes[s.memory.head].next.Some?
  {
    RunKeepsInv(s, run);
    assert KnowsAt(s, t) && ChainAt(s, |s.history.dequeued|);
  }

  /** Who owns the two ends. */
  lemma EndsAreInQueue(s: State)
    requires Chain(s) && TailAt(s)
    ensures var d, e, owner := |s.history.dequeued|, |s.history.enqueued|, s.history.owner;
            && s.memory.head in owner && owner[s.memory.head] == InQueue(d)
            && s.memory.tail in owner && owner[s.memory.tail] == InQueue(if MovingTail(s) then e - 1 else e)
  {
    var d, e := |s.history.dequeued|, |s.history.enqueued|;
    assert ChainAt(s, d) && ChainAt(s, e);
    if d < e { assert ChainAt(s, e - 1); }
  }

  /** While a consumer with a token is inside the head lock, head and tail are different nodes, so a producer inside the
      tail lock writes the `next` of another node than the one the consumer reads. */
  lemma LocksTouchDifferentNodes(s: State, run: seq<State>, t: Tid)
    requires Reachable(s, run) && t in s.pcs && HoldsItem(s.pcs[t])
    ensures s.memory.head != s.memory.tail
    ensures s.pcs[t].LoadNext? ==> s.pcs[t].first != s.memory.tail
  {
    RunKeepsInv(s, run);
    TokenMeansLive(s, t);
    if MovingTail(s) { TokenBesidesPusher(s, t, s.sync.tailLock.owner); }
    assert KnowsAt(s, t);
    EndsAreInQueue(s);
  }

  /** The node reached from `id` by following `k` links. */
  function Walk(nodes: map<NodeId, Node>, id: NodeId, k: nat): Option<NodeId> {
    if k == 0 then Some(id)
    else
      match Walk(nodes, id, k - 1)
      case None => None
      case Some(x) => if x in nodes then nodes[x].next else None
  }

  /** Following links from the head meets exactly the nodes linked and not yet passed, in link order, and then null. */
  lemma {:induction false} WalkIsTheQueue(s: State, k: nat)
    requires Chain(s)
    ensures var d, e := |s.history.dequeued|, |s.history.enqueued|;
            Walk(s.memory.nodes, s.memory.head, k) == if d + k <= e then Some(s.history.linked[d + k]) else None
    decreases k
  {
    if k > 0 {
      WalkIsTheQueue(s, k - 1);
      var i := |s.history.dequeued| + k - 1;
      if i <= |s.history.enqueued| { assert ChainAt(s, i); }
    }
  }

  /** All nodes that a thread at `pc` could still follow. */
  predicate Names(pc: Pc, id: NodeId) {
    || OwnNode(pc) == Some(id)
    || match pc
       case MoveTail(node) => node == id
       case LoadNext(first) => first == id
       case ReadValue(first, node) => first == id || node == id
       case MoveHead(first, node, _) => first == id || node == id
       case _ => false
  }

  lemma OwnedIsUnnamed(s: State, t: Tid, id: NodeId, u: Tid)
    requires Inv(s) && Owns(s, t, id) && u in s.pcs && u != t
    ensures !Names(s.pcs[u], id)
  {
    assert KnowsAt(s, u);
    var d, e := |s.history.dequeued|, |s.history.enqueued|;
    assert ChainAt(s, d) && ChainAt(s, e);
    if d < e { assert ChainAt(s, d + 1); }
  }

  lemma {:induction false} OwnedIsOffTheWalk(s: State, t: Tid, id: NodeId, k: nat)
    requires Chain(s) && Owns(s, t, id)
    ensures Walk(s.memory.nodes, s.memory.head, k) != Some(id)
  {
    WalkIsTheQueue(s, k);
    var i := |s.history.dequeued| + k;
    if i <= |s.history.enqueued| { assert ChainAt(s, i); }
  }

  /** The old head that a consumer deletes is allocated, no walk from the head reaches it, the tail is elsewhere, and no
      other thread holds a pointer to it. */
  lemma DeletedHeadIsUnreachable(s: State, run: seq<State>, t: Tid)
    requires Reachable(s, run) && t in s.pcs && s.pcs[t].DeleteOld?
    ensures s.pcs[t].first in s.memory.nodes && s.pcs[t].first != s.memory.tail
    ensures forall k: nat :: Walk(s.memory.nodes, s.memory.head, k) != Some(s.pcs[t].first)
    ensures forall u :: u in s.pcs && u != t ==> !Names(s.pcs[u], s.pcs[t].first)
  {
    RunKeepsInv(s, run);
    assert KnowsAt(s, t);
    EndsAreInQueue(s);
    forall k: nat ensures Walk(s.memory.nodes, s.memory.head, k) != Some(s.pcs[t].first) {
      OwnedIsOffTheWalk(s, t, s.pcs[t].first, k);
    }
    forall u | u in s.pcs && u != t ensures !Names(s.pcs[u], s.pcs[t].first) {
      OwnedIsUnnamed(s, t, s.pcs[t].first, u);
    }
  }

  /** No access is ever to a freed node: whatever a thread inside the queue is about to do, only a lock or a full or
      empty semaphore can make it wait. */
  lemma NoFreedNodeIsAccessed(s: State, run: seq<State>, t: Tid, newId: NodeId)
    requires Reachable(s, run) && t in s.pcs && newId !in s.memory.nodes
    requires !s.pcs[t].Idle? && !s.pcs[t].LockTail? && !s.pcs[t].LockHead?
    ensures CanStep(s, t, false, newId)
    ensures s.pcs[t].DeleteNode? ==> s.pcs[t].node in s.memory.nodes
    ensures s.pcs[t].DeleteOld? ==> s.pcs[t].first in s.memory.nodes
  {
    RunKeepsInv(s, run);
    assert KnowsAt(s, t);
    var d, e := |s.history.dequeued|, |s.history.enqueued|;
    assert ChainAt(s, d) && ChainAt(s, e);
    if d < e { assert ChainAt(s, d + 1) && ChainAt(s, e - 1); }
  }

  /** The depth counter never underflows; the recorded maximum is that of the reported depths and fits the bound. */
  lemma DepthIsSound(s: State, run: seq<State>)
    requires Reachable(s, run)
    ensures forall t :: t in s.pcs && s.pcs[t].DecDepth? ==> s.stats.depth >= 1
    ensures s.capacity > 0 ==> s.stats.maxDepth <= s.capacity
    ensures forall d :: d in s.stats.reported ==> 1 <= d <= s.stats.maxDepth
    ensures s.stats.reported != [] ==> s.stats.maxDepth in s.stats.reported
  {
    RunKeepsInv(s, run);
    forall t | t in s.pcs && s.pcs[t].DecDepth? ensures s.stats.depth >= 1 {
      DepthIsPositive(s, t);
    }
  }

  lemma QuiescentCountersAgree(s: State, run: seq<State>)
    requires Reachable(s, run) && forall t :: t in s.pcs ==> s.pcs[t].Idle?
    ensures var live := |s.history.enqueued| - |s.history.dequeued|;
            && s.sync.items == s.stats.depth == live
            && (s.capacity > 0 ==> s.sync.slots == s.capacity - live)
  {
    RunKeepsInv(s, run);
    NoneCounted(s.pcs, HoldsSlot);
    NoneCounted(s.pcs, Announcing);
    NoneCounted(s.pcs, HoldsItem);
    NoneCounted(s.pcs, Returning);
    NoneCounted(s.pcs, Uncounted);
    NoneCounted(s.pcs, AtDecDepth);
  }

  lemma QueuedIsNotOwned(s: State, id: NodeId, t: Tid)
    requires |s.history.linked| == |s.history.enqueued| + 1 && t in s.pcs && KnowsAt(s, t)
    requires id in s.history.owner && s.history.owner[id].InQueue?
    ensures OwnNode(s.pcs[t]) != Some(id)
  {
  }

  /** No node leaks: each allocated node is met by a walk from the head, or is one that some thread in the queue has
      still to link or to delete. */
  lemma NoNodeLeaks(s: State, run: seq<State>, id: NodeId)
    requires Reachable(s, run) && id in s.memory.nodes
    ensures (exists k: nat :: Walk(s.memory.nodes, s.memory.head, k) == Some(id))
            <==> !(exists t :: t in s.pcs && OwnNode(s.pcs[t]) == Some(id))
  {
    RunKeepsInv(s, run);
    assert HasPlace(s, id);
    match s.history.owner[id]
    case InQueue(i) =>
      WalkIsTheQueue(s, i - |s.history.dequeued|);
      forall t | t in s.pcs ensures OwnNode(s.pcs[t]) != Some(id) {
        assert KnowsAt(s, t);
        QueuedIsNotOwned(s, id, t);
      }
    case Private(t) =>
      forall k: nat ensures Walk(s.memory.nodes, s.memory.head, k) != Some(id) {
        OwnedIsOffTheWalk(s, t, id, k);
      }
  }

  // ---- The list as a queue ----

  function Contents(s: State): seq<Event> {
    var h := s.history;
    if |h.dequeued| <= |h.enqueued| then h.enqueued[|h.dequeued|..] else []
  }

  /** Linking a node enqueues, moving the head dequeues the oldest event, every other access leaves the queue alone. */
  predicate QueueStep(q: seq<Event>, q': seq<Event>, s: State, a: Action)
    requires Enabled(s, a)
  {
    if a.Step? && s.pcs[a.t].LinkNext? then (s.capacity > 0 ==> |q| < s.capacity) && q' == q + [s.pcs[a.t].ev]
    else if a.Step? && s.pcs[a.t].MoveHead? then q != [] && s.pcs[a.t].ev == q[0] && q' == q[1..]
    else q' == q
  }

  lemma LinkEnqueues(s: State, t: Tid)
    requires Accounting(s) && CanStep(s, t, true, 0) && s.pcs[t].LinkNext?
    ensures s.capacity > 0 ==> |Contents(s)| < s.capacity
    ensures Contents(PushStep(s, t, true, 0)) == Contents(s) + [s.pcs[t].ev]
  {
    CountedIsPositive(s.pcs, t, HoldsSlot);
  }

  lemma MoveHeadDequeues(s: State, t: Tid)
    requires CanStep(s, t, true, 0) && s.pcs[t].MoveHead? && |s.history.dequeued| < |s.history.enqueued|
    ensures Contents(PopStep(s, t, true)) == Contents(s)[1..]
  {
  }

  lemma HistoriesStay(s: State, t: Tid, choice: bool, newId: NodeId)
    requires CanStep(s, t, choice, newId) && !s.pcs[t].LinkNext? && !s.pcs[t].MoveHead?
    ensures Contents(Do(s, Step(t, choice, newId))) == Contents(s)
  {
  }

  lemma RefinesBoundedQueue(s: State, run: seq<State>, a: Action)
    requires Reachable(s, run) && Enabled(s, a)
    ensures QueueStep(Contents(s), Contents(Do(s, a)), s, a)
  {
    RunKeepsInv(s, run);
    if a.Step? {
      assert KnowsAt(s, a.t);
      if s.pcs[a.t].LinkNext? {
        LinkEnqueues(s, a.t);
      } else if s.pcs[a.t].MoveHead? {
        MoveHeadDequeues(s, a.t);
      } else {
        HistoriesStay(s, a.t, a.choice, a.newId);
      }
    }
  }

  // ---- Calls ----

  predicate GivingUp(pc: Pc, pc': Pc) {
    pc'.Idle? && !pc.ReleaseItem? && !pc.ReturnSlot?
  }

  function NextPc(s: State, t: Tid, choice: bool, newId: NodeId): Pc
    requires CanStep(s, t, choice, newId)
  {
    if Pushing(s.pcs[t]) then PushPc(s, t, choice, newId) else PopPc(s, t, choice)
  }

  /** A push gives up only once closed or stopped, or, under `Drop`, without a slot; nothing is then linked. */
  lemma PushGivesUpOnlyFor(s: State, run: seq<State>, t: Tid, choice: bool, newId: NodeId)
    requires Reachable(s, run) && CanStep(s, t, choice, newId) && Pushing(s.pcs[t])
    requires GivingUp(s.pcs[t], NextPc(s, t, choice, newId))
    ensures s.flags.closed || s.flags.pushStop || (s.pcs[t].AcquireSlot? && s.pcs[t].policy.Drop? && !choice)
    ensures Contents(Do(s, Step(t, choice, newId))) == Contents(s)
  {
    RunKeepsInv(s, run);
    assert KnowsAt(s, t);
    HistoriesStay(s, t, choice, newId);
  }

  /** A pop gives up only once closed or stopped, having waited for an item in vain. */
  lemma PopGivesUpOnlyFor(s: State, run: seq<State>, t: Tid, choice: bool)
    requires Reachable(s, run) && CanStep(s, t, choice, 0) && !Pushing(s.pcs[t])
    requires GivingUp(s.pcs[t], NextPc(s, t, choice, 0))
    ensures (s.pcs[t].ItemRetryClosed? && s.flags.closed) || (s.pcs[t].ItemRetryStop? && s.flags.popStop)
    ensures Contents(Do(s, Step(t, choice, 0))) == Contents(s)
  {
    RunKeepsInv(s, run);
    assert KnowsAt(s, t);
    HistoriesStay(s, t, choice, 0);
  }

  function CallOf(pc: Pc): Call {
    match pc
    case Idle => NoCall
    case CheckClosedFirst(ev, _) => PushCall(ev)
    case AcquireSlot(ev, _) => PushCall(ev)
    case SlotRetryClosed(ev, _) => PushCall(ev)
    case SlotRetryStop(ev, _) => PushCall(ev)
    case NewNode(ev) => PushCall(ev)
    case LockTail(ev, _) => PushCall(ev)
    case CheckClosed(ev, _) => PushCall(ev)
    case LinkNext(ev, _) => PushCall(ev)
    case _ => if Reserving(pc) then Refusing else if Announcing(pc) then HasPut else if Returning(pc) then HasTaken
              else PopCall
  }

  /** What a step is on the shared queue. */
  function MoveOf(s: State, a: Action): Move
    requires Enabled(s, a)
  {
    match a
    case Close => Shut
    case Step(t, choice, newId) =>
      var pc, pc' := s.pcs[t], NextPc(s, t, choice, newId);
      if pc.LinkNext? then Put(pc.ev)
      else if pc.MoveHead? then Take(pc.ev)
      else if !GivingUp(pc, pc') then Quiet
      else if Pushing(pc) then Refuse(if pc.AcquireSlot? then pc.policy else Block, s.flags.pushStop)
      else End(s.flags.popStop)
    case _ => Quiet
  }

  function Abstract(s: State): Queue {
    Queue(Contents(s), s.flags.closed)
  }

  /** The list is a shared queue as the dispatch pipeline takes it to be: each access is a move that such a queue
      allows, with its effect, and each call makes one such move and returns. */
  lemma IsSharedQueue(s: State, run: seq<State>, a: Action)
    requires Reachable(s, run) && Enabled(s, a)
    ensures var m := MoveOf(s, a);
            && Allows(Abstract(s), m) && Abstract(Do(s, a)) == After(Abstract(s), m)
            && (a.Step? ==> Follows(CallOf(s.pcs[a.t]), m, CallOf(Do(s, a).pcs[a.t])))
  {
    RefinesBoundedQueue(s, run, a);
    if a.Step? {
      FlagsStay(s, a.t, a.choice, a.newId);
      NullBranchUnreachable(s, run, a.t);
      CallFollows(s, a.t, a.choice, a.newId);
      if GivingUp(s.pcs[a.t], NextPc(s, a.t, a.choice, a.newId)) {
        if Pushing(s.pcs[a.t]) { PushGivesUpOnlyFor(s, run, a.t, a.choice, a.newId); }
        else { PopGivesUpOnlyFor(s, run, a.t, a.choice); }
      }
    }
  }

  lemma FlagsStay(s: State, t: Tid, choice: bool, newId: NodeId)
    requires CanStep(s, t, choice, newId)
    ensures Do(s, Step(t, choice, newId)).flags == s.flags
  {
  }

  lemma CallFollows(s: State, t: Tid, choice: bool, newId: NodeId)
    requires CanStep(s, t, choice, newId) && !s.pcs[t].NullNext?
    ensures Follows(CallOf(s.pcs[t]), MoveOf(s, Step(t, choice, newId)), CallOf(NextPc(s, t, choice, newId)))
  {
  }
}
