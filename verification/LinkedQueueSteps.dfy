/** Every step of the linked queue keeps its invariant. */
module LinkedQueueSteps {
  import opened Threads
  import opened LinkedQueue

  // ---- Tokens ----

  /** The tally after one thread has moved. */
  predicate Shifted(n: Tally, n': Tally, was: Pc, now: Pc) {
    && n'.holdSlot == n.holdSlot - One(HoldsSlot(was)) + One(HoldsSlot(now))
    && n'.announcing == n.announcing - One(Announcing(was)) + One(Announcing(now))
    && n'.holdItem == n.holdItem - One(HoldsItem(was)) + One(HoldsItem(now))
    && n'.returning == n.returning - One(Returning(was)) + One(Returning(now))
    && n'.uncounted == n.uncounted - One(Uncounted(was)) + One(Uncounted(now))
    && n'.atDec == n.atDec - One(AtDecDepth(was)) + One(AtDecDepth(now))
  }

  lemma CountsMoved(pcs: map<Tid, Pc>, t: Tid, pc: Pc)
    requires t in pcs
    ensures Shifted(TallyOf(pcs), TallyOf(pcs[t := pc]), pcs[t], pc)
  {
    CountMoved(pcs, t, pc, HoldsSlot);
    CountMoved(pcs, t, pc, Announcing);
    CountMoved(pcs, t, pc, HoldsItem);
    CountMoved(pcs, t, pc, Returning);
    CountMoved(pcs, t, pc, Uncounted);
    CountMoved(pcs, t, pc, AtDecDepth);
  }

  lemma CountsOrdered(pcs: map<Tid, Pc>)
    ensures Count(pcs, Uncounted) <= Count(pcs, Announcing)
    ensures Count(pcs, AtDecDepth) <= Count(pcs, Returning)
  {
    SubsetCount(Those(pcs, Uncounted), Those(pcs, Announcing));
    SubsetCount(Those(pcs, AtDecDepth), Those(pcs, Returning));
  }

  /** A popper that holds a token has a live event to take. */
  lemma TokenMeansLive(s: State, t: Tid)
    requires Accounting(s) && t in s.pcs && HoldsItem(s.pcs[t])
    ensures |s.history.dequeued| < |s.history.enqueued|
  {
    CountedIsPositive(s.pcs, t, HoldsItem);
  }

  lemma DepthIsPositive(s: State, t: Tid)
    requires Accounting(s) && t in s.pcs && s.pcs[t].DecDepth?
    ensures s.stats.depth >= 1
  {
    CountedIsPositive(s.pcs, t, AtDecDepth);
    CountsOrdered(s.pcs);
  }

  lemma DepthReportedFits(s: State, t: Tid)
    requires Accounting(s) && t in s.pcs && s.pcs[t].IncDepth?
    ensures s.capacity > 0 ==> s.stats.depth + 1 <= s.capacity
  {
    CountedIsPositive(s.pcs, t, Uncounted);
    CountsOrdered(s.pcs);
  }

  lemma ReserveBalances(s: State, t: Tid, choice: bool, newId: NodeId, n: Tally, n': Tally)
    requires Balanced(s, n) && CanStep(s, t, choice, newId) && Reserving(s.pcs[t])
    requires Shifted(n, n', s.pcs[t], PushPc(s, t, choice, newId))
    ensures Balanced(PushStep(s, t, choice, newId), n')
  {
  }

  lemma LinkBalances(s: State, t: Tid, choice: bool, newId: NodeId, n: Tally, n': Tally)
    requires Balanced(s, n) && CanStep(s, t, choice, newId) && Pushing(s.pcs[t]) && !Reserving(s.pcs[t])
    requires Shifted(n, n', s.pcs[t], PushPc(s, t, choice, newId))
    ensures Balanced(PushStep(s, t, choice, newId), n')
  {
  }

  lemma PopBalances(s: State, t: Tid, choice: bool, n: Tally, n': Tally)
    requires Balanced(s, n) && CanStep(s, t, choice, 0) && !Pushing(s.pcs[t]) && !s.pcs[t].NullNext?
    requires s.pcs[t].MoveHead? ==> |s.history.dequeued| < |s.history.enqueued|
    requires s.pcs[t].DecDepth? ==> s.stats.depth >= 1
    requires Shifted(n, n', s.pcs[t], PopPc(s, t, choice))
    ensures Balanced(PopStep(s, t, choice), n')
  {
  }

  lemma PushKeepsAccounting(s: State, t: Tid, choice: bool, newId: NodeId)
    requires Accounting(s) && CanStep(s, t, choice, newId) && Pushing(s.pcs[t])
    ensures Accounting(PushStep(s, t, choice, newId))
  {
    var s' := PushStep(s, t, choice, newId);
    CountsMoved(s.pcs, t, PushPc(s, t, choice, newId));
    if Reserving(s.pcs[t]) {
      ReserveBalances(s, t, choice, newId, TallyOf(s.pcs), TallyOf(s'.pcs));
    } else {
      LinkBalances(s, t, choice, newId, TallyOf(s.pcs), TallyOf(s'.pcs));
    }
  }

  lemma PopKeepsAccounting(s: State, t: Tid, choice: bool)
    requires Accounting(s) && CanStep(s, t, choice, 0) && !Pushing(s.pcs[t]) && !s.pcs[t].NullNext?
    ensures Accounting(PopStep(s, t, choice))
  {
    var s' := PopStep(s, t, choice);
    CountsMoved(s.pcs, t, PopPc(s, t, choice));
    if s.pcs[t].MoveHead? { TokenMeansLive(s, t); }
    if s.pcs[t].DecDepth? { DepthIsPositive(s, t); }
    PopBalances(s, t, choice, TallyOf(s.pcs), TallyOf(s'.pcs));
  }

  // ---- Locks ----

  lemma PushKeepsLocked(s: State, t: Tid, choice: bool, newId: NodeId)
    requires Locked(s) && CanStep(s, t, choice, newId) && Pushing(s.pcs[t])
    ensures Locked(PushStep(s, t, choice, newId))
  {
    var s' := PushStep(s, t, choice, newId);
    assert LockedAt(s, t);
    assert LockedAt(s', t);
    forall u | u in s'.pcs && u != t ensures LockedAt(s', u) {
      assert LockedAt(s, u);
    }
  }

  lemma PopKeepsLocked(s: State, t: Tid, choice: bool)
    requires Locked(s) && CanStep(s, t, choice, 0) && !Pushing(s.pcs[t])
    ensures Locked(PopStep(s, t, choice))
  {
    var s' := PopStep(s, t, choice);
    assert LockedAt(s, t);
    assert LockedAt(s', t);
    forall u | u in s'.pcs && u != t ensures LockedAt(s', u) {
      assert LockedAt(s, u);
    }
  }

  // ---- The chain of nodes ----

  /** The queue's own nodes and the histories are the same. */
  ghost predicate SameQueue(s: State, s': State) {
    && s'.history.enqueued == s.history.enqueued && s'.history.dequeued == s.history.dequeued
    && s'.history.linked == s.history.linked && s'.memory.head == s.memory.head
    && s'.history.owner.Keys == s'.memory.nodes.Keys
    && forall id :: id in s.history.owner && s.history.owner[id].InQueue? && id in s.memory.nodes ==>
         SameNode(s, s', id)
  }

  ghost predicate SameNode(s: State, s': State, id: NodeId)
    requires id in s.memory.nodes && id in s.history.owner
  {
    && id in s'.memory.nodes && id in s'.history.owner
    && s'.history.owner[id] == s.history.owner[id] && s'.memory.nodes[id] == s.memory.nodes[id]
  }

  lemma ChainFrame(s: State, s': State)
    requires Chain(s) && SameQueue(s, s')
    ensures Chain(s')
  {
    forall i | |s.history.dequeued| <= i <= |s.history.enqueued| ensures ChainAt(s', i) {
      assert ChainAt(s, i);
      assert SameNode(s, s', s.history.linked[i]);
    }
  }

  /** A thread about to link its node finds the tail at the last node. */
  lemma LinkerFindsLast(s: State, t: Tid)
    requires Locked(s) && Chain(s) && TailAt(s) && t in s.pcs && s.pcs[t].LinkNext?
    ensures s.memory.tail == s.history.linked[|s.history.enqueued|] && ChainAt(s, |s.history.enqueued|)
  {
  }

  lemma LinkKeepsChain(s: State, t: Tid)
    requires Chain(s) && CanStep(s, t, true, 0) && s.pcs[t].LinkNext? && KnowsAt(s, t)
    requires s.memory.tail == s.history.linked[|s.history.enqueued|] && ChainAt(s, |s.history.enqueued|)
    ensures Chain(PushStep(s, t, true, 0))
  {
    var s' := PushStep(s, t, true, 0);
    forall i | |s'.history.dequeued| <= i <= |s'.history.enqueued| ensures ChainAt(s', i) {
      if i <= |s.history.enqueued| { assert ChainAt(s, i); }
    }
  }

  lemma MoveHeadKeepsChain(s: State, t: Tid)
    requires Chain(s) && CanStep(s, t, true, 0) && s.pcs[t].MoveHead? && KnowsAt(s, t)
    requires ChainAt(s, |s.history.dequeued|)
    ensures Chain(PopStep(s, t, true))
  {
    var s' := PopStep(s, t, true);
    forall i | |s'.history.dequeued| <= i <= |s'.history.enqueued| ensures ChainAt(s', i) {
      assert ChainAt(s, i);
    }
  }

  lemma ReserveKeepsQueue(s: State, t: Tid, choice: bool, newId: NodeId)
    requires Chain(s) && CanStep(s, t, choice, newId) && Reserving(s.pcs[t]) && KnowsAt(s, t)
    ensures SameQueue(s, PushStep(s, t, choice, newId))
  {
  }

  lemma AnnounceKeepsQueue(s: State, t: Tid, choice: bool, newId: NodeId)
    requires Chain(s) && CanStep(s, t, choice, newId) && Announcing(s.pcs[t])
    ensures SameQueue(s, PushStep(s, t, choice, newId))
  {
  }

  lemma PopKeepsQueue(s: State, t: Tid, choice: bool)
    requires Chain(s) && CanStep(s, t, choice, 0) && !Pushing(s.pcs[t]) && !s.pcs[t].MoveHead? && KnowsAt(s, t)
    ensures SameQueue(s, PopStep(s, t, choice))
  {
  }

  lemma PushKeepsChain(s: State, t: Tid, choice: bool, newId: NodeId)
    requires Inv(s) && CanStep(s, t, choice, newId) && Pushing(s.pcs[t])
    ensures Chain(PushStep(s, t, choice, newId))
  {
    var s' := PushStep(s, t, choice, newId);
    assert KnowsAt(s, t);
    if s.pcs[t].LinkNext? {
      LinkerFindsLast(s, t);
      LinkKeepsChain(s, t);
    } else {
      if Reserving(s.pcs[t]) {
        ReserveKeepsQueue(s, t, choice, newId);
      } else {
        AnnounceKeepsQueue(s, t, choice, newId);
      }
      ChainFrame(s, s');
    }
  }

  lemma PopKeepsChain(s: State, t: Tid, choice: bool)
    requires Inv(s) && CanStep(s, t, choice, 0) && !Pushing(s.pcs[t])
    ensures Chain(PopStep(s, t, choice))
  {
    assert KnowsAt(s, t);
    if s.pcs[t].MoveHead? {
      assert ChainAt(s, |s.history.dequeued|);
      MoveHeadKeepsChain(s, t);
    } else {
      PopKeepsQueue(s, t, choice);
      ChainFrame(s, PopStep(s, t, choice));
    }
  }

  /** A popper that moves the head leaves the tail behind it even if a pusher has not moved the tail yet: that pusher
      has not released its item, so there is another one. */
  lemma TokenBesidesPusher(s: State, t: Tid, u: Tid)
    requires Accounting(s) && t in s.pcs && HoldsItem(s.pcs[t]) && u in s.pcs && Announcing(s.pcs[u])
    ensures |s.history.dequeued| + 2 <= |s.history.enqueued|
  {
    CountedIsPositive(s.pcs, t, HoldsItem);
    CountedIsPositive(s.pcs, u, Announcing);
  }

  lemma ReserveKeepsTail(s: State, t: Tid, choice: bool, newId: NodeId)
    requires CanStep(s, t, choice, newId) && Reserving(s.pcs[t]) && LockedAt(s, t)
    requires |s.history.linked| == |s.history.enqueued| + 1 && TailAt(s)
    ensures var s' := PushStep(s, t, choice, newId); |s'.history.linked| == |s'.history.enqueued| + 1 && TailAt(s')
  {
  }

  lemma AnnounceKeepsTail(s: State, t: Tid, choice: bool, newId: NodeId)
    requires CanStep(s, t, choice, newId) && (s.pcs[t].LinkNext? || Announcing(s.pcs[t])) && LockedAt(s, t)
    requires |s.history.linked| == |s.history.enqueued| + 1 && |s.history.dequeued| <= |s.history.enqueued|
    requires TailAt(s) && KnowsAt(s, t)
    ensures var s' := PushStep(s, t, choice, newId); |s'.history.linked| == |s'.history.enqueued| + 1 && TailAt(s')
  {
  }

  lemma PopKeepsTail(s: State, t: Tid, choice: bool)
    requires CanStep(s, t, choice, 0) && !Pushing(s.pcs[t]) && LockedAt(s, t)
    requires |s.history.linked| == |s.history.enqueued| + 1 && TailAt(s)
    requires s.pcs[t].MoveHead? && MovingTail(s) ==> |s.history.dequeued| + 2 <= |s.history.enqueued|
    ensures var s' := PopStep(s, t, choice); |s'.history.linked| == |s'.history.enqueued| + 1 && TailAt(s')
  {
  }

  // ---- What threads know ----

  lemma PusherKnows(s: State, t: Tid, choice: bool, newId: NodeId)
    requires Inv(s) && CanStep(s, t, choice, newId) && Pushing(s.pcs[t])
    requires Chain(PushStep(s, t, choice, newId))
    ensures KnowsAt(PushStep(s, t, choice, newId), t)
  {
    assert KnowsAt(s, t);
    if s.pcs[t].IncDepth? { DepthReportedFits(s, t); }
  }

  lemma PopperKnows(s: State, t: Tid, choice: bool)
    requires Accounting(s) && Chain(s) && CanStep(s, t, choice, 0) && !Pushing(s.pcs[t])
    requires KnowsAt(s, t) && Chain(PopStep(s, t, choice))
    ensures KnowsAt(PopStep(s, t, choice), t)
  {
    assert ChainAt(s, |s.history.dequeued|);
    if HoldsItem(s.pcs[t]) {
      TokenMeansLive(s, t);
      assert ChainAt(s, |s.history.dequeued| + 1);
    }
  }

  /** Nothing that `u` relies on has changed. */
  ghost predicate Undisturbed(s: State, s': State, u: Tid)
    requires u in s.pcs
  {
    && u in s'.pcs && s'.pcs[u] == s.pcs[u] && s'.capacity == s.capacity && (s.flags.closed ==> s'.flags.closed)
    && (forall id :: Owns(s, u, id) ==> Owns(s', u, id) && s'.memory.nodes[id] == s.memory.nodes[id])
    && s.history.linked <= s'.history.linked && s.history.enqueued <= s'.history.enqueued
    && (s.pcs[u].MoveTail? ==> s'.history.enqueued == s.history.enqueued)
    && (InHead(s.pcs[u]) ==> s'.memory.head == s.memory.head && s'.history.dequeued == s.history.dequeued)
  }

  lemma UndisturbedKnows(s: State, s': State, u: Tid)
    requires Chain(s) && Chain(s') && u in s.pcs && KnowsAt(s, u) && Undisturbed(s, s', u)
    ensures KnowsAt(s', u)
  {
  }

  lemma ReserveUndisturbs(s: State, t: Tid, choice: bool, newId: NodeId, u: Tid)
    requires Chain(s) && CanStep(s, t, choice, newId) && Reserving(s.pcs[t]) && KnowsAt(s, t) && u in s.pcs && u != t
    ensures Undisturbed(s, PushStep(s, t, choice, newId), u)
  {
  }

  lemma LinkUndisturbs(s: State, t: Tid, u: Tid)
    requires Inv(s) && CanStep(s, t, true, 0) && s.pcs[t].LinkNext? && u in s.pcs && u != t
    ensures Undisturbed(s, PushStep(s, t, true, 0), u)
  {
    assert KnowsAt(s, t) && LockedAt(s, u) && LockedAt(s, t);
    LinkerFindsLast(s, t);
  }

  lemma PushUndisturbs(s: State, t: Tid, choice: bool, newId: NodeId, u: Tid)
    requires Inv(s) && CanStep(s, t, choice, newId) && Pushing(s.pcs[t]) && u in s.pcs && u != t
    ensures Undisturbed(s, PushStep(s, t, choice, newId), u)
  {
    assert KnowsAt(s, t);
    if Reserving(s.pcs[t]) {
      ReserveUndisturbs(s, t, choice, newId, u);
    } else if s.pcs[t].LinkNext? {
      LinkUndisturbs(s, t, u);
    }
  }

  lemma PopUndisturbs(s: State, t: Tid, choice: bool, u: Tid)
    requires Chain(s) && CanStep(s, t, choice, 0) && !Pushing(s.pcs[t]) && KnowsAt(s, t) && u in s.pcs && u != t
    requires LockedAt(s, u) && LockedAt(s, t) && ChainAt(s, |s.history.dequeued|)
    ensures Undisturbed(s, PopStep(s, t, choice), u)
  {
  }

  lemma ReserveLosesNothing(s: State, t: Tid, choice: bool, newId: NodeId)
    requires CanStep(s, t, choice, newId) && Reserving(s.pcs[t])
    requires |s.history.linked| == |s.history.enqueued| + 1 && NothingLost(s) && KnowsAt(s, t)
    ensures var s' := PushStep(s, t, choice, newId); |s'.history.linked| == |s'.history.enqueued| + 1 && NothingLost(s')
  {
    var s' := PushStep(s, t, choice, newId);
    forall id | id in s'.history.owner ensures HasPlace(s', id) {
      if id in s.history.owner { assert HasPlace(s, id); }
    }
  }

  lemma AnnounceLosesNothing(s: State, t: Tid, choice: bool, newId: NodeId)
    requires CanStep(s, t, choice, newId) && (s.pcs[t].LinkNext? || Announcing(s.pcs[t]))
    requires |s.history.linked| == |s.history.enqueued| + 1 && NothingLost(s) && KnowsAt(s, t)
    requires |s.history.dequeued| <= |s.history.enqueued|
    ensures var s' := PushStep(s, t, choice, newId); |s'.history.linked| == |s'.history.enqueued| + 1 && NothingLost(s')
  {
    var s' := PushStep(s, t, choice, newId);
    forall id | id in s'.history.owner ensures HasPlace(s', id) {
      if id in s.history.owner { assert HasPlace(s, id); }
    }
  }

  lemma MoveHeadLosesNothing(s: State, t: Tid)
    requires CanStep(s, t, true, 0) && s.pcs[t].MoveHead?
    requires |s.history.linked| == |s.history.enqueued| + 1 && NothingLost(s) && KnowsAt(s, t)
    requires |s.history.dequeued| <= |s.history.enqueued|
    requires s.memory.head == s.history.linked[|s.history.dequeued|] && s.memory.head in s.history.owner
    ensures var s' := PopStep(s, t, true); |s'.history.linked| == |s'.history.enqueued| + 1 && NothingLost(s')
  {
    var s' := PopStep(s, t, true);
    forall id | id in s'.history.owner ensures HasPlace(s', id) {
      assert HasPlace(s, id);
    }
  }

  lemma ReturnLosesNothing(s: State, t: Tid, choice: bool)
    requires CanStep(s, t, choice, 0) && Returning(s.pcs[t])
    requires |s.history.linked| == |s.history.enqueued| + 1 && NothingLost(s)
    ensures var s' := PopStep(s, t, choice); |s'.history.linked| == |s'.history.enqueued| + 1 && NothingLost(s')
  {
    var s' := PopStep(s, t, choice);
    ReturnKeepsOwners(s, t, choice);
    forall id | id in s'.history.owner ensures HasPlace(s', id) {
      assert HasPlace(s, id);
    }
  }

  /** On its way back a popper touches the queue only by deleting its own node. */
  lemma ReturnKeepsOwners(s: State, t: Tid, choice: bool)
    requires CanStep(s, t, choice, 0) && Returning(s.pcs[t])
    ensures var s', pc := PopStep(s, t, choice), s.pcs[t];
            && s'.history.linked == s.history.linked && s'.history.enqueued == s.history.enqueued
            && s'.history.dequeued == s.history.dequeued
            && s'.history.owner == (if pc.DeleteOld? then s.history.owner - {pc.first} else s.history.owner)
            && s'.pcs == s.pcs[t := s'.pcs[t]] && (!pc.DeleteOld? ==> OwnNode(s'.pcs[t]) == OwnNode(pc))
  {
  }

  lemma PopLosesNothing(s: State, t: Tid, choice: bool)
    requires Inv(s) && CanStep(s, t, choice, 0) && !Pushing(s.pcs[t])
    requires Chain(PopStep(s, t, choice))
    ensures NothingLost(PopStep(s, t, choice))
  {
    if s.pcs[t].MoveHead? {
      assert KnowsAt(s, t) && ChainAt(s, |s.history.dequeued|);
      MoveHeadLosesNothing(s, t);
    } else if Returning(s.pcs[t]) {
      ReturnLosesNothing(s, t, choice);
    }
  }

  lemma PushKeepsDepths(s: State, t: Tid, choice: bool, newId: NodeId)
    requires |s.history.linked| == |s.history.enqueued| + 1 && Knows(s) && DepthsReported(s)
    requires CanStep(s, t, choice, newId) && Pushing(s.pcs[t])
    ensures DepthsReported(PushStep(s, t, choice, newId))
  {
    var s' := PushStep(s, t, choice, newId);
    if s.pcs[t].RecordDepth? {
      assert KnowsAt(s, t);
      var d := s.pcs[t].depth;
      assert s'.stats.reported == s.stats.reported + [d];
      assert s'.stats.maxDepth == d || (s.stats.reported != [] && s.stats.maxDepth in s.stats.reported);
    } else {
      assert s'.stats.reported == s.stats.reported && s'.stats.maxDepth == s.stats.maxDepth;
      assert s'.capacity == s.capacity;
    }
  }

  lemma PushKeepsInv(s: State, t: Tid, choice: bool, newId: NodeId)
    requires Inv(s) && CanStep(s, t, choice, newId) && Pushing(s.pcs[t])
    ensures Inv(PushStep(s, t, choice, newId))
  {
    var s' := PushStep(s, t, choice, newId);
    PushKeepsAccounting(s, t, choice, newId);
    PushKeepsLocked(s, t, choice, newId);
    PushKeepsChain(s, t, choice, newId);
    assert LockedAt(s, t) && KnowsAt(s, t);
    if Reserving(s.pcs[t]) {
      ReserveKeepsTail(s, t, choice, newId);
      ReserveLosesNothing(s, t, choice, newId);
    } else {
      AnnounceKeepsTail(s, t, choice, newId);
      AnnounceLosesNothing(s, t, choice, newId);
    }
    PushKeepsDepths(s, t, choice, newId);
    forall u | u in s'.pcs ensures KnowsAt(s', u) {
      if u == t {
        PusherKnows(s, t, choice, newId);
      } else {
        PushUndisturbs(s, t, choice, newId, u);
        assert KnowsAt(s, u);
        UndisturbedKnows(s, s', u);
      }
    }
  }

  lemma PopKeepsInv(s: State, t: Tid, choice: bool)
    requires Inv(s) && CanStep(s, t, choice, 0) && !Pushing(s.pcs[t])
    ensures Inv(PopStep(s, t, choice))
  {
    assert KnowsAt(s, t);
    PopKeepsAccounting(s, t, choice);
    PopKeepsLocked(s, t, choice);
    PopKeepsChain(s, t, choice);
    PopKeepsTailAt(s, t, choice);
    PopLosesNothing(s, t, choice);
    PopKeepsKnows(s, t, choice);
  }

  lemma PopKeepsTailAt(s: State, t: Tid, choice: bool)
    requires Inv(s) && CanStep(s, t, choice, 0) && !Pushing(s.pcs[t])
    ensures var s' := PopStep(s, t, choice); |s'.history.linked| == |s'.history.enqueued| + 1 && TailAt(s')
  {
    assert LockedAt(s, t);
    if s.pcs[t].MoveHead? && MovingTail(s) { TokenBesidesPusher(s, t, s.sync.tailLock.owner); }
    PopKeepsTail(s, t, choice);
  }

  lemma PopKeepsKnows(s: State, t: Tid, choice: bool)
    requires Inv(s) && CanStep(s, t, choice, 0) && !Pushing(s.pcs[t]) && Chain(PopStep(s, t, choice))
    ensures Knows(PopStep(s, t, choice))
  {
    var s' := PopStep(s, t, choice);
    assert KnowsAt(s, t) && LockedAt(s, t) && ChainAt(s, |s.history.dequeued|);
    forall u | u in s'.pcs ensures KnowsAt(s', u) {
      if u == t {
        PopperKnows(s, t, choice);
      } else {
        assert KnowsAt(s, u) && LockedAt(s, u);
        PopUndisturbs(s, t, choice, u);
        UndisturbedKnows(s, s', u);
      }
    }
  }

  // ---- Runs ----

  lemma StartKeepsAccounting(s: State, t: Tid, pc: Pc)
    requires Accounting(s) && t in s.pcs && s.pcs[t].Idle? && (pc.CheckClosedFirst? || pc.AcquireItem?)
    ensures Accounting(s.(pcs := s.pcs[t := pc]))
  {
    CountsMoved(s.pcs, t, pc);
    assert TallyOf(s.pcs[t := pc]) == TallyOf(s.pcs);
  }

  /** Starting a call or raising a flag moves no one else and touches nothing but flags. */
  ghost predicate SameMemory(s: State, s': State, t: Tid) {
    && s' == s.(pcs := s'.pcs, flags := s'.flags) && s'.pcs.Keys == s.pcs.Keys
    && (s.flags.closed ==> s'.flags.closed)
    && (forall u :: u in s.pcs && u != t ==> s'.pcs[u] == s.pcs[u])
    && (t in s.pcs && s'.pcs[t] != s.pcs[t] ==>
          s.pcs[t].Idle? && (s'.pcs[t].CheckClosedFirst? || s'.pcs[t].AcquireItem?))
  }

  lemma SameMemoryThread(s: State, s': State, t: Tid, u: Tid)
    requires |s.history.linked| == |s.history.enqueued| + 1 && u in s.pcs && LockedAt(s, u) && KnowsAt(s, u)
    requires SameMemory(s, s', t)
    ensures LockedAt(s', u) && KnowsAt(s', u) && s'.pcs[u].MoveTail? == s.pcs[u].MoveTail?
  {
  }

  lemma SameMemoryLosesNothing(s: State, s': State, t: Tid)
    requires |s.history.linked| == |s.history.enqueued| + 1 && NothingLost(s) && SameMemory(s, s', t)
    ensures NothingLost(s')
  {
    forall id | id in s'.history.owner ensures HasPlace(s', id) {
      assert HasPlace(s, id);
    }
  }

  lemma SameMemoryKeepsThreads(s: State, s': State, t: Tid)
    requires |s.history.linked| == |s.history.enqueued| + 1 && Locked(s) && Knows(s) && SameMemory(s, s', t)
    ensures Locked(s') && Knows(s') && MovingTail(s') == MovingTail(s)
  {
    forall u | u in s'.pcs
      ensures LockedAt(s', u) && KnowsAt(s', u) && s'.pcs[u].MoveTail? == s.pcs[u].MoveTail?
    {
      assert LockedAt(s, u) && KnowsAt(s, u);
      SameMemoryThread(s, s', t, u);
    }
  }

  lemma SameMemoryKeepsTail(s: State, s': State, t: Tid)
    requires |s.history.linked| == |s.history.enqueued| + 1 && TailAt(s) && DepthsReported(s)
    requires SameMemory(s, s', t) && MovingTail(s') == MovingTail(s)
    ensures s'.memory == s.memory && s'.history == s.history
    ensures TailAt(s') && DepthsReported(s')
  {
  }

  lemma SameMemoryKeepsInv(s: State, s': State, t: Tid)
    requires Inv(s) && SameMemory(s, s', t) && Accounting(s')
    ensures Inv(s')
  {
    SameMemoryKeepsThreads(s, s', t);
    SameMemoryKeepsTail(s, s', t);
    SameMemoryLosesNothing(s, s', t);
    ChainFrame(s, s');
  }

  lemma ActionKeepsInv(s: State, a: Action)
    requires Inv(s) && Enabled(s, a)
    ensures Inv(Do(s, a))
  {
    match a
    case StartPush(t, ev, policy) =>
      StartKeepsAccounting(s, t, CheckClosedFirst(ev, policy));
      SameMemoryKeepsInv(s, Do(s, a), t);
    case StartPop(t) =>
      StartKeepsAccounting(s, t, AcquireItem);
      SameMemoryKeepsInv(s, Do(s, a), t);
    case Step(t, choice, newId) =>
      if Pushing(s.pcs[t]) {
        PushKeepsInv(s, t, choice, newId);
      } else {
        PopKeepsInv(s, t, choice);
      }
    case _ =>
      SameMemoryKeepsInv(s, Do(s, a), 0);
  }

  lemma {:induction false} RunKeepsInv(s: State, run: seq<State>)
    requires Reachable(s, run)
    ensures Inv(s)
    decreases |run|
  {
    if |run| > 1 {
      var before := run[|run| - 2];
      assert Next(before, s);
      RunKeepsInv(before, run[..|run| - 1]);
      var a :| Enabled(before, a) && s == Do(before, a);
      ActionKeepsInv(before, a);
    }
  }
}
