/** What single calls on the ring with two locks do: when they give up, what they do when nothing interrupts them, and
    what they do once a flag is up. */
module MpmcCalls {
  import opened Events
  import opened MpmcAccesses
  import opened MpmcRing
  import opened Threads
  import opened Trails

  // ---- When a push gives up ----

  /** Before the tail lock, where a push can still be refused. */
  predicate Deciding(pc: Pc) {
    pc.AcquireSlot? || pc.SlotRetryClosed? || pc.SlotRetryStop? || pc.CheckClosed? || pc.CheckStop?
  }

  /** A push turns back (it returns, or goes to give its slot back first) exactly when it reads `closed` or the stop
      flag as true, or when its `try_acquire` fails under `Drop`; then it has enqueued nothing and holds no slot at the
      end. */
  lemma PushGivesUpExactlyWhen(s: State, t: Tid, choice: bool)
    requires CanStep(s, t, choice) && Deciding(s.pcs[t])
    ensures var pc, s' := s.pcs[t], Do(s, Step(t, choice));
            && (s'.pcs[t].Idle? || s'.pcs[t].GiveSlotBack? <==>
                  || (pc.AcquireSlot? && pc.policy.Drop? && !choice)
                  || (pc.SlotRetryClosed? && s.flags.closed) || (pc.SlotRetryStop? && s.flags.pushStop)
                  || (pc.CheckClosed? && s.flags.closed) || (pc.CheckStop? && s.flags.pushStop))
            && (s'.pcs[t].GiveSlotBack? ==> Do(s', Step(t, false)).pcs[t].Idle?)
            && Contents(s') == Contents(s)
            && s'.slots - s.slots == One(HoldsSlot(pc)) - One(HoldsSlot(s'.pcs[t]))
  {
  }

  /** In every run a thread in the queue can take its next access, except that it may have to wait for a lock. */
  lemma NeverStuck(s: State, run: seq<State>, t: Tid, choice: bool)
    requires Reachable(s, run) && t in s.pcs && !s.pcs[t].Idle?
    ensures CanStep(s, t, choice) <==>
            && (s.pcs[t].LockTail? ==> s.tailLock.Free?) && (s.pcs[t].LockHead? ==> s.headLock.Free?)
            && (choice && s.pcs[t].AcquireSlot? ==> s.slots > 0) && (choice && s.pcs[t].AcquireItem? ==> s.items > 0)
  {
    RunKeepsInv(s, run);
  }

  // ---- Calls that nothing interrupts ----

  /** A push that nothing interrupts, without a slot to be had: refused under `Drop`, and under `Block` when closed or
      stopped; else it is back where it began. */
  lemma PushAloneWithoutSlot(s: State, t: Tid, ev: Event, policy: Policy) returns (n: nat, end: State)
    requires t in s.pcs && s.pcs[t].Idle? && s.slots == 0
    ensures Enabled(s, StartPush(t, ev, policy)) && n > 0 && Alone(Do(s, StartPush(t, ev, policy)), t, n, end)
    ensures end == if policy.Drop? || s.flags.closed || s.flags.pushStop then s else Do(s, StartPush(t, ev, policy))
  {
    assert s.pcs[t := Idle] == s.pcs;
    var begun := Do(s, StartPush(t, ev, policy));
    end := FindsNoSlot(begun, t, ev, policy);
    n := 1;
    if policy.Block? {
      var s1 := RetryReadsClosed(end, t, ev, policy);
      Then(Goes(t), begun, 1, end, 1, s1);
      n, end := 2, s1;
      if !s.flags.closed {
        var s2 := RetryReadsStop(s1, t, ev, policy);
        Then(Goes(t), begun, 2, s1, 1, s2);
        n, end := 3, s2;
      }
    }
    assert end.pcs == if policy.Drop? || s.flags.closed || s.flags.pushStop then s.pcs else begun.pcs;
  }

  /** With a slot to be had, a push is refused when closed or stopped, and has given its slot back. */
  lemma PushAloneRefused(s: State, t: Tid, ev: Event, policy: Policy) returns (n: nat)
    requires t in s.pcs && s.pcs[t].Idle? && s.slots > 0 && (s.flags.closed || s.flags.pushStop)
    ensures Enabled(s, StartPush(t, ev, policy)) && Alone(Do(s, StartPush(t, ev, policy)), t, n, s)
  {
    var begun := Do(s, StartPush(t, ev, policy));
    var s1 := TakesSlot(begun, t, ev, policy);
    var s2 := ReadsClosed(s1, t, ev);
    Then(Goes(t), begun, 1, s1, 1, s2);
    n := 2;
    if !s.flags.closed {
      var s3 := ReadsStop(s2, t, ev);
      Then(Goes(t), begun, 2, s2, 1, s3);
      n, s2 := 3, s3;
    }
    var end := GivesSlotBack(s2, t);
    Then(Goes(t), begun, n, s2, 1, end);
    n := n + 1;
    assert end.pcs == s.pcs;
  }

  /** Open, not stopped, with a slot to be had and the tail lock free, a push appends its event and returns, under
      either policy. */
  lemma PushAlone(s: State, run: seq<State>, t: Tid, ev: Event, policy: Policy) returns (end: State)
    requires Reachable(s, run) && t in s.pcs && s.pcs[t].Idle? && s.tailLock.Free?
    requires s.slots > 0 && !s.flags.closed && !s.flags.pushStop
    ensures Enabled(s, StartPush(t, ev, policy)) && Alone(Do(s, StartPush(t, ev, policy)), t, 10, end)
    ensures end.enqueued == s.enqueued + [ev] && end.reported == s.reported + [s.depth + 1]
    ensures end == s.(slots := s.slots - 1, items := s.items + 1, depth := s.depth + 1, enqueued := end.enqueued,
                      tail := end.tail, buffer := end.buffer, maxDepth := end.maxDepth, reported := end.reported)
  {
    assert s.tail < |s.buffer| by { RunKeepsInv(s, run); }
    var begun := Do(s, StartPush(t, ev, policy));
    var s3 := PassesChecks(begun, t, ev, policy);
    end := AppendAlone(s3, t, ev);
    Then(Goes(t), begun, 3, s3, 7, end);
    assert end.pcs == s.pcs;
  }

  lemma PassesChecks(s: State, t: Tid, ev: Event, policy: Policy) returns (end: State)
    requires t in s.pcs && s.pcs[t] == AcquireSlot(ev, policy) && s.slots > 0
    requires !s.flags.closed && !s.flags.pushStop
    ensures Alone(s, t, 3, end) && end == At(s, t, LockTail(ev)).(slots := s.slots - 1)
  {
    var s1 := TakesSlot(s, t, ev, policy);
    var s2 := ReadsClosed(s1, t, ev);
    Then(Goes(t), s, 1, s1, 1, s2);
    end := ReadsStop(s2, t, ev);
    Then(Goes(t), s, 2, s2, 1, end);
    assert end.pcs == s.pcs[t := LockTail(ev)];
  }

  /** The rest of it, from the tail lock on. */
  lemma AppendAlone(s: State, t: Tid, ev: Event) returns (end: State)
    requires t in s.pcs && s.pcs[t] == LockTail(ev) && s.tailLock.Free? && s.tail < |s.buffer|
    ensures Alone(s, t, 7, end)
    ensures end.enqueued == s.enqueued + [ev] && end.reported == s.reported + [s.depth + 1]
    ensures end == s.(pcs := s.pcs[t := Idle], items := s.items + 1, depth := s.depth + 1, enqueued := end.enqueued,
                      tail := end.tail, buffer := end.buffer, maxDepth := end.maxDepth, reported := end.reported)
  {
    var s1 := LocksTail(s, t, ev);
    var s2 := WritesSlot(s1, t, ev);
    Then(Goes(t), s, 1, s1, 1, s2);
    var s3 := AdvancesTail(s2, t, ev);
    Then(Goes(t), s, 2, s2, 1, s3);
    end := ReportAlone(s3, t);
    Then(Goes(t), s, 3, s3, 4, end);
    assert end.pcs == s.pcs[t := Idle];
  }

  lemma ReportAlone(s: State, t: Tid) returns (end: State)
    requires t in s.pcs && s.pcs[t].IncDepth?
    ensures Alone(s, t, 4, end)
    ensures end == s.(pcs := s.pcs[t := Idle], depth := s.depth + 1, maxDepth := Max(s.maxDepth, s.depth + 1),
                      reported := s.reported + [s.depth + 1], tailLock := Free, items := s.items + 1)
  {
    var s1 := CountsUp(s, t);
    var s2 := RecordsDepth(s1, t, s.depth + 1);
    Then(Goes(t), s, 1, s1, 1, s2);
    var s3 := UnlocksTail(s2, t);
    Then(Goes(t), s, 2, s2, 1, s3);
    end := ReleasesItem(s3, t);
    Then(Goes(t), s, 3, s3, 1, end);
    assert end.pcs == s.pcs[t := Idle];
  }

  /** A pop that nothing interrupts: without an item to be had it fails when closed or stopped and is else back where it
      began. */
  lemma PopAloneWithoutItem(s: State, t: Tid) returns (n: nat, end: State)
    requires t in s.pcs && s.pcs[t].Idle? && s.items == 0
    ensures Enabled(s, StartPop(t)) && n > 0 && Alone(Do(s, StartPop(t)), t, n, end)
    ensures end == if s.flags.closed || s.flags.popStop then s else Do(s, StartPop(t))
  {
    var begun := Do(s, StartPop(t));
    var s1 := FindsNoItem(begun, t);
    end := PopReadsClosed(s1, t);
    n := 2;
    Then(Goes(t), begun, 1, s1, 1, end);
    if !s.flags.closed {
      var s3 := PopReadsStop(end, t);
      Then(Goes(t), begun, 2, end, 1, s3);
      n, end := 3, s3;
    }
    assert end.pcs == if s.flags.closed || s.flags.popStop then s.pcs else begun.pcs;
  }

  /** With an item to be had and the head lock free, it takes the oldest event, whatever the flags. */
  lemma PopAlone(s: State, run: seq<State>, t: Tid) returns (end: State)
    requires Reachable(s, run) && t in s.pcs && s.pcs[t].Idle? && s.headLock.Free? && s.items > 0
    ensures Enabled(s, StartPop(t)) && Alone(Do(s, StartPop(t)), t, 7, end)
    ensures |s.dequeued| < |s.enqueued| && end.dequeued == s.dequeued + [s.enqueued[|s.dequeued|]]
    ensures end == s.(items := s.items - 1, slots := s.slots + 1, dequeued := end.dequeued, head := end.head,
                      depth := Decremented(s.depth))
  {
    assert |s.dequeued| < |s.enqueued| && s.head < |s.buffer| && s.buffer[s.head] == s.enqueued[|s.dequeued|] by {
      RunKeepsInv(s, run);
      assert |s.dequeued| < |s.enqueued| && Holding(s, |s.dequeued|);
    }
    var begun := Do(s, StartPop(t));
    var s1 := TakesItem(begun, t);
    var s2 := LocksHead(s1, t);
    Then(Goes(t), begun, 1, s1, 1, s2);
    var s3 := ReadsSlot(s2, t);
    Then(Goes(t), begun, 2, s2, 1, s3);
    end := TakeAlone(s3, t, s.enqueued[|s.dequeued|]);
    Then(Goes(t), begun, 3, s3, 4, end);
    assert end.pcs == s.pcs;
  }

  lemma TakeAlone(s: State, t: Tid, ev: Event) returns (end: State)
    requires t in s.pcs && s.pcs[t] == AdvanceHead(ev)
    ensures Alone(s, t, 4, end)
    ensures end == s.(pcs := s.pcs[t := Idle], slots := s.slots + 1, dequeued := s.dequeued + [ev], head := end.head,
                      depth := Decremented(s.depth), headLock := Free)
  {
    var s1 := AdvancesHead(s, t, ev);
    var s2 := CountsDown(s1, t);
    Then(Goes(t), s, 1, s1, 1, s2);
    var s3 := UnlocksHead(s2, t);
    Then(Goes(t), s, 2, s2, 1, s3);
    end := ReturnsSlot(s3, t);
    Then(Goes(t), s, 3, s3, 1, end);
    assert end.pcs == s.pcs[t := Idle];
  }

  // ---- After a flag has been raised ----

  /** A flag goes up when it is raised, and stays up. */
  lemma FlagsOnlyRise(s: State, a: Action)
    requires Enabled(s, a)
    ensures Do(s, a).flags.closed <==> s.flags.closed || a.Close?
    ensures Do(s, a).flags.pushStop <==> s.flags.pushStop || a.RaisePushStop?
    ensures Do(s, a).flags.popStop <==> s.flags.popStop || a.RaisePopStop?
  {
    if a.Step? { ClosedStays(s, a.t, a.choice); }
  }

  /** A run that goes on from `s`. */
  ghost predicate Continues(s: State, later: seq<State>) {
    && later != [] && later[0] == s
    && forall i :: 0 < i < |later| ==> Next(later[i - 1], later[i])
  }

  /** A push that is past all checks and has still to enqueue its event. */
  function Passed(stop: bool): Pc -> bool {
    (pc: Pc) => pc.LockTail? || pc.WriteSlot? || pc.AdvanceTail? || (pc.CheckStop? && !stop)
  }

  predicate FlagUp(s: State) {
    s.flags.closed || s.flags.pushStop
  }

  /** The events enqueued, and those that pushes past their checks will still enqueue. */
  ghost function Bound(s: State): nat {
    |s.enqueued| + Count(s.pcs, Passed(s.flags.pushStop))
  }

  /** Thread `t` has no push that enqueues. */
  predicate Barred(s: State, t: Tid) {
    t in s.pcs ==> !Passed(s.flags.pushStop)(s.pcs[t]) && !Announcing(s.pcs[t])
  }

  lemma StepOnce(s: State, t: Tid, choice: bool)
    requires FlagUp(s) && CanStep(s, t, choice)
    ensures var s', p := Do(s, Step(t, choice)), Passed(s.flags.pushStop);
            && s'.flags == s.flags
            && |s'.enqueued| + One(p(s'.pcs[t])) <= |s.enqueued| + One(p(s.pcs[t]))
            && (Barred(s, t) ==> Barred(s', t) && s'.enqueued == s.enqueued)
  {
  }

  lemma {:induction false} FlagStep(s: State, a: Action)
    requires FlagUp(s) && Enabled(s, a)
    ensures FlagUp(Do(s, a)) && Bound(Do(s, a)) <= Bound(s)
    ensures forall t :: Barred(s, t) ==> Barred(Do(s, a), t)
  {
    var s', p := Do(s, a), Passed(s.flags.pushStop);
    match a
    case Step(t, choice) =>
      StepOnce(s, t, choice);
      CountMoved(s.pcs, t, s'.pcs[t], p);
    case StartPush(t, ev, policy) => CountMoved(s.pcs, t, s'.pcs[t], p);
    case StartPop(t) => CountMoved(s.pcs, t, s'.pcs[t], p);
    case _ =>
      SubsetCount(Those(s.pcs, Passed(s'.flags.pushStop)), Those(s.pcs, p));
  }

  /** After `close`, or once the stop flag is up: a thread whose push has its checks still to come, or which begins one
      later, enqueues nothing any more, so all its pushes fail; the others enqueue at most one event each. */
  lemma {:induction false} PushesAfterFlag(s: State, a: Action, later: seq<State>)
    requires (a.Close? || a.RaisePushStop?) && Continues(Do(s, a), later)
    ensures var end := later[|later| - 1];
            && FlagUp(end) && Bound(end) <= Bound(Do(s, a)) && forall t :: Barred(Do(s, a), t) ==> Barred(end, t)
    decreases |later|
  {
    if |later| > 1 {
      var before, end := later[|later| - 2], later[|later| - 1];
      PushesAfterFlag(s, a, later[..|later| - 1]);
      assert Next(before, end);
      var b :| Enabled(before, b) && end == Do(before, b);
      FlagStep(before, b);
    }
  }
}
