/** What single calls on the single-producer single-consumer ring do: when they give up, what they do when nothing
    interrupts them, and what they do once a flag is up. */
module SpscCalls {
  import opened Events
  import opened SpscRing

  // ---- When a call gives up ----

  /** An access ends a push without an event exactly when it reads `closed` as true, reads the stop flag as true, or,
      under `Drop`, comes after a head load that found `capacity` events; and then it has changed nothing. */
  lemma PushGivesUpExactlyWhen(s: State, run: seq<State>)
    requires Reachable(s, run) && Enabled(s, ProducerStep)
    ensures Do(s, ProducerStep) == s.(producer := PIdle) <==>
            || (s.producer.PCheckClosed? && s.closed)
            || (s.producer.PCheckStop? && s.pushStop)
            || (s.producer.PFull? && s.producer.policy.Drop?)
    ensures Do(s, ProducerStep).producer.PIdle? && !s.producer.PReport? ==> Do(s, ProducerStep) == s.(producer := PIdle)
    ensures s.producer.PFull? ==> |s.pushed| == s.producer.seen + s.capacity
  {
    RunKeepsInv(s, run);
    if s.producer.PReport? { assert |Produce(s).reported| > |s.reported|; }
  }

  /** An access ends a pop without an event exactly when it reads `closed` or the stop flag as true, after a tail load
      that found the ring empty; and then it has changed nothing. */
  lemma PopGivesUpExactlyWhen(s: State, run: seq<State>)
    requires Reachable(s, run) && Enabled(s, ConsumerStep)
    ensures Do(s, ConsumerStep) == s.(consumer := CIdle) <==>
            (s.consumer.CEmpty? && s.closed) || (s.consumer.CCheckStop? && s.popStop)
    ensures Do(s, ConsumerStep).consumer.CIdle? && !s.consumer.CStore? ==> Do(s, ConsumerStep) == s.(consumer := CIdle)
    ensures s.consumer.CEmpty? || s.consumer.CCheckStop? ==> |s.popped| == s.consumer.published
  {
    RunKeepsInv(s, run);
    if s.consumer.CStore? { assert |Consume(s).popped| > |s.popped|; }
  }

  // ---- Calls that nothing interrupts ----

  /** Up to `n` accesses of the producer in a row. */
  function Pushes(s: State, n: nat): State
    decreases n
  {
    if n == 0 || !Enabled(s, ProducerStep) then s else Pushes(Produce(s), n - 1)
  }

  function Pops(s: State, n: nat): State
    decreases n
  {
    if n == 0 || !Enabled(s, ConsumerStep) then s else Pops(Consume(s), n - 1)
  }

  /** A push that nothing interrupts: refused when closed or stopped; on a full ring refused under `Drop`, and else back
      where it began; in all other cases it appends its event and returns, under either policy. */
  lemma PushAlone(s: State, run: seq<State>, ev: Event, policy: Policy)
    requires Reachable(s, run) && s.producer.PIdle?
    ensures var begun, full := Do(s, StartPush(ev, policy)), |s.pushed| - |s.popped| == s.capacity;
            if s.closed || s.pushStop then Pushes(begun, 2) == s
            else if full then Pushes(begun, 5) == if policy.Drop? then s else begun
            else
              var end := Pushes(begun, 7);
              && end.producer.PIdle? && end.pushed == s.pushed + [ev] && end.popped == s.popped
              && end.consumer == s.consumer && end.reported == s.reported + [|s.pushed| + 1 - |s.popped|]
  {
    var s1 := Do(s, StartPush(ev, policy));
    var s2 := Produce(s1);
    assert Pushes(s1, 2) == Pushes(s2, 1) && Pushes(s1, 5) == Pushes(s2, 4) && Pushes(s1, 7) == Pushes(s2, 6);
    if s.closed {
      assert s2 == s;
    } else {
      var s3 := Produce(s2);
      assert Pushes(s2, 1) == s3 && Pushes(s2, 4) == Pushes(s3, 3) && Pushes(s2, 6) == Pushes(s3, 5);
      if s.pushStop {
        assert s3 == s;
      } else {
        RunKeepsInv(s, run);
        PushFromLoads(s, s3, ev, policy);
      }
    }
  }

  /** The two loads of a push that has passed its checks. */
  lemma LoadsFindRoom(s: State, ev: Event, policy: Policy)
    requires Inv(s) && s.producer == PLoadTail(ev, policy)
    ensures var end := Produce(Produce(s));
            end == s.(producer := if |s.pushed| - |s.popped| == s.capacity then PFull(ev, policy, |s.popped|)
                                  else PWrite(ev, policy, s.tail, s.head, |s.popped|))
  {
    SlotsDiffer(|s.popped|, |s.pushed| + 1, Ring(s));
    assert NextIndex(s.tail, Ring(s)) == Slot(|s.pushed| + 1, Ring(s));
  }

  lemma PushFromLoads(s: State, s3: State, ev: Event, policy: Policy)
    requires Inv(s) && s.producer.PIdle? && s3 == s.(producer := PLoadTail(ev, policy))
    ensures if |s.pushed| - |s.popped| == s.capacity then
              Pushes(s3, 3) == s.(producer := if policy.Drop? then PIdle else PCheckClosed(ev, policy))
            else
              var end := Pushes(s3, 5);
              && end.producer.PIdle? && end.pushed == s.pushed + [ev] && end.popped == s.popped
              && end.consumer == s.consumer && end.reported == s.reported + [|s.pushed| + 1 - |s.popped|]
  {
    assert Inv(s3);
    LoadsFindRoom(s3, ev, policy);
    var s4 := Produce(s3);
    var s5 := Produce(s4);
    assert s4.producer.PLoadHead?;
    if |s.pushed| - |s.popped| == s.capacity {
      assert Pushes(s3, 3) == Pushes(s4, 2) == Pushes(s5, 1) == Produce(s5);
    } else {
      assert Pushes(s3, 5) == Pushes(s4, 4) == Pushes(s5, 3);
      StoreAndReport(s, s5, ev, policy);
    }
  }

  lemma StoreAndReport(s: State, s5: State, ev: Event, policy: Policy)
    requires Inv(s) && s5 == s.(producer := PWrite(ev, policy, s.tail, s.head, |s.popped|))
    requires |s.pushed| - |s.popped| < s.capacity
    ensures var end := Pushes(s5, 3);
            && end.producer.PIdle? && end.pushed == s.pushed + [ev] && end.popped == s.popped
            && end.consumer == s.consumer && end.reported == s.reported + [|s.pushed| + 1 - |s.popped|]
  {
    assert Inv(s5);
    WriteKeepsInv(s5);
    var s6 := Produce(s5);
    StoreKeepsInv(s6);
    var s7 := Produce(s6);
    ReportedDepthIsExact(s7);
    ThreePushes(s5, s6, s7);
  }

  lemma ThreePushes(s5: State, s6: State, s7: State)
    requires Enabled(s5, ProducerStep) && s6 == Produce(s5)
    requires Enabled(s6, ProducerStep) && s7 == Produce(s6) && Enabled(s7, ProducerStep)
    ensures Pushes(s5, 3) == Produce(s7)
  {
    assert Pushes(s5, 3) == Pushes(s6, 2) == Pushes(s7, 1);
  }

  /** A pop that nothing interrupts: takes the oldest event; on an empty ring it fails when closed or stopped, and is
      else back where it began. */
  lemma PopAlone(s: State, run: seq<State>)
    requires Reachable(s, run) && s.consumer.CIdle?
    ensures var begun := Do(s, StartPop);
            var end := Pops(begun, 4);
            if s.popped == s.pushed then end == if s.closed || s.popStop then s else begun
            else
              && |s.popped| < |s.pushed| && end.popped == s.popped + [s.pushed[|s.popped|]] && end.consumer.CIdle?
              && end.pushed == s.pushed && end.producer == s.producer
  {
    RunKeepsInv(s, run);
    SlotsDiffer(|s.popped|, |s.pushed|, Ring(s));
    var s1 := Do(s, StartPop);
    var s2 := Consume(s1);
    var s3 := Consume(s2);
    assert Pops(s1, 4) == Pops(s2, 3) == Pops(s3, 2);
    if s.popped == s.pushed {
      assert s3 == s.(consumer := CEmpty(|s.pushed|));
      PopFindsEmpty(s, s3);
    } else {
      assert s3 == s.(consumer := CRead(s.head));
      PopTakes(s, s3);
    }
  }

  lemma PopFindsEmpty(s: State, s3: State)
    requires s.consumer.CIdle? && s3 == s.(consumer := CEmpty(|s.pushed|))
    ensures Pops(s3, 2) == if s.closed || s.popStop then s else s.(consumer := CLoadHead)
  {
    var s4 := Consume(s3);
    assert Pops(s3, 2) == Pops(s4, 1);
    if !s.closed { assert Pops(s4, 1) == Consume(s4); }
  }

  lemma PopTakes(s: State, s3: State)
    requires Inv(s) && s3 == s.(consumer := CRead(s.head)) && |s.popped| < |s.pushed|
    ensures var end := Pops(s3, 2);
            && end.popped == s.popped + [s.pushed[|s.popped|]] && end.consumer.CIdle?
            && end.pushed == s.pushed && end.producer == s.producer
  {
    assert Holding(s.buffer, s.pushed, |s.popped|);
    var s4 := Consume(s3);
    assert Pops(s3, 2) == Pops(s4, 1) == Consume(s4);
  }

  // ---- After a flag has been raised ----

  /** A flag goes up when it is raised, and stays up. */
  lemma FlagsOnlyRise(s: State, a: Action)
    requires Enabled(s, a)
    ensures Do(s, a).closed <==> s.closed || a.Close?
    ensures Do(s, a).pushStop <==> s.pushStop || a.RaisePushStop?
    ensures Do(s, a).popStop <==> s.popStop || a.RaisePopStop?
  {
  }

  /** A run that goes on from `s`. */
  ghost predicate Continues(s: State, later: seq<State>) {
    && later != [] && later[0] == s
    && forall i :: 0 < i < |later| ==> Next(later[i - 1], later[i])
  }

  /** A flag is up that the current push, if any, has still to read before it publishes anything. */
  predicate Barred(s: State) {
    var p := s.producer;
    (p.PIdle? || p.PReport? || p.PCheckClosed? || p.PFull? || (p.PCheckStop? && s.pushStop)) && (s.closed || s.pushStop)
  }

  lemma BarredStays(s: State, a: Action)
    requires Enabled(s, a) && Barred(s)
    ensures Barred(Do(s, a)) && Do(s, a).pushed == s.pushed
    ensures Do(s, a).producer.PReport? ==> s.producer.PReport?
  {
  }

  /** `n` events had been published when a flag went up: no more have been since, but for that of the one push that was
      past its checks. */
  predicate Stopping(s: State, n: nat, barred: bool) {
    && (s.closed || s.pushStop)
    && (|s.pushed| <= n || (|s.pushed| == n + 1 && Barred(s)))
    && (barred ==> |s.pushed| == n && Barred(s) && !s.producer.PReport?)
  }

  lemma StoppingStays(s: State, a: Action, n: nat, barred: bool)
    requires Enabled(s, a) && Stopping(s, n, barred)
    ensures Stopping(Do(s, a), n, barred)
  {
    if Barred(s) { BarredStays(s, a); } else { OnePushLeft(s, a); }
  }

  lemma OnePushLeft(s: State, a: Action)
    requires Enabled(s, a) && (s.closed || s.pushStop)
    ensures var s' := Do(s, a);
            (s'.closed || s'.pushStop) && (s'.pushed == s.pushed || (|s'.pushed| == |s.pushed| + 1 && Barred(s')))
  {
  }

  /** After `close`, or once the stop flag is up, a push that has its checks still before it publishes nothing: every
      such push fails. At most the one push that is past them publishes its event. */
  lemma {:induction false} PushesAfterFlag(s: State, a: Action, later: seq<State>)
    requires (a.Close? || a.RaisePushStop?) && Continues(Do(s, a), later)
    ensures Stopping(later[|later| - 1], |s.pushed|, s.producer.PIdle?)
    decreases |later|
  {
    if |later| > 1 {
      var before, end := later[|later| - 2], later[|later| - 1];
      PushesAfterFlag(s, a, later[..|later| - 1]);
      assert Next(before, end);
      var b :| Enabled(before, b) && end == Do(before, b);
      StoppingStays(before, b, |s.pushed|, s.producer.PIdle?);
    }
  }

  // ---- What a failed pop may leave ----

  lemma Extend(run: seq<State>, s: State, a: Action) returns (longer: seq<State>, s': State)
    requires Reachable(s, run) && Enabled(s, a)
    ensures s' == Do(s, a) && Reachable(s', longer)
  {
    s' := Do(s, a);
    longer := run + [s'];
    forall i | 0 < i < |longer| ensures Next(longer[i - 1], longer[i]) {
      if i < |run| { assert Next(run[i - 1], run[i]); }
    }
  }

  lemma {:induction false} ExtendPushes(run: seq<State>, s: State, n: nat) returns (longer: seq<State>)
    requires Reachable(s, run)
    ensures Reachable(Pushes(s, n), longer)
    decreases n
  {
    longer := run;
    if n > 0 && Enabled(s, ProducerStep) {
      var s';
      longer, s' := Extend(run, s, ProducerStep);
      longer := ExtendPushes(longer, s', n - 1);
    }
  }

  /** A pop that looks for an event before it looks for `close` may leave one behind: the ring is empty at its tail
      load, an event is published, the ring is closed, and the pop fails. */
  lemma FailedPopMayLeaveOne(ev: Event) returns (s: State, run: seq<State>)
    ensures Reachable(s, run) && s.consumer.CEmpty? && s.closed && s.pushed == [ev] && s.popped == []
    ensures Do(s, ConsumerStep).consumer.CIdle? && Contents(Do(s, ConsumerStep)) == [ev]
  {
    s := State(1, [ev, ev], 0, 0, false, false, false, 0, PIdle, CIdle, [], [], []);
    run := [s];
    run, s := Extend(run, s, StartPop);
    run, s := Extend(run, s, ConsumerStep);
    run, s := Extend(run, s, ConsumerStep);
    assert s.consumer == CEmpty(0) && s.producer.PIdle?;
    PushAlone(s, run, ev, Block);
    run, s := Extend(run, s, StartPush(ev, Block));
    run := ExtendPushes(run, s, 7);
    s := Pushes(s, 7);
    run, s := Extend(run, s, Close);
  }
}
