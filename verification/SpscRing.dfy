/** The single-producer single-consumer ring, one shared access per step.

    The producer and the consumer are state machines whose states are the points between two accesses to shared
    memory; a run is any interleaving of their steps, of `close`, and of the two stop flags being raised.
    `pushed` and `popped` are histories: every event published by a tail store, every event consumed by a head store. */
module SpscRing {
  import opened Events

  /** Where the producer is. `seen` is history: how many events had been popped when `head` was loaded. */
  datatype Producer =
    | PIdle
    | PCheckClosed(ev: Event, policy: Policy)
    | PCheckStop(ev: Event, policy: Policy)
    | PLoadTail(ev: Event, policy: Policy)
    | PLoadHead(ev: Event, policy: Policy, tail: nat)
    | PWrite(ev: Event, policy: Policy, tail: nat, head: nat, seen: nat)
    | PStore(ev: Event, policy: Policy, tail: nat, head: nat, seen: nat)
    | PReport(tail: nat, head: nat, seen: nat)
    | PFull(ev: Event, policy: Policy, seen: nat)

  /** Where the consumer is. `published` is history: how many events had been pushed when `tail` was loaded. */
  datatype Consumer =
    | CIdle
    | CLoadHead
    | CLoadTail(head: nat)
    | CRead(head: nat)
    | CStore(head: nat, ev: Event)
    | CEmpty(published: nat)
    | CCheckStop(published: nat)

  datatype State = State(
    capacity: nat,
    buffer: seq<Event>,
    head: nat,
    tail: nat,
    closed: bool,
    pushStop: bool,
    popStop: bool,
    maxDepth: nat,
    producer: Producer,
    consumer: Consumer,
    pushed: seq<Event>,
    popped: seq<Event>,
    reported: seq<nat>)

  datatype Action =
    | StartPush(ev: Event, policy: Policy)
    | ProducerStep
    | StartPop
    | ConsumerStep
    | Close
    | RaisePushStop
    | RaisePopStop

  function Ring(s: State): nat {
    s.capacity + 1
  }

  predicate Init(s: State) {
    && s.capacity > 0 && |s.buffer| == Ring(s)
    && s.head == s.tail == 0 && !s.closed && s.maxDepth == 0
    && s.producer == PIdle && s.consumer == CIdle
    && s.pushed == s.popped == [] && s.reported == []
  }

  /** The depth that `push` reports, from the head it loaded and the tail it stored. */
  function ReportedDepth(next: nat, head: nat, ring: nat): int {
    if next > head then next - head else ring - head + next
  }

  predicate Enabled(s: State, a: Action) {
    match a
    case StartPush(_, _) => s.producer.PIdle?
    case ProducerStep => !s.producer.PIdle? && (s.producer.PWrite? ==> s.producer.tail < |s.buffer|)
    case StartPop => s.consumer.CIdle?
    case ConsumerStep => !s.consumer.CIdle? && (s.consumer.CRead? ==> s.consumer.head < |s.buffer|)
    case _ => true
  }

  function Produce(s: State): State
    requires Enabled(s, ProducerStep)
  {
    match s.producer
    case PIdle => s
    case PCheckClosed(ev, policy) => s.(producer := if s.closed then PIdle else PCheckStop(ev, policy))
    case PCheckStop(ev, policy) => s.(producer := if s.pushStop then PIdle else PLoadTail(ev, policy))
    case PLoadTail(ev, policy) => s.(producer := PLoadHead(ev, policy, s.tail))
    case PLoadHead(ev, policy, tail) =>
      if NextIndex(tail, Ring(s)) != s.head
      then s.(producer := PWrite(ev, policy, tail, s.head, |s.popped|))
      else s.(producer := PFull(ev, policy, |s.popped|))
    case PWrite(ev, policy, tail, head, seen) =>
      s.(buffer := s.buffer[tail := ev], producer := PStore(ev, policy, tail, head, seen))
    case PStore(ev, policy, tail, head, seen) =>
      s.(tail := NextIndex(tail, Ring(s)), pushed := s.pushed + [ev], producer := PReport(tail, head, seen))
    case PReport(tail, head, seen) =>
      var depth := ReportedDepth(NextIndex(tail, Ring(s)), head, Ring(s));
      s.(maxDepth := Max(s.maxDepth, depth), reported := s.reported + [Max(0, depth)], producer := PIdle)
    case PFull(ev, policy, _) => s.(producer := if policy.Drop? then PIdle else PCheckClosed(ev, policy))
  }

  function Consume(s: State): State
    requires Enabled(s, ConsumerStep)
  {
    match s.consumer
    case CIdle => s
    case CLoadHead => s.(consumer := CLoadTail(s.head))
    case CLoadTail(head) => s.(consumer := if head != s.tail then CRead(head) else CEmpty(|s.pushed|))
    case CRead(head) => s.(consumer := CStore(head, s.buffer[head]))
    case CStore(head, ev) => s.(head := NextIndex(head, Ring(s)), popped := s.popped + [ev], consumer := CIdle)
    case CEmpty(published) => s.(consumer := if s.closed then CIdle else CCheckStop(published))
    case CCheckStop(_) => s.(consumer := if s.popStop then CIdle else CLoadHead)
  }

  function Do(s: State, a: Action): State
    requires Enabled(s, a)
  {
    match a
    case StartPush(ev, policy) => s.(producer := PCheckClosed(ev, policy))
    case ProducerStep => Produce(s)
    case StartPop => s.(consumer := CLoadHead)
    case ConsumerStep => Consume(s)
    case Close => s.(closed := true)
    case RaisePushStop => s.(pushStop := true)
    case RaisePopStop => s.(popStop := true)
  }

  /** A run: any interleaving of enabled actions, from an initial state. */
  ghost predicate Reachable(s: State, run: seq<State>) {
    && run != [] && Init(run[0]) && run[|run| - 1] == s
    && forall i :: 0 < i < |run| ==> Next(run[i - 1], run[i])
  }

  ghost predicate Next(s: State, s': State) {
    exists a :: Enabled(s, a) && s' == Do(s, a)
  }

  // ---- The invariant ----

  /** The live part of the ring holds the events between `popped` and `pushed`, in order. */
  ghost predicate Live(capacity: nat, buffer: seq<Event>, head: nat, tail: nat,
                       pushed: seq<Event>, popped: seq<Event>) {
    && |buffer| == capacity + 1
    && |popped| <= |pushed| <= |popped| + capacity
    && head == Slot(|popped|, capacity + 1)
    && tail == Slot(|pushed|, capacity + 1)
    && popped == pushed[..|popped|]
    && forall k :: |popped| <= k < |pushed| ==> Holding(buffer, pushed, k)
  }

  ghost predicate Holding(buffer: seq<Event>, pushed: seq<Event>, k: nat)
    requires k < |pushed| && |buffer| > 0
  {
    buffer[Slot(k, |buffer|)] == pushed[k]
  }

  /** What the producer knows: its tail is current; its head may be stale, but only by events popped since. */
  ghost predicate ProducerKnows(s: State)
    requires |s.buffer| == Ring(s)
  {
    match s.producer
    case PLoadHead(_, _, tail) => tail == s.tail
    case PWrite(_, _, tail, head, seen) => tail == s.tail && KnownHead(s, head, seen) && |s.pushed| < seen + s.capacity
    case PStore(ev, _, tail, head, seen) =>
      && tail == s.tail && KnownHead(s, head, seen) && |s.pushed| < seen + s.capacity
      && tail < |s.buffer| && s.buffer[tail] == ev
    case PReport(tail, head, seen) =>
      KnownHead(s, head, seen) && seen < |s.pushed| <= seen + s.capacity && tail == Slot(|s.pushed| - 1, Ring(s))
    case PFull(_, _, seen) => seen <= |s.popped| && |s.pushed| == seen + s.capacity
    case _ => true
  }

  ghost predicate KnownHead(s: State, head: nat, seen: nat) {
    seen <= |s.popped| && head == Slot(seen, Ring(s))
  }

  ghost predicate ConsumerKnows(s: State) {
    match s.consumer
    case CLoadTail(head) => head == s.head
    case CRead(head) => head == s.head && |s.popped| < |s.pushed|
    case CStore(head, ev) => head == s.head && |s.popped| < |s.pushed| && ev == s.pushed[|s.popped|]
    case CEmpty(published) => |s.popped| == published <= |s.pushed|
    case CCheckStop(published) => |s.popped| == published <= |s.pushed|
    case _ => true
  }

  /** The recorded maximum is the maximum of the reported depths, and none of them exceeds the capacity. */
  ghost predicate DepthsReported(s: State) {
    && (forall i :: 0 <= i < |s.reported| ==> 1 <= s.reported[i] <= s.maxDepth)
    && (if s.reported == [] then s.maxDepth == 0 else s.maxDepth in s.reported)
    && s.maxDepth <= s.capacity
  }

  ghost predicate Inv(s: State) {
    && s.capacity > 0 && Live(s.capacity, s.buffer, s.head, s.tail, s.pushed, s.popped)
    && ProducerKnows(s) && ConsumerKnows(s) && DepthsReported(s)
  }

  /** The slot about to be written is no live one, so in particular not the one the consumer is reading. */
  lemma {:induction false} WriteHitsNoLiveSlot(s: State, k: nat)
    requires Inv(s) && s.producer.PWrite? && |s.popped| <= k < |s.pushed|
    ensures Slot(k, Ring(s)) != s.producer.tail
    ensures s.consumer.CRead? ==> s.consumer.head != s.producer.tail
  {
    SlotsDiffer(k, |s.pushed|, Ring(s));
    SlotsDiffer(|s.popped|, |s.pushed|, Ring(s));
  }

  lemma WriteKeepsInv(s: State)
    requires Inv(s) && s.producer.PWrite?
    ensures Enabled(s, ProducerStep) && Inv(Produce(s))
  {
    forall k | |s.popped| <= k < |s.pushed| ensures Holding(Produce(s).buffer, s.pushed, k) {
      assert Holding(s.buffer, s.pushed, k);
      WriteHitsNoLiveSlot(s, k);
    }
    if s.consumer.CRead? { WriteHitsNoLiveSlot(s, |s.popped|); }
  }

  lemma StoreKeepsInv(s: State)
    requires Inv(s) && s.producer.PStore?
    ensures Inv(Produce(s))
  {
    var s' := Produce(s);
    forall k | |s.popped| <= k < |s'.pushed| ensures Holding(s.buffer, s'.pushed, k) {
      if k < |s.pushed| { assert Holding(s.buffer, s.pushed, k); }
    }
  }

  lemma ReportKeepsInv(s: State)
    requires Inv(s) && s.producer.PReport?
    ensures Inv(Produce(s))
  {
    ReportedDepthIsExact(s);
    var s' := Produce(s);
    var depth := s'.reported[|s.reported|];
    assert s'.reported == s.reported + [depth];
    assert s'.maxDepth == depth || (s.reported != [] && s.maxDepth in s.reported);
  }

  lemma LoadHeadKeepsInv(s: State)
    requires Inv(s) && s.producer.PLoadHead?
    ensures Inv(Produce(s))
  {
    SlotsDiffer(|s.popped|, |s.pushed| + 1, Ring(s));
    var s' := Produce(s);
    assert s' == s.(producer := s'.producer);
    assert NextIndex(s.tail, Ring(s)) == Slot(|s.pushed| + 1, Ring(s));
  }

  /** The producer's other steps change only where it is. */
  lemma LocalProduceKeepsInv(s: State)
    requires Inv(s)
    requires || s.producer.PIdle? || s.producer.PCheckClosed? || s.producer.PCheckStop? || s.producer.PLoadTail?
             || s.producer.PFull?
    ensures s.producer.PIdle? || Inv(Produce(s))
  {
  }

  lemma ProduceKeepsInv(s: State)
    requires Inv(s) && Enabled(s, ProducerStep)
    ensures Inv(Produce(s))
  {
    if s.producer.PLoadHead? {
      LoadHeadKeepsInv(s);
    } else if s.producer.PWrite? {
      WriteKeepsInv(s);
    } else if s.producer.PStore? {
      StoreKeepsInv(s);
    } else if s.producer.PReport? {
      ReportKeepsInv(s);
    } else {
      LocalProduceKeepsInv(s);
    }
  }

  /** The formula gives the number of events pushed beyond the head it was computed from: the occupancy or more. */
  lemma ReportedDepthIsExact(s: State)
    requires Inv(s) && s.producer.PReport?
    ensures var depth := ReportedDepth(NextIndex(s.producer.tail, Ring(s)), s.producer.head, Ring(s));
            depth == |s.pushed| - s.producer.seen && |s.pushed| - |s.popped| <= depth <= s.capacity
  {
    SlotAhead(s.producer.seen, |s.pushed| - s.producer.seen, Ring(s));
  }

  lemma TakeKeepsInv(s: State)
    requires Inv(s) && s.consumer.CStore?
    ensures Inv(Consume(s))
  {
  }

  lemma LoadsKeepInv(s: State)
    requires Inv(s) && (s.consumer.CLoadTail? || s.consumer.CRead?)
    ensures Enabled(s, ConsumerStep) && Inv(Consume(s))
  {
    SlotsDiffer(|s.popped|, |s.pushed|, Ring(s));
    if s.consumer.CRead? { assert Holding(s.buffer, s.pushed, |s.popped|); }
  }

  lemma LocalConsumeKeepsInv(s: State)
    requires Inv(s) && (s.consumer.CLoadHead? || s.consumer.CEmpty? || s.consumer.CCheckStop?)
    ensures Inv(Consume(s))
  {
  }

  lemma ConsumeKeepsInv(s: State)
    requires Inv(s) && Enabled(s, ConsumerStep)
    ensures Inv(Consume(s))
  {
    if s.consumer.CStore? {
      TakeKeepsInv(s);
    } else if s.consumer.CLoadTail? || s.consumer.CRead? {
      LoadsKeepInv(s);
    } else {
      LocalConsumeKeepsInv(s);
    }
  }

  lemma StepKeepsInv(s: State, a: Action)
    requires Inv(s) && Enabled(s, a)
    ensures Inv(Do(s, a))
  {
    match a
    case ProducerStep => ProduceKeepsInv(s);
    case ConsumerStep => ConsumeKeepsInv(s);
    case _ =>
  }

  lemma {:induction false} RunKeepsInv(s: State, run: seq<State>)
    requires Reachable(s, run)
    ensures Inv(s)
    decreases |run|
  {
    if |run| > 1 {
      var before := run[|run| - 2];
      assert Next(before, s);
      RunKeepsInv(before, run[..|run| - 1]);
      var a :| Enabled(before, a) && s == Do(before, a);
      StepKeepsInv(before, a);
    }
  }

  // ---- What holds in every run ----

  /** In every reachable state: first in, first out, never more than `capacity` events, and the slot being written
      is neither live nor being read. */
  lemma AlwaysFifo(s: State, run: seq<State>)
    requires Reachable(s, run)
    ensures s.popped <= s.pushed && |s.pushed| - |s.popped| <= s.capacity
    ensures s.producer.PWrite? ==>
              && s.producer.tail < |s.buffer|
              && (forall k :: |s.popped| <= k < |s.pushed| ==> Slot(k, Ring(s)) != s.producer.tail)
              && (s.consumer.CRead? ==> s.consumer.head != s.producer.tail)
    ensures s.consumer.CRead? ==>
              && s.consumer.head < |s.buffer| && |s.popped| < |s.pushed|
              && s.buffer[s.consumer.head] == s.pushed[|s.popped|]
  {
    RunKeepsInv(s, run);
    if s.producer.PWrite? {
      forall k | |s.popped| <= k < |s.pushed| ensures Slot(k, Ring(s)) != s.producer.tail {
        WriteHitsNoLiveSlot(s, k);
      }
      if s.consumer.CRead? { WriteHitsNoLiveSlot(s, |s.popped|); }
    }
    if s.consumer.CRead? { assert Holding(s.buffer, s.pushed, |s.popped|); }
  }

  /** No step of a run is blocked by a bad index: the two threads can always take their next step. */
  lemma NeverOutOfBounds(s: State, run: seq<State>)
    requires Reachable(s, run)
    ensures !s.producer.PIdle? ==> Enabled(s, ProducerStep)
    ensures !s.consumer.CIdle? ==> Enabled(s, ConsumerStep)
  {
    RunKeepsInv(s, run);
  }

  /** A push takes the full branch exactly when the ring holds `capacity` events at that head load. A failure under
      `Drop` therefore means full, or closed, or stopped. */
  lemma FullExactlyAtCapacity(s: State, run: seq<State>)
    requires Reachable(s, run) && s.producer.PLoadHead?
    ensures Do(s, ProducerStep).producer.PFull? <==> |s.pushed| - |s.popped| == s.capacity
    ensures Do(s, ProducerStep).producer.PFull? || Do(s, ProducerStep).producer.PWrite?
  {
    RunKeepsInv(s, run);
    SlotsDiffer(|s.popped|, |s.pushed| + 1, Ring(s));
  }

  /** A pop sees the ring empty exactly when it is empty at that tail load. */
  lemma EmptyExactlyWhenEmpty(s: State, run: seq<State>)
    requires Reachable(s, run) && s.consumer.CLoadTail?
    ensures Do(s, ConsumerStep).consumer.CEmpty? <==> s.popped == s.pushed
    ensures Do(s, ConsumerStep).consumer == CEmpty(|s.pushed|) || Do(s, ConsumerStep).consumer.CRead?
  {
    RunKeepsInv(s, run);
    SlotsDiffer(|s.popped|, |s.pushed|, Ring(s));
  }

  /** When a pop fails, everything published before its tail load has been popped; what is left was published later. */
  lemma FailedPopLeavesOnlyLater(s: State, run: seq<State>)
    requires Reachable(s, run) && (s.consumer.CEmpty? || s.consumer.CCheckStop?) && Do(s, ConsumerStep).consumer.CIdle?
    ensures s.closed || s.popStop
    ensures s.consumer.published <= |s.pushed| && s.popped == s.pushed[..s.consumer.published]
  {
    RunKeepsInv(s, run);
  }

  /** The depth statistic: the maximum of the reported depths, none above the capacity. */
  lemma MaxDepthIsMaximum(s: State, run: seq<State>)
    requires Reachable(s, run)
    ensures s.maxDepth <= s.capacity
    ensures forall d :: d in s.reported ==> 1 <= d <= s.maxDepth
    ensures s.reported != [] ==> s.maxDepth in s.reported
  {
    RunKeepsInv(s, run);
  }

  // ---- The ring as a bounded queue ----

  function Contents(s: State): seq<Event> {
    if |s.popped| <= |s.pushed| then s.pushed[|s.popped|..] else []
  }

  /** A step of a queue that holds at most `capacity` events. */
  predicate QueueStep(q: seq<Event>, q': seq<Event>, capacity: nat, a: Action, s: State) {
    if a.ProducerStep? && s.producer.PStore? then |q| < capacity && q' == q + [s.producer.ev]
    else if a.ConsumerStep? && s.consumer.CStore? then q != [] && s.consumer.ev == q[0] && q' == q[1..]
    else q' == q
  }

  /** The tail store enqueues, the head store dequeues the oldest event, every other access leaves the queue alone. */
  lemma RefinesBoundedQueue(s: State, run: seq<State>, a: Action)
    requires Reachable(s, run) && Enabled(s, a)
    ensures QueueStep(Contents(s), Contents(Do(s, a)), s.capacity, a, s)
  {
    RunKeepsInv(s, run);
    match a
    case ProducerStep => ProducerStepOnQueue(s);
    case ConsumerStep => ConsumerStepOnQueue(s);
    case _ =>
  }

  lemma ProducerStepOnQueue(s: State)
    requires Inv(s) && Enabled(s, ProducerStep)
    ensures QueueStep(Contents(s), Contents(Produce(s)), s.capacity, ProducerStep, s)
  {
    if s.producer.PStore? {
      assert Produce(s).pushed[|s.popped|..] == s.pushed[|s.popped|..] + [s.producer.ev];
    } else {
      assert Produce(s).pushed == s.pushed && Produce(s).popped == s.popped;
    }
  }

  lemma ConsumerStepOnQueue(s: State)
    requires Inv(s) && Enabled(s, ConsumerStep)
    ensures QueueStep(Contents(s), Contents(Consume(s)), s.capacity, ConsumerStep, s)
  {
    if s.consumer.CStore? {
      assert Consume(s).pushed == s.pushed && |Consume(s).popped| == |s.popped| + 1;
    } else {
      assert Consume(s).pushed == s.pushed && Consume(s).popped == s.popped;
    }
  }
}
