/** The direct topology: each ingress thread pushes to one worker ring, at the ring's own granularity of one shared
    access a step. The producer of a ring is the ingress thread bound for it, its consumer is the worker.

    Exceptions are left out, so the flag that stops the pops stays down. */
module DirectPipeline {
  import opened Events
  import opened IngressThreads
  import opened PipelineEvents
  import opened RingThreads
  import opened Threads
  import Topology

  datatype Main = Sleeping | JoiningIngress | ClosingRings(next: nat) | JoiningWorkers | Done

  /** The books of the ingress threads, and what each worker has completed. */
  datatype History = History(books: Books, done: seq<seq<Event>>)

  datatype State = State(
    policy: Policy,
    measureStart: int,
    main: Main,
    ingressStop: bool,
    ingress: map<Tid, Ingress>,
    rings: seq<Ring.State>,
    workers: seq<Worker>,
    counters: Counters,
    completed: nat,
    history: History)

  datatype Action =
    | Stop(t: Tid)
    | Generate(t: Tid, createdAt: int)
    | StartPush(t: Tid)
    | PushAccess(t: Tid)
    | Count(t: Tid)
    | StartPop(w: nat)
    | PopAccess(w: nat)
    | Complete(w: nat)
    | MainStep

  predicate Sized(s: State) {
    |s.rings| == |s.workers| == |s.history.done| > 0
  }

  /** No more ingress threads than rings, as the check of the configuration demands. */
  ghost predicate Init(s: State) {
    && Sized(s) && s.main.Sleeping? && !s.ingressStop
    && (forall t :: t in s.ingress ==> t < |s.rings| && s.ingress[t] == Looping(0))
    && (forall w :: 0 <= w < |s.rings| ==> RingStarts(s, w))
    && s.counters == Counters(0, 0, 0) && s.completed == 0
    && s.history.books == Books([], [], [])
  }

  ghost predicate RingStarts(s: State, w: nat)
    requires Sized(s) && w < |s.rings|
  {
    && Ring.Init(s.rings[w]) && !s.rings[w].pushStop && !s.rings[w].popStop
    && s.workers[w].WorkerLooping? && s.history.done[w] == []
  }

  function NewRing(capacity: nat, filler: Event): Ring.State {
    var buffer := seq(capacity + 1, _ => filler);
    Ring.State(capacity, buffer, 0, 0, false, false, false, 0, Ring.PIdle, Ring.CIdle, [], [], [])
  }

  function NewThreads(n: nat): (pcs: map<Tid, Ingress>)
    ensures forall t: nat :: t in pcs <==> t < n
    ensures forall t: nat :: t in pcs ==> pcs[t] == Looping(0)
  {
    if n == 0 then map[] else NewThreads(n - 1)[n - 1 := Looping(0)]
  }

  /** The pipeline as it is set up for a configuration; the buffers may hold anything. */
  function Built(c: Topology.Config, measureStart: int, filler: Event): State
    requires c.workerThreads > 0 && c.ingressThreads > 0
  {
    var n := c.workerThreads;
    State(c.policy, measureStart, Sleeping, false, NewThreads(c.ingressThreads),
      seq(n, _ => NewRing(c.workerQueueCapacity, filler)), seq(n, _ => WorkerLooping), Counters(0, 0, 0), 0,
      History(Books([], [], []), seq(n, _ => [])))
  }

  /** What the last checks of a configuration are for: without them the pipeline begins in no initial state. */
  lemma BuiltExactlyWhen(c: Topology.Config, measureStart: int, filler: Event)
    requires c.topology.DirectLocalSpsc?
    requires var v := Topology.Validate(c); v.Accepted? || v.NoWorkerQueueCapacity? || v.MoreIngressThanWorkers?
    ensures c.workerThreads > 0 && c.ingressThreads > 0
    ensures Init(Built(c, measureStart, filler)) <==> Topology.Validate(c).Accepted?
  {
    var s := Built(c, measureStart, filler);
    if Topology.Validate(c).Accepted? {
      Topology.AcceptedExactlyWhen(c);
      forall w | 0 <= w < |s.rings| ensures RingStarts(s, w) {
        assert s.rings[w] == NewRing(c.workerQueueCapacity, filler);
      }
    } else if c.workerQueueCapacity == 0 {
      assert !RingStarts(s, 0);
    } else {
      assert c.workerThreads in s.ingress;
    }
  }

  /** The ring that an ingress thread pushes to. */
  function Target(s: State, t: Tid): (w: nat)
    requires Sized(s)
    ensures w < |s.rings|
  {
    Topology.DirectTarget(t, |s.rings|)
  }

  ghost predicate WorkersJoined(s: State) {
    forall w :: 0 <= w < |s.workers| ==> s.workers[w].WorkerDone?
  }

  ghost predicate Enabled(s: State, a: Action) {
    && Sized(s)
    && match a
       case Stop(t) => t in s.ingress && s.ingress[t].Looping?
       case Generate(t, _) => t in s.ingress && s.ingress[t].Looping? && s.ingress[t].n < SEQUENCE_LIMIT
       case StartPush(t) => t in s.ingress && s.ingress[t].Pushing? && s.rings[Target(s, t)].producer.PIdle?
       case PushAccess(t) =>
         t in s.ingress && s.ingress[t].Pushing? && Ring.Enabled(s.rings[Target(s, t)], Ring.ProducerStep)
       case Count(t) => t in s.ingress && s.ingress[t].Counting?
       case StartPop(w) => w < |s.rings| && s.workers[w].WorkerLooping? && s.rings[w].consumer.CIdle?
       case PopAccess(w) => w < |s.rings| && s.workers[w].Popping? && Ring.Enabled(s.rings[w], Ring.ConsumerStep)
       case Complete(w) => w < |s.rings| && s.workers[w].Working?
       case MainStep =>
         match s.main
         case JoiningIngress => Joined(s.ingress)
         case JoiningWorkers => WorkersJoined(s)
         case Done => false
         case _ => true
  }

  /** The `n`th event of ingress thread `t`, bound for its own worker. */
  function Made(t: Tid, n: nat, w: nat, createdAt: int): Event {
    Event(IdOf(t, n), IdOf(t, n), w, createdAt)
  }

  predicate ByIngress(a: Action) {
    a.Stop? || a.Generate? || a.Count?
  }

  ghost function DoIngress(s: State, a: Action): State
    requires ByIngress(a) && Enabled(s, a)
  {
    match a
    case Stop(t) => s.(ingress := s.ingress[t := IngressDone(s.ingress[t].n)])
    case Generate(t, createdAt) =>
      var n := s.ingress[t].n;
      var ev := Made(t, n, Target(s, t), createdAt);
      s.(counters := CountGenerated(s.counters, ev, s.measureStart),
         ingress := s.ingress[t := Pushing(n + 1, ev, false)],
         history := s.history.(books := Make(s.history.books, t, ev)))
    case Count(t) =>
      var Counting(n, ev, ok) := s.ingress[t];
      s.(counters := CountPush(s.counters, ev, ok, s.policy, s.measureStart), ingress := s.ingress[t := Looping(n)])
  }

  /** Where an ingress thread is after its next access to its ring: still pushing, or back with the result. */
  function AfterPush(pc: Ingress, r: Ring.State): Ingress
    requires pc.Pushing? && Ring.Enabled(r, Ring.ProducerStep)
  {
    if Ring.Produce(r).producer.PIdle? then Counting(pc.n, pc.ev, !GivesUp(r)) else pc
  }

  function AfterBooks(books: Books, pc: Ingress, r: Ring.State): Books
    requires pc.Pushing? && Ring.Enabled(r, Ring.ProducerStep)
  {
    if Ring.Produce(r).producer.PIdle? then Settle(books, pc.ev, !GivesUp(r)) else books
  }

  ghost function DoPush(s: State, a: Action): State
    requires (a.StartPush? || a.PushAccess?) && Enabled(s, a)
  {
    var w := Target(s, a.t);
    var pc, r := s.ingress[a.t], s.rings[w];
    if a.StartPush? then
      s.(rings := s.rings[w := Ring.Do(r, Ring.StartPush(pc.ev, s.policy))])
    else
      s.(rings := s.rings[w := Ring.Produce(r)],
         ingress := s.ingress[a.t := AfterPush(pc, r)],
         history := s.history.(books := AfterBooks(s.history.books, pc, r)))
  }

  ghost function DoWorker(s: State, a: Action): State
    requires (a.StartPop? || a.PopAccess? || a.Complete?) && Enabled(s, a)
  {
    var w := a.w;
    var r := s.rings[w];
    match a
    case StartPop(_) =>
      s.(rings := s.rings[w := Ring.Do(r, Ring.StartPop)], workers := s.workers[w := Popping])
    case PopAccess(_) =>
      s.(rings := s.rings[w := Ring.Consume(r)], workers := s.workers[w := AfterAccess(r)])
    case Complete(_) =>
      var ev := s.workers[w].ev;
      s.(completed := Plus(s.completed, Measured(ev, s.measureStart)),
         workers := s.workers[w := WorkerLooping],
         history := s.history.(done := s.history.done[w := s.history.done[w] + [ev]]))
  }

  /** All pushes are given the same stop flag. */
  function Stopped(rings: seq<Ring.State>): seq<Ring.State> {
    seq(|rings|, w requires 0 <= w < |rings| => rings[w].(pushStop := true))
  }

  ghost function DoMain(s: State): State
    requires Enabled(s, MainStep)
  {
    match s.main
    case Sleeping => s.(ingressStop := true, rings := Stopped(s.rings), main := JoiningIngress)
    case JoiningIngress => s.(main := ClosingRings(0))
    case ClosingRings(w) =>
      if w < |s.rings| then
        s.(rings := s.rings[w := s.rings[w].(closed := true)], main := ClosingRings(w + 1))
      else
        s.(main := JoiningWorkers)
    case JoiningWorkers => s.(main := Done)
  }

  ghost function Do(s: State, a: Action): State
    requires Enabled(s, a)
  {
    if ByIngress(a) then DoIngress(s, a)
    else if a.StartPush? || a.PushAccess? then DoPush(s, a)
    else if a.MainStep? then DoMain(s)
    else DoWorker(s, a)
  }

  ghost predicate Next(s: State, s': State) {
    exists a :: Enabled(s, a) && s' == Do(s, a)
  }

  ghost predicate Reachable(s: State, run: seq<State>) {
    && run != [] && Init(run[0]) && run[|run| - 1] == s
    && forall i :: 0 < i < |run| ==> Next(run[i - 1], run[i])
  }

  // ---- The invariant of one ring ----

  /** The events in the ring whose pushes have returned. */
  function Returned(r: Ring.State): seq<Event> {
    if r.producer.PReport? && r.pushed != [] then r.pushed[..|r.pushed| - 1] else r.pushed
  }

  /** `ev` is one of the first `n` events of ingress thread `w`. */
  predicate MadeBy(ev: Event, w: nat, n: nat) {
    IdOf(w, 0) <= ev.id < IdOf(w, n) && ev.targetWorker == w
  }

  ghost predicate Increasing(s: seq<Event>) {
    forall a, b :: 0 <= a < b < |s| ==> s[a].id < s[b].id
  }

  /** How many events the thread can have put into its ring: all it has made but the one it is pushing. */
  function Bound(r: Ring.State, pc: Ingress): nat {
    if pc.Pushing? && pc.n > 0 && !r.producer.PReport? then pc.n - 1 else pc.n
  }

  /** The thread's numbers, and that only its own pushes are in the ring, in order. */
  ghost predicate InOrder(r: Ring.State, pc: Ingress, w: nat) {
    && pc.n <= SEQUENCE_LIMIT
    && (pc.Pushing? ==> pc.n > 0 && pc.ev.id == IdOf(w, pc.n - 1) && pc.ev.targetWorker == w)
    && Increasing(r.pushed)
    && forall k :: 0 <= k < |r.pushed| ==> MadeBy(r.pushed[k], w, Bound(r, pc))
  }

  /** The producer works on the event that the thread is pushing. */
  ghost predicate Producing(r: Ring.State, pc: Ingress, policy: Policy) {
    r.producer.PIdle? ||
    (&& pc.Pushing?
     && if r.producer.PReport? then r.pushed != [] && r.pushed[|r.pushed| - 1] == pc.ev
        else r.producer.ev == pc.ev && r.producer.policy == policy)
  }

  /** A worker without an ingress thread gets nothing. */
  function IngressAt(ingress: map<Tid, Ingress>, w: nat): Ingress {
    if w in ingress then ingress[w] else IngressDone(0)
  }

  ghost predicate RingOk(r: Ring.State, pc: Ingress, w: nat, policy: Policy, worker: Worker, done: seq<Event>) {
    Ring.Inv(r) && !r.popStop && InOrder(r, pc, w) && Producing(r, pc, policy) && Served(r, worker, done)
  }

  lemma StartPushOk(r: Ring.State, pc: Ingress, w: nat, policy: Policy, worker: Worker, done: seq<Event>)
    requires RingOk(r, pc, w, policy, worker, done) && pc.Pushing? && r.producer.PIdle?
    ensures RingOk(Ring.Do(r, Ring.StartPush(pc.ev, policy)), pc, w, policy, worker, done)
  {
  }

  lemma StoreKeepsOrder(r: Ring.State, pc: Ingress, w: nat, policy: Policy)
    requires Ring.Inv(r) && InOrder(r, pc, w) && Producing(r, pc, policy) && r.producer.PStore?
    ensures InOrder(Ring.Produce(r), pc, w) && Producing(Ring.Produce(r), pc, policy)
  {
  }

  lemma ProduceKeepsOrder(r: Ring.State, pc: Ingress, w: nat, policy: Policy)
    requires Ring.Inv(r) && InOrder(r, pc, w) && Producing(r, pc, policy) && pc.Pushing?
    requires Ring.Enabled(r, Ring.ProducerStep) && !r.producer.PStore?
    ensures InOrder(Ring.Produce(r), AfterPush(pc, r), w) && Producing(Ring.Produce(r), AfterPush(pc, r), policy)
  {
    ProduceMoves(r);
  }

  /** An access other than the store publishes nothing and leaves the producer idle or at the same event. */
  lemma ProduceMoves(r: Ring.State)
    requires Ring.Enabled(r, Ring.ProducerStep) && !r.producer.PStore?
    ensures var r' := Ring.Produce(r);
            && r'.pushed == r.pushed && !r'.producer.PReport?
            && (r.producer.PReport? ==> r'.producer.PIdle?)
            && (!r'.producer.PIdle? ==> r'.producer.ev == r.producer.ev && r'.producer.policy == r.producer.policy)
  {
  }

  lemma ProduceOk(r: Ring.State, pc: Ingress, w: nat, policy: Policy, worker: Worker, done: seq<Event>)
    requires RingOk(r, pc, w, policy, worker, done) && pc.Pushing? && Ring.Enabled(r, Ring.ProducerStep)
    ensures RingOk(Ring.Produce(r), AfterPush(pc, r), w, policy, worker, done)
  {
    var r' := Ring.Produce(r);
    assert Ring.Inv(r') by { Ring.StepKeepsInv(r, Ring.ProducerStep); }
    assert InOrder(r', AfterPush(pc, r), w) && Producing(r', AfterPush(pc, r), policy) by {
      if r.producer.PStore? { StoreKeepsOrder(r, pc, w, policy); } else { ProduceKeepsOrder(r, pc, w, policy); }
    }
    ProduceKeepsConsumer(r);
  }

  lemma ProduceKeepsConsumer(r: Ring.State)
    requires Ring.Enabled(r, Ring.ProducerStep)
    ensures var r' := Ring.Produce(r);
            && r'.consumer == r.consumer && r'.popped == r.popped && r'.popStop == r.popStop && SameFlags(r, r')
            && r.pushed <= r'.pushed
  {
  }

  lemma ConsumeKeepsProducer(r: Ring.State)
    requires Ring.Enabled(r, Ring.ConsumerStep)
    ensures var r' := Ring.Consume(r);
            && r'.producer == r.producer && r'.pushed == r.pushed && r'.popStop == r.popStop && SameFlags(r, r')
  {
  }

  lemma ConsumeServes(r: Ring.State, done: seq<Event>)
    requires Ring.Inv(r) && !r.popStop && Ring.Enabled(r, Ring.ConsumerStep) && Served(r, Popping, done)
    ensures Served(Ring.Consume(r), AfterAccess(r), done)
  {
  }

  lemma StartPopOk(r: Ring.State, pc: Ingress, w: nat, policy: Policy, done: seq<Event>)
    requires RingOk(r, pc, w, policy, WorkerLooping, done)
    ensures RingOk(Ring.Do(r, Ring.StartPop), pc, w, policy, Popping, done)
  {
  }

  lemma ConsumeOk(r: Ring.State, pc: Ingress, w: nat, policy: Policy, done: seq<Event>)
    requires RingOk(r, pc, w, policy, Popping, done) && Ring.Enabled(r, Ring.ConsumerStep)
    ensures RingOk(Ring.Consume(r), pc, w, policy, AfterAccess(r), done)
  {
    assert Ring.Inv(Ring.Consume(r)) by { Ring.StepKeepsInv(r, Ring.ConsumerStep); }
    ConsumeKeepsProducer(r);
    ConsumeServes(r, done);
  }

  /** Raising the stop flag or closing changes nothing else. */
  lemma FlagsOk(r: Ring.State, pushStop: bool, closed: bool, pc: Ingress, w: nat, policy: Policy, worker: Worker,
                done: seq<Event>)
    requires RingOk(r, pc, w, policy, worker, done) && (r.closed ==> closed)
    ensures var r' := r.(pushStop := pushStop, closed := closed);
            RingOk(r', pc, w, policy, worker, done) && Returned(r') == Returned(r)
  {
  }

  // ---- The whole invariant ----

  ghost predicate RingAt(s: State, w: nat)
    requires Sized(s) && w < |s.rings|
  {
    RingOk(s.rings[w], IngressAt(s.ingress, w), w, s.policy, s.workers[w], s.history.done[w])
  }

  ghost predicate RingsOk(s: State)
    requires Sized(s)
  {
    && (forall t :: t in s.ingress ==> t < |s.rings|)
    && forall w :: 0 <= w < |s.rings| ==> RingAt(s, w)
  }

  function Lines(rings: seq<Ring.State>): (lines: seq<seq<Event>>)
    ensures |lines| == |rings|
  {
    seq(|rings|, w requires 0 <= w < |rings| => Returned(rings[w]))
  }

  ghost predicate IngressBooked(s: State) {
    Booked(s.ingress, s.counters, s.policy, s.measureStart, s.history.books)
  }

  ghost predicate PushesCounted(s: State) {
    Total(Lines(s.rings), s.measureStart) == MeasuredIn(s.history.books.pushed, s.measureStart)
  }

  ghost predicate CompletedCounted(s: State) {
    s.completed == Total(s.history.done, s.measureStart)
  }

  /** The stop flag of the ingress threads is that of all pushes; before it is raised no ring is closed; main has closed
      the rings up to the next one. */
  ghost predicate FlagsAt(s: State, w: nat)
    requires w < |s.rings|
  {
    && s.rings[w].pushStop == s.ingressStop && (!s.ingressStop ==> !s.rings[w].closed)
    && (s.main.JoiningWorkers? || s.main.Done? || (s.main.ClosingRings? && w < s.main.next) ==> s.rings[w].closed)
  }

  ghost predicate FlagsOfMain(s: State) {
    (s.main.Sleeping? <==> !s.ingressStop) && forall w :: 0 <= w < |s.rings| ==> FlagsAt(s, w)
  }

  /** Under `Block` a push fails only once the ingress threads have been told to stop. */
  ghost predicate Patient(s: State) {
    s.policy.Block? && !s.ingressStop ==> s.history.books.refused == []
  }

  ghost predicate Phased(s: State) {
    && (s.main.ClosingRings? || s.main.JoiningWorkers? || s.main.Done? ==> Joined(s.ingress))
    && (s.main.Done? ==> WorkersJoined(s))
  }

  ghost predicate Inv(s: State) {
    && Sized(s) && RingsOk(s) && IngressBooked(s) && PushesCounted(s) && CompletedCounted(s) && Phased(s)
    && FlagsOfMain(s) && Patient(s)
  }

  // ---- Ingress steps ----

  lemma OwnTarget(s: State, t: Tid)
    requires Sized(s) && RingsOk(s) && t in s.ingress
    ensures Target(s, t) == t && t < |s.rings|
  {
    Topology.SmallTarget(t, |s.rings|);
  }

  lemma IngressKeepsRings(s: State, a: Action)
    requires Sized(s) && RingsOk(s) && ByIngress(a) && Enabled(s, a)
    ensures RingsOk(DoIngress(s, a))
  {
    var s' := DoIngress(s, a);
    OwnTarget(s, a.t);
    forall w | 0 <= w < |s'.rings| ensures RingAt(s', w) {
      assert RingAt(s, w);
    }
  }

  lemma GenerateKeepsBooks(s: State, s': State, t: Tid, ev: Event)
    requires IngressBooked(s) && t in s.ingress && s.ingress[t].Looping? && ev.id == IdOf(t, s.ingress[t].n)
    requires s' == s.(counters := CountGenerated(s.counters, ev, s.measureStart),
                      ingress := s.ingress[t := Pushing(s.ingress[t].n + 1, ev, false)],
                      history := s.history.(books := Make(s.history.books, t, ev)))
    ensures IngressBooked(s')
  {
    GenerateBooked(s.ingress, s.counters, s.policy, s.measureStart, s.history.books, t, ev);
  }

  lemma IngressKeepsBooks(s: State, a: Action)
    requires IngressBooked(s) && ByIngress(a) && Enabled(s, a)
    ensures IngressBooked(DoIngress(s, a))
  {
    var ingress, c, start, books := s.ingress, s.counters, s.measureStart, s.history.books;
    match a
    case Stop(t) => StopBooked(ingress, c, s.policy, start, books, t);
    case Generate(t, createdAt) =>
      GenerateKeepsBooks(s, DoIngress(s, a), t, Made(t, ingress[t].n, Target(s, t), createdAt));
    case Count(t) => CountBooked(ingress, c, s.policy, start, books, t);
  }

  lemma FlagsFrame(s: State, s': State)
    requires FlagsOfMain(s) && s'.main == s.main && s'.ingressStop == s.ingressStop && |s'.rings| == |s.rings|
    requires forall w :: 0 <= w < |s.rings| ==> SameFlags(s.rings[w], s'.rings[w])
    ensures FlagsOfMain(s')
  {
    forall w | 0 <= w < |s'.rings| ensures FlagsAt(s', w) {
      assert FlagsAt(s, w) && SameFlags(s.rings[w], s'.rings[w]);
    }
  }

  predicate SameFlags(r: Ring.State, r': Ring.State) {
    r'.closed == r.closed && r'.pushStop == r.pushStop
  }

  lemma IngressKeepsInv(s: State, a: Action)
    requires Inv(s) && ByIngress(a) && Enabled(s, a)
    ensures Inv(DoIngress(s, a))
  {
    IngressKeepsRings(s, a);
    IngressKeepsBooks(s, a);
    FlagsFrame(s, DoIngress(s, a));
  }

  lemma PushKeepsRings(s: State, a: Action)
    requires Sized(s) && RingsOk(s) && (a.StartPush? || a.PushAccess?) && Enabled(s, a)
    ensures RingsOk(DoPush(s, a))
  {
    var s', t := DoPush(s, a), a.t;
    OwnTarget(s, t);
    forall w | 0 <= w < |s'.rings| ensures RingAt(s', w) {
      assert RingAt(s, w);
      if w == t {
        if a.StartPush? {
          StartPushOk(s.rings[t], s.ingress[t], t, s.policy, s.workers[t], s.history.done[t]);
        } else {
          ProduceOk(s.rings[t], s.ingress[t], t, s.policy, s.workers[t], s.history.done[t]);
        }
      }
    }
  }

  /** Only the access that ends a push adds to what has returned, and adds its event. */
  lemma PushReturns(r: Ring.State, pc: Ingress, policy: Policy)
    requires Producing(r, pc, policy) && pc.Pushing? && Ring.Enabled(r, Ring.ProducerStep)
    ensures Returned(Ring.Produce(r)) == if r.producer.PReport? then Returned(r) + [pc.ev] else Returned(r)
    ensures AfterPush(pc, r) == pc || AfterPush(pc, r) == Counting(pc.n, pc.ev, r.producer.PReport?)
    ensures r.producer.PReport? ==> AfterPush(pc, r) != pc
  {
  }

  lemma LinesUpdate(rings: seq<Ring.State>, w: nat, r: Ring.State)
    requires w < |rings|
    ensures Lines(rings[w := r]) == Lines(rings)[w := Returned(r)]
  {
  }

  lemma PushKeepsCounts(s: State, t: Tid)
    requires Sized(s) && RingsOk(s) && PushesCounted(s) && Enabled(s, PushAccess(t))
    ensures PushesCounted(DoPush(s, PushAccess(t)))
  {
    var s' := DoPush(s, PushAccess(t));
    var pc, r, start, pushed := s.ingress[t], s.rings[t], s.measureStart, s.history.books.pushed;
    OwnTarget(s, t);
    assert RingAt(s, t);
    PushReturns(r, pc, s.policy);
    LinesUpdate(s.rings, t, Ring.Produce(r));
    if r.producer.PReport? {
      TotalUpdate(Lines(s.rings), t, pc.ev, start);
      MeasuredSnoc(pushed, pc.ev, start);
    } else {
      assert Lines(s.rings)[t := Returned(r)] == Lines(s.rings);
    }
  }

  lemma PushKeepsBooks(s: State, t: Tid)
    requires Sized(s) && RingsOk(s) && IngressBooked(s) && Enabled(s, PushAccess(t))
    ensures IngressBooked(DoPush(s, PushAccess(t)))
  {
    var s' := DoPush(s, PushAccess(t));
    OwnTarget(s, t);
    if s'.ingress[t] == s.ingress[t] {
      assert s'.ingress == s.ingress;
    } else {
      PushBooked(s.ingress, s.counters, s.policy, s.measureStart, s.history.books, t, !GivesUp(s.rings[t]));
    }
  }

  /** Before the flags go up, a push gives up only under `Drop`. */
  lemma PushKeepsPatient(s: State, t: Tid)
    requires Sized(s) && RingsOk(s) && FlagsOfMain(s) && Patient(s) && Enabled(s, PushAccess(t))
    ensures Patient(DoPush(s, PushAccess(t)))
  {
    OwnTarget(s, t);
    assert RingAt(s, t) && FlagsAt(s, t);
    GivesUpExactlyWhen(s.rings[t]);
  }

  lemma StartPushKeepsCounts(s: State, t: Tid)
    requires Sized(s) && IngressBooked(s) && PushesCounted(s) && Enabled(s, StartPush(t))
    ensures IngressBooked(DoPush(s, StartPush(t))) && PushesCounted(DoPush(s, StartPush(t)))
  {
    assert Lines(DoPush(s, StartPush(t)).rings) == Lines(s.rings);
  }

  lemma PushKeepsFlags(s: State, a: Action)
    requires Sized(s) && FlagsOfMain(s) && (a.StartPush? || a.PushAccess?) && Enabled(s, a)
    ensures FlagsOfMain(DoPush(s, a))
  {
    var s', w := DoPush(s, a), Target(s, a.t);
    assert SameFlags(s.rings[w], s'.rings[w]) by {
      if a.PushAccess? { ProduceKeepsConsumer(s.rings[w]); }
    }
    FlagsFrame(s, s');
  }

  lemma PushKeepsInv(s: State, a: Action)
    requires Inv(s) && (a.StartPush? || a.PushAccess?) && Enabled(s, a)
    ensures Inv(DoPush(s, a))
  {
    PushKeepsRings(s, a);
    PushKeepsFlags(s, a);
    if a.StartPush? {
      StartPushKeepsCounts(s, a.t);
    } else {
      PushKeepsCounts(s, a.t);
      PushKeepsBooks(s, a.t);
      PushKeepsPatient(s, a.t);
    }
  }

  // ---- Worker and main steps ----

  lemma WorkerKeepsRings(s: State, a: Action)
    requires Sized(s) && RingsOk(s) && (a.StartPop? || a.PopAccess? || a.Complete?) && Enabled(s, a)
    ensures RingsOk(DoWorker(s, a))
  {
    var s' := DoWorker(s, a);
    forall w | 0 <= w < |s'.rings| ensures RingAt(s', w) {
      assert RingAt(s, w);
      if w == a.w {
        match a
        case StartPop(_) => StartPopOk(s.rings[w], IngressAt(s.ingress, w), w, s.policy, s.history.done[w]);
        case PopAccess(_) => ConsumeOk(s.rings[w], IngressAt(s.ingress, w), w, s.policy, s.history.done[w]);
        case Complete(_) =>
      }
    }
  }

  lemma WorkerKeepsInv(s: State, a: Action)
    requires Inv(s) && (a.StartPop? || a.PopAccess? || a.Complete?) && Enabled(s, a)
    ensures Inv(DoWorker(s, a))
  {
    WorkerKeepsRings(s, a);
    WorkerKeepsLines(s, a);
    WorkerKeepsFlags(s, a);
    if a.Complete? { TotalUpdate(s.history.done, a.w, s.workers[a.w].ev, s.measureStart); }
  }

  lemma WorkerKeepsLines(s: State, a: Action)
    requires Sized(s) && (a.StartPop? || a.PopAccess? || a.Complete?) && Enabled(s, a)
    ensures Lines(DoWorker(s, a).rings) == Lines(s.rings)
  {
    if a.PopAccess? { ConsumeKeepsProducer(s.rings[a.w]); }
  }

  lemma WorkerKeepsFlags(s: State, a: Action)
    requires Sized(s) && FlagsOfMain(s) && (a.StartPop? || a.PopAccess? || a.Complete?) && Enabled(s, a)
    ensures FlagsOfMain(DoWorker(s, a))
  {
    if a.PopAccess? { ConsumeKeepsProducer(s.rings[a.w]); }
    FlagsFrame(s, DoWorker(s, a));
  }

  lemma MainKeepsFlags(s: State)
    requires Sized(s) && FlagsOfMain(s) && Enabled(s, MainStep)
    ensures FlagsOfMain(DoMain(s))
  {
    var s' := DoMain(s);
    forall w | 0 <= w < |s'.rings| ensures FlagsAt(s', w) {
      assert FlagsAt(s, w);
    }
  }

  lemma MainRaisesFlags(s: State, w: nat)
    requires Sized(s) && Enabled(s, MainStep) && w < |s.rings|
    ensures var s' := DoMain(s);
            && s' == s.(rings := s'.rings, main := s'.main, ingressStop := s'.ingressStop) && |s'.rings| == |s.rings|
            && s'.rings[w] == s.rings[w].(pushStop := s'.rings[w].pushStop, closed := s'.rings[w].closed)
            && (s.rings[w].closed ==> s'.rings[w].closed)
  {
  }

  lemma MainKeepsRings(s: State)
    requires Sized(s) && RingsOk(s) && Enabled(s, MainStep)
    ensures RingsOk(DoMain(s)) && Lines(DoMain(s).rings) == Lines(s.rings)
  {
    var s' := DoMain(s);
    MainRaisesFlags(s, 0);
    forall w | 0 <= w < |s'.rings| ensures RingAt(s', w) && Returned(s'.rings[w]) == Returned(s.rings[w]) {
      assert RingAt(s, w);
      var r, r' := s.rings[w], s'.rings[w];
      MainRaisesFlags(s, w);
      FlagsOk(r, r'.pushStop, r'.closed, IngressAt(s.ingress, w), w, s.policy, s.workers[w], s.history.done[w]);
    }
  }

  lemma MainKeepsInv(s: State)
    requires Inv(s) && Enabled(s, MainStep)
    ensures Inv(DoMain(s))
  {
    MainKeepsRings(s);
    MainKeepsFlags(s);
  }

  // ---- Runs ----

  lemma InitInv(s: State)
    requires Init(s)
    ensures Inv(s)
  {
    forall w | 0 <= w < |s.rings| ensures RingAt(s, w) && s.history.done[w] == [] && Lines(s.rings)[w] == [] {
      assert RingStarts(s, w);
    }
    NothingIn(s.history.done, s.measureStart);
    NothingIn(Lines(s.rings), s.measureStart);
    NothingBooked(s.ingress, s.policy, s.measureStart);
    forall w | 0 <= w < |s.rings| ensures FlagsAt(s, w) {
      assert RingStarts(s, w);
    }
  }

  lemma {:induction false} RunKeepsInv(s: State, run: seq<State>)
    requires Reachable(s, run)
    ensures Inv(s)
    decreases |run|
  {
    if |run| == 1 {
      InitInv(s);
    } else {
      var before := run[|run| - 2];
      assert Next(before, s);
      RunKeepsInv(before, run[..|run| - 1]);
      var a :| Enabled(before, a) && s == Do(before, a);
      if ByIngress(a) {
        IngressKeepsInv(before, a);
      } else if a.StartPush? || a.PushAccess? {
        PushKeepsInv(before, a);
      } else if a.MainStep? {
        MainKeepsInv(before);
      } else {
        WorkerKeepsInv(before, a);
      }
    }
  }

  // ---- What holds in every run ----

  /** A worker gets the events of its own ingress thread only, each at most once, in the order they were made in. */
  lemma WorkersSeeTheirIngressInOrder(s: State, run: seq<State>, w: nat, a: nat, b: nat)
    requires Reachable(s, run) && w < |s.rings| && a < b < |s.rings[w].popped|
    ensures var popped := s.rings[w].popped;
            && popped[a].id < popped[b].id && w in s.ingress
            && popped[a].targetWorker == popped[b].targetWorker == w
            && IngressOf(popped[a]) == IngressOf(popped[b]) == w % INGRESS_LIMIT
  {
    RunKeepsInv(s, run);
    var r := s.rings[w];
    assert RingAt(s, w);
    assert r.popped == r.pushed[..|r.popped|];
    var n := Bound(r, IngressAt(s.ingress, w));
    assert MadeBy(r.pushed[a], w, n) && MadeBy(r.pushed[b], w, n);
  }

  /** Each ring stays a queue of at most its capacity, whatever the other threads do. */
  lemma RingsStayFifo(s: State, run: seq<State>, w: nat)
    requires Reachable(s, run) && w < |s.rings|
    ensures s.rings[w].popped <= s.rings[w].pushed
    ensures |s.rings[w].pushed| - |s.rings[w].popped| <= s.rings[w].capacity
  {
    RunKeepsInv(s, run);
    assert RingAt(s, w);
  }

  /** What the rings have taken in is completed or left over, once no thread is at work on them. */
  lemma {:induction false} LinesSplit(lines: seq<seq<Event>>, rings: seq<Ring.State>, done: seq<seq<Event>>, n: nat,
                                      start: int)
    requires n <= |lines| == |rings| == |done|
    requires forall w :: 0 <= w < n ==> lines[w] == done[w] + Waiting(rings[w])
    ensures Total(lines[..n], start) == Total(done[..n], start) + Leftover(rings, n, start)
    decreases n
  {
    if n > 0 {
      LinesSplit(lines, rings, done, n - 1, start);
      MeasuredInConcat(done[n - 1], Waiting(rings[n - 1]), start);
      TotalSnoc(done, n - 1, start);
      TotalSnoc(lines, n - 1, start);
    }
  }

  lemma AtRest(s: State, w: nat)
    requires Sized(s) && RingsOk(s) && Joined(s.ingress) && WorkersJoined(s) && w < |s.rings|
    ensures Returned(s.rings[w]) == s.history.done[w] + Waiting(s.rings[w])
    ensures s.workers[w].WorkerDone? && LeftLater(s.rings[w], s.workers[w].published, s.history.done[w])
  {
    assert RingAt(s, w) && s.workers[w].WorkerDone?;
    LeftIsLater(s.rings[w], s.workers[w], s.history.done[w]);
  }

  /** When main is done, the counters account for every event accepted: completed, or left over in a ring; and for
      every other event made: it has been refused. What a worker has left in its ring, which is closed, was published
      after the tail load of the pop that ended it; all before that is done. */
  lemma AcceptedAreAccountedFor(s: State, run: seq<State>)
    requires Reachable(s, run) && s.main.Done?
    ensures s.counters.accepted == s.completed + Leftover(s.rings, |s.rings|, s.measureStart)
    ensures s.counters.generated == MeasuredIn(EventsMade(s.history.books.made), s.measureStart)
    ensures s.counters.generated == s.counters.accepted + MeasuredIn(s.history.books.refused, s.measureStart)
    ensures s.counters.dropped == if s.policy.Drop? then MeasuredIn(s.history.books.refused, s.measureStart) else 0
    ensures |s.workers| == |s.rings| == |s.history.done|
    ensures forall w :: 0 <= w < |s.rings| ==> s.workers[w].WorkerDone? && LeftLater(s.rings[w], s.workers[w].published,
                                                                               s.history.done[w])
  {
    RunKeepsInv(s, run);
    var n := |s.rings|;
    JoinedCounters(s.ingress, s.counters, s.policy, s.measureStart, s.history.books);
    forall w | 0 <= w < n
      ensures Lines(s.rings)[w] == s.history.done[w] + Waiting(s.rings[w])
      ensures LeftLater(s.rings[w], s.workers[w].published, s.history.done[w])
    {
      AtRest(s, w);
    }
    LinesSplit(Lines(s.rings), s.rings, s.history.done, n, s.measureStart);
    assert Lines(s.rings)[..n] == Lines(s.rings) && s.history.done[..n] == s.history.done;
  }

  /** Only the ingress thread bound for a ring acts as its producer, and only its worker as its consumer. */
  lemma OneProducerOneConsumer(s: State, run: seq<State>, a: Action, w: nat)
    requires Reachable(s, run) && Enabled(s, a) && w < |s.rings|
    ensures |Do(s, a).rings| == |s.rings|
    ensures Do(s, a).rings[w].producer != s.rings[w].producer ==> a == StartPush(w) || a == PushAccess(w)
    ensures Do(s, a).rings[w].consumer != s.rings[w].consumer ==> a == StartPop(w) || a == PopAccess(w)
  {
    assert Sized(s) && RingsOk(s) by { RunKeepsInv(s, run); }
    if a.StartPush? || a.PushAccess? {
      OwnTarget(s, a.t);
      if a.PushAccess? { assert Ring.Produce(s.rings[a.t]).consumer == s.rings[a.t].consumer; }
    } else if a.PopAccess? {
      assert Ring.Consume(s.rings[a.w]).producer == s.rings[a.w].producer;
    }
  }

  // ---- Progress ----

  /** Each ingress thread has made exactly its events number 0, 1, 2 and so on, in this order; nothing else was pushed
      or refused; and under `Block` nothing was refused before the threads were told to stop. */
  lemma IngressMakesAll(s: State, run: seq<State>, t: Tid)
    requires Reachable(s, run) && t in s.ingress
    ensures MadeAt(s.ingress[t], Own(s.history.books.made, t), t)
    ensures forall ev :: ev in s.history.books.pushed || ev in s.history.books.refused ==>
              ev in EventsMade(s.history.books.made)
    ensures s.policy.Block? && !s.ingressStop ==> s.history.books.refused == []
  {
    RunKeepsInv(s, run);
  }

  /** An access to the ring ends the push of a thread with true once its event has been published and reported, and with
      false exactly when it reads `closed` or the stop flag as true or, under `Drop`, has found the ring full. */
  lemma PushEndsExactlyWhen(s: State, run: seq<State>, t: Tid)
    requires Reachable(s, run) && Enabled(s, PushAccess(t))
    ensures t < |s.rings| && t in Do(s, PushAccess(t)).ingress
    ensures var r, pc, pc' := s.rings[t], s.ingress[t], Do(s, PushAccess(t)).ingress[t];
            if r.producer.PReport? then pc' == Counting(pc.n, pc.ev, true)
            else if || (r.producer.PCheckClosed? && r.closed) || (r.producer.PCheckStop? && r.pushStop)
                    || (r.producer.PFull? && s.policy.Drop?)
            then pc' == Counting(pc.n, pc.ev, false)
            else pc' == pc
  {
    assert Sized(s) && RingsOk(s) by { RunKeepsInv(s, run); }
    OwnTarget(s, t);
    assert RingAt(s, t);
    GivesUpExactlyWhen(s.rings[t]);
    PushReturns(s.rings[t], s.ingress[t], s.policy);
  }

  /** A thread that has counted its event goes on to the next; only the end of the measurement, or a stop, ends it. */
  lemma IngressGoesOn(s: State, a: Action, t: Tid)
    requires Enabled(s, a) && t in s.ingress
    ensures t in Do(s, a).ingress
    ensures a == Action.Count(t) ==> Do(s, a).ingress[t] == Looping(s.ingress[t].n)
    ensures Do(s, a).ingress[t].IngressDone? && !s.ingress[t].IngressDone? ==> a == Stop(t)
  {
  }

  ghost predicate IngressFree(s: State, t: Tid)
    requires t in s.ingress && Sized(s)
  {
    match s.ingress[t]
    case Looping(n) => Enabled(s, Stop(t)) && (n < SEQUENCE_LIMIT ==> forall c :: Enabled(s, Generate(t, c)))
    case Pushing(_, _, _) =>
      Enabled(s, if s.rings[Target(s, t)].producer.PIdle? then StartPush(t) else PushAccess(t))
    case Counting(_, _, _) => Enabled(s, Action.Count(t))
    case IngressDone(_) => true
  }

  ghost predicate WorkerFree(s: State, w: nat)
    requires w < |s.workers|
  {
    match s.workers[w]
    case WorkerLooping => Enabled(s, StartPop(w))
    case Popping => Enabled(s, PopAccess(w))
    case Working(_) => Enabled(s, Complete(w))
    case WorkerDone(_) => true
  }

  lemma IngressIsFree(s: State, t: Tid)
    requires Sized(s) && RingsOk(s) && t in s.ingress
    ensures IngressFree(s, t)
  {
    OwnTarget(s, t);
    assert RingAt(s, t);
  }

  lemma WorkerIsFree(s: State, w: nat)
    requires Sized(s) && RingsOk(s) && w < |s.workers|
    ensures WorkerFree(s, w)
  {
    assert RingAt(s, w);
  }

  /** Nobody ever has to wait for anybody, apart from the joins of main: every thread that has not ended can take its
      next step. When main has closed the rings they are closed, so that the workers can end. */
  lemma NobodyIsStuck(s: State, run: seq<State>)
    requires Reachable(s, run)
    ensures Sized(s) && (forall t :: t in s.ingress ==> IngressFree(s, t))
    ensures forall w :: 0 <= w < |s.workers| ==> WorkerFree(s, w)
    ensures Enabled(s, MainStep) <==>
              && (s.main.JoiningIngress? ==> Joined(s.ingress)) && (s.main.JoiningWorkers? ==> WorkersJoined(s))
              && !s.main.Done?
    ensures forall w :: 0 <= w < |s.rings| ==>
              && s.rings[w].pushStop == s.ingressStop == !s.main.Sleeping?
              && (s.main.JoiningWorkers? || s.main.Done? ==> s.rings[w].closed)
  {
    assert Sized(s) && RingsOk(s) && FlagsOfMain(s) by { RunKeepsInv(s, run); }
    forall t | t in s.ingress ensures IngressFree(s, t) {
      IngressIsFree(s, t);
    }
    forall w | 0 <= w < |s.workers| ensures WorkerFree(s, w) {
      WorkerIsFree(s, w);
    }
    forall w | 0 <= w < |s.rings|
      ensures s.rings[w].pushStop == s.ingressStop == !s.main.Sleeping?
      ensures s.main.JoiningWorkers? || s.main.Done? ==> s.rings[w].closed
    {
      assert FlagsAt(s, w);
    }
  }

  /** So until main is done, some thread can take a step. */
  lemma NoDeadlock(s: State, run: seq<State>)
    requires Reachable(s, run) && !s.main.Done?
    ensures exists a :: Enabled(s, a)
  {
    NobodyIsStuck(s, run);
    if s.main.JoiningIngress? && !Joined(s.ingress) {
      IngressSteps(s);
    } else if s.main.JoiningWorkers? && !WorkersJoined(s) {
      WorkersStep(s);
    } else {
      assert Enabled(s, MainStep);
    }
  }

  lemma IngressSteps(s: State)
    requires Sized(s) && !Joined(s.ingress) && forall t :: t in s.ingress ==> IngressFree(s, t)
    ensures exists a :: Enabled(s, a)
  {
    var t :| t in s.ingress && !s.ingress[t].IngressDone?;
    assert IngressFree(s, t);
    var a := match s.ingress[t]
             case Looping(_) => Stop(t)
             case Pushing(_, _, _) => if s.rings[Target(s, t)].producer.PIdle? then StartPush(t) else PushAccess(t)
             case _ => Action.Count(t);
    assert Enabled(s, a);
  }

  lemma WorkersStep(s: State)
    requires !WorkersJoined(s) && forall w :: 0 <= w < |s.workers| ==> WorkerFree(s, w)
    ensures exists a :: Enabled(s, a)
  {
    var w: nat :| w < |s.workers| && !s.workers[w].WorkerDone?;
    assert WorkerFree(s, w);
    var a := match s.workers[w]
             case WorkerLooping => StartPop(w)
             case Popping => PopAccess(w)
             case _ => Complete(w);
    assert Enabled(s, a);
  }
}
