/** The dispatch topology: ingress threads push to a shared dispatch queue, a dispatcher moves each event to the ring
    of the worker it is bound for, and every worker pops its own ring.

    The worker rings run at their own granularity, one shared access a step. The dispatch queue is a `SharedQueue`,
    which each of the three shared queues is. Exceptions are left out, so the flag that stops the pops stays down. */
module DispatchPipeline {
  import opened Events
  import opened IngressThreads
  import opened PipelineEvents
  import opened RingThreads
  import opened Threads
  import Q = SharedQueue

  datatype Dispatcher =
    | Taking
    | Routing(ev: Event)
    | InRing(target: nat, ev: Event)
    | CountingDrop(ev: Event)
    | ClosingRings(next: nat)
    | DispatcherDone

  datatype Main = Sleeping | JoiningIngress | Closing | JoiningDispatcher | JoiningWorkers | Done

  /** What became of an event that the dispatcher took. */
  datatype Fate = Delivered(ev: Event) | Lost(ev: Event)

  /** The books of the ingress threads, what the dispatcher did in turn with what was pushed, and what each worker has
      completed. */
  datatype History = History(books: Books, fates: seq<Fate>, done: seq<seq<Event>>)

  datatype State = State(
    policy: Policy,
    measureStart: int,
    main: Main,
    ingressStop: bool,
    ingress: map<Tid, Ingress>,
    dispatch: Q.Queue,
    dispatcher: Dispatcher,
    rings: seq<Ring.State>,
    workers: seq<Worker>,
    counters: Counters,
    completed: nat,
    droppedDispatch: nat,
    history: History)

  datatype Action =
    | Stop(t: Tid)
    | Generate(t: Tid, createdAt: int)
    | Push(t: Tid, ok: bool)
    | Count(t: Tid)
    /** The dispatcher pops the dispatch queue, or finds that it can get no more. */
    | Take(ok: bool)
    | StartRouting
    | RouteAccess
    | CountDrop
    | CloseRing
    | StartPop(w: nat)
    | PopAccess(w: nat)
    | Complete(w: nat)
    | MainStep

  /** The worker an event is bound for. */
  function Target(ev: Event, workers: nat): (w: nat)
    requires workers > 0
    ensures w < workers
  {
    ev.targetWorker % workers
  }

  ghost predicate Init(s: State) {
    && |s.rings| == |s.workers| == |s.history.done| > 0
    && s.main.Sleeping? && !s.ingressStop && s.dispatch == Q.Queue([], false) && s.dispatcher.Taking?
    && (forall t :: t in s.ingress ==> s.ingress[t] == Looping(0))
    && (forall w :: 0 <= w < |s.rings| ==> RingStarts(s, w))
    && s.counters == Counters(0, 0, 0) && s.completed == s.droppedDispatch == 0
    && s.history.books == Books([], [], []) && s.history.fates == []
  }

  ghost predicate RingStarts(s: State, w: nat)
    requires |s.rings| == |s.workers| == |s.history.done| && w < |s.rings|
  {
    && Ring.Init(s.rings[w]) && !s.rings[w].pushStop && !s.rings[w].popStop
    && s.workers[w].WorkerLooping? && s.history.done[w] == []
  }

  ghost predicate WorkersJoined(s: State) {
    forall w :: 0 <= w < |s.workers| ==> s.workers[w].WorkerDone?
  }

  predicate Sized(s: State) {
    |s.rings| == |s.workers| == |s.history.done| > 0
  }

  function PushMove(s: State, ev: Event, ok: bool): Q.Move {
    if ok then Q.Put(ev) else Q.Refuse(s.policy, s.ingressStop)
  }

  ghost predicate Enabled(s: State, a: Action) {
    && Sized(s)
    && match a
       case Stop(t) => t in s.ingress && s.ingress[t].Looping?
       case Generate(t, _) => t in s.ingress && s.ingress[t].Looping? && s.ingress[t].n < SEQUENCE_LIMIT
       case Push(t, ok) =>
         t in s.ingress && s.ingress[t].Pushing? && Q.Allows(s.dispatch, PushMove(s, s.ingress[t].ev, ok))
       case Count(t) => t in s.ingress && s.ingress[t].Counting?
       case Take(ok) =>
         s.dispatcher.Taking? && if ok then s.dispatch.events != [] else Q.Allows(s.dispatch, Q.End(false))
       case StartRouting =>
         s.dispatcher.Routing? && s.rings[Target(s.dispatcher.ev, |s.rings|)].producer.PIdle?
       case RouteAccess =>
         s.dispatcher.InRing? && s.dispatcher.target < |s.rings|
         && Ring.Enabled(s.rings[s.dispatcher.target], Ring.ProducerStep)
       case CountDrop => s.dispatcher.CountingDrop?
       case CloseRing => s.dispatcher.ClosingRings?
       case StartPop(w) => w < |s.rings| && s.workers[w].WorkerLooping? && s.rings[w].consumer.CIdle?
       case PopAccess(w) => w < |s.rings| && s.workers[w].Popping? && Ring.Enabled(s.rings[w], Ring.ConsumerStep)
       case Complete(w) => w < |s.rings| && s.workers[w].Working?
       case MainStep =>
         match s.main
         case JoiningIngress => Joined(s.ingress)
         case JoiningDispatcher => s.dispatcher.DispatcherDone?
         case JoiningWorkers => WorkersJoined(s)
         case Done => false
         case _ => true
  }

  predicate ByIngress(a: Action) {
    a.Stop? || a.Generate? || a.Push? || a.Count?
  }

  ghost function DoIngress(s: State, a: Action): State
    requires ByIngress(a) && Enabled(s, a)
  {
    match a
    case Stop(t) => s.(ingress := s.ingress[t := IngressDone(s.ingress[t].n)])
    case Generate(t, createdAt) =>
      var n := s.ingress[t].n;
      var ev := Generated(t, n, |s.rings|, createdAt);
      s.(counters := CountGenerated(s.counters, ev, s.measureStart),
         ingress := s.ingress[t := Pushing(n + 1, ev, false)],
         history := s.history.(books := Make(s.history.books, t, ev)))
    case Push(t, ok) =>
      var Pushing(n, ev, _) := s.ingress[t];
      s.(ingress := s.ingress[t := Counting(n, ev, ok)],
         dispatch := if ok then Q.After(s.dispatch, Q.Put(ev)) else s.dispatch,
         history := s.history.(books := Settle(s.history.books, ev, ok)))
    case Count(t) =>
      var Counting(n, ev, ok) := s.ingress[t];
      s.(counters := CountPush(s.counters, ev, ok, s.policy, s.measureStart), ingress := s.ingress[t := Looping(n)])
  }

  predicate ByDispatcher(a: Action) {
    a.Take? || a.StartRouting? || a.RouteAccess? || a.CountDrop? || a.CloseRing?
  }

  /** What the next access of the dispatcher to the ring decides about the event it is pushing. */
  function Decided(r: Ring.State, ev: Event): seq<Fate>
    requires Ring.Enabled(r, Ring.ProducerStep)
  {
    if r.producer.PStore? then [Delivered(ev)] else if GivesUp(r) then [Lost(ev)] else []
  }

  function AfterRoute(r: Ring.State, w: nat, ev: Event): Dispatcher
    requires Ring.Enabled(r, Ring.ProducerStep)
  {
    if GivesUp(r) then CountingDrop(ev) else if Ring.Produce(r).producer.PIdle? then Taking else InRing(w, ev)
  }

  ghost function DoRoute(s: State): State
    requires Enabled(s, RouteAccess)
  {
    var InRing(w, ev) := s.dispatcher;
    var r := s.rings[w];
    s.(rings := s.rings[w := Ring.Produce(r)],
       dispatcher := AfterRoute(r, w, ev),
       history := s.history.(fates := s.history.fates + Decided(r, ev)))
  }

  ghost function DoDispatcher(s: State, a: Action): State
    requires ByDispatcher(a) && Enabled(s, a)
  {
    match a
    case Take(ok) =>
      if ok then
        var ev := s.dispatch.events[0];
        s.(dispatch := Q.After(s.dispatch, Q.Take(ev)), dispatcher := Routing(ev))
      else
        s.(dispatcher := ClosingRings(0))
    case StartRouting =>
      var ev := s.dispatcher.ev;
      var w := Target(ev, |s.rings|);
      s.(rings := s.rings[w := Ring.Do(s.rings[w], Ring.StartPush(ev, s.policy))], dispatcher := InRing(w, ev))
    case RouteAccess => DoRoute(s)
    case CountDrop =>
      var counted := s.policy.Drop? && Measured(s.dispatcher.ev, s.measureStart);
      s.(droppedDispatch := Plus(s.droppedDispatch, counted), dispatcher := Taking)
    case CloseRing =>
      var w := s.dispatcher.next;
      if w < |s.rings| then
        s.(rings := s.rings[w := s.rings[w].(closed := true)], dispatcher := ClosingRings(w + 1))
      else
        s.(dispatcher := DispatcherDone)
  }

  ghost function DoWorker(s: State, a: Action): State
    requires (a.StartPop? || a.PopAccess? || a.Complete?) && Enabled(s, a)
  {
    var w := a.w;
    var r := s.rings[w];
    match a
    case StartPop(_) =>
      s.(rings := s.rings[w := Ring.Do(r, Ring.StartPop)], workers := s.workers[w := Popping])
    case PopAccess(_) =>
      s.(rings := s.rings[w := Ring.Consume(r)], workers := s.workers[w := AfterAccess(r)])
    case Complete(_) =>
      var ev := s.workers[w].ev;
      s.(completed := Plus(s.completed, Measured(ev, s.measureStart)),
         workers := s.workers[w := WorkerLooping],
         history := s.history.(done := s.history.done[w := s.history.done[w] + [ev]]))
  }

  ghost function DoMain(s: State): State
    requires Enabled(s, MainStep)
  {
    match s.main
    case Sleeping => s.(ingressStop := true, main := JoiningIngress)
    case JoiningIngress => s.(main := Closing)
    case Closing => s.(dispatch := Q.After(s.dispatch, Q.Shut), main := JoiningDispatcher)
    case JoiningDispatcher => s.(main := JoiningWorkers)
    case JoiningWorkers => s.(main := Done)
  }

  ghost function Do(s: State, a: Action): State
    requires Enabled(s, a)
  {
    if ByIngress(a) then DoIngress(s, a)
    else if ByDispatcher(a) then DoDispatcher(s, a)
    else if a.MainStep? then DoMain(s)
    else DoWorker(s, a)
  }

  ghost predicate Next(s: State, s': State) {
    exists a :: Enabled(s, a) && s' == Do(s, a)
  }

  ghost predicate Reachable(s: State, run: seq<State>) {
    && run != [] && Init(run[0]) && run[|run| - 1] == s
    && forall i :: 0 < i < |run| ==> Next(run[i - 1], run[i])
  }

  // ---- Where events are ----

  function EventsOf(fates: seq<Fate>): seq<Event> {
    if fates == [] then [] else EventsOf(fates[..|fates| - 1]) + [fates[|fates| - 1].ev]
  }

  /** The events put into the ring of worker `w`, in order. */
  function DeliveredTo(fates: seq<Fate>, w: nat, workers: nat): seq<Event>
    requires workers > 0
  {
    if fates == [] then []
    else
      var line, last := DeliveredTo(fates[..|fates| - 1], w, workers), fates[|fates| - 1];
      if last.Delivered? && Target(last.ev, workers) == w then line + [last.ev] else line
  }

  /** The events dropped at dispatch, in order. */
  function LostIn(fates: seq<Fate>): seq<Event> {
    if fates == [] then []
    else
      var lost, last := LostIn(fates[..|fates| - 1]), fates[|fates| - 1];
      if last.Lost? then lost + [last.ev] else lost
  }

  lemma {:induction false} DecidedFates(fates: seq<Fate>, r: Ring.State, ev: Event, w: nat, workers: nat)
    requires workers > 0 && Ring.Enabled(r, Ring.ProducerStep)
    ensures EventsOf(fates + Decided(r, ev))
            == if r.producer.PStore? || GivesUp(r) then EventsOf(fates) + [ev] else EventsOf(fates)
    ensures DeliveredTo(fates + Decided(r, ev), w, workers)
            == if r.producer.PStore? && Target(ev, workers) == w then DeliveredTo(fates, w, workers) + [ev]
               else DeliveredTo(fates, w, workers)
    ensures LostIn(fates + Decided(r, ev)) == if GivesUp(r) then LostIn(fates) + [ev] else LostIn(fates)
  {
    var more := Decided(r, ev);
    if more == [] {
      assert fates + more == fates;
    } else {
      assert (fates + more)[..|fates|] == fates;
    }
  }

  /** The event that the dispatcher has taken and neither delivered nor given up. */
  function Hand(dispatcher: Dispatcher, rings: seq<Ring.State>): seq<Event> {
    match dispatcher
    case Routing(ev) => [ev]
    case InRing(w, ev) => if w < |rings| && rings[w].producer.PReport? then [] else [ev]
    case _ => []
  }

  /** Each event pushed has met its fate, or is in the dispatcher's hand, or in the dispatch queue, in this order. */
  ghost predicate Placed(s: State) {
    s.history.books.pushed == EventsOf(s.history.fates) + Hand(s.dispatcher, s.rings) + s.dispatch.events
  }

  /** The event that the dispatcher is pushing to the ring of worker `w`. */
  function HandFor(dispatcher: Dispatcher, w: nat): Option<Event> {
    if dispatcher.InRing? && dispatcher.target == w then Some(dispatcher.ev) else None
  }

  predicate Ending(dispatcher: Dispatcher) {
    dispatcher.ClosingRings? || dispatcher.DispatcherDone?
  }

  /** The ring `r` of one worker: everything delivered to that worker has gone through it, and what has left it is done
      or in the worker's hand. `ev` is what the dispatcher is pushing to it. */
  ghost predicate RingOk(r: Ring.State, ev: Option<Event>, ending: bool, policy: Policy, worker: Worker,
                         done: seq<Event>, delivered: seq<Event>) {
    && Ring.Inv(r) && !r.pushStop && !r.popStop && (r.closed ==> ending)
    && r.pushed == delivered
    && (r.producer.PIdle? <==> ev.None?)
    && (ev.Some? ==> r.producer.PReport? || (r.producer.ev == ev.value && r.producer.policy == policy))
    && Served(r, worker, done)
  }

  ghost predicate RingAt(s: State, w: nat)
    requires Sized(s) && w < |s.rings|
  {
    RingOk(s.rings[w], HandFor(s.dispatcher, w), Ending(s.dispatcher), s.policy, s.workers[w],
      s.history.done[w], DeliveredTo(s.history.fates, w, |s.rings|))
  }

  ghost predicate RingsOk(s: State)
    requires Sized(s)
  {
    && (s.dispatcher.InRing? ==> s.dispatcher.target == Target(s.dispatcher.ev, |s.rings|))
    && forall w :: 0 <= w < |s.rings| ==> RingAt(s, w)
  }

  // ---- Counters and phases ----

  ghost predicate IngressBooked(s: State) {
    Booked(s.ingress, s.counters, s.policy, s.measureStart, s.history.books)
  }

  ghost predicate DropsCounted(s: State) {
    && (s.policy.Drop? ==>
          s.droppedDispatch
          + (if s.dispatcher.CountingDrop? && Measured(s.dispatcher.ev, s.measureStart) then 1 else 0)
          == MeasuredIn(LostIn(s.history.fates), s.measureStart))
    && (s.policy.Block? ==> s.droppedDispatch == 0 && LostIn(s.history.fates) == [])
  }

  ghost predicate CompletedCounted(s: State) {
    s.completed == Total(s.history.done, s.measureStart)
  }

  /** The rings that the dispatcher has closed so far. */
  ghost predicate RingsClosed(s: State) {
    var d := s.dispatcher;
    forall w :: 0 <= w < |s.rings| && (d.DispatcherDone? || (d.ClosingRings? && w < d.next)) ==> s.rings[w].closed
  }

  /** Under `Block` a push fails only once the ingress threads have been told to stop. */
  ghost predicate Patient(s: State) {
    s.policy.Block? && !s.ingressStop ==> s.history.books.refused == []
  }

  ghost predicate Phased(s: State) {
    && (s.main.Sleeping? <==> !s.ingressStop)
    && (s.dispatch.closed <==> s.main.JoiningDispatcher? || s.main.JoiningWorkers? || s.main.Done?)
    && (Ending(s.dispatcher) ==> s.dispatch.closed)
    && (s.main.Closing? || s.main.JoiningDispatcher? || s.main.JoiningWorkers? || s.main.Done? ==> Joined(s.ingress))
    && (s.main.JoiningWorkers? || s.main.Done? ==> s.dispatcher.DispatcherDone?)
    && (s.main.Done? ==> WorkersJoined(s))
  }

  ghost predicate Inv(s: State) {
    && Sized(s) && Placed(s) && RingsOk(s) && IngressBooked(s) && DropsCounted(s) && CompletedCounted(s)
    && AllAddressed(s.ingress, s.history.books.pushed, |s.rings|)
    && (FewIngress(s.ingress) ==> Numbered(s.ingress, s.history.books.pushed)) && Phased(s)
    && RingsClosed(s) && Patient(s)
  }

  // ---- Ingress steps ----

  lemma GenerateKeepsBooks(s: State, s': State, t: Tid, ev: Event)
    requires IngressBooked(s) && t in s.ingress && s.ingress[t].Looping? && ev.id == IdOf(t, s.ingress[t].n)
    requires s' == s.(counters := CountGenerated(s.counters, ev, s.measureStart),
                      ingress := s.ingress[t := Pushing(s.ingress[t].n + 1, ev, false)],
                      history := s.history.(books := Make(s.history.books, t, ev)))
    ensures IngressBooked(s')
  {
    GenerateBooked(s.ingress, s.counters, s.policy, s.measureStart, s.history.books, t, ev);
  }

  lemma IngressKeepsBooks(s: State, a: Action)
    requires IngressBooked(s) && ByIngress(a) && Enabled(s, a)
    ensures IngressBooked(DoIngress(s, a))
  {
    var ingress, c, start, books := s.ingress, s.counters, s.measureStart, s.history.books;
    match a
    case Stop(t) => StopBooked(ingress, c, s.policy, start, books, t);
    case Generate(t, createdAt) =>
      GenerateKeepsBooks(s, DoIngress(s, a), t, Generated(t, ingress[t].n, |s.rings|, createdAt));
    case Push(t, ok) => PushBooked(ingress, c, s.policy, start, books, t, ok);
    case Count(t) => CountBooked(ingress, c, s.policy, start, books, t);
  }

  lemma IngressKeepsNumbered(s: State, a: Action)
    requires Numbered(s.ingress, s.history.books.pushed) && FewIngress(s.ingress) && ByIngress(a) && Enabled(s, a)
    ensures Numbered(DoIngress(s, a).ingress, DoIngress(s, a).history.books.pushed)
  {
    var pc := DoIngress(s, a).ingress[a.t];
    if a.Push? && a.ok {
      PushNumbered(s.ingress, s.history.books.pushed, a.t, pc);
    }
  }

  lemma IngressKeepsAddressed(s: State, a: Action)
    requires Sized(s) && AllAddressed(s.ingress, s.history.books.pushed, |s.rings|) && ByIngress(a) && Enabled(s, a)
    ensures var s' := DoIngress(s, a); Sized(s') && AllAddressed(s'.ingress, s'.history.books.pushed, |s'.rings|)
  {
  }

  lemma IngressKeepsPatient(s: State, a: Action)
    requires Patient(s) && Phased(s) && ByIngress(a) && Enabled(s, a)
    ensures Patient(DoIngress(s, a))
  {
  }

  lemma IngressKeepsFew(s: State, a: Action)
    requires ByIngress(a) && Enabled(s, a)
    ensures FewIngress(DoIngress(s, a).ingress) ==> FewIngress(s.ingress)
  {
    var s' := DoIngress(s, a);
    assert s'.ingress.Keys == s.ingress.Keys;
    forall t | t in s.ingress && FewIngress(s'.ingress) ensures t < INGRESS_LIMIT {
      assert t in s'.ingress;
    }
  }

  /** Whatever else a step changes, the rings depend on these parts only. */
  lemma RingsFrame(s: State, s': State)
    requires Sized(s) && RingsOk(s)
    requires s'.rings == s.rings && s'.workers == s.workers && s'.history.done == s.history.done
    requires s'.history.fates == s.history.fates && s'.policy == s.policy
    requires s'.dispatcher.InRing? || s.dispatcher.InRing? ==> s'.dispatcher == s.dispatcher
    requires Ending(s.dispatcher) ==> Ending(s'.dispatcher)
    ensures RingsOk(s')
  {
    forall w | 0 <= w < |s'.rings| ensures RingAt(s', w) {
      assert RingAt(s, w);
    }
  }

  lemma IngressKeepsPlaces(s: State, a: Action)
    requires Placed(s) && ByIngress(a) && Enabled(s, a)
    ensures Placed(DoIngress(s, a))
  {
    var s' := DoIngress(s, a);
    var taken := EventsOf(s.history.fates) + Hand(s.dispatcher, s.rings);
    assert s'.history.fates == s.history.fates && s'.dispatcher == s.dispatcher && s'.rings == s.rings;
    if a.Push? && a.ok {
      var ev := s.ingress[a.t].ev;
      assert taken + (s.dispatch.events + [ev]) == (taken + s.dispatch.events) + [ev];
    } else {
      assert s'.dispatch == s.dispatch && s'.history.books.pushed == s.history.books.pushed;
    }
  }

  lemma IngressKeepsInv(s: State, a: Action)
    requires Inv(s) && ByIngress(a) && Enabled(s, a)
    ensures Inv(DoIngress(s, a))
  {
    IngressKeepsBooks(s, a);
    IngressKeepsPatient(s, a);
    IngressKeepsAddressed(s, a);
    IngressKeepsFew(s, a);
    if FewIngress(s.ingress) { IngressKeepsNumbered(s, a); }
    IngressKeepsPlaces(s, a);
    RingsFrame(s, DoIngress(s, a));
  }

  // ---- One ring ----

  lemma StartPushOk(r: Ring.State, ev: Event, policy: Policy, worker: Worker, done: seq<Event>, delivered: seq<Event>)
    requires RingOk(r, None, false, policy, worker, done, delivered)
    ensures RingOk(Ring.Do(r, Ring.StartPush(ev, policy)), Some(ev), false, policy, worker, done, delivered)
  {
  }

  /** A push to an open ring fails only under `Drop`. */
  lemma ProduceOk(r: Ring.State, ev: Event, policy: Policy, worker: Worker, done: seq<Event>, delivered: seq<Event>)
    requires RingOk(r, Some(ev), false, policy, worker, done, delivered) && Ring.Enabled(r, Ring.ProducerStep)
    ensures var r' := Ring.Produce(r);
            RingOk(r', if r'.producer.PIdle? then None else Some(ev), false, policy, worker, done,
              if r.producer.PStore? then delivered + [ev] else delivered)
    ensures Ring.Produce(r).producer.PIdle? && !r.producer.PReport? ==> policy.Drop?
  {
    Ring.StepKeepsInv(r, Ring.ProducerStep);
  }

  lemma StartPopOk(r: Ring.State, ev: Option<Event>, ending: bool, policy: Policy, done: seq<Event>,
                   delivered: seq<Event>)
    requires RingOk(r, ev, ending, policy, WorkerLooping, done, delivered)
    ensures RingOk(Ring.Do(r, Ring.StartPop), ev, ending, policy, Popping, done, delivered)
  {
  }

  lemma ConsumeOk(r: Ring.State, ev: Option<Event>, ending: bool, policy: Policy, done: seq<Event>,
                  delivered: seq<Event>)
    requires RingOk(r, ev, ending, policy, Popping, done, delivered) && Ring.Enabled(r, Ring.ConsumerStep)
    ensures RingOk(Ring.Consume(r), ev, ending, policy, AfterAccess(r), done, delivered)
  {
    Ring.StepKeepsInv(r, Ring.ConsumerStep);
  }

  // ---- Worker steps ----

  lemma WorkerKeepsRings(s: State, a: Action)
    requires Sized(s) && RingsOk(s) && (a.StartPop? || a.PopAccess? || a.Complete?) && Enabled(s, a)
    ensures RingsOk(DoWorker(s, a))
  {
    var s' := DoWorker(s, a);
    forall w | 0 <= w < |s'.rings| ensures RingAt(s', w) {
      assert RingAt(s, w);
      if w == a.w {
        var delivered := DeliveredTo(s.history.fates, w, |s.rings|);
        match a
        case StartPop(_) =>
          StartPopOk(s.rings[w], HandFor(s.dispatcher, w), Ending(s.dispatcher), s.policy, s.history.done[w],
            delivered);
        case PopAccess(_) =>
          ConsumeOk(s.rings[w], HandFor(s.dispatcher, w), Ending(s.dispatcher), s.policy, s.history.done[w], delivered);
        case Complete(_) =>
      }
    }
  }

  lemma WorkerKeepsHand(s: State, a: Action)
    requires Sized(s) && (a.StartPop? || a.PopAccess? || a.Complete?) && Enabled(s, a)
    ensures Hand(s.dispatcher, DoWorker(s, a).rings) == Hand(s.dispatcher, s.rings)
  {
  }

  lemma WorkerKeepsInv(s: State, a: Action)
    requires Inv(s) && (a.StartPop? || a.PopAccess? || a.Complete?) && Enabled(s, a)
    ensures Inv(DoWorker(s, a))
  {
    var s' := DoWorker(s, a);
    WorkerKeepsRings(s, a);
    WorkerKeepsHand(s, a);
    assert CompletedCounted(s') by {
      if a.Complete? { TotalUpdate(s.history.done, a.w, s.workers[a.w].ev, s.measureStart); }
    }
    WorkerKeepsPhases(s, a);
  }

  lemma WorkerKeepsPhases(s: State, a: Action)
    requires Sized(s) && Phased(s) && RingsClosed(s) && (a.StartPop? || a.PopAccess? || a.Complete?) && Enabled(s, a)
    ensures Phased(DoWorker(s, a)) && RingsClosed(DoWorker(s, a))
  {
  }

  // ---- Dispatcher steps ----

  lemma StartRoutingKeepsRings(s: State)
    requires Sized(s) && RingsOk(s) && Enabled(s, StartRouting)
    ensures RingsOk(DoDispatcher(s, StartRouting))
  {
    var s' := DoDispatcher(s, StartRouting);
    var ev, target := s.dispatcher.ev, s'.dispatcher.target;
    forall w | 0 <= w < |s'.rings| ensures RingAt(s', w) {
      assert RingAt(s, w);
      if w == target {
        StartPushOk(s.rings[w], ev, s.policy, s.workers[w], s.history.done[w],
          DeliveredTo(s.history.fates, w, |s.rings|));
      }
    }
  }

  lemma RouteKeepsRings(s: State)
    requires Sized(s) && RingsOk(s) && Enabled(s, RouteAccess)
    ensures RingsOk(DoRoute(s))
  {
    var s', n := DoRoute(s), |s.rings|;
    var target, ev := s.dispatcher.target, s.dispatcher.ev;
    forall w | 0 <= w < n ensures RingAt(s', w) {
      assert RingAt(s, w);
      DecidedFates(s.history.fates, s.rings[target], ev, w, n);
      if w == target {
        ProduceOk(s.rings[w], ev, s.policy, s.workers[w], s.history.done[w], DeliveredTo(s.history.fates, w, n));
      }
    }
  }

  lemma HandAfterRoute(rings: seq<Ring.State>, w: nat, ev: Event)
    requires w < |rings| && Ring.Enabled(rings[w], Ring.ProducerStep)
    ensures var r := rings[w];
            Hand(AfterRoute(r, w, ev), rings[w := Ring.Produce(r)])
            == if r.producer.PStore? || GivesUp(r) || r.producer.PReport? then [] else [ev]
  {
  }

  /** A routing access moves the event from the hand to its fate, or leaves both alone. */
  lemma {:induction false} RouteMovesHand(fates: seq<Fate>, rings: seq<Ring.State>, w: nat, ev: Event)
    requires w < |rings| && Ring.Enabled(rings[w], Ring.ProducerStep)
    ensures EventsOf(fates + Decided(rings[w], ev))
            + Hand(AfterRoute(rings[w], w, ev), rings[w := Ring.Produce(rings[w])])
            == EventsOf(fates) + Hand(InRing(w, ev), rings)
  {
    DecidedFates(fates, rings[w], ev, 0, |rings|);
    HandAfterRoute(rings, w, ev);
  }

  lemma RouteKeepsPlaces(s: State)
    requires Sized(s) && Placed(s) && Enabled(s, RouteAccess)
    ensures Placed(DoRoute(s))
  {
    RouteMovesHand(s.history.fates, s.rings, s.dispatcher.target, s.dispatcher.ev);
  }

  lemma RouteKeepsDrops(s: State)
    requires Sized(s) && DropsCounted(s) && RingsOk(s) && Enabled(s, RouteAccess)
    ensures DropsCounted(DoRoute(s))
  {
    var w, ev, n := s.dispatcher.target, s.dispatcher.ev, |s.rings|;
    assert RingAt(s, w);
    ProduceOk(s.rings[w], ev, s.policy, s.workers[w], s.history.done[w], DeliveredTo(s.history.fates, w, n));
    DecidedFates(s.history.fates, s.rings[w], ev, 0, n);
  }

  lemma CloseRingKeepsRings(s: State)
    requires Sized(s) && RingsOk(s) && Enabled(s, CloseRing)
    ensures RingsOk(DoDispatcher(s, CloseRing))
  {
    var s' := DoDispatcher(s, CloseRing);
    forall w | 0 <= w < |s'.rings| ensures RingAt(s', w) {
      assert RingAt(s, w);
    }
  }

  lemma TakeKeepsPlaces(s: State, a: Action)
    requires Placed(s) && ByDispatcher(a) && !a.RouteAccess? && Enabled(s, a)
    ensures Placed(DoDispatcher(s, a))
  {
    if a.Take? && a.ok {
      assert s.dispatch.events == [s.dispatch.events[0]] + s.dispatch.events[1..];
    }
  }

  lemma TakeKeepsDrops(s: State, a: Action)
    requires DropsCounted(s) && ByDispatcher(a) && !a.RouteAccess? && Enabled(s, a)
    ensures DropsCounted(DoDispatcher(s, a))
  {
  }

  lemma RouteKeepsInv(s: State)
    requires Inv(s) && Enabled(s, RouteAccess)
    ensures Inv(DoRoute(s))
  {
    var s' := DoRoute(s);
    assert Sized(s') && RingsOk(s') by { RouteKeepsRings(s); }
    assert Placed(s') by { RouteKeepsPlaces(s); }
    assert DropsCounted(s') by { RouteKeepsDrops(s); }
    assert Phased(s') && RingsClosed(s') by { RouteKeepsPhases(s); }
    RouteKeepsIngress(s);
  }

  lemma RouteKeepsPhases(s: State)
    requires Sized(s) && Phased(s) && Enabled(s, RouteAccess)
    ensures Phased(DoRoute(s)) && RingsClosed(DoRoute(s))
  {
  }

  lemma RouteKeepsIngress(s: State)
    requires Enabled(s, RouteAccess)
    ensures var s' := DoRoute(s);
            && s' == s.(rings := s'.rings, dispatcher := s'.dispatcher, history := s'.history)
            && s'.history == s.history.(fates := s'.history.fates) && |s'.rings| == |s.rings|
  {
  }

  lemma TakeKeepsRings(s: State, a: Action)
    requires Sized(s) && RingsOk(s) && ByDispatcher(a) && !a.RouteAccess? && Enabled(s, a)
    ensures Sized(DoDispatcher(s, a)) && RingsOk(DoDispatcher(s, a))
  {
    if a.StartRouting? {
      StartRoutingKeepsRings(s);
    } else if a.CloseRing? {
      CloseRingKeepsRings(s);
    } else {
      RingsFrame(s, DoDispatcher(s, a));
    }
  }

  lemma TakeKeepsCounts(s: State, a: Action)
    requires IngressBooked(s) && CompletedCounted(s) && Phased(s) && ByDispatcher(a) && !a.RouteAccess?
    requires Enabled(s, a)
    ensures var s' := DoDispatcher(s, a); IngressBooked(s') && CompletedCounted(s') && Phased(s')
  {
  }

  lemma TakeKeepsIngress(s: State, a: Action)
    requires ByDispatcher(a) && !a.RouteAccess? && Enabled(s, a)
    ensures var s' := DoDispatcher(s, a); s'.ingress == s.ingress && s'.history == s.history
  {
  }

  lemma DispatcherKeepsInv(s: State, a: Action)
    requires Inv(s) && ByDispatcher(a) && Enabled(s, a) && !a.RouteAccess?
    ensures Inv(DoDispatcher(s, a))
  {
    var s' := DoDispatcher(s, a);
    assert Sized(s') && RingsOk(s') by { TakeKeepsRings(s, a); }
    assert Placed(s') by { TakeKeepsPlaces(s, a); }
    assert DropsCounted(s') by { TakeKeepsDrops(s, a); }
    assert IngressBooked(s') && CompletedCounted(s') && Phased(s') by { TakeKeepsCounts(s, a); }
    assert s'.ingress == s.ingress && s'.history == s.history by { TakeKeepsIngress(s, a); }
  }

  // ---- Runs ----

  /** Main raises flags and moves on; nothing else depends on it. */
  lemma MainKeepsRest(s: State)
    requires Enabled(s, MainStep)
    ensures var s' := DoMain(s);
            && s' == s.(main := s'.main, ingressStop := s'.ingressStop, dispatch := s'.dispatch)
            && s'.dispatch.events == s.dispatch.events
    ensures Phased(s) ==> Phased(DoMain(s))
  {
  }

  lemma MainKeepsInv(s: State)
    requires Inv(s) && Enabled(s, MainStep)
    ensures Inv(DoMain(s))
  {
    MainKeepsRest(s);
    RingsFrame(s, DoMain(s));
  }

  lemma InitInv(s: State)
    requires Init(s)
    ensures Inv(s)
  {
    forall w | 0 <= w < |s.rings| ensures RingAt(s, w) && s.history.done[w] == [] {
      assert RingStarts(s, w);
    }
    NothingIn(s.history.done, s.measureStart);
    NothingBooked(s.ingress, s.policy, s.measureStart);
  }

  lemma {:induction false} RunKeepsInv(s: State, run: seq<State>)
    requires Reachable(s, run)
    ensures Inv(s)
    decreases |run|
  {
    if |run| == 1 {
      InitInv(s);
    } else {
      var before := run[|run| - 2];
      assert Next(before, s);
      RunKeepsInv(before, run[..|run| - 1]);
      var a :| Enabled(before, a) && s == Do(before, a);
      if ByIngress(a) {
        IngressKeepsInv(before, a);
      } else if a.RouteAccess? {
        RouteKeepsInv(before);
      } else if ByDispatcher(a) {
        DispatcherKeepsInv(before, a);
      } else if a.MainStep? {
        MainKeepsInv(before);
      } else {
        WorkerKeepsInv(before, a);
      }
    }
  }

  // ---- What holds in every run ----

  lemma AddressIsTarget(ev: Event, workers: nat)
    requires workers > 0 && Addressed(ev, workers)
    ensures Target(ev, workers) == ev.id % workers
  {
    var w := ev.targetWorker;
    assert 0 <= w < workers;
    assert w % workers == w;
  }

  /** What is delivered to a worker has an id that selects it. */
  lemma {:induction false} DeliveredAsAddressed(fates: seq<Fate>, w: nat, workers: nat, ev: Event)
    requires workers > 0 && ev in DeliveredTo(fates, w, workers) && Addressed(ev, workers)
    ensures ev.id % workers == w
  {
    DeliveredAreTaken(fates, w, workers, ev);
    AddressIsTarget(ev, workers);
  }

  lemma EventsAreAddressed(s: State)
    requires Sized(s) && Placed(s) && AllAddressed(s.ingress, s.history.books.pushed, |s.rings|)
    ensures forall ev :: ev in s.history.books.pushed ==> Target(ev, |s.rings|) == ev.id % |s.rings|
    ensures forall w, ev :: 0 <= w < |s.rings| && ev in DeliveredTo(s.history.fates, w, |s.rings|) ==>
              ev.id % |s.rings| == w
  {
    var n, fates, pushed := |s.rings|, s.history.fates, s.history.books.pushed;
    forall ev | ev in pushed ensures Target(ev, n) == ev.id % n {
      AddressIsTarget(ev, n);
    }
    assert EventsOf(fates) <= pushed;
    forall w, ev | 0 <= w < n && ev in DeliveredTo(fates, w, n) ensures ev.id % n == w {
      DeliveredAreTaken(fates, w, n, ev);
      assert ev in pushed;
      DeliveredAsAddressed(fates, w, n, ev);
    }
  }

  /** Each event pushed is in exactly one place: `pushed` is, in order, the events that have met their fate, the one in
      the dispatcher's hand, and the dispatch queue; those delivered to a worker are, in order, the ones it has
      completed, the one it is working on, and its ring; that worker is the one that the id selects; and no event
      occurs twice if ids can tell the ingress threads apart. */
  lemma EveryEventInOnePlace(s: State, run: seq<State>)
    requires Reachable(s, run)
    ensures Sized(s)
    ensures s.history.books.pushed == EventsOf(s.history.fates) + Hand(s.dispatcher, s.rings) + s.dispatch.events
    ensures forall w :: 0 <= w < |s.rings| ==>
              DeliveredTo(s.history.fates, w, |s.rings|)
              == s.history.done[w] + WorkerHand(s.workers[w]) + Waiting(s.rings[w])
    ensures forall ev :: ev in s.history.books.pushed ==> Target(ev, |s.rings|) == ev.id % |s.rings|
    ensures forall w, ev :: 0 <= w < |s.rings| && ev in DeliveredTo(s.history.fates, w, |s.rings|) ==>
              ev.id % |s.rings| == w
    ensures FewIngress(s.ingress) ==>
              var pushed := s.history.books.pushed;
              forall a, b :: 0 <= a < b < |pushed| ==> pushed[a] != pushed[b]
  {
    RunKeepsInv(s, run);
    forall w | 0 <= w < |s.rings|
      ensures DeliveredTo(s.history.fates, w, |s.rings|)
              == s.history.done[w] + WorkerHand(s.workers[w]) + Waiting(s.rings[w])
    {
      assert RingAt(s, w);
    }
    EventsAreAddressed(s);
    forall a, b | FewIngress(s.ingress) && 0 <= a < b < |s.history.books.pushed|
      ensures s.history.books.pushed[a] != s.history.books.pushed[b]
    {
      if s.history.books.pushed[a] == s.history.books.pushed[b] { InSequenceDistinct(s.history.books.pushed, a, b); }
    }
  }

  /** Under `Block` the dispatcher loses nothing: what it took it has delivered, but for the one in its hand. */
  lemma BlockLosesNothing(s: State, run: seq<State>)
    requires Reachable(s, run) && s.policy.Block?
    ensures LostIn(s.history.fates) == [] && s.droppedDispatch == s.counters.dropped == 0
    ensures forall k :: 0 <= k < |s.history.fates| ==> s.history.fates[k].Delivered?
  {
    RunKeepsInv(s, run);
    NoneLost(s.history.fates);
  }

  lemma {:induction false} NoneLost(fates: seq<Fate>)
    requires LostIn(fates) == []
    ensures forall k :: 0 <= k < |fates| ==> fates[k].Delivered?
  {
    if fates != [] {
      NoneLost(fates[..|fates| - 1]);
    }
  }

  // ---- Sums over all workers ----

  /** The measured events delivered to workers 0 up to `n`. */
  function DeliveredTotal(fates: seq<Fate>, n: nat, workers: nat, start: int): nat
    requires workers > 0
  {
    if n == 0 then 0
    else DeliveredTotal(fates, n - 1, workers, start) + MeasuredIn(DeliveredTo(fates, n - 1, workers), start)
  }

  lemma {:induction false} LineAppend(fates: seq<Fate>, f: Fate, w: nat, workers: nat, start: int)
    requires workers > 0
    ensures MeasuredIn(DeliveredTo(fates + [f], w, workers), start)
            == MeasuredIn(DeliveredTo(fates, w, workers), start)
               + if f.Delivered? && Target(f.ev, workers) == w && Measured(f.ev, start) then 1 else 0
  {
  }

  lemma {:induction false} DeliveredTotalAppend(fates: seq<Fate>, f: Fate, n: nat, workers: nat, start: int)
    requires workers > 0
    ensures DeliveredTotal(fates + [f], n, workers, start)
            == DeliveredTotal(fates, n, workers, start)
               + if f.Delivered? && Target(f.ev, workers) < n && Measured(f.ev, start) then 1 else 0
    decreases n
  {
    if n > 0 {
      DeliveredTotalAppend(fates, f, n - 1, workers, start);
      LineAppend(fates, f, n - 1, workers, start);
    }
  }

  /** Every event that met its fate was delivered to exactly one worker or lost. */
  lemma {:induction false} FatesAddUp(fates: seq<Fate>, workers: nat, start: int)
    requires workers > 0
    ensures MeasuredIn(EventsOf(fates), start)
            == DeliveredTotal(fates, workers, workers, start) + MeasuredIn(LostIn(fates), start)
  {
    if fates == [] {
      NothingDelivered(workers, workers, start);
    } else {
      var before, f := fates[..|fates| - 1], fates[|fates| - 1];
      assert fates == before + [f];
      FatesAddUp(before, workers, start);
      DeliveredTotalAppend(before, f, workers, workers, start);
    }
  }

  lemma {:induction false} NothingDelivered(n: nat, workers: nat, start: int)
    requires workers > 0
    ensures DeliveredTotal([], n, workers, start) == 0
    decreases n
  {
    if n > 0 {
      NothingDelivered(n - 1, workers, start);
    }
  }

  /** Everything delivered to worker `w` is done or still in its ring. */
  ghost predicate LineSplits(fates: seq<Fate>, done: seq<seq<Event>>, rings: seq<Ring.State>, w: nat)
    requires |done| == |rings| && w < |rings|
  {
    DeliveredTo(fates, w, |rings|) == done[w] + Waiting(rings[w])
  }

  lemma {:induction false} DeliveredSplit(fates: seq<Fate>, done: seq<seq<Event>>, rings: seq<Ring.State>, n: nat,
                                          start: int)
    requires |done| == |rings| > 0 && n <= |rings|
    requires forall w :: 0 <= w < n ==> LineSplits(fates, done, rings, w)
    ensures DeliveredTotal(fates, n, |rings|, start) == Total(done[..n], start) + Leftover(rings, n, start)
    decreases n
  {
    if n > 0 {
      var w := n - 1;
      DeliveredSplit(fates, done, rings, w, start);
      assert LineSplits(fates, done, rings, w);
      MeasuredInConcat(done[w], Waiting(rings[w]), start);
      assert done[..n][..w] == done[..w];
    }
  }

  lemma LinesSplit(s: State)
    requires Sized(s) && RingsOk(s) && WorkersJoined(s)
    ensures forall w :: 0 <= w < |s.rings| ==> LineSplits(s.history.fates, s.history.done, s.rings, w)
  {
    forall w | 0 <= w < |s.rings| ensures LineSplits(s.history.fates, s.history.done, s.rings, w) {
      assert RingAt(s, w);
    }
  }

  /** When the dispatcher's hand and all workers' hands are empty, the events pushed add up. */
  lemma PushedAddUp(s: State)
    requires Sized(s) && Placed(s) && RingsOk(s) && s.dispatcher.DispatcherDone? && WorkersJoined(s)
    ensures MeasuredIn(s.history.books.pushed, s.measureStart)
            == Total(s.history.done, s.measureStart) + Leftover(s.rings, |s.rings|, s.measureStart)
               + MeasuredIn(LostIn(s.history.fates), s.measureStart) + MeasuredIn(s.dispatch.events, s.measureStart)
  {
    var fates, done, n, start := s.history.fates, s.history.done, |s.rings|, s.measureStart;
    assert s.history.books.pushed == EventsOf(fates) + s.dispatch.events;
    MeasuredInConcat(EventsOf(fates), s.dispatch.events, start);
    FatesAddUp(fates, n, start);
    LinesSplit(s);
    DeliveredSplit(fates, done, s.rings, n, start);
    assert done[..n] == done;
  }

  /** When main is done, the counters account for every event accepted: completed, dropped at dispatch, or left over in
      the dispatch queue or in a ring; and for every other event made: it has been refused. What a worker has left in
      its ring, which is closed, was published after the tail load of the pop that ended it; all before is done. */
  lemma AcceptedAreAccountedFor(s: State, run: seq<State>)
    requires Reachable(s, run) && s.main.Done?
    ensures s.counters.accepted
            == s.completed + s.droppedDispatch
               + MeasuredIn(s.dispatch.events, s.measureStart) + Leftover(s.rings, |s.rings|, s.measureStart)
    ensures s.counters.generated == MeasuredIn(EventsMade(s.history.books.made), s.measureStart)
    ensures s.counters.generated == s.counters.accepted + MeasuredIn(s.history.books.refused, s.measureStart)
    ensures s.counters.dropped == if s.policy.Drop? then MeasuredIn(s.history.books.refused, s.measureStart) else 0
    ensures |s.workers| == |s.rings| == |s.history.done|
    ensures forall w :: 0 <= w < |s.rings| ==> s.workers[w].WorkerDone? && LeftLater(s.rings[w], s.workers[w].published,
                                                                               s.history.done[w])
  {
    RunKeepsInv(s, run);
    JoinedCounters(s.ingress, s.counters, s.policy, s.measureStart, s.history.books);
    PushedAddUp(s);
    forall w | 0 <= w < |s.rings| ensures LeftLater(s.rings[w], s.workers[w].published, s.history.done[w]) {
      assert RingAt(s, w);
      LeftIsLater(s.rings[w], s.workers[w], s.history.done[w]);
    }
  }

  // ---- Order ----

  lemma {:induction false} DeliveredAreTaken(fates: seq<Fate>, w: nat, workers: nat, x: Event)
    requires workers > 0 && x in DeliveredTo(fates, w, workers)
    ensures x in EventsOf(fates) && Target(x, workers) == w
  {
    var last := fates[|fates| - 1];
    if x in DeliveredTo(fates[..|fates| - 1], w, workers) {
      DeliveredAreTaken(fates[..|fates| - 1], w, workers, x);
    }
  }

  lemma {:induction false} DeliveredInSequence(fates: seq<Fate>, w: nat, workers: nat)
    requires workers > 0 && InSequence(EventsOf(fates))
    ensures InSequence(DeliveredTo(fates, w, workers))
  {
    if fates != [] {
      var before, last := fates[..|fates| - 1], fates[|fates| - 1];
      var taken, line := EventsOf(before), DeliveredTo(before, w, workers);
      assert EventsOf(fates)[..|taken|] == taken;
      DeliveredInSequence(before, w, workers);
      forall x | x in line ensures x in taken {
        DeliveredAreTaken(before, w, workers, x);
      }
    }
  }

  /** What a worker pops of one ingress thread comes in the order in which that thread made it, unless there are so many
      threads that two of them share their ids. */
  lemma WorkersSeeEachIngressInOrder(s: State, run: seq<State>, w: nat, a: nat, b: nat)
    requires Reachable(s, run) && FewIngress(s.ingress) && w < |s.rings| && a < b < |s.rings[w].popped|
    requires IngressOf(s.rings[w].popped[a]) == IngressOf(s.rings[w].popped[b])
    ensures s.rings[w].popped[a].id < s.rings[w].popped[b].id
  {
    RunKeepsInv(s, run);
    assert RingAt(s, w);
    var delivered := DeliveredTo(s.history.fates, w, |s.rings|);
    assert s.history.books.pushed[..|EventsOf(s.history.fates)|] == EventsOf(s.history.fates);
    InSequencePrefix(s.history.books.pushed, |EventsOf(s.history.fates)|);
    DeliveredInSequence(s.history.fates, w, |s.rings|);
    InSequenceMeans(delivered, a, b);
  }

  // ---- Discipline ----

  /** Only the dispatcher acts as the producer of a ring, and only its worker as the consumer. */
  lemma OneProducerOneConsumer(s: State, a: Action, w: nat)
    requires Enabled(s, a) && w < |s.rings|
    ensures |Do(s, a).rings| == |s.rings|
    ensures Do(s, a).rings[w].producer != s.rings[w].producer ==> a.StartRouting? || a.RouteAccess?
    ensures Do(s, a).rings[w].consumer != s.rings[w].consumer ==> a == StartPop(w) || a == PopAccess(w)
  {
    if a.RouteAccess? {
      assert Ring.Produce(s.rings[s.dispatcher.target]).consumer == s.rings[s.dispatcher.target].consumer;
    } else if a.PopAccess? {
      assert Ring.Consume(s.rings[a.w]).producer == s.rings[a.w].producer;
    }
  }

  // ---- Progress ----

  /** Each ingress thread has made exactly its events number 0, 1, 2 and so on, in this order; nothing else was pushed
      or refused; and under `Block` nothing was refused before the threads were told to stop. */
  lemma IngressMakesAll(s: State, run: seq<State>, t: Tid)
    requires Reachable(s, run) && t in s.ingress
    ensures MadeAt(s.ingress[t], Own(s.history.books.made, t), t)
    ensures forall ev :: ev in s.history.books.pushed || ev in s.history.books.refused ==>
              ev in EventsMade(s.history.books.made)
    ensures s.policy.Block? && !s.ingressStop ==> s.history.books.refused == []
  {
    RunKeepsInv(s, run);
  }

  /** A thread that has counted its event goes on to the next; only the end of the measurement, or a stop, ends it. */
  lemma IngressGoesOn(s: State, a: Action, t: Tid)
    requires Enabled(s, a) && t in s.ingress
    ensures t in Do(s, a).ingress
    ensures a.Push? && a.t == t ==>
              Do(s, a).ingress[t] == IngressThreads.Counting(s.ingress[t].n, s.ingress[t].ev, a.ok)
    ensures a == Action.Count(t) ==> Do(s, a).ingress[t] == Looping(s.ingress[t].n)
    ensures Do(s, a).ingress[t].IngressDone? && !s.ingress[t].IngressDone? ==> a == Stop(t)
  {
  }

  /** What the dispatcher does next: it takes the oldest event, pushes it to its ring until the push returns, and comes
      back, after a push that failed by way of the drop counter. A push fails exactly under `Drop` on a full ring. It
      ends only once the dispatch queue is closed, and by then has closed all rings. */
  lemma DispatcherGoesOn(s: State, run: seq<State>, a: Action)
    requires Reachable(s, run) && Enabled(s, a)
    ensures |Do(s, a).rings| == |s.rings|
    ensures var d, d' := s.dispatcher, Do(s, a).dispatcher;
            match a
            case Take(ok) => d' == if ok then Routing(s.dispatch.events[0]) else ClosingRings(0)
            case StartRouting => d' == InRing(Target(d.ev, |s.rings|), d.ev)
            case RouteAccess =>
              var p := s.rings[d.target].producer;
              d' == if p.PFull? && s.policy.Drop? then CountingDrop(d.ev) else if p.PReport? then Taking else d
            case CountDrop => d' == Taking
            case CloseRing => d' == if d.next < |s.rings| then ClosingRings(d.next + 1) else DispatcherDone
            case _ => d' == d
    ensures Ending(s.dispatcher) ==> s.dispatch.closed && Joined(s.ingress)
    ensures s.dispatcher.DispatcherDone? ==> forall w :: 0 <= w < |s.rings| ==> s.rings[w].closed
  {
    RunKeepsInv(s, run);
    if a.RouteAccess? {
      assert RingAt(s, s.dispatcher.target);
      RouteGoesOn(s.rings[s.dispatcher.target], s.dispatcher.target, s.dispatcher.ev, s.policy);
    }
  }

  lemma RouteGoesOn(r: Ring.State, w: nat, ev: Event, policy: Policy)
    requires Ring.Enabled(r, Ring.ProducerStep) && !r.closed && !r.pushStop
    requires r.producer.PReport? || r.producer.policy == policy
    ensures AfterRoute(r, w, ev)
            == if r.producer.PFull? && policy.Drop? then CountingDrop(ev)
               else if r.producer.PReport? then Taking else InRing(w, ev)
  {
  }

  ghost predicate IngressFree(s: State) {
    forall t :: t in s.ingress ==>
      match s.ingress[t]
      case Looping(n) => Enabled(s, Stop(t)) && (n < SEQUENCE_LIMIT ==> forall c :: Enabled(s, Generate(t, c)))
      case Pushing(_, _, _) => Enabled(s, Push(t, true)) && (s.policy.Drop? ==> Enabled(s, Push(t, false)))
      case Counting(_, _, _) => Enabled(s, Action.Count(t))
      case IngressDone(_) => true
  }

  ghost predicate DispatcherFree(s: State) {
    match s.dispatcher
    case Taking =>
      (Enabled(s, Take(true)) <==> s.dispatch.events != []) && (Enabled(s, Take(false)) <==> s.dispatch.closed)
    case Routing(_) => Enabled(s, StartRouting)
    case InRing(_, _) => Enabled(s, RouteAccess)
    case CountingDrop(_) => Enabled(s, CountDrop)
    case ClosingRings(_) => Enabled(s, CloseRing)
    case DispatcherDone => true
  }

  ghost predicate WorkerFree(s: State, w: nat)
    requires w < |s.workers|
  {
    match s.workers[w]
    case WorkerLooping => Enabled(s, StartPop(w))
    case Popping => Enabled(s, PopAccess(w))
    case Working(_) => Enabled(s, Complete(w))
    case WorkerDone(_) => true
  }

  lemma DispatcherIsFree(s: State)
    requires Sized(s) && RingsOk(s)
    ensures DispatcherFree(s)
  {
    match s.dispatcher
    case Routing(ev) => assert RingAt(s, Target(ev, |s.rings|));
    case InRing(target, _) => assert RingAt(s, target);
    case _ =>
  }

  lemma WorkerIsFree(s: State, w: nat)
    requires Sized(s) && RingsOk(s) && w < |s.workers|
    ensures WorkerFree(s, w)
  {
    assert RingAt(s, w);
  }

  /** Nobody ever has to wait for anybody, apart from the joins of main and from the dispatch queue: every thread that
      has not ended can take its next step. The dispatcher can take an event if there is one, and end if the queue is
      closed. */
  lemma NobodyIsStuck(s: State, run: seq<State>)
    requires Reachable(s, run)
    ensures IngressFree(s) && DispatcherFree(s) && forall w :: 0 <= w < |s.workers| ==> WorkerFree(s, w)
    ensures Enabled(s, MainStep) <==>
              match s.main
              case JoiningIngress => Joined(s.ingress)
              case JoiningDispatcher => s.dispatcher.DispatcherDone?
              case JoiningWorkers => WorkersJoined(s)
              case Done => false
              case _ => true
  {
    assert Sized(s) && RingsOk(s) by { RunKeepsInv(s, run); }
    DispatcherIsFree(s);
    forall w | 0 <= w < |s.workers| ensures WorkerFree(s, w) {
      WorkerIsFree(s, w);
    }
  }

  /** So until main is done, some thread can take a step. */
  lemma NoDeadlock(s: State, run: seq<State>)
    requires Reachable(s, run) && !s.main.Done?
    ensures exists a :: Enabled(s, a)
  {
    NobodyIsStuck(s, run);
    assert Phased(s) by { RunKeepsInv(s, run); }
    if s.main.JoiningIngress? && !Joined(s.ingress) {
      IngressSteps(s);
    } else if s.main.JoiningDispatcher? && !s.dispatcher.DispatcherDone? {
      DispatcherSteps(s);
    } else if s.main.JoiningWorkers? && !WorkersJoined(s) {
      WorkersStep(s);
    } else {
      assert Enabled(s, MainStep);
    }
  }

  lemma IngressSteps(s: State)
    requires IngressFree(s) && !Joined(s.ingress)
    ensures exists a :: Enabled(s, a)
  {
    var t :| t in s.ingress && !s.ingress[t].IngressDone?;
    var a := match s.ingress[t]
             case Looping(_) => Stop(t)
             case Pushing(_, _, _) => Push(t, true)
             case _ => Action.Count(t);
    assert Enabled(s, a);
  }

  lemma DispatcherSteps(s: State)
    requires DispatcherFree(s) && !s.dispatcher.DispatcherDone? && s.dispatch.closed
    ensures exists a :: Enabled(s, a)
  {
    var a := match s.dispatcher
             case Taking => Take(false)
             case Routing(_) => StartRouting
             case InRing(_, _) => RouteAccess
             case CountingDrop(_) => CountDrop
             case _ => CloseRing;
    assert Enabled(s, a);
  }

  lemma WorkersStep(s: State)
    requires !WorkersJoined(s) && forall w :: 0 <= w < |s.workers| ==> WorkerFree(s, w)
    ensures exists a :: Enabled(s, a)
  {
    var w: nat :| w < |s.workers| && !s.workers[w].WorkerDone?;
    assert WorkerFree(s, w);
    var a := match s.workers[w]
             case WorkerLooping => StartPop(w)
             case Popping => PopAccess(w)
             case _ => Complete(w);
    assert Enabled(s, a);
  }
}
