/** The shared-queue pipeline on the queue behind one mutex: any number of ingress and worker threads, and the main
    thread that stops and joins the former, closes the queue and joins the latter.

    A step is one access to the counters or one section of the queue. Clocks may read as anything, and the ingress stop
    flag, once raised, may still read as down; exceptions are left out, so the workers' own stop flag stays down. */
module SharedPipeline {
  import opened Events
  import opened IngressThreads
  import opened PipelineEvents
  import opened Threads
  import Q = GlobalLockQueue

  datatype Worker = Popping | Working(ev: Event) | WorkerDone

  datatype Main = Sleeping | JoiningIngress | Closing | JoiningWorkers | Done

  /** `books` and `popped` are histories. */
  datatype State = State(
    policy: Policy,
    measureStart: int,
    queue: Q.Queue,
    ingressStop: bool,
    main: Main,
    ingress: map<Tid, Ingress>,
    workers: map<Tid, Worker>,
    counters: Counters,
    completed: nat,
    books: Books,
    popped: seq<Event>)

  datatype Action =
    | Stop(t: Tid)
    | Generate(t: Tid, createdAt: int)
    | Push(t: Tid, stop: bool, later: bool)
    | Count(t: Tid)
    | Pop(w: Tid)
    | Complete(w: Tid)
    | MainStep

  ghost predicate Init(s: State) {
    && s.queue == Q.Queue(s.queue.capacity, s.queue.strategy, [], false, 0)
    && !s.ingressStop && s.main.Sleeping?
    && (forall t :: t in s.ingress ==> s.ingress[t] == Looping(0))
    && s.workers.Keys != {} && (forall w :: w in s.workers ==> s.workers[w].Popping?)
    && s.counters == Counters(0, 0, 0) && s.completed == 0
    && s.books == Books([], [], []) && s.popped == []
  }

  ghost predicate WorkersJoined(s: State) {
    forall w :: w in s.workers ==> s.workers[w].WorkerDone?
  }

  ghost predicate Enabled(s: State, a: Action) {
    match a
    case Stop(t) => t in s.ingress && s.ingress[t].Looping?
    case Generate(t, _) =>
      t in s.ingress && s.ingress[t].Looping? && s.ingress[t].n < SEQUENCE_LIMIT && s.workers.Keys != {}
    case Push(t, stop, later) =>
      t in s.ingress && s.ingress[t].Pushing? && (stop ==> later) && (later ==> s.ingressStop)
    case Count(t) => t in s.ingress && s.ingress[t].Counting?
    case Pop(w) => w in s.workers && s.workers[w].Popping?
    case Complete(w) => w in s.workers && s.workers[w].Working?
    case MainStep =>
      match s.main
      case JoiningIngress => Joined(s.ingress)
      case JoiningWorkers => WorkersJoined(s)
      case Done => false
      case _ => true
  }

  ghost function DoIngress(s: State, a: Action): State
    requires (a.Stop? || a.Generate? || a.Push? || a.Count?) && Enabled(s, a)
  {
    match a
    case Stop(t) => s.(ingress := s.ingress[t := IngressDone(s.ingress[t].n)])
    case Generate(t, createdAt) =>
      var n := s.ingress[t].n;
      var ev := Generated(t, n, |s.workers|, createdAt);
      s.(counters := CountGenerated(s.counters, ev, s.measureStart),
         ingress := s.ingress[t := Pushing(n + 1, ev, false)],
         books := Make(s.books, t, ev))
    case Push(t, stop, later) =>
      var Pushing(n, ev, retry) := s.ingress[t];
      var attempt := Q.PushAttempt(s.queue, s.policy, retry, stop, later);
      var next := if attempt.Waiting? then Pushing(n, ev, true) else Counting(n, ev, attempt.Succeeded?);
      s.(queue := Q.Pushed(s.queue, ev, attempt), ingress := s.ingress[t := next],
         books := if attempt.Waiting? then s.books else Settle(s.books, ev, attempt.Succeeded?))
    case Count(t) =>
      var Counting(n, ev, ok) := s.ingress[t];
      s.(counters := CountPush(s.counters, ev, ok, s.policy, s.measureStart), ingress := s.ingress[t := Looping(n)])
  }

  ghost function DoWorker(s: State, a: Action): State
    requires (a.Pop? || a.Complete?) && Enabled(s, a)
  {
    match a
    case Pop(w) =>
      var attempt := Q.PopAttempt(s.queue, false);
      if attempt.Succeeded? then
        var ev := s.queue.events[0];
        s.(queue := Q.Popped(s.queue), workers := s.workers[w := Working(ev)], popped := s.popped + [ev])
      else
        s.(workers := s.workers[w := if attempt.Failed? then WorkerDone else Popping])
    case Complete(w) =>
      s.(completed := Plus(s.completed, Measured(s.workers[w].ev, s.measureStart)), workers := s.workers[w := Popping])
  }

  ghost function DoMain(s: State): State
    requires Enabled(s, MainStep)
  {
    match s.main
    case Sleeping => s.(ingressStop := true, main := JoiningIngress)
    case JoiningIngress => s.(main := Closing)
    case Closing => s.(queue := s.queue.(closed := true), main := JoiningWorkers)
    case JoiningWorkers => s.(main := Done)
  }

  ghost function Do(s: State, a: Action): State
    requires Enabled(s, a)
  {
    if a.MainStep? then DoMain(s) else if a.Pop? || a.Complete? then DoWorker(s, a) else DoIngress(s, a)
  }

  ghost predicate Next(s: State, s': State) {
    exists a :: Enabled(s, a) && s' == Do(s, a)
  }

  ghost predicate Reachable(s: State, run: seq<State>) {
    && run != [] && Init(run[0]) && run[|run| - 1] == s
    && forall i :: 0 < i < |run| ==> Next(run[i - 1], run[i])
  }

  // ---- The invariant ----

  /** Popped and measured, but not yet counted as completed. */
  function ToComplete(start: int): Worker -> bool {
    (pc: Worker) => pc.Working? && Measured(pc.ev, start)
  }

  ghost predicate IngressBooked(s: State) {
    Booked(s.ingress, s.counters, s.policy, s.measureStart, s.books)
  }

  /** The counter agrees with the events popped, up to the workers that are still to count. */
  ghost predicate Completed(workers: map<Tid, Worker>, completed: nat, start: int, popped: seq<Event>) {
    completed + Threads.Count(workers, ToComplete(start)) == MeasuredIn(popped, start)
  }

  ghost predicate WorkersCounted(s: State) {
    Completed(s.workers, s.completed, s.measureStart, s.popped)
  }

  /** Main closes only after all ingress threads have ended, and a worker ends only when nothing is or will be left. */
  ghost predicate Phased(s: State) {
    && (s.queue.closed <==> s.main.JoiningWorkers? || s.main.Done?)
    && (s.main.Sleeping? <==> !s.ingressStop)
    && (s.main.Closing? || s.main.JoiningWorkers? || s.main.Done? ==> Joined(s.ingress))
    && (forall w :: w in s.workers && s.workers[w].WorkerDone? ==> s.queue.closed && s.queue.events == [])
    && (s.main.Done? ==> WorkersJoined(s))
    && s.workers.Keys != {}
  }

  /** Under `Block` a push fails only once the ingress threads have been told to stop. */
  ghost predicate Patient(s: State) {
    s.policy.Block? && !s.ingressStop ==> s.books.refused == []
  }

  ghost predicate Inv(s: State) {
    && s.books.pushed == s.popped + s.queue.events && IngressBooked(s) && WorkersCounted(s) && Phased(s)
    && Patient(s)
  }

  lemma PushKeepsBooks(s: State, a: Action)
    requires IngressBooked(s) && a.Push? && Enabled(s, a)
    ensures IngressBooked(Do(s, a))
  {
    var t := a.t;
    var attempt := Q.PushAttempt(s.queue, s.policy, s.ingress[t].retry, a.stop, a.later);
    if attempt.Waiting? {
      WaitBooked(s.ingress, s.counters, s.policy, s.measureStart, s.books, t);
    } else {
      PushBooked(s.ingress, s.counters, s.policy, s.measureStart, s.books, t, attempt.Succeeded?);
    }
  }

  lemma PushKeepsRest(s: State, a: Action)
    requires Phased(s) && Patient(s) && s.books.pushed == s.popped + s.queue.events && WorkersCounted(s)
    requires a.Push? && Enabled(s, a)
    ensures var s' := Do(s, a);
            && Phased(s') && Patient(s') && s'.books.pushed == s'.popped + s'.queue.events && WorkersCounted(s')
  {
  }

  lemma PushKeepsInv(s: State, a: Action)
    requires Inv(s) && a.Push? && Enabled(s, a)
    ensures Inv(Do(s, a))
  {
    PushKeepsBooks(s, a);
    PushKeepsRest(s, a);
  }

  lemma GenerateKeepsBooks(s: State, s': State, t: Tid, ev: Event)
    requires IngressBooked(s) && t in s.ingress && s.ingress[t].Looping? && ev.id == IdOf(t, s.ingress[t].n)
    requires s' == s.(counters := CountGenerated(s.counters, ev, s.measureStart),
                      ingress := s.ingress[t := Pushing(s.ingress[t].n + 1, ev, false)], books := Make(s.books, t, ev))
    ensures IngressBooked(s')
  {
    GenerateBooked(s.ingress, s.counters, s.policy, s.measureStart, s.books, t, ev);
  }

  lemma IngressKeepsBooks(s: State, a: Action)
    requires IngressBooked(s) && (a.Stop? || a.Generate? || a.Count?) && Enabled(s, a)
    ensures IngressBooked(Do(s, a))
  {
    match a
    case Stop(t) => StopBooked(s.ingress, s.counters, s.policy, s.measureStart, s.books, t);
    case Generate(t, createdAt) =>
      GenerateKeepsBooks(s, Do(s, a), t, Generated(t, s.ingress[t].n, |s.workers|, createdAt));
    case Count(t) => CountBooked(s.ingress, s.counters, s.policy, s.measureStart, s.books, t);
  }

  lemma IngressKeepsInv(s: State, a: Action)
    requires Inv(s) && (a.Stop? || a.Generate? || a.Count?) && Enabled(s, a)
    ensures Inv(Do(s, a))
  {
    IngressKeepsBooks(s, a);
  }

  lemma {:induction false} PopCounted(workers: map<Tid, Worker>, completed: nat, start: int, popped: seq<Event>,
                                      w: Tid, ev: Event)
    requires Completed(workers, completed, start, popped) && w in workers && workers[w].Popping?
    ensures Completed(workers[w := Working(ev)], completed, start, popped + [ev])
  {
    CountMoved(workers, w, Working(ev), ToComplete(start));
    assert (popped + [ev])[..|popped|] == popped;
  }

  /** A worker that waits or ends has nothing to count; one that has done its work counts it. */
  lemma {:induction false} WorkerCounted(workers: map<Tid, Worker>, completed: nat, start: int, popped: seq<Event>,
                                         w: Tid, pc: Worker)
    requires Completed(workers, completed, start, popped) && w in workers && !pc.Working?
    ensures Completed(workers[w := pc], Plus(completed, ToComplete(start)(workers[w])), start, popped)
  {
    CountMoved(workers, w, pc, ToComplete(start));
  }

  lemma PopKeepsPhases(s: State, w: Tid)
    requires Phased(s) && s.books.pushed == s.popped + s.queue.events && Enabled(s, Pop(w))
    ensures var s' := DoWorker(s, Pop(w)); Phased(s') && s'.books.pushed == s'.popped + s'.queue.events
  {
  }

  lemma PopKeepsInv(s: State, w: Tid)
    requires Inv(s) && Enabled(s, Pop(w))
    ensures Inv(Do(s, Pop(w)))
  {
    PopKeepsPhases(s, w);
    if s.queue.events != [] {
      PopCounted(s.workers, s.completed, s.measureStart, s.popped, w, s.queue.events[0]);
    } else {
      WorkerCounted(s.workers, s.completed, s.measureStart, s.popped, w, Do(s, Pop(w)).workers[w]);
    }
  }

  lemma CompleteKeepsInv(s: State, w: Tid)
    requires Inv(s) && Enabled(s, Complete(w))
    ensures Inv(Do(s, Complete(w)))
  {
    WorkerCounted(s.workers, s.completed, s.measureStart, s.popped, w, Popping);
  }

  lemma MainKeepsInv(s: State)
    requires Inv(s) && Enabled(s, MainStep)
    ensures Inv(Do(s, MainStep))
  {
  }

  lemma {:induction false} RunKeepsInv(s: State, run: seq<State>)
    requires Reachable(s, run)
    ensures Inv(s)
    decreases |run|
  {
    if |run| > 1 {
      var before := run[|run| - 2];
      assert Next(before, s);
      RunKeepsInv(before, run[..|run| - 1]);
      var a :| Enabled(before, a) && s == Do(before, a);
      match a
      case Push(_, _, _) => PushKeepsInv(before, a);
      case Pop(w) => PopKeepsInv(before, w);
      case Complete(w) => CompleteKeepsInv(before, w);
      case MainStep => MainKeepsInv(before);
      case _ => IngressKeepsInv(before, a);
    }
  }

  // ---- What holds in every run ----

  /** Once main is done, every event that was ever pushed has been popped, every other event made has been refused, and
      the counters say so. */
  lemma AcceptedAreCompleted(s: State, run: seq<State>)
    requires Reachable(s, run) && s.main.Done?
    ensures s.popped == s.books.pushed
    ensures s.counters.accepted == s.completed == MeasuredIn(s.books.pushed, s.measureStart)
    ensures s.counters.generated == MeasuredIn(EventsMade(s.books.made), s.measureStart)
    ensures s.counters.generated == s.counters.accepted + MeasuredIn(s.books.refused, s.measureStart)
    ensures s.counters.dropped == if s.policy.Drop? then MeasuredIn(s.books.refused, s.measureStart) else 0
  {
    RunKeepsInv(s, run);
    JoinedCounters(s.ingress, s.counters, s.policy, s.measureStart, s.books);
    NoneCounted(s.workers, ToComplete(s.measureStart));
    var w :| w in s.workers;
    assert s.workers[w].WorkerDone?;
  }

  /** Each ingress thread has made exactly its events number 0, 1, 2 and so on, in this order; nothing else was pushed
      or refused; and under `Block` nothing was refused before the threads were told to stop. */
  lemma IngressMakesAll(s: State, run: seq<State>, t: Tid)
    requires Reachable(s, run) && t in s.ingress
    ensures MadeAt(s.ingress[t], Own(s.books.made, t), t)
    ensures forall ev :: ev in s.books.pushed || ev in s.books.refused ==> ev in EventsMade(s.books.made)
    ensures s.policy.Block? && !s.ingressStop ==> s.books.refused == []
  {
    RunKeepsInv(s, run);
  }

  /** Apart from the joins of main nobody ever has to wait for anybody: every thread that has not ended can take its
      next step, a section of the queue being one step. */
  lemma NobodyIsStuck(s: State, run: seq<State>)
    requires Reachable(s, run)
    ensures forall t :: t in s.ingress ==>
              match s.ingress[t]
              case Looping(n) => Enabled(s, Stop(t)) && (n < SEQUENCE_LIMIT ==> forall c :: Enabled(s, Generate(t, c)))
              case Pushing(_, _, _) => Enabled(s, Push(t, s.ingressStop, s.ingressStop))
              case Counting(_, _, _) => Enabled(s, Action.Count(t))
              case IngressDone(_) => true
    ensures forall w :: w in s.workers ==>
              match s.workers[w]
              case Popping => Enabled(s, Pop(w))
              case Working(_) => Enabled(s, Complete(w))
              case WorkerDone => true
    ensures Enabled(s, MainStep) <==>
              && (s.main.JoiningIngress? ==> Joined(s.ingress)) && (s.main.JoiningWorkers? ==> WorkersJoined(s))
              && !s.main.Done?
  {
    RunKeepsInv(s, run);
  }

  /** So until main is done, some thread can take a step. */
  lemma NoDeadlock(s: State, run: seq<State>)
    requires Reachable(s, run) && !s.main.Done?
    ensures exists a :: Enabled(s, a)
  {
    NobodyIsStuck(s, run);
    if s.main.JoiningIngress? && !Joined(s.ingress) {
      var t :| t in s.ingress && !s.ingress[t].IngressDone?;
      var a := match s.ingress[t]
               case Looping(_) => Stop(t)
               case Pushing(_, _, _) => Push(t, s.ingressStop, s.ingressStop)
               case _ => Action.Count(t);
      assert Enabled(s, a);
    } else if s.main.JoiningWorkers? && !WorkersJoined(s) {
      var w :| w in s.workers && !s.workers[w].WorkerDone?;
      assert Enabled(s, if s.workers[w].Popping? then Pop(w) else Complete(w));
    } else {
      assert Enabled(s, MainStep);
    }
  }

  /** Nothing is pushed once the queue is closed, although the queue itself would allow it. */
  lemma NoPushAfterClose(s: State, run: seq<State>, t: Tid)
    requires Reachable(s, run) && s.queue.closed && t in s.ingress
    ensures s.ingress[t].IngressDone?
  {
    RunKeepsInv(s, run);
  }

  /** How a section of the queue leaves the thread that pushes: it goes on waiting exactly under `Block`, when the
      queue is full and the stop flag not seen; with room and the flag not seen the push succeeds, and under `Drop`
      without room it fails. */
  lemma PushEndsExactlyWhen(s: State, run: seq<State>, t: Tid, stop: bool, later: bool)
    requires Reachable(s, run) && Enabled(s, Push(t, stop, later))
    ensures var pc, pc' := s.ingress[t], Do(s, Push(t, stop, later)).ingress[t];
            var room := s.queue.capacity == 0 || |s.queue.events| < s.queue.capacity;
            && (pc'.Pushing? <==> s.policy.Block? && !room && !stop)
            && (pc'.Pushing? || (pc'.Counting? && pc'.n == pc.n && pc'.ev == pc.ev))
            && (room && !later ==> pc' == Counting(pc.n, pc.ev, true))
            && (!room && s.policy.Drop? ==> pc' == Counting(pc.n, pc.ev, false))
  {
    if s.queue.closed { NoPushAfterClose(s, run, t); }
  }

  /** How a section of the queue leaves a worker: with the oldest event if there is one; else it ends exactly when the
      queue is closed, and goes on waiting otherwise. Having worked, it pops again. */
  lemma WorkerGoesOn(s: State, a: Action, w: Tid)
    requires Enabled(s, a) && w in s.workers
    ensures w in Do(s, a).workers
    ensures Do(s, a).workers[w]
            == if a == Pop(w) then
                 if s.queue.events != [] then Working(s.queue.events[0])
                 else if s.queue.closed then WorkerDone else Popping
               else if a == Complete(w) then Popping
               else s.workers[w]
  {
  }

  /** A thread that has counted its event goes on to the next; only the end of the measurement, or a stop, ends it. */
  lemma IngressGoesOn(s: State, a: Action, t: Tid)
    requires Enabled(s, a) && t in s.ingress
    ensures t in Do(s, a).ingress
    ensures a == Action.Count(t) ==> Do(s, a).ingress[t] == Looping(s.ingress[t].n)
    ensures Do(s, a).ingress[t].IngressDone? && !s.ingress[t].IngressDone? ==> a == Stop(t)
  {
  }
}
