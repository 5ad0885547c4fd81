/** Which configurations the pipelines accept, and what that buys: rings with one producer. */
module Topology {
  import opened Events

  datatype PipelineTopology = SharedQueue | DispatchLocalSpsc | DirectLocalSpsc

  datatype QueueKind = GlobalLock | SplitLockLinked | MpmcRing | SpscRing

  datatype Config = Config(
    ingressThreads: int,
    workerThreads: int,
    duration: int,
    warmup: int,
    ratePerIngress: real,
    ingressQueueCapacity: nat,
    workerQueueCapacity: nat,
    policy: Policy,
    topology: PipelineTopology,
    sharedQueueKind: QueueKind,
    dispatchQueueKind: QueueKind)

  datatype Verdict =
    | Accepted
    | NoIngressThreads
    | NoWorkerThreads
    | NoDuration
    | NegativeWarmup
    | NegativeRate
    | NoIngressQueueCapacity
    | SharedQueueIsSpsc
    | DispatchQueueIsSpsc
    | NoWorkerQueueCapacity
    | MoreIngressThanWorkers

  /** The checks in the order in which they are made; the first that fails is the exception thrown. */
  function Validate(c: Config): Verdict {
    if c.ingressThreads <= 0 then NoIngressThreads
    else if c.workerThreads <= 0 then NoWorkerThreads
    else if c.duration <= 0 then NoDuration
    else if c.warmup < 0 then NegativeWarmup
    else if c.ratePerIngress < 0.0 then NegativeRate
    else if c.ingressQueueCapacity == 0 then NoIngressQueueCapacity
    else if c.topology.SharedQueue? then
      if c.sharedQueueKind.SpscRing? then SharedQueueIsSpsc else Accepted
    else if c.dispatchQueueKind.SpscRing? then DispatchQueueIsSpsc
    else if c.workerQueueCapacity == 0 then NoWorkerQueueCapacity
    else if c.topology.DirectLocalSpsc? && c.ingressThreads > c.workerThreads then MoreIngressThanWorkers
    else Accepted
  }

  /** A thread of a pipeline. */
  datatype Thread = Ingress(index: nat) | Dispatcher | Worker(index: nat)

  /** The worker queue that an ingress thread of the direct topology pushes to. */
  function DirectTarget(ingress: nat, workers: nat): (target: nat)
    requires workers > 0
    ensures target < workers
  {
    ingress % workers
  }

  predicate Exists(c: Config, t: Thread) {
    match t
    case Ingress(i) => i < c.ingressThreads
    case Dispatcher => c.topology.DispatchLocalSpsc?
    case Worker(w) => w < c.workerThreads
  }

  /** The threads that push to the queue of worker `w`, in the topologies that have worker queues. */
  predicate Produces(c: Config, t: Thread, w: nat)
    requires c.workerThreads > 0
  {
    && Exists(c, t)
    && match t
       case Ingress(i) => c.topology.DirectLocalSpsc? && DirectTarget(i, c.workerThreads) == w
       case Dispatcher => true
       case Worker(_) => false
  }

  lemma SmallTarget(i: nat, workers: nat)
    requires i < workers
    ensures DirectTarget(i, workers) == i
  {
  }

  /** In an accepted configuration no worker queue has two producers. */
  lemma OneProducer(c: Config, w: nat, t: Thread, u: Thread)
    requires Validate(c).Accepted? && Produces(c, t, w) && Produces(c, u, w)
    ensures t == u
  {
    match (t, u)
    case (Ingress(i), Ingress(j)) =>
      SmallTarget(i, c.workerThreads);
      SmallTarget(j, c.workerThreads);
    case _ =>
  }

  /** The last check is exactly what the rings need: without it, two ingress threads share one. */
  lemma DirectNeedsEnoughWorkers(ingress: nat, workers: nat)
    requires workers > 0
    ensures (forall i, j :: 0 <= i < ingress && 0 <= j < ingress && DirectTarget(i, workers) == DirectTarget(j, workers)
               ==> i == j)
            <==> ingress <= workers
  {
    if ingress <= workers {
      forall i, j | 0 <= i < ingress && 0 <= j < ingress && DirectTarget(i, workers) == DirectTarget(j, workers)
        ensures i == j
      {
        SmallTarget(i, workers);
        SmallTarget(j, workers);
      }
    } else {
      SmallTarget(0, workers);
      assert DirectTarget(workers, workers) == 0;
    }
  }

  /** The three topologies, and what each of them needs: a shared queue that several threads may use, worker queues with
      room, and in the direct topology a worker for each ingress thread. */
  lemma AcceptedExactlyWhen(c: Config)
    ensures Validate(c).Accepted? <==>
            && c.ingressThreads >= 1 && c.workerThreads >= 1 && c.ingressQueueCapacity >= 1
            && c.duration >= 1 && c.warmup >= 0 && c.ratePerIngress >= 0.0
            && match c.topology
               case SharedQueue => !c.sharedQueueKind.SpscRing?
               case DispatchLocalSpsc => !c.dispatchQueueKind.SpscRing? && c.workerQueueCapacity >= 1
               case DirectLocalSpsc =>
                 && !c.dispatchQueueKind.SpscRing? && c.workerQueueCapacity >= 1
                 && c.ingressThreads <= c.workerThreads
  {
  }

  /** What the check demands that reports `v`. */
  predicate Passes(c: Config, v: Verdict) {
    match v
    case Accepted => true
    case NoIngressThreads => c.ingressThreads >= 1
    case NoWorkerThreads => c.workerThreads >= 1
    case NoDuration => c.duration >= 1
    case NegativeWarmup => c.warmup >= 0
    case NegativeRate => c.ratePerIngress >= 0.0
    case NoIngressQueueCapacity => c.ingressQueueCapacity >= 1
    case SharedQueueIsSpsc => !(c.topology.SharedQueue? && c.sharedQueueKind.SpscRing?)
    case DispatchQueueIsSpsc => c.topology.SharedQueue? || !c.dispatchQueueKind.SpscRing?
    case NoWorkerQueueCapacity => c.topology.SharedQueue? || c.workerQueueCapacity >= 1
    case MoreIngressThanWorkers => c.topology.DirectLocalSpsc? ==> c.ingressThreads <= c.workerThreads
  }

  function Rank(v: Verdict): nat {
    match v
    case NoIngressThreads => 0
    case NoWorkerThreads => 1
    case NoDuration => 2
    case NegativeWarmup => 3
    case NegativeRate => 4
    case NoIngressQueueCapacity => 5
    case SharedQueueIsSpsc => 6
    case DispatchQueueIsSpsc => 7
    case NoWorkerQueueCapacity => 8
    case MoreIngressThanWorkers => 9
    case Accepted => 10
  }

  /** The exception is that of the first check that fails; without one the configuration is accepted. */
  lemma FirstFailureIsReported(c: Config)
    ensures var v := Validate(c);
            && (!v.Accepted? ==> !Passes(c, v))
            && forall w :: Rank(w) < Rank(v) ==> Passes(c, w)
  {
    forall w | Rank(w) < Rank(Validate(c)) ensures Passes(c, w) {
      match w
      case _ =>
    }
  }
}
