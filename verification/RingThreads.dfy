/** What the dispatch and the direct topology have in common: the two ends of a worker ring, and sums over all rings. */
module RingThreads {
  import opened Events
  import opened PipelineEvents
  import Ring = SpscRing

  /** A worker ends when a pop fails; `published` is history: how many events were in or had been through its ring when
      that pop found it empty. */
  datatype Worker = WorkerLooping | Popping | Working(ev: Event) | WorkerDone(published: nat)

  /** A push that ends without a report has failed. */
  predicate GivesUp(r: Ring.State)
    requires Ring.Enabled(r, Ring.ProducerStep)
  {
    Ring.Produce(r).producer.PIdle? && !r.producer.PReport?
  }

  /** How many events had been published when the pop in progress last found the ring empty. */
  function PublishedAt(consumer: Ring.Consumer): nat {
    match consumer
    case CEmpty(published) => published
    case CCheckStop(published) => published
    case _ => 0
  }

  /** What a worker does after its next access to its ring: a pop that ends without an event has failed. */
  function AfterAccess(r: Ring.State): Worker
    requires Ring.Enabled(r, Ring.ConsumerStep)
  {
    if r.consumer.CStore? then Working(r.consumer.ev)
    else if Ring.Consume(r).consumer.CIdle? then WorkerDone(PublishedAt(r.consumer))
    else Popping
  }

  /** An access ends the worker exactly when the pop has found its ring empty and now reads `closed` or the stop flag as
      true; the store of a pop gives it the oldest event; after any other access it goes on popping. */
  lemma WorkerEndsExactlyWhen(r: Ring.State)
    requires Ring.Inv(r) && Ring.Enabled(r, Ring.ConsumerStep)
    ensures AfterAccess(r).WorkerDone? <==>
            (r.consumer.CEmpty? && r.closed) || (r.consumer.CCheckStop? && r.popStop)
    ensures AfterAccess(r).WorkerDone? ==> AfterAccess(r).published == |r.popped|
    ensures r.consumer.CStore? ==> |r.popped| < |r.pushed| && AfterAccess(r) == Working(r.pushed[|r.popped|])
    ensures AfterAccess(r).Popping? || AfterAccess(r).Working? || AfterAccess(r).WorkerDone?
    ensures AfterAccess(r).Working? <==> r.consumer.CStore?
  {
  }

  /** And a push gives up exactly when the ring does. */
  lemma GivesUpExactlyWhen(r: Ring.State)
    requires Ring.Enabled(r, Ring.ProducerStep)
    ensures GivesUp(r) <==>
            || (r.producer.PCheckClosed? && r.closed) || (r.producer.PCheckStop? && r.pushStop)
            || (r.producer.PFull? && r.producer.policy.Drop?)
  {
  }

  function WorkerHand(worker: Worker): seq<Event> {
    if worker.Working? then [worker.ev] else []
  }

  /** A worker has ended only after it found its ring empty and then closed: everything published before that has been
      popped. */
  ghost predicate Drained(r: Ring.State, worker: Worker) {
    worker.WorkerDone? ==>
      r.closed && worker.published <= |r.pushed| && r.popped == r.pushed[..worker.published]
  }

  /** What has left the ring is done or in the worker's hand. */
  ghost predicate Served(r: Ring.State, worker: Worker, done: seq<Event>) {
    && (r.consumer.CIdle? <==> !worker.Popping?) && done + WorkerHand(worker) == r.popped
    && Drained(r, worker)
  }

  /** Of the events published in a closed ring, the first `published` are done and the later ones are still inside. */
  ghost predicate LeftLater(r: Ring.State, published: nat, done: seq<Event>) {
    && r.closed && published <= |r.pushed|
    && done == r.pushed[..published] && Waiting(r) == r.pushed[published..]
  }

  /** What an ended worker has left was published after the tail load of its failing pop. */
  lemma LeftIsLater(r: Ring.State, worker: Worker, done: seq<Event>)
    requires Served(r, worker, done) && worker.WorkerDone?
    ensures LeftLater(r, worker.published, done)
  {
  }

  /** What has been put into the ring and not yet popped. */
  function Waiting(r: Ring.State): seq<Event> {
    Ring.Contents(r)
  }

  // ---- Sums ----

  function Total(lines: seq<seq<Event>>, start: int): nat {
    if lines == [] then 0 else Total(lines[..|lines| - 1], start) + MeasuredIn(lines[|lines| - 1], start)
  }

  lemma {:induction false} TotalUpdate(lines: seq<seq<Event>>, w: nat, ev: Event, start: int)
    requires w < |lines|
    ensures Total(lines[w := lines[w] + [ev]], start) == Total(lines, start) + if Measured(ev, start) then 1 else 0
  {
    var lines' := lines[w := lines[w] + [ev]];
    var n := |lines| - 1;
    if w == n {
      assert lines'[..n] == lines[..n];
    } else {
      TotalUpdate(lines[..n], w, ev, start);
      assert lines'[..n] == lines[..n][w := lines[w] + [ev]];
    }
  }

  lemma {:induction false} TotalSnoc(lines: seq<seq<Event>>, n: nat, start: int)
    requires n < |lines|
    ensures Total(lines[..n + 1], start) == Total(lines[..n], start) + MeasuredIn(lines[n], start)
  {
    assert lines[..n + 1][..n] == lines[..n];
  }

  lemma {:induction false} NothingIn(lines: seq<seq<Event>>, start: int)
    requires forall w :: 0 <= w < |lines| ==> lines[w] == []
    ensures Total(lines, start) == 0
  {
    if lines != [] {
      NothingIn(lines[..|lines| - 1], start);
    }
  }

  /** The measured events that the rings of workers 0 up to `n` still hold. */
  function Leftover(rings: seq<Ring.State>, n: nat, start: int): nat
    requires n <= |rings|
  {
    if n == 0 then 0 else Leftover(rings, n - 1, start) + MeasuredIn(Waiting(rings[n - 1]), start)
  }
}
