/** The ingress threads, which all three topologies have in common, and their counters. */
module IngressThreads {
  import opened Events
  import opened PipelineEvents
  import opened Threads

  /** `n` is the thread's sequence number; `retry`: its push has waited and looks again. */
  datatype Ingress =
    | Looping(n: nat)
    | Pushing(n: nat, ev: Event, retry: bool)
    | Counting(n: nat, ev: Event, ok: bool)
    | IngressDone(n: nat)

  datatype Counters = Counters(generated: nat, accepted: nat, dropped: nat)

  /** An event, and the thread that has made it. */
  datatype Creation = Creation(t: Tid, ev: Event)

  /** Histories: all events made, those of all pushes that have returned true, and those of all that have failed. */
  datatype Books = Books(made: seq<Creation>, pushed: seq<Event>, refused: seq<Event>)

  function Plus(n: nat, b: bool): nat {
    if b then n + 1 else n
  }

  /** The `n`th event of thread `t`. */
  function Generated(t: Tid, n: nat, workers: nat, createdAt: int): Event
    requires workers > 0
  {
    Event(IdOf(t, n), IdOf(t, n), IdOf(t, n) % workers, createdAt)
  }

  function CountGenerated(c: Counters, ev: Event, start: int): Counters {
    c.(generated := Plus(c.generated, Measured(ev, start)))
  }

  /** After a push: accepted, or dropped under `Drop`. */
  function CountPush(c: Counters, ev: Event, ok: bool, policy: Policy, start: int): Counters {
    c.(accepted := Plus(c.accepted, ok && Measured(ev, start)),
       dropped := Plus(c.dropped, !ok && policy.Drop? && Measured(ev, start)))
  }

  ghost predicate Joined(ingress: map<Tid, Ingress>) {
    forall t :: t in ingress ==> ingress[t].IngressDone?
  }

  // ---- The books ----

  function EventsMade(made: seq<Creation>): seq<Event> {
    if made == [] then [] else EventsMade(made[..|made| - 1]) + [made[|made| - 1].ev]
  }

  /** The events that thread `t` has made, in order. */
  function Own(made: seq<Creation>, t: Tid): seq<Event> {
    if made == [] then []
    else
      var own, last := Own(made[..|made| - 1], t), made[|made| - 1];
      if last.t == t then own + [last.ev] else own
  }

  function Make(books: Books, t: Tid, ev: Event): Books {
    books.(made := books.made + [Creation(t, ev)])
  }

  /** After a push of `ev` that has returned `ok`. */
  function Settle(books: Books, ev: Event, ok: bool): Books {
    if ok then books.(pushed := books.pushed + [ev]) else books.(refused := books.refused + [ev])
  }

  lemma {:induction false} MakeAdds(books: Books, t: Tid, ev: Event, u: Tid)
    ensures EventsMade(Make(books, t, ev).made) == EventsMade(books.made) + [ev]
    ensures Own(Make(books, t, ev).made, u) == if u == t then Own(books.made, u) + [ev] else Own(books.made, u)
  {
    assert Make(books, t, ev).made[..|books.made|] == books.made;
  }

  lemma {:induction false} OwnWasMade(made: seq<Creation>, t: Tid, ev: Event)
    requires ev in Own(made, t)
    ensures ev in EventsMade(made)
  {
    if ev in Own(made[..|made| - 1], t) { OwnWasMade(made[..|made| - 1], t, ev); }
  }

  // ---- Counters ----

  /** Pushed and measured, but not yet counted as accepted. */
  function ToAccept(start: int): Ingress -> bool {
    (pc: Ingress) => pc.Counting? && pc.ok && Measured(pc.ev, start)
  }

  /** Refused and measured, but not yet counted as dropped. */
  function ToDrop(start: int): Ingress -> bool {
    (pc: Ingress) => pc.Counting? && !pc.ok && Measured(pc.ev, start)
  }

  /** Made and measured, but neither pushed nor refused. */
  function InHand(start: int): Ingress -> bool {
    (pc: Ingress) => pc.Pushing? && Measured(pc.ev, start)
  }

  /** The counters agree with the books, up to the threads that are still to count; and every event made has been pushed
      or refused or is in the hand of its thread. */
  ghost predicate Counted(ingress: map<Tid, Ingress>, c: Counters, policy: Policy, start: int, books: Books) {
    && c.generated == MeasuredIn(EventsMade(books.made), start)
    && c.accepted + Count(ingress, ToAccept(start)) == MeasuredIn(books.pushed, start)
    && c.dropped + (if policy.Drop? then Count(ingress, ToDrop(start)) else 0)
       == (if policy.Drop? then MeasuredIn(books.refused, start) else 0)
    && MeasuredIn(EventsMade(books.made), start)
       == MeasuredIn(books.pushed, start) + MeasuredIn(books.refused, start) + Count(ingress, InHand(start))
  }

  lemma IngressMoved(ingress: map<Tid, Ingress>, t: Tid, pc: Ingress, start: int)
    requires t in ingress
    ensures Count(ingress[t := pc], ToAccept(start))
            == Count(ingress, ToAccept(start)) - One(ToAccept(start)(ingress[t])) + One(ToAccept(start)(pc))
    ensures Count(ingress[t := pc], ToDrop(start))
            == Count(ingress, ToDrop(start)) - One(ToDrop(start)(ingress[t])) + One(ToDrop(start)(pc))
    ensures Count(ingress[t := pc], InHand(start))
            == Count(ingress, InHand(start)) - One(InHand(start)(ingress[t])) + One(InHand(start)(pc))
  {
    CountMoved(ingress, t, pc, ToAccept(start));
    CountMoved(ingress, t, pc, ToDrop(start));
    CountMoved(ingress, t, pc, InHand(start));
  }

  lemma {:induction false} MeasuredSnoc(s: seq<Event>, ev: Event, start: int)
    ensures MeasuredIn(s + [ev], start) == MeasuredIn(s, start) + One(Measured(ev, start))
  {
    assert (s + [ev])[..|s|] == s;
  }

  lemma StopCounted(ingress: map<Tid, Ingress>, c: Counters, policy: Policy, start: int, books: Books, t: Tid)
    requires Counted(ingress, c, policy, start, books) && t in ingress && ingress[t].Looping?
    ensures Counted(ingress[t := IngressDone(ingress[t].n)], c, policy, start, books)
  {
    IngressMoved(ingress, t, IngressDone(ingress[t].n), start);
  }

  lemma GenerateCounted(ingress: map<Tid, Ingress>, c: Counters, policy: Policy, start: int, books: Books, t: Tid,
                        n: nat, ev: Event)
    requires Counted(ingress, c, policy, start, books) && t in ingress && ingress[t].Looping?
    ensures Counted(ingress[t := Pushing(n, ev, false)], CountGenerated(c, ev, start), policy, start,
              Make(books, t, ev))
  {
    IngressMoved(ingress, t, Pushing(n, ev, false), start);
    MakeAdds(books, t, ev, t);
    MeasuredSnoc(EventsMade(books.made), ev, start);
  }

  lemma PushCounted(ingress: map<Tid, Ingress>, c: Counters, policy: Policy, start: int, books: Books, t: Tid, ok: bool)
    requires Counted(ingress, c, policy, start, books) && t in ingress && ingress[t].Pushing?
    ensures Counted(ingress[t := Counting(ingress[t].n, ingress[t].ev, ok)], c, policy, start,
              Settle(books, ingress[t].ev, ok))
  {
    IngressMoved(ingress, t, Counting(ingress[t].n, ingress[t].ev, ok), start);
    MeasuredSnoc(if ok then books.pushed else books.refused, ingress[t].ev, start);
  }

  lemma WaitCounted(ingress: map<Tid, Ingress>, c: Counters, policy: Policy, start: int, books: Books, t: Tid)
    requires Counted(ingress, c, policy, start, books) && t in ingress && ingress[t].Pushing?
    ensures Counted(ingress[t := ingress[t].(retry := true)], c, policy, start, books)
  {
    IngressMoved(ingress, t, ingress[t].(retry := true), start);
  }

  lemma CountCounted(ingress: map<Tid, Ingress>, c: Counters, policy: Policy, start: int, books: Books, t: Tid)
    requires Counted(ingress, c, policy, start, books) && t in ingress && ingress[t].Counting?
    ensures Counted(ingress[t := Looping(ingress[t].n)],
              CountPush(c, ingress[t].ev, ingress[t].ok, policy, start), policy, start, books)
  {
    IngressMoved(ingress, t, Looping(ingress[t].n), start);
  }

  lemma {:induction false} NothingCounted(ingress: map<Tid, Ingress>, policy: Policy, start: int)
    requires forall t :: t in ingress ==> ingress[t] == Looping(0)
    ensures Counted(ingress, Counters(0, 0, 0), policy, start, Books([], [], []))
  {
    NoneCounted(ingress, ToAccept(start));
    NoneCounted(ingress, ToDrop(start));
    NoneCounted(ingress, InHand(start));
  }

  /** When all ingress threads have ended, the counters are exact: of the measured events, `generated` counts those
      made, `accepted` those pushed, and `dropped` those refused under `Drop`; and all that were made were pushed or
      refused. */
  lemma {:induction false} JoinedCounters(ingress: map<Tid, Ingress>, c: Counters, policy: Policy, start: int,
                                          books: Books)
    requires Counted(ingress, c, policy, start, books) && Joined(ingress)
    ensures c.generated == MeasuredIn(EventsMade(books.made), start)
    ensures c.accepted == MeasuredIn(books.pushed, start)
    ensures c.generated == c.accepted + MeasuredIn(books.refused, start)
    ensures c.dropped == if policy.Drop? then MeasuredIn(books.refused, start) else 0
  {
    NoneCounted(ingress, ToAccept(start));
    NoneCounted(ingress, ToDrop(start));
    NoneCounted(ingress, InHand(start));
  }

  // ---- What has been made ----

  /** Thread `t` has made its events number 0 up to `n`, in this order, and holds the last of them while it pushes. */
  ghost predicate MadeAt(pc: Ingress, own: seq<Event>, t: Tid) {
    && |own| == pc.n
    && (forall k :: 0 <= k < |own| ==> own[k].id == IdOf(t, k))
    && (pc.Pushing? ==> own != [] && own[|own| - 1] == pc.ev)
  }

  /** So for all threads; and nothing else has been pushed or refused. */
  ghost predicate AllMade(ingress: map<Tid, Ingress>, books: Books) {
    && (forall t :: t in ingress ==> MadeAt(ingress[t], Own(books.made, t), t))
    && (forall ev :: ev in books.pushed ==> ev in EventsMade(books.made))
    && (forall ev :: ev in books.refused ==> ev in EventsMade(books.made))
  }

  lemma {:induction false} GenerateMade(ingress: map<Tid, Ingress>, books: Books, t: Tid, ev: Event)
    requires AllMade(ingress, books) && t in ingress && ev.id == IdOf(t, ingress[t].n)
    ensures AllMade(ingress[t := Pushing(ingress[t].n + 1, ev, false)], Make(books, t, ev))
  {
    var ingress' := ingress[t := Pushing(ingress[t].n + 1, ev, false)];
    forall u | u in ingress' ensures MadeAt(ingress'[u], Own(Make(books, t, ev).made, u), u) {
      MakeAdds(books, t, ev, u);
      assert MadeAt(ingress[u], Own(books.made, u), u);
    }
    MakeAdds(books, t, ev, t);
  }

  lemma {:induction false} PushMade(ingress: map<Tid, Ingress>, books: Books, t: Tid, ok: bool)
    requires AllMade(ingress, books) && t in ingress && ingress[t].Pushing?
    ensures AllMade(ingress[t := Counting(ingress[t].n, ingress[t].ev, ok)], Settle(books, ingress[t].ev, ok))
  {
    assert MadeAt(ingress[t], Own(books.made, t), t);
    OwnWasMade(books.made, t, ingress[t].ev);
    MoveMade(ingress, books, t, Counting(ingress[t].n, ingress[t].ev, ok));
  }

  /** A thread that moves on without making anything. */
  lemma MoveMade(ingress: map<Tid, Ingress>, books: Books, t: Tid, pc: Ingress)
    requires AllMade(ingress, books) && t in ingress && pc.n == ingress[t].n
    requires pc.Pushing? ==> ingress[t].Pushing? && pc.ev == ingress[t].ev
    ensures AllMade(ingress[t := pc], books)
  {
    forall u | u in ingress ensures MadeAt(ingress[t := pc][u], Own(books.made, u), u) {
      assert MadeAt(ingress[u], Own(books.made, u), u);
    }
  }

  // ---- Both ----

  ghost predicate Booked(ingress: map<Tid, Ingress>, c: Counters, policy: Policy, start: int, books: Books) {
    Counted(ingress, c, policy, start, books) && AllMade(ingress, books)
  }

  lemma StopBooked(ingress: map<Tid, Ingress>, c: Counters, policy: Policy, start: int, books: Books, t: Tid)
    requires Booked(ingress, c, policy, start, books) && t in ingress && ingress[t].Looping?
    ensures Booked(ingress[t := IngressDone(ingress[t].n)], c, policy, start, books)
  {
    StopCounted(ingress, c, policy, start, books, t);
    MoveMade(ingress, books, t, IngressDone(ingress[t].n));
  }

  lemma GenerateBooked(ingress: map<Tid, Ingress>, c: Counters, policy: Policy, start: int, books: Books, t: Tid,
                       ev: Event)
    requires Booked(ingress, c, policy, start, books) && t in ingress && ingress[t].Looping?
    requires ev.id == IdOf(t, ingress[t].n)
    ensures Booked(ingress[t := Pushing(ingress[t].n + 1, ev, false)], CountGenerated(c, ev, start), policy, start,
              Make(books, t, ev))
  {
    GenerateCounted(ingress, c, policy, start, books, t, ingress[t].n + 1, ev);
    GenerateMade(ingress, books, t, ev);
  }

  lemma PushBooked(ingress: map<Tid, Ingress>, c: Counters, policy: Policy, start: int, books: Books, t: Tid, ok: bool)
    requires Booked(ingress, c, policy, start, books) && t in ingress && ingress[t].Pushing?
    ensures Booked(ingress[t := Counting(ingress[t].n, ingress[t].ev, ok)], c, policy, start,
              Settle(books, ingress[t].ev, ok))
  {
    PushCounted(ingress, c, policy, start, books, t, ok);
    PushMade(ingress, books, t, ok);
  }

  lemma WaitBooked(ingress: map<Tid, Ingress>, c: Counters, policy: Policy, start: int, books: Books, t: Tid)
    requires Booked(ingress, c, policy, start, books) && t in ingress && ingress[t].Pushing?
    ensures Booked(ingress[t := ingress[t].(retry := true)], c, policy, start, books)
  {
    WaitCounted(ingress, c, policy, start, books, t);
    MoveMade(ingress, books, t, ingress[t].(retry := true));
  }

  lemma CountBooked(ingress: map<Tid, Ingress>, c: Counters, policy: Policy, start: int, books: Books, t: Tid)
    requires Booked(ingress, c, policy, start, books) && t in ingress && ingress[t].Counting?
    ensures Booked(ingress[t := Looping(ingress[t].n)],
              CountPush(c, ingress[t].ev, ingress[t].ok, policy, start), policy, start, books)
  {
    CountCounted(ingress, c, policy, start, books, t);
    MoveMade(ingress, books, t, Looping(ingress[t].n));
  }

  lemma NothingBooked(ingress: map<Tid, Ingress>, policy: Policy, start: int)
    requires forall t :: t in ingress ==> ingress[t] == Looping(0)
    ensures Booked(ingress, Counters(0, 0, 0), policy, start, Books([], [], []))
  {
    NothingCounted(ingress, policy, start);
  }

  // ---- Addresses ----

  /** Its id selects the worker that an event is bound for. */
  predicate Addressed(ev: Event, workers: nat)
    requires workers > 0
  {
    ev.routeKey == ev.id && ev.targetWorker == ev.id % workers
  }

  /** So for every event that has been pushed or is in the hand of an ingress thread. */
  ghost predicate AllAddressed(ingress: map<Tid, Ingress>, pushed: seq<Event>, workers: nat)
    requires workers > 0
  {
    && (forall ev :: ev in pushed ==> Addressed(ev, workers))
    && forall t :: t in ingress && (ingress[t].Pushing? || ingress[t].Counting?) ==> Addressed(ingress[t].ev, workers)
  }

  // ---- Numbers ----

  /** As many ingress threads as ids can tell apart. */
  ghost predicate FewIngress(ingress: map<Tid, Ingress>) {
    forall t :: t in ingress ==> t < INGRESS_LIMIT
  }

  /** Everything that ingress thread `t` has pushed comes before what it will push next. */
  ghost predicate NumberedAt(ingress: map<Tid, Ingress>, pushed: seq<Event>, t: Tid)
    requires t in ingress
  {
    var n := ingress[t].n;
    && n <= SEQUENCE_LIMIT
    && (ingress[t].Pushing? ==> n > 0 && ingress[t].ev.id == IdOf(t, n - 1))
    && forall x :: x in pushed && IngressOf(x) == t ==> x.id < IdOf(t, if ingress[t].Pushing? then n - 1 else n)
  }

  ghost predicate Numbered(ingress: map<Tid, Ingress>, pushed: seq<Event>) {
    InSequence(pushed) && forall t :: t in ingress ==> NumberedAt(ingress, pushed, t)
  }

  lemma PushNumbered(ingress: map<Tid, Ingress>, pushed: seq<Event>, t: Tid, pc: Ingress)
    requires Numbered(ingress, pushed) && FewIngress(ingress)
    requires t in ingress && ingress[t].Pushing? && pc.Counting? && pc.n == ingress[t].n
    ensures Numbered(ingress[t := pc], pushed + [ingress[t].ev])
  {
    var ev, pushed' := ingress[t].ev, pushed + [ingress[t].ev];
    assert NumberedAt(ingress, pushed, t);
    IdsTellTheIngress(t, ingress[t].n - 1, ev);
    forall u | u in ingress ensures NumberedAt(ingress[t := pc], pushed', u) {
      assert NumberedAt(ingress, pushed, u);
    }
  }
}
