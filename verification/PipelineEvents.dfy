/** What the pipelines say about events: which are measured, who made them, and in what order. */
module PipelineEvents {
  import opened Events

  /** An event counts when it was created after the measuring start, which is set before any thread runs. */
  predicate Measured(ev: Event, start: int) {
    start >= 0 && ev.createdAt >= start
  }

  function MeasuredIn(s: seq<Event>, start: int): nat {
    if s == [] then 0
    else MeasuredIn(s[..|s| - 1], start) + if Measured(s[|s| - 1], start) then 1 else 0
  }

  lemma {:induction false} MeasuredInConcat(s: seq<Event>, t: seq<Event>, start: int)
    ensures MeasuredIn(s + t, start) == MeasuredIn(s, start) + MeasuredIn(t, start)
  {
    if t == [] {
      assert s + t == s;
    } else {
      MeasuredInConcat(s, t[..|t| - 1], start);
      assert (s + t)[..|s + t| - 1] == s + t[..|t| - 1];
    }
  }

  /** How many events an ingress thread can number, and how many threads an id can tell apart. */
  const SEQUENCE_LIMIT: nat := 0x1_0000_0000_0000
  const INGRESS_LIMIT: nat := 0x1_0000

  /** The id of the `n`th event of an ingress thread: the thread in the high 16 of 64 bits, whatever does not fit there
      being shifted out, and the sequence number in the low 48. */
  function IdOf(ingress: nat, n: nat): nat {
    ingress % 0x1_0000 * 0x1_0000_0000_0000 + n
  }

  function IngressOf(ev: Event): nat {
    ev.id / 0x1_0000_0000_0000
  }

  /** The thread can be told from the id exactly when its number has 16 bits. */
  lemma IdsTellTheIngress(ingress: nat, n: nat, ev: Event)
    requires n < SEQUENCE_LIMIT && ev.id == IdOf(ingress, n)
    ensures IngressOf(ev) == ingress % INGRESS_LIMIT
    ensures IngressOf(ev) == ingress <==> ingress < INGRESS_LIMIT
  {
  }

  /** Ids collide exactly when the sequence numbers are the same and the threads agree in their low 16 bits, as threads
      0 and 2^16 do. */
  lemma IdsCollideExactlyWhen(i: nat, n: nat, j: nat, m: nat)
    requires n < SEQUENCE_LIMIT && m < SEQUENCE_LIMIT
    ensures IdOf(i, n) == IdOf(j, m) <==> n == m && i % INGRESS_LIMIT == j % INGRESS_LIMIT
    ensures IdOf(0, n) == IdOf(INGRESS_LIMIT, n)
  {
    IdsTellTheIngress(i, n, Event(IdOf(i, n), 0, 0, 0));
    IdsTellTheIngress(j, m, Event(IdOf(j, m), 0, 0, 0));
  }

  /** `ev` comes after all events of its own ingress thread in `s`. */
  ghost predicate After(s: seq<Event>, ev: Event) {
    forall x :: x in s && IngressOf(x) == IngressOf(ev) ==> x.id < ev.id
  }

  /** The events of each ingress thread stand in the order in which it made them. */
  ghost predicate InSequence(s: seq<Event>) {
    s == [] || (InSequence(s[..|s| - 1]) && After(s[..|s| - 1], s[|s| - 1]))
  }

  lemma {:induction false} InSequenceMeans(s: seq<Event>, a: nat, b: nat)
    requires InSequence(s) && a < b < |s| && IngressOf(s[a]) == IngressOf(s[b])
    ensures s[a].id < s[b].id
  {
    if b < |s| - 1 {
      InSequenceMeans(s[..|s| - 1], a, b);
    } else {
      assert s[a] in s[..|s| - 1];
    }
  }

  lemma {:induction false} InSequencePrefix(s: seq<Event>, n: nat)
    requires InSequence(s) && n <= |s|
    ensures InSequence(s[..n])
  {
    if n < |s| {
      InSequencePrefix(s[..|s| - 1], n);
      assert s[..|s| - 1][..n] == s[..n];
    } else {
      assert s[..n] == s;
    }
  }

  /** In sequence means in particular: no two events are the same. */
  lemma {:induction false} InSequenceDistinct(s: seq<Event>, a: nat, b: nat)
    requires InSequence(s) && a < |s| && b < |s| && s[a] == s[b]
    ensures a == b
  {
    if a < b { InSequenceMeans(s, a, b); }
    if b < a { InSequenceMeans(s, b, a); }
  }
}
