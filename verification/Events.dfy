/** What the queues carry, and arithmetic on ring positions that all rings share. */
module Events {
  /** `createdAt` stands for the creation time that decides whether an event is measured. */
  datatype Event = Event(id: nat, routeKey: nat, targetWorker: nat, createdAt: int)

  datatype Policy = Block | Drop

  datatype Option<T> = None | Some(value: T)

  function Max(a: int, b: int): int {
    if a > b then a else b
  }

  /** `fetch_sub` on a 64-bit counter: below zero it wraps around. */
  function Decremented(depth: nat): nat {
    if depth == 0 then 0xFFFF_FFFF_FFFF_FFFF else depth - 1
  }

  /** Index arithmetic of the rings: one step forward, wrapping at the end. */
  function NextIndex(i: nat, n: nat): nat {
    if i + 1 == n then 0 else i + 1
  }

  /** The ring position of the `k`th event ever stored. */
  function Slot(k: nat, n: nat): (s: nat)
    requires n >= 1
    ensures s < n
  {
    if k == 0 then 0 else NextIndex(Slot(k - 1, n), n)
  }

  lemma {:induction false} SlotAhead(k: nat, d: nat, n: nat)
    requires n >= 1 && d <= n
    ensures var s := Slot(k, n) + d; Slot(k + d, n) == if s < n then s else s - n
    decreases d
  {
    if d > 0 {
      SlotAhead(k, d - 1, n);
    }
  }

  /** Within one lap of the ring, different events have different positions. */
  lemma {:induction false} SlotsDiffer(i: nat, j: nat, n: nat)
    requires n >= 1 && i <= j <= i + n
    ensures Slot(i, n) == Slot(j, n) <==> j == i || j == i + n
  {
    SlotAhead(i, j - i, n);
  }
}
