/** The linked queue with a head lock, a tail lock and semaphores, used by any number of threads, one access per step.

    Nodes live in a heap and may be reused after they are deleted; reading a node that is not allocated is an error that
    the model can express. `linked` is the history of nodes in link order, the first being the initial dummy; `owner`
    records who may touch an allocated node. As histories, `enqueued` grows when a node is linked and `dequeued` when
    the head moves. A failed `try_acquire` needs no reason. All pushes share one stop flag and all pops another. */
module LinkedQueue {
  import opened Events
  import opened SharedQueue
  import opened Threads

  type NodeId = nat

  datatype Node = Node(value: Option<Event>, next: Option<NodeId>)

  datatype Owner = InQueue(index: nat) | Private(t: Tid)

  datatype Pc =
    | Idle
    // push
    | CheckClosedFirst(ev: Event, policy: Policy)
    | AcquireSlot(ev: Event, policy: Policy)
    | SlotRetryClosed(ev: Event, policy: Policy)
    | SlotRetryStop(ev: Event, policy: Policy)
    | NewNode(ev: Event)
    | LockTail(ev: Event, node: NodeId)
    | CheckClosed(ev: Event, node: NodeId)
    | DeleteNode(node: NodeId)
    | GiveSlotBack
    | UnlockRefused
    | LinkNext(ev: Event, node: NodeId)
    | MoveTail(node: NodeId)
    | IncDepth
    | RecordDepth(depth: nat)
    | UnlockTail
    | ReleaseItem
    // pop
    | AcquireItem
    | ItemRetryClosed
    | ItemRetryStop
    | LockHead
    | LoadHead
    | LoadNext(first: NodeId)
    | NullNext
    | ReadValue(first: NodeId, node: NodeId)
    | MoveHead(first: NodeId, node: NodeId, ev: Event)
    | DecDepth(first: NodeId)
    | UnlockHead(first: NodeId)
    | DeleteOld(first: NodeId)
    | ReturnSlot

  datatype Memory = Memory(nodes: map<NodeId, Node>, head: NodeId, tail: NodeId)

  datatype Sync = Sync(headLock: Lock, tailLock: Lock, items: nat, slots: nat)

  datatype Stats = Stats(depth: nat, maxDepth: nat, reported: seq<nat>)

  datatype History = History(
    linked: seq<NodeId>,
    owner: map<NodeId, Owner>,
    enqueued: seq<Event>,
    dequeued: seq<Event>)

  /** Capacity 0 means unbounded: then there is no slot semaphore. */
  datatype State = State(
    capacity: nat,
    flags: Flags,
    memory: Memory,
    sync: Sync,
    stats: Stats,
    history: History,
    pcs: map<Tid, Pc>)

  datatype Action =
    | StartPush(t: Tid, ev: Event, policy: Policy)
    | StartPop(t: Tid)
    /** One access by `t`; `choice` is the result of a `try_acquire`, `newId` the node that an allocation returns. */
    | Step(t: Tid, choice: bool, newId: NodeId)
    | Close
    | RaisePushStop
    | RaisePopStop

  predicate HoldsSlot(pc: Pc) {
    pc.NewNode? || pc.LockTail? || pc.CheckClosed? || pc.DeleteNode? || pc.GiveSlotBack? || pc.LinkNext?
  }

  predicate Announcing(pc: Pc) {
    pc.MoveTail? || pc.IncDepth? || pc.RecordDepth? || pc.UnlockTail? || pc.ReleaseItem?
  }

  /** Before the node is about to be linked, or when the push is being refused. */
  predicate Reserving(pc: Pc) {
    || pc.CheckClosedFirst? || pc.AcquireSlot? || pc.SlotRetryClosed? || pc.SlotRetryStop? || pc.NewNode?
    || pc.LockTail?
    || pc.CheckClosed? || pc.DeleteNode? || pc.GiveSlotBack? || pc.UnlockRefused?
  }

  predicate Pushing(pc: Pc) {
    Reserving(pc) || pc.LinkNext? || Announcing(pc)
  }

  predicate HoldsItem(pc: Pc) {
    pc.LockHead? || pc.LoadHead? || pc.LoadNext? || pc.NullNext? || pc.ReadValue? || pc.MoveHead?
  }

  predicate Returning(pc: Pc) {
    pc.DecDepth? || pc.UnlockHead? || pc.DeleteOld? || pc.ReturnSlot?
  }

  predicate InTail(pc: Pc) {
    || pc.CheckClosed? || pc.DeleteNode? || pc.GiveSlotBack? || pc.UnlockRefused? || pc.LinkNext?
    || pc.MoveTail? || pc.IncDepth? || pc.RecordDepth? || pc.UnlockTail?
  }

  predicate InHead(pc: Pc) {
    pc.LoadHead? || pc.LoadNext? || pc.NullNext? || pc.ReadValue? || pc.MoveHead? || pc.DecDepth? || pc.UnlockHead?
  }

  /** Linked, but not yet in the depth. */
  predicate Uncounted(pc: Pc) { pc.MoveTail? || pc.IncDepth? }

  predicate AtDecDepth(pc: Pc) { pc.DecDepth? }

  ghost predicate Init(s: State) {
    && s.memory.nodes == map[s.memory.head := Node(None, None)] && s.memory.tail == s.memory.head
    && s.sync.headLock == s.sync.tailLock == Free
    && s.sync.items == 0 && s.sync.slots == s.capacity && s.stats.depth == s.stats.maxDepth == 0
    && s.flags == Flags(false, false, false)
    && (forall t :: t in s.pcs ==> s.pcs[t].Idle?)
    && s.history.linked == [s.memory.head] && s.history.owner == map[s.memory.head := InQueue(0)]
    && s.history.enqueued == s.history.dequeued == [] && s.stats.reported == []
  }

  /** What a step needs; of the nodes it dereferences, that they are allocated. */
  predicate CanStep(s: State, t: Tid, choice: bool, newId: NodeId) {
    && t in s.pcs && !s.pcs[t].Idle?
    && match s.pcs[t]
       case AcquireSlot(_, _) => choice ==> s.sync.slots > 0
       case AcquireItem => choice ==> s.sync.items > 0
       case NewNode(_) => newId !in s.memory.nodes
       case LockTail(_, _) => s.sync.tailLock.Free?
       case LockHead => s.sync.headLock.Free?
       case LinkNext(_, _) => s.memory.tail in s.memory.nodes
       case LoadNext(first) => first in s.memory.nodes
       case ReadValue(_, node) => node in s.memory.nodes && s.memory.nodes[node].value.Some?
       case _ => true
  }

  predicate Enabled(s: State, a: Action) {
    match a
    case StartPush(t, _, _) => t in s.pcs && s.pcs[t].Idle?
    case StartPop(t) => t in s.pcs && s.pcs[t].Idle?
    case Step(t, choice, newId) => CanStep(s, t, choice, newId)
    case _ => true
  }

  /** Where a pusher goes. */
  function PushPc(s: State, t: Tid, choice: bool, newId: NodeId): Pc
    requires CanStep(s, t, choice, newId) && Pushing(s.pcs[t])
  {
    match s.pcs[t]
    case CheckClosedFirst(ev, policy) =>
      if s.flags.closed then Idle else if s.capacity > 0 then AcquireSlot(ev, policy) else NewNode(ev)
    case AcquireSlot(ev, policy) =>
      if choice then NewNode(ev) else if policy.Drop? then Idle else SlotRetryClosed(ev, policy)
    case SlotRetryClosed(ev, policy) => if s.flags.closed then Idle else SlotRetryStop(ev, policy)
    case SlotRetryStop(ev, policy) => if s.flags.pushStop then Idle else AcquireSlot(ev, policy)
    case NewNode(ev) => LockTail(ev, newId)
    case LockTail(ev, node) => CheckClosed(ev, node)
    case CheckClosed(ev, node) => if s.flags.closed then DeleteNode(node) else LinkNext(ev, node)
    case DeleteNode(_) => GiveSlotBack
    case GiveSlotBack => UnlockRefused
    case UnlockRefused => Idle
    case LinkNext(_, node) => MoveTail(node)
    case MoveTail(_) => IncDepth
    case IncDepth => RecordDepth(s.stats.depth + 1)
    case RecordDepth(_) => UnlockTail
    case UnlockTail => ReleaseItem
    case ReleaseItem => Idle
  }

  /** Where a popper goes. */
  function PopPc(s: State, t: Tid, choice: bool): Pc
    requires CanStep(s, t, choice, 0) && !Pushing(s.pcs[t])
  {
    match s.pcs[t]
    case AcquireItem => if choice then LockHead else ItemRetryClosed
    case ItemRetryClosed => if s.flags.closed then Idle else ItemRetryStop
    case ItemRetryStop => if s.flags.popStop then Idle else AcquireItem
    case LockHead => LoadHead
    case LoadHead => LoadNext(s.memory.head)
    case LoadNext(first) =>
      if s.memory.nodes[first].next.None? then NullNext else ReadValue(first, s.memory.nodes[first].next.value)
    case NullNext => Idle
    case ReadValue(first, node) => MoveHead(first, node, s.memory.nodes[node].value.value)
    case MoveHead(first, _, _) => DecDepth(first)
    case DecDepth(first) => UnlockHead(first)
    case UnlockHead(first) => DeleteOld(first)
    case DeleteOld(_) => ReturnSlot
    case ReturnSlot => Idle
  }

  /** What a pusher's access does to shared memory. */
  function PushAccess(s: State, t: Tid, choice: bool, newId: NodeId): State
    requires CanStep(s, t, choice, newId) && Pushing(s.pcs[t])
  {
    match s.pcs[t]
    case AcquireSlot(_, _) => if choice then s.(sync := s.sync.(slots := s.sync.slots - 1)) else s
    case NewNode(ev) =>
      s.(memory := s.memory.(nodes := s.memory.nodes[newId := Node(Some(ev), None)]),
         history := s.history.(owner := s.history.owner[newId := Private(t)]))
    case LockTail(_, _) => s.(sync := s.sync.(tailLock := HeldBy(t)))
    case DeleteNode(node) =>
      s.(memory := s.memory.(nodes := s.memory.nodes - {node}),
         history := s.history.(owner := s.history.owner - {node}))
    case GiveSlotBack => if s.capacity > 0 then s.(sync := s.sync.(slots := s.sync.slots + 1)) else s
    case UnlockRefused => s.(sync := s.sync.(tailLock := Free))
    case LinkNext(ev, node) =>
      var linker := s.memory.nodes[s.memory.tail].(next := Some(node));
      s.(memory := s.memory.(nodes := s.memory.nodes[s.memory.tail := linker]),
         history := History(s.history.linked + [node], s.history.owner[node := InQueue(|s.history.linked|)],
           s.history.enqueued + [ev], s.history.dequeued))
    case MoveTail(node) => s.(memory := s.memory.(tail := node))
    case IncDepth => s.(stats := s.stats.(depth := s.stats.depth + 1))
    case RecordDepth(depth) =>
      s.(stats := s.stats.(maxDepth := Max(s.stats.maxDepth, depth), reported := s.stats.reported + [depth]))
    case UnlockTail => s.(sync := s.sync.(tailLock := Free))
    case ReleaseItem => s.(sync := s.sync.(items := s.sync.items + 1))
    case _ => s
  }

  /** What a popper's access does to shared memory. */
  function PopAccess(s: State, t: Tid, choice: bool): State
    requires CanStep(s, t, choice, 0) && !Pushing(s.pcs[t])
  {
    match s.pcs[t]
    case AcquireItem => if choice then s.(sync := s.sync.(items := s.sync.items - 1)) else s
    case LockHead => s.(sync := s.sync.(headLock := HeldBy(t)))
    case NullNext => s.(sync := s.sync.(headLock := Free))
    case MoveHead(first, node, ev) =>
      s.(memory := s.memory.(head := node),
         history := s.history.(owner := s.history.owner[first := Private(t)], dequeued := s.history.dequeued + [ev]))
    case DecDepth(_) => s.(stats := s.stats.(depth := Decremented(s.stats.depth)))
    case UnlockHead(_) => s.(sync := s.sync.(headLock := Free))
    case DeleteOld(first) =>
      s.(memory := s.memory.(nodes := s.memory.nodes - {first}),
         history := s.history.(owner := s.history.owner - {first}))
    case ReturnSlot => if s.capacity > 0 then s.(sync := s.sync.(slots := s.sync.slots + 1)) else s
    case _ => s
  }

  function PushStep(s: State, t: Tid, choice: bool, newId: NodeId): State
    requires CanStep(s, t, choice, newId) && Pushing(s.pcs[t])
  {
    PushAccess(s, t, choice, newId).(pcs := s.pcs[t := PushPc(s, t, choice, newId)])
  }

  function PopStep(s: State, t: Tid, choice: bool): State
    requires CanStep(s, t, choice, 0) && !Pushing(s.pcs[t])
  {
    PopAccess(s, t, choice).(pcs := s.pcs[t := PopPc(s, t, choice)])
  }

  function Do(s: State, a: Action): State
    requires Enabled(s, a)
  {
    match a
    case StartPush(t, ev, policy) => s.(pcs := s.pcs[t := CheckClosedFirst(ev, policy)])
    case StartPop(t) => s.(pcs := s.pcs[t := AcquireItem])
    case Step(t, choice, newId) => if Pushing(s.pcs[t]) then PushStep(s, t, choice, newId) else PopStep(s, t, choice)
    case Close => s.(flags := s.flags.(closed := true))
    case RaisePushStop => s.(flags := s.flags.(pushStop := true))
    case RaisePopStop => s.(flags := s.flags.(popStop := true))
  }

  ghost predicate Next(s: State, s': State) {
    exists a :: Enabled(s, a) && s' == Do(s, a)
  }

  ghost predicate Reachable(s: State, run: seq<State>) {
    && run != [] && Init(run[0]) && run[|run| - 1] == s
    && forall i :: 0 < i < |run| ==> Next(run[i - 1], run[i])
  }

  // ---- The invariant ----

  /** How many threads are where, as far as semaphores and depth are concerned. */
  datatype Tally = Tally(holdSlot: int, announcing: int, holdItem: int, returning: int, uncounted: int, atDec: int)

  ghost function TallyOf(pcs: map<Tid, Pc>): Tally {
    Tally(Count(pcs, HoldsSlot), Count(pcs, Announcing), Count(pcs, HoldsItem), Count(pcs, Returning),
      Count(pcs, Uncounted), Count(pcs, AtDecDepth))
  }

  predicate Balanced(s: State, n: Tally) {
    var live := |s.history.enqueued| - |s.history.dequeued|;
    && live >= 0
    && (s.capacity > 0 ==> s.sync.slots + n.holdSlot + live + n.returning == s.capacity)
    && s.sync.items + n.holdItem + n.announcing == live
    && s.stats.depth + n.uncounted == live + n.atDec
  }

  /** Slots, item tokens and depth balance against the live events and the threads in between. */
  ghost predicate Accounting(s: State) {
    Balanced(s, TallyOf(s.pcs))
  }

  ghost predicate Locked(s: State) {
    forall t :: t in s.pcs ==> LockedAt(s, t)
  }

  ghost predicate LockedAt(s: State, t: Tid)
    requires t in s.pcs
  {
    && (InTail(s.pcs[t]) <==> s.sync.tailLock == HeldBy(t))
    && (InHead(s.pcs[t]) <==> s.sync.headLock == HeldBy(t))
  }

  /** The chain from the head: the nodes from position `|dequeued|` on, in order, with their events, ending in null. */
  ghost predicate Chain(s: State) {
    && |s.history.dequeued| <= |s.history.enqueued| && |s.history.linked| == |s.history.enqueued| + 1
    && s.history.dequeued == s.history.enqueued[..|s.history.dequeued|]
    && s.memory.head == s.history.linked[|s.history.dequeued|]
    && s.history.owner.Keys == s.memory.nodes.Keys
    && forall i :: |s.history.dequeued| <= i <= |s.history.enqueued| ==> ChainAt(s, i)
  }

  ghost predicate ChainAt(s: State, i: nat)
    requires i <= |s.history.enqueued| && |s.history.linked| == |s.history.enqueued| + 1
  {
    var id := s.history.linked[i];
    && id in s.memory.nodes && id in s.history.owner && s.history.owner[id] == InQueue(i)
    && s.memory.nodes[id].next == (if i < |s.history.enqueued| then Some(s.history.linked[i + 1]) else None)
    && (i > |s.history.dequeued| ==> s.memory.nodes[id].value == Some(s.history.enqueued[i - 1]))
  }

  /** Whoever holds the tail lock has linked a node and not yet moved the tail to it. */
  predicate MovingTail(s: State) {
    s.sync.tailLock.HeldBy? && s.sync.tailLock.owner in s.pcs && s.pcs[s.sync.tailLock.owner].MoveTail?
  }

  /** The tail is the last node, except between linking a node and moving the tail to it. */
  ghost predicate TailAt(s: State)
    requires |s.history.linked| == |s.history.enqueued| + 1
  {
    if MovingTail(s) then
      |s.history.dequeued| < |s.history.enqueued| && s.memory.tail == s.history.linked[|s.history.enqueued| - 1]
    else
      s.memory.tail == s.history.linked[|s.history.enqueued|]
  }

  ghost predicate Knows(s: State)
    requires |s.history.linked| == |s.history.enqueued| + 1
  {
    forall t :: t in s.pcs ==> KnowsAt(s, t)
  }

  /** `t` owns this node. */
  ghost predicate Owns(s: State, t: Tid, id: NodeId) {
    id in s.memory.nodes && id in s.history.owner && s.history.owner[id] == Private(t)
  }

  ghost predicate KnowsAt(s: State, t: Tid)
    requires t in s.pcs && |s.history.linked| == |s.history.enqueued| + 1
  {
    match s.pcs[t]
    case LockTail(ev, node) => Owns(s, t, node) && s.memory.nodes[node] == Node(Some(ev), None)
    case CheckClosed(ev, node) => Owns(s, t, node) && s.memory.nodes[node] == Node(Some(ev), None)
    case LinkNext(ev, node) => Owns(s, t, node) && s.memory.nodes[node] == Node(Some(ev), None)
    case DeleteNode(node) => Owns(s, t, node) && s.flags.closed
    case GiveSlotBack => s.flags.closed
    case UnlockRefused => s.flags.closed
    case MoveTail(node) => node == s.history.linked[|s.history.enqueued|]
    case RecordDepth(depth) => 1 <= depth && (s.capacity > 0 ==> depth <= s.capacity)
    case NullNext => false
    case LoadNext(first) => first == s.memory.head && |s.history.dequeued| < |s.history.enqueued|
    case ReadValue(first, node) =>
      && first == s.memory.head && |s.history.dequeued| < |s.history.enqueued|
      && node == s.history.linked[|s.history.dequeued| + 1]
    case MoveHead(first, node, ev) =>
      && first == s.memory.head && |s.history.dequeued| < |s.history.enqueued|
      && node == s.history.linked[|s.history.dequeued| + 1] && ev == s.history.enqueued[|s.history.dequeued|]
    case DecDepth(first) => Owns(s, t, first)
    case UnlockHead(first) => Owns(s, t, first)
    case DeleteOld(first) => Owns(s, t, first)
    case _ => true
  }

  ghost predicate DepthsReported(s: State) {
    && (forall i :: 0 <= i < |s.stats.reported| ==> 1 <= s.stats.reported[i] <= s.stats.maxDepth)
    && (if s.stats.reported == [] then s.stats.maxDepth == 0 else s.stats.maxDepth in s.stats.reported)
    && (s.capacity > 0 ==> s.stats.maxDepth <= s.capacity)
  }

  /** The node that a thread alone may touch: not yet linked, or no longer. */
  function OwnNode(pc: Pc): Option<NodeId> {
    match pc
    case LockTail(_, node) => Some(node)
    case CheckClosed(_, node) => Some(node)
    case LinkNext(_, node) => Some(node)
    case DeleteNode(node) => Some(node)
    case DecDepth(first) => Some(first)
    case UnlockHead(first) => Some(first)
    case DeleteOld(first) => Some(first)
    case _ => None
  }

  /** Every allocated node is in the queue, or is the one that some thread has still to link or to delete. */
  ghost predicate NothingLost(s: State)
    requires |s.history.linked| == |s.history.enqueued| + 1
  {
    forall id :: id in s.history.owner ==> HasPlace(s, id)
  }

  ghost predicate HasPlace(s: State, id: NodeId)
    requires |s.history.linked| == |s.history.enqueued| + 1 && id in s.history.owner
  {
    match s.history.owner[id]
    case InQueue(i) => |s.history.dequeued| <= i <= |s.history.enqueued| && s.history.linked[i] == id
    case Private(t) => t in s.pcs && OwnNode(s.pcs[t]) == Some(id)
  }

  ghost predicate Inv(s: State) {
    Accounting(s) && Locked(s) && Chain(s) && TailAt(s) && Knows(s) && NothingLost(s) && DepthsReported(s)
  }
}
