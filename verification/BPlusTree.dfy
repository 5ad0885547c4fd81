/** The file-backed B+ tree: every operation on the file, proved against the tree it stands for. */
module BPlusTreeFile {
  import opened Entries
  import opened Trees
  import opened TreeLeaves
  import opened TreeContents
  import opened TreeIndex
  import opened TreeChain
  import opened Bytes
  import opened BlockFile
  import opened TreeStore
  import opened TreeSplits

  datatype OpenResult = Opened | InvalidBlockSize

  datatype Path = Path(dest: int, nodes: seq<int>)

  function RootId(x: Index): int {
    if x.Empty? then 0 else x.root.id
  }

  function Depth(x: Index): int {
    if x.Empty? then 0 else x.depth
  }

  ghost predicate Stored(view: seq<Block>, x: Index) {
    |view| == Blocks(x) && (x.Rooted? ==> Holds(view, x.root))
  }

  ghost predicate Header(f: seq<byte>, blockSize: int, rootBID: int, depth: int) {
    |f| >= HEADER_SIZE && IntAt(f, 0) == blockSize && IntAt(f, 4) == rootBID && IntAt(f, 8) == depth
  }

  /** The file is an index file for `x`. */
  ghost predicate OnDisk(f: seq<byte>, blockSize: int, capacity: int, view: seq<Block>, x: Index) {
    && Dimensions(blockSize, capacity)
    && Layout(f, blockSize, capacity, view)
    && Header(f, blockSize, RootId(x), Depth(x))
    && Stored(view, x)
    && WellFormed(x, capacity)
    && IsInt32(Blocks(x))
  }

  /** No promotion looks like `NO_SPLIT`, not even that of key -1, because block ids are positive. */
  lemma PromotionIsNoSentinel(o: Outcome, h: nat, capacity: int)
    requires OutcomeShape(o, h, capacity)
    ensures Promoted(o) == NO_SPLIT <==> o.Done?
  {
  }

  /** The block of `t` holds `t`, in a form that reads back. */
  ghost predicate HasNode(view: seq<Block>, capacity: int, t: Tree) {
    capacity >= 0 && Paired(t) && HasBlock(view, t.id, BlockOf(t)) && Storable(BlockOf(t), capacity)
  }

  lemma {:induction false} DescendIds(t: Tree, key: int, d: nat, n: int)
    requires IdsWithin(t, n)
    ensures IdsWithin(Descend(t, key, d), n)
    decreases d
  {
    if d > 0 && t.Node? && Paired(t) {
      DescendIds(t.kids[Route(t.keys, key)], key, d - 1, n);
    }
  }

  /** Every node on the way down reads back. */
  lemma {:induction false} DescendedNode(view: seq<Block>, t: Tree, h: nat, capacity: int, key: int, d: nat)
    requires Holds(view, t) && Shape(t, h, capacity) && IdsWithin(t, |view|) && IsInt32(|view|)
    requires capacity >= 1 && d <= h
    ensures HasNode(view, capacity, Descend(t, key, d))
    ensures (d == h) == Descend(t, key, d).Leaf?
  {
    DescendShape(t, h, capacity, key, d);
    DescendHolds(view, t, key, d);
    DescendIds(t, key, d, |view|);
  }

  /** The node above a finished level still reads back. */
  lemma {:induction false} ClimbNode(before: seq<Block>, view: seq<Block>, root: Tree, h: nat, key: int, capacity: int,
                                    d: nat)
    requires capacity >= 1 && Exactly(before, root, h, capacity) && d < h
    requires IdsWithin(root, |before|) && IsInt32(|before|)
    requires var p := Descend(root, key, d); Paired(p) && HasBlock(view, p.id, BlockOf(p))
    ensures var p := Descend(root, key, d);
            HasNode(view, capacity, p) && p.Node? && Sorted(Separators(p)) && |p.keys| <= capacity
  {
    DescendShape(root, h, capacity, key, d);
    DescendedNode(before, root, h, capacity, key, d);
  }

  lemma {:induction false} BelowRootIsNotRoot(before: seq<Block>, root: Tree, h: nat, capacity: int, key: int, d: nat)
    requires Exactly(before, root, h, capacity) && 0 < d <= h
    ensures Descend(root, key, d).id != root.id
  {
    var t := Descend(root, key, d);
    var r := Route(root.keys, key);
    assert Uses(t, t.id) >= 1;
    DescendUses(root.kids[r], key, d - 1, t.id);
    UsesKid(root.kids, r, t.id);
    assert Uses(root, t.id) <= 1;
  }

  /** The state of the upward loop with levels `d` and below done. */
  ghost predicate Climbing(before: seq<Block>, view: seq<Block>, rootBID: int, depth: int, promoted: Entry,
                           outs: seq<Outcome>, root: Tree, key: int, d: nat)
    requires d < |outs|
  {
    && rootBID == root.id && depth == |outs| - 1
    && Reached(before, view, Descend(root, key, d), outs[d])
    && promoted == Promoted(outs[d])
  }

  /** The state once the root has split. */
  ghost predicate Grown(view: seq<Block>, rootBID: int, depth: int, promoted: Entry, o: Outcome, h: nat) {
    && o.Split? && Holds(view, Node(o.n + 1, [o.left, o.right], [o.key])) && |view| == o.n + 1
    && rootBID == o.n + 1 && depth == h + 1 && promoted == NO_SPLIT
  }

  /** One round: what `propagate` does to the blocks, the root id and the depth carries the loop one level up. */
  lemma {:induction false} ClimbRound(before: seq<Block>, view: seq<Block>, promoted: Entry, outs: seq<Outcome>,
                   root: Tree, h: nat, e: Entry, capacity: int, d: nat)
    requires capacity >= 1 && Exactly(before, root, h, capacity) && IsStorable(e) && 0 < d <= h
    requires Recorded(outs, root, h, e, capacity, |before|)
    requires Climbing(before, view, root.id, h, promoted, outs, root, e.key, d) && promoted != NO_SPLIT
    ensures var p := Descend(root, e.key, d - 1);
            && p.Node? && Paired(p) && HasBlock(view, p.id, BlockOf(p))
            && (var seps := InsertSorted(Separators(p), promoted);
                var grows := |seps| > capacity && p.id == root.id;
                var view' := PropagatedToRoot(view, p.id, p.kids[0].id, seps, capacity, grows);
                var promoted' := if |seps| <= capacity || grows then NO_SPLIT
                                 else UpperSeparator(|view|, seps, capacity);
                && grows == (d == 1 && outs[0].Split?)
                && if grows then Grown(view', |view'|, h + 1, promoted', outs[0], h)
                   else Climbing(before, view', root.id, h, promoted', outs, root, e.key, d - 1))
  {
    ClimbOne(before, view, outs, root, h, e, capacity, d);
    ClimbTold(before, outs, root, h, e, capacity, d);
    if d > 1 {
      BelowRootIsNotRoot(before, root, h, capacity, e.key, d - 1);
    }
    var p := Descend(root, e.key, d - 1);
    var seps := InsertSorted(Separators(p), promoted);
    var split := Propagated(view, p.id, p.kids[0].id, seps, capacity);
    assert PropagatedToRoot(view, p.id, p.kids[0].id, seps, capacity, false) == split;
    if |seps| > capacity && d == 1 {
      RootGrown(split, outs[0]);
    }
  }

  lemma {:induction false} NodeReads(f: seq<byte>, blockSize: int, capacity: int, view: seq<Block>, p: Tree, e: Entry)
    requires Dimensions(blockSize, capacity) && Layout(f, blockSize, capacity, view)
    requires p.Node? && HasNode(view, capacity, p) && Sorted(Separators(p))
    ensures 1 <= p.id <= |view| && InFile(f, blockSize, capacity, p.id)
    ensures var node := InternalAt(f, blockSize, capacity, p.id);
            node.firstChild == p.kids[0].id && Arranged(node.separators + [e]) == InsertSorted(Separators(p), e)
  {
    BlockReadsBack(f, blockSize, capacity, view, p.id);
    assert InternalAt(f, blockSize, capacity, p.id) == BlockOf(p);
    ArrangedAppend(Separators(p), e);
  }

  /** What `propagate` reads in that round is the node above, so that it does what the round asks for. */
  lemma {:induction false} RoundReads(before: seq<Block>, f: seq<byte>, blockSize: int, view: seq<Block>,
      promoted: Entry, outs: seq<Outcome>, root: Tree, h: nat, e: Entry, capacity: int, d: nat)
    requires capacity >= 1 && Exactly(before, root, h, capacity) && IsStorable(e) && 0 < d <= h
    requires IdsWithin(root, |before|) && IsInt32(|before|)
    requires Dimensions(blockSize, capacity) && Layout(f, blockSize, capacity, view)
    requires Recorded(outs, root, h, e, capacity, |before|)
    requires Climbing(before, view, root.id, h, promoted, outs, root, e.key, d) && promoted != NO_SPLIT
    ensures var p := Descend(root, e.key, d - 1);
            && 1 <= p.id <= |view| && InFile(f, blockSize, capacity, p.id)
            && (var node := InternalAt(f, blockSize, capacity, p.id);
                var seps := Arranged(node.separators + [promoted]);
                var grows := |seps| > capacity && p.id == root.id;
                var view' := PropagatedToRoot(view, p.id, node.firstChild, seps, capacity, grows);
                var promoted' := if |seps| <= capacity || grows then NO_SPLIT
                                 else UpperSeparator(|view|, seps, capacity);
                LoopState(before, view', if grows then |view'| else root.id, if grows then h + 1 else h, promoted',
                  outs, root, h, e.key, d - 1))
  {
    var p := Descend(root, e.key, d - 1);
    ClimbRound(before, view, promoted, outs, root, h, e, capacity, d);
    ClimbNode(before, view, root, h, e.key, capacity, d - 1);
    NodeReads(f, blockSize, capacity, view, p, promoted);
  }

  lemma PropagateChanges(f: seq<byte>, blockSize: int, capacity: int, view: seq<Block>, entry: Entry, blockId: int,
                         rootBID: int)
    requires Dimensions(blockSize, capacity) && Layout(f, blockSize, capacity, view) && 1 <= blockId <= |view|
    ensures InFile(f, blockSize, capacity, blockId)
    ensures var node := InternalAt(f, blockSize, capacity, blockId);
            var seps := Arranged(node.separators + [entry]);
            var grows := |seps| > capacity && blockId == rootBID;
            ChangedOnly(view, PropagatedToRoot(view, blockId, node.firstChild, seps, capacity, grows), blockId)
  {
    BlockInFile(f, blockSize, capacity, view, blockId);
    var node := InternalAt(f, blockSize, capacity, blockId);
    var seps := Arranged(node.separators + [entry]);
    PropagatedChanges(view, blockId, node.firstChild, seps, capacity, |seps| > capacity && blockId == rootBID);
  }

  /** The upward loop with levels `i` and below done. */
  ghost predicate LoopState(before: seq<Block>, view: seq<Block>, rootBID: int, depth: int, promoted: Entry,
                            outs: seq<Outcome>, root: Tree, h: nat, key: int, i: nat)
    requires |outs| == h + 1 && i <= h
  {
    if i == 0 && outs[0].Split? then Grown(view, rootBID, depth, promoted, outs[0], h)
    else Climbing(before, view, rootBID, depth, promoted, outs, root, key, i)
  }

  /** The loop starts with the leaf done, which reads back before that. */
  lemma {:induction false} LeafStep(before: seq<Block>, outs: seq<Outcome>, root: Tree, h: nat, e: Entry, capacity: int)
    requires capacity >= 1 && h >= 1 && Exactly(before, root, h, capacity)
    requires IdsWithin(root, |before|) && IsInt32(|before|)
    requires Recorded(outs, root, h, e, capacity, |before|)
    ensures var leaf := Descend(root, e.key, h);
            && leaf.Leaf? && HasNode(before, capacity, leaf) && Sorted(leaf.entries) && |leaf.entries| <= capacity
            && IdsWithin(leaf, |before|)
            && outs[h] == Trees.InsertLeaf(leaf, e, capacity, |before|)
            && LoopState(before, LeafInserted(before, leaf.id, InsertSorted(leaf.entries, e), leaf.next, capacity),
                         root.id, h, Promoted(outs[h]), outs, root, h, e.key, h)
  {
    assert RecordedAt(outs, root, e, capacity, |before|, h);
    DescendShape(root, h, capacity, e.key, h);
    DescendedNode(before, root, h, capacity, e.key, h);
    DescendIds(root, e.key, h, |before|);
    LevelSeparate(before, root, h, capacity, e.key, h);
  }

  /** When the loop stops, the blocks hold the outcome at the root. */
  lemma {:induction false} LoopEnds(before: seq<Block>, view: seq<Block>, rootBID: int, depth: int, promoted: Entry,
                 outs: seq<Outcome>, root: Tree, h: nat, e: Entry, capacity: int, i: nat)
    requires capacity >= 1 && IsStorable(e) && Exactly(before, root, h, capacity)
    requires Recorded(outs, root, h, e, capacity, |before|)
    requires i <= h && (i == 0 || promoted == NO_SPLIT)
    requires LoopState(before, view, rootBID, depth, promoted, outs, root, h, e.key, i)
    ensures if outs[0].Split? then Grown(view, rootBID, depth, NO_SPLIT, outs[0], h)
            else rootBID == outs[0].tree.id && depth == h && |view| == outs[0].n && Holds(view, outs[0].tree)
  {
    if !(i == 0 && outs[0].Split?) {
      assert RecordedAt(outs, root, e, capacity, |before|, i) && RecordedAt(outs, root, e, capacity, |before|, 0);
      LevelShape(before, root, h, e, capacity, i);
      PromotionIsNoSentinel(outs[i], h - i, capacity);
      DoneToTop(before, view, outs, root, h, e, capacity, i);
      LevelShape(before, root, h, e, capacity, 0);
    }
  }

  /** The index that an insertion takes itself to be adding to. */
  function Counted(x: Index, numOfNodes: int): Index {
    if numOfNodes == 0 then Empty else x
  }

  /** A block count with which the file can go from `x` to `after`: the right one, or for a tree with internal nodes any
      that does not make it a lone leaf, if it needs no new block. */
  predicate CountSuffices(count: int, x: Index, after: Index) {
    count == Blocks(x) || (2 <= count <= Blocks(x) && Blocks(after) == Blocks(x))
  }

  /** An insertion uses no new block exactly when its leaf has a free slot. */
  lemma {:induction false} NoSplitAtLeaf(t: Tree, h: nat, e: Entry, capacity: int, n: nat)
    requires capacity >= 1 && Shape(t, h, capacity) && IsStorable(e)
    ensures var leaf := Descend(t, e.key, h);
            leaf.Leaf? && (InsertInto(t, e, capacity, n).n == n <==> |leaf.entries| < capacity)
            && (|leaf.entries| < capacity ==> InsertInto(t, e, capacity, n).Done?)
  {
    SplitsExactlyWhen(t, h, e, capacity, n);
    FullLevelsMeans(t, h, e.key, capacity, h);
    DescendShape(t, h, capacity, e.key, h);
    assert FullFrom(t, h, e.key, capacity, h) <==> FullAt(t, e.key, capacity, h);
  }

  /** What an insertion into `x` leaves: one new block for each full node at the lower end of the path, which is halved,
      and a root of two children if all of the path was full. */
  ghost predicate HalvedWhereFull(view: seq<Block>, x: Index, e: Entry, capacity: int) {
    x.Rooted? ==>
      var m := FullLevels(x.root, x.depth, e.key, capacity);
      && |view| == x.n + m + (if m == x.depth + 1 then 1 else 0)
      && PathHalved(view, x.root, x.depth, e.key, capacity, x.n, m)
      && (m == x.depth + 1 ==> TwoChildren(view, |view|, x.root.id, x.n + m))
  }

  /** The `m` lowest nodes of the path have been halved, their second halves being in the blocks behind the `n` old
      ones: first that of the leaf, then that of its parent, and so on. */
  ghost predicate PathHalved(view: seq<Block>, t: Tree, h: nat, key: int, capacity: int, n: int, m: nat) {
    forall d: nat :: h - m < d <= h ==> Halved(view, Descend(t, key, d).id, n + h - d + 1, capacity)
  }

  ghost predicate TwoChildren(view: seq<Block>, id: int, left: int, right: int) {
    && 1 <= id <= |view| && view[id - 1].InternalBlock? && view[id - 1].firstChild == left
    && |view[id - 1].separators| == 1 && view[id - 1].separators[0].value == right
  }

  /** A tree is stored as the outcome at the root, with a new root above it if that has split. */
  lemma OutcomeStored(view: seq<Block>, depth: nat, o: Outcome)
    requires Stored(view, Rerooted(depth, o))
    ensures HoldsOutcome(view, o) && |view| == o.n + (if o.Split? then 1 else 0)
    ensures o.Split? ==> TwoChildren(view, |view|, o.left.id, o.right.id)
  {
    if o.Split? {
      var root := Rerooted(depth, o).root;
      assert Holds(view, root.kids[0]) && Holds(view, root.kids[1]);
    }
  }

  /** In the blocks of any index file of the tree after the insertion, splits are in the middle. */
  lemma {:induction false} AddHalves(view: seq<Block>, x: Index, e: Entry, capacity: int)
    requires capacity >= 1 && WellFormed(x, capacity) && IsStorable(e) && Stored(view, Add(x, e, capacity))
    ensures HalvedWhereFull(view, x, e, capacity)
  {
    if x.Rooted? {
      assert x.n >= 0 by { LeafIffOneBlock(x, capacity); }
      RootHalves(view, x.root, x.depth, e, capacity, x.n, InsertInto(x.root, e, capacity, x.n));
    }
  }

  lemma {:induction false} RootHalves(view: seq<Block>, t: Tree, h: nat, e: Entry, capacity: int, n: nat, o: Outcome)
    requires capacity >= 1 && Shape(t, h, capacity) && IsStorable(e) && o == InsertInto(t, e, capacity, n)
    requires Stored(view, Rerooted(h, o))
    ensures HalvedWhereFull(view, Rooted(t, h, n), e, capacity)
  {
    OutcomeStored(view, h, o);
    OutcomeHalves(view, t, h, e, capacity, n);
    SplitsExactlyWhen(t, h, e, capacity, n);
  }

  lemma {:induction false} OutcomeHalves(view: seq<Block>, t: Tree, h: nat, e: Entry, capacity: int, n: nat)
    requires capacity >= 1 && Shape(t, h, capacity) && IsStorable(e)
    requires HoldsOutcome(view, InsertInto(t, e, capacity, n))
    ensures PathHalved(view, t, h, e.key, capacity, n, FullLevels(t, h, e.key, capacity))
  {
    forall d: nat | h - FullLevels(t, h, e.key, capacity) < d <= h
      ensures Halved(view, Descend(t, e.key, d).id, n + h - d + 1, capacity)
    {
      SplitBlocks(view, t, h, e, capacity, n, d);
    }
  }

  /** A count that is one too low, but not of a lone leaf. Ids must not run out for twice as many blocks more as the
      tree is deep. */
  predicate OneShort(count: int, x: Index) {
    x.Rooted? && count == x.n - 1 && count >= 2 && IsInt32(x.n + 2 * x.depth)
  }

  /** An insertion below the root either uses no new block or splits its leaf. */
  lemma {:induction false} NewBlocks(x: Index, e: Entry, capacity: int)
    requires capacity >= 1 && WellFormed(x, capacity) && x.Rooted? && IsStorable(e)
    ensures x.n >= 0 && var o := InsertInto(x.root, e, capacity, x.n);
            && x.n <= o.n && (o.n == x.n <==> Blocks(Add(x, e, capacity)) == Blocks(x))
  {
    LeafIffOneBlock(x, capacity);
    InsertShape(x.root, x.depth, e, capacity, x.n);
    NoSplitAtLeaf(x.root, x.depth, e, capacity, x.n);
  }

  /** The path ids are blocks of the file, and the leaf is none of the nodes above it. */
  lemma {:induction false} PathInView(view: seq<Block>, root: Tree, h: nat, capacity: int, key: int, nodes: seq<int>)
    requires Exactly(view, root, h, capacity) && |nodes| == h + 1
    requires forall d :: 0 <= d <= h ==> nodes[d] == Descend(root, key, d).id
    ensures forall d :: 0 <= d <= h ==> 1 <= nodes[d] <= |view|
    ensures forall d :: 0 <= d < h ==> nodes[d] != nodes[h]
  {
    forall d | 0 <= d <= h ensures 1 <= nodes[d] <= |view| {
      DescendHolds(view, root, key, d);
    }
    forall d | 0 <= d < h ensures nodes[d] != nodes[h] {
      LeafBelow(view, root, h, capacity, key, d);
    }
  }

  lemma {:induction false} LeafBelow(view: seq<Block>, root: Tree, h: nat, capacity: int, key: int, d: nat)
    requires Exactly(view, root, h, capacity) && d < h
    ensures Descend(root, key, d).id != Descend(root, key, h).id
  {
    var p, leaf := Descend(root, key, d), Descend(root, key, h);
    DescendShape(root, h, capacity, key, d);
    DescendShape(root, h, capacity, key, h);
    DescendHolds(view, root, key, d);
    DescendHolds(view, root, key, h);
    assert BlockOf(p).InternalBlock? && BlockOf(leaf).LeafBlock?;
  }

  /** Block `id` is a leaf that does not link to `next`. */
  ghost predicate Mislinked(view: seq<Block>, capacity: int, id: int, next: int) {
    && 1 <= id <= |view| && view[id - 1].LeafBlock? && view[id - 1].next != next
    && capacity >= 0 && Storable(view[id - 1], capacity)
  }

  lemma MislinkedKept(view: seq<Block>, view': seq<Block>, capacity: int, id: int, next: int)
    requires Mislinked(view, capacity, id, next) && SameBlock(view, view', id)
    ensures Mislinked(view', capacity, id, next)
  {
  }

  /** A leaf that splits into block `n` instead of `n + 1` does not link to `n + 1`. */
  lemma {:induction false} HalfMislinked(before: seq<Block>, view: seq<Block>, t: Tree, e: Entry, capacity: int)
    requires capacity >= 1 && t.Leaf? && HasNode(before, capacity, t) && IdsWithin(t, |before|) && IsStorable(e)
    requires |t.entries| == capacity && IsInt32(|before|) && |view| == |before|
    requires var es, mid := InsertSorted(t.entries, e), SplitIndex(capacity);
             && HasBlock(view, |view|, LeafBlock(es[mid..], t.next))
             && (t.id != |view| ==> HasBlock(view, t.id, LeafBlock(es[..mid], |view|)))
    ensures Mislinked(view, capacity, t.id, |before| + 1)
  {
    var es, p := InsertSorted(t.entries, e), Position(t.entries, e);
    SplitHalves(capacity);
    assert forall i :: 0 <= i < |es| ==>
        es[i] == if i < p then t.entries[i] else if i == p then e else t.entries[i - 1];
    assert Pairs(BlockOf(t)) == t.entries;
    assert forall i :: 0 <= i < |es| ==> IsStorable(es[i]);
  }

  lemma Appears(all: multiset<Tree>, l: Tree, t: multiset<Tree>, below: multiset<Tree>, left: Tree)
    requires all + multiset{l} == t + below && left in below && left != l
    ensures left in all
  {
    assert (all + multiset{l})[left] == (t + below)[left];
  }

  /** In the tree after the insertion the left half of the leaf links to block `n + 1`. */
  lemma {:induction false} LeftHalfLinks(x: Index, e: Entry, capacity: int) returns (left: Tree)
    requires capacity >= 1 && WellFormed(x, capacity) && x.Rooted? && IsStorable(e)
    requires Blocks(Add(x, e, capacity)) > Blocks(x)
    ensures left in Leaves(Add(x, e, capacity).root)
    ensures left.Leaf? && left.id == Descend(x.root, e.key, x.depth).id && left.next == x.n + 1
  {
    var l, o := LeafFor(x.root, e.key), InsertInto(x.root, e, capacity, x.n);
    NewBlocks(x, e, capacity);
    NoSplitAtLeaf(x.root, x.depth, e, capacity, x.n);
    LeafForIsDescend(x.root, x.depth, capacity, e.key);
    InsertExchanges(x.root, x.depth, e, capacity, x.n);
    var below := InsertLeaf(l, e, capacity, x.n);
    left := below.left;
    assert OutcomeLeaves(below) == [below.left, below.right];
    assert l.next <= x.n by { DescendIds(x.root, e.key, x.depth, x.n); }
    Appears(multiset(OutcomeLeaves(o)), l, multiset(Leaves(x.root)), multiset(OutcomeLeaves(below)), left);
    if o.Split? { NewRootLeaves(o); }
  }

  /** A file in which that leaf does not link to `n + 1` is no index file of the tree after the insertion. */
  lemma {:induction false} MislinkedIsNoIndex(f: seq<byte>, blockSize: int, capacity: int, view: seq<Block>, x: Index,
                                              e: Entry)
    requires Dimensions(blockSize, capacity) && Layout(f, blockSize, capacity, view)
    requires WellFormed(x, capacity) && x.Rooted? && IsStorable(e) && Blocks(Add(x, e, capacity)) > Blocks(x)
    requires Mislinked(view, capacity, Descend(x.root, e.key, x.depth).id, x.n + 1)
    ensures forall v :: !OnDisk(f, blockSize, capacity, v, Add(x, e, capacity))
  {
    var x' := Add(x, e, capacity);
    var left := LeftHalfLinks(x, e, capacity);
    BlockReadsBack(f, blockSize, capacity, view, left.id);
    forall v ensures !OnDisk(f, blockSize, capacity, v, x') {
      if OnDisk(f, blockSize, capacity, v, x') { LinkReadsBack(f, blockSize, capacity, v, x', left); }
    }
  }

  lemma {:induction false} LinkReadsBack(f: seq<byte>, blockSize: int, capacity: int, view: seq<Block>, x: Index,
                                         l: Tree)
    requires OnDisk(f, blockSize, capacity, view, x) && x.Rooted? && l.Leaf? && l in Leaves(x.root)
    ensures InFile(f, blockSize, capacity, l.id) && LeafAt(f, blockSize, capacity, l.id) == LeafBlock(l.entries, l.next)
  {
    LeafHasNode(view, x.root, x.depth, capacity, l);
    BlockReadsBack(f, blockSize, capacity, view, l.id);
  }

  lemma AddedInRange(x: Index, capacity: int)
    requires capacity >= 1 && WellFormed(x, capacity) && IsInt32(Blocks(x))
    ensures IsInt32(RootId(x)) && IsInt32(Depth(x))
  {
    if x.Rooted? { LeafIffOneBlock(x, capacity); }
  }

  lemma SizeAtLeastHeader(f: seq<byte>, blockSize: int, capacity: int, view: seq<Block>)
    requires Dimensions(blockSize, capacity) && Layout(f, blockSize, capacity, view)
    ensures |f| >= HEADER_SIZE
  {
  }

  lemma {:induction false} LeafForIsDescend(t: Tree, h: nat, capacity: int, key: int)
    requires Shape(t, h, capacity)
    ensures LeafFor(t, key) == Descend(t, key, h)
    decreases h
  {
    if h > 0 { LeafForIsDescend(t.kids[Route(t.keys, key)], h - 1, capacity, key); }
  }

  lemma {:induction false} LeafHasNode(view: seq<Block>, t: Tree, h: nat, capacity: int, l: Tree)
    requires Holds(view, t) && Shape(t, h, capacity) && IdsWithin(t, |view|) && IsInt32(|view|) && capacity >= 1
    requires l in Leaves(t)
    ensures HasNode(view, capacity, l)
    decreases t
  {
    if t.Node? {
      var i := LeafOfKid(t.kids, l);
      LeafHasNode(view, t.kids[i], h - 1, capacity, l);
    }
  }

  lemma {:induction false} LeafOfKid(ts: seq<Tree>, l: Tree) returns (i: nat)
    requires l in LeavesOf(ts)
    ensures i < |ts| && l in Leaves(ts[i])
  {
    if l in Leaves(ts[0]) {
      i := 0;
    } else {
      i := LeafOfKid(ts[1..], l);
      i := i + 1;
    }
  }

  /** A suffix of a chain is a chain. */
  lemma {:induction false} SuffixChained(all: seq<Tree>, j: nat)
    requires j <= |all| && Chained(all, 0)
    ensures Chained(all[j..], 0)
  {
    forall k | 0 <= k < |all| - j ensures Linked(all[j..], k, 0) {
      assert Linked(all, j + k, 0);
    }
  }

  /** The leaves that a range starting at `first` walks through, all of them stored. */
  lemma {:induction false} RangeLeaves(view: seq<Block>, x: Index, capacity: int, chain: seq<Tree>, first: int)
      returns (ls: seq<Tree>)
    requires capacity >= 1 && x.Rooted? && WellFormed(x, capacity) && Stored(view, x) && IsInt32(x.n)
    requires ChainOf(chain, x.root)
    ensures ls == chain[IndexOf(chain, LeafFor(x.root, first))..]
    ensures ls != [] && ls[0] == Descend(x.root, first, x.depth) && Chained(ls, 0)
    ensures forall k :: 0 <= k < |ls| ==> HasNode(view, capacity, ls[k])
  {
    LeafForIsLeaf(x.root, x.depth, first, capacity);
    LeafForIsDescend(x.root, x.depth, capacity, first);
    assert LeafFor(x.root, first) in multiset(chain);
    var j := IndexOf(chain, LeafFor(x.root, first));
    SuffixChained(chain, j);
    ls := chain[j..];
    forall k | 0 <= k < |ls| ensures HasNode(view, capacity, ls[k]) {
      assert ls[k] in multiset(chain);
      LeafHasNode(view, x.root, x.depth, capacity, ls[k]);
    }
  }

  /** Integer division as the code does it: towards zero. */
  function TruncatedQuotient(a: int, b: int): int
    requires b > 0
  {
    if a >= 0 then a / b else -(-a / b)
  }

  /** Whether blocks of this size end in bytes that no slot uses. */
  predicate HasTail(blockSize: int) {
    (blockSize - 4) % 8 != 0
  }

  /** The number of whole blocks in a file that holds `x`: without its tail the last block is not whole. */
  function WholeBlocks(x: Index, blockSize: int): int {
    if x.Rooted? && HasTail(blockSize) then Blocks(x) - 1 else Blocks(x)
  }

  lemma ReopenedCount(f: seq<byte>, blockSize: int, capacity: int, view: seq<Block>, x: Index)
    requires blockSize >= 12 && |f| >= HEADER_SIZE
    ensures OnDisk(f, blockSize, capacity, view, x) ==>
        && (|f| - HEADER_SIZE) / blockSize == WholeBlocks(x, blockSize)
        && 0 <= (|f| - HEADER_SIZE) / blockSize && IsInt32((|f| - HEADER_SIZE) / blockSize)
  {
    if OnDisk(f, blockSize, capacity, view, x) && x.Rooted? {
      LeafIffOneBlock(x, capacity);
      BlockCountFromSize(blockSize, capacity, x.n);
    }
  }

  lemma FirstWordKept(f: seq<byte>, g: seq<byte>)
    requires |f| >= HEADER_SIZE && |g| >= HEADER_SIZE && f[..HEADER_SIZE] == g[..HEADER_SIZE]
    ensures IntAt(f, 0) == IntAt(g, 0)
  {
  }

  lemma HeaderWritten(f: seq<byte>, rootBID: int, depth: int)
    requires |f| >= HEADER_SIZE && IsInt32(rootBID) && IsInt32(depth)
    ensures Header(Overwrite(f, 4, EncodeWords([rootBID, depth])), IntAt(f, 0), rootBID, depth)
  {
    var data := EncodeWords([rootBID, depth]);
    var g := Overwrite(f, 4, data);
    OverwriteFrame(f, 4, data, 0, 4);
    WordsReadBack(g, 4, [rootBID, depth]);
    assert WordsAt(g, 4, 2)[0] == IntAt(g, 4) && WordsAt(g, 4, 2)[1] == IntAt(g, 8);
  }

  /** Writing root id and depth into the header leaves every block alone. */
  lemma MetadataKeepsLayout(f: seq<byte>, blockSize: int, capacity: int, view: seq<Block>, rootBID: int, depth: int)
    requires Dimensions(blockSize, capacity) && Layout(f, blockSize, capacity, view) && IsInt32(rootBID)
    requires IsInt32(depth)
    ensures var g := Overwrite(f, 4, EncodeWords([rootBID, depth]));
            && HEADER_SIZE <= |f| && Layout(g, blockSize, capacity, view) && Header(g, IntAt(f, 0), rootBID, depth)
  {
    var data := EncodeWords([rootBID, depth]);
    var g := Overwrite(f, 4, data);
    if |view| >= 1 { OffsetInFile(blockSize, capacity, 1, |view|); }
    HeaderWritten(f, rootBID, depth);
    forall id | 1 <= id <= |view| ensures BlockInPlace(g, blockSize, capacity, view, id) {
      assert BlockInPlace(f, blockSize, capacity, view, id);
      OffsetInFile(blockSize, capacity, id, |view|);
      OverwriteFrame(f, 4, data, Offset(blockSize, id), Offset(blockSize, id) + Used(capacity));
    }
  }

  lemma {:induction false} WordsAtIndex(f: seq<byte>, off: nat, n: nat, i: nat)
    requires off + 4 * n <= |f| && i < n
    ensures WordsAt(f, off, n)[i] == IntAt(f, off + 4 * i)
    decreases i
  {
    if i > 0 {
      WordsAtIndex(f, off + 4, n - 1, i - 1);
    }
  }

  lemma {:induction false} WriteNextWord(f: seq<byte>, off: nat, ws: seq<int>, v: int)
    ensures Overwrite(Overwrite(f, off, EncodeWords(ws)), off + 4 * |ws|, EncodeInt(v))
         == Overwrite(f, off, EncodeWords(ws + [v]))
  {
    EncodeWordsSum(ws, [v]);
    assert EncodeWords([v]) == EncodeInt(v) + EncodeWords([]);
  }

  lemma {:induction false} PairsGrow(written: seq<int>, pairs: seq<Entry>, i: nat)
    requires i < |pairs|
    ensures written + PairWords(pairs[..i]) + [pairs[i].key, pairs[i].value] == written + PairWords(pairs[..i + 1])
  {
    assert pairs[..i + 1][..i] == pairs[..i];
  }

  lemma ZerosGrow(written: seq<int>, words: seq<int>, n: nat)
    ensures written + (words + ZeroWords(n)) + [0, 0] == written + (words + ZeroWords(n + 2))
  {
    assert ZeroWords(n) + [0, 0] == ZeroWords(n + 2);
  }

  class BPlusTree {
    var blockSize: int
    var rootBID: int
    var depth: int
    var capacity: int
    var numOfNodes: int
    /** The bytes behind `binFile_`, and its position. */
    var file: seq<byte>
    var pos: nat
    /** The blocks in the file and the tree they make up. */
    ghost var view: seq<Block>
    ghost var index: Index

    ghost predicate Laid()
      reads `blockSize, `capacity, `file, `view
    {
      Dimensions(blockSize, capacity) && Layout(file, blockSize, capacity, view)
    }

    /** An open session on the index file of `index`. The block count may be too low. */
    ghost predicate Loaded()
      reads `blockSize, `rootBID, `depth, `capacity, `numOfNodes, `file, `view, `index
    {
      && OnDisk(file, blockSize, capacity, view, index)
      && rootBID == RootId(index) && depth == Depth(index)
      && (index.Empty? ==> numOfNodes == 0)
    }

    /** The count tells an empty index from any other, which is all that reading needs. */
    ghost predicate Readable()
      reads `blockSize, `rootBID, `depth, `capacity, `numOfNodes, `file, `view, `index
    {
      Loaded() && (numOfNodes == 0 ==> index.Empty?)
    }

    /** The count is right, which inserting needs. */
    ghost predicate Valid()
      reads `blockSize, `rootBID, `depth, `capacity, `numOfNodes, `file, `view, `index
    {
      Loaded() && numOfNodes == Blocks(index)
    }

    constructor ()
      ensures blockSize == rootBID == depth == capacity == numOfNodes == 0
    {
      blockSize, rootBID, depth, capacity, numOfNodes := 0, 0, 0, 0, 0;
      file, pos := [], 0;
      view, index := [], Empty;
    }

    /** Opens an index file. The block count comes from the file size: for a file that holds the blocks of `x` it is
        right exactly when there are no blocks or blocks have no unused tail. If it is wrong the session can still read
        unless the tree is one block, which then counts as none. */
    method GetMetadata(disk: seq<byte>, ghost blocks: seq<Block>, ghost x: Index) returns (r: OpenResult)
      requires |disk| >= HEADER_SIZE
      modifies this
      ensures file == disk && Header(disk, blockSize, rootBID, depth)
      ensures r == (if blockSize < 12 then InvalidBlockSize else Opened)
      ensures r.Opened? ==> Dimensions(blockSize, capacity)
      ensures r.Opened? && OnDisk(disk, blockSize, capacity, blocks, x) ==>
                && Loaded() && index == x && numOfNodes == WholeBlocks(x, blockSize)
                && (Valid() <==> x.Empty? || !HasTail(blockSize))
                && (Readable() <==> x.Empty? || !HasTail(blockSize) || Blocks(x) != 1)
    {
      file := disk;
      pos := 0;
      blockSize := ReadInt();
      rootBID := ReadInt();
      depth := ReadInt();
      capacity := TruncatedQuotient(blockSize - 4, 8);
      view, index := blocks, x;
      if capacity <= 0 {
        return InvalidBlockSize;
      }
      assert Dimensions(blockSize, capacity);
      numOfNodes := CountBlocks(blocks, x);
      return Opened;
    }

    /** The number of whole blocks in the file. */
    method CountBlocks(ghost blocks: seq<Block>, ghost x: Index) returns (n: int)
      requires |file| >= HEADER_SIZE && blockSize >= 12
      ensures OnDisk(file, blockSize, capacity, blocks, x) ==> n == WholeBlocks(x, blockSize)
    {
      var fileSize := |file|;
      ReopenedCount(file, blockSize, capacity, blocks, x);
      n := CastToInt((fileSize - HEADER_SIZE) / blockSize);
    }

    /** A conversion to `int`; a value outside the range wraps around. */
    static method CastToInt(v: int) returns (r: int)
      ensures IsInt32(r) && (IsInt32(v) ==> r == v)
    {
      r := DecodeInt(EncodeInt(v));
      if IsInt32(v) { DecodesEncoded(v); }
    }

    // ---- Integers at the file position ----

    method ReadInt() returns (value: int)
      requires pos + 4 <= |file|
      modifies `pos
      ensures value == IntAt(file, old(pos)) && pos == old(pos) + 4
    {
      value := IntAt(file, pos);
      pos := pos + 4;
    }

    method WriteInt(value: int)
      modifies `file, `pos
      ensures file == Overwrite(old(file), old(pos), EncodeInt(value)) && pos == old(pos) + 4
    {
      file := Overwrite(file, pos, EncodeInt(value));
      pos := pos + 4;
    }

    /** Reads the next of `n` words from `off` on. */
    method ReadWord(ghost off: nat, ghost n: nat, ghost i: nat) returns (value: int)
      requires off + 4 * n <= |file| && i < n && pos == off + 4 * i
      modifies `pos
      ensures value == WordsAt(file, off, n)[i] && pos == off + 4 * (i + 1)
    {
      WordsAtIndex(file, off, n, i);
      value := ReadInt();
    }

    /** Reads the `i`th pair of words from `off` on. */
    method ReadEntry(ghost off: nat, ghost n: nat, ghost i: nat) returns (entry: Entry)
      requires off + 4 * n <= |file| && 2 * i + 1 < n && pos == off + 8 * i
      modifies `pos
      ensures entry == Entry(WordsAt(file, off, n)[2 * i], WordsAt(file, off, n)[2 * i + 1]) && pos == off + 8 * (i + 1)
    {
      var key := ReadWord(off, n, 2 * i);
      var value := ReadWord(off, n, 2 * i + 1);
      entry := Entry(key, value);
    }

    /** Writes one more word behind those written from `off` on. */
    method WriteWord(value: int, ghost f: seq<byte>, ghost off: nat, ghost ws: seq<int>)
      requires file == Overwrite(f, off, EncodeWords(ws)) && pos == off + 4 * |ws|
      modifies `file, `pos
      ensures file == Overwrite(f, off, EncodeWords(ws + [value])) && pos == off + 4 * |ws + [value]|
    {
      WriteNextWord(f, off, ws, value);
      WriteInt(value);
    }

    method Seek(offset: int)
      requires offset >= 0
      modifies `pos
      ensures pos == offset
    {
      pos := offset;
    }

    // ---- Blocks ----

    method ReadLeaf(blockId: int) returns (node: Block)
      requires InFile(file, blockSize, capacity, blockId)
      modifies `pos
      ensures node == LeafAt(file, blockSize, capacity, blockId)
    {
      var off := Offset(blockSize, blockId);
      ghost var ws := WordsAt(file, off, 2 * capacity + 1);
      Seek(off);
      var entries: seq<Entry> := [];
      for i := 0 to capacity
        invariant pos == off + 8 * i
        invariant entries == OccupiedPairs(ws, i)
      {
        var entry := ReadEntry(off, 2 * capacity + 1, i);
        OccupiedStep(ws, i);
        if entry.key != 0 {
          entries := entries + [entry];
        }
      }
      var next := ReadWord(off, 2 * capacity + 1, 2 * capacity);
      node := LeafBlock(entries, next);
    }

    method ReadInternal(blockId: int) returns (node: Block)
      requires InFile(file, blockSize, capacity, blockId)
      modifies `pos
      ensures node == InternalAt(file, blockSize, capacity, blockId)
    {
      var off := Offset(blockSize, blockId);
      ghost var ws := WordsAt(file, off, 2 * capacity + 1);
      Seek(off);
      var firstChild := ReadWord(off, 2 * capacity + 1, 0);
      assert ws[1..] == WordsAt(file, off + 4, 2 * capacity);
      var separators := ReadSeparators(off + 4);
      node := InternalBlock(firstChild, separators);
    }

    /** The slots of an internal node, up to the first with key 0. */
    method ReadSeparators(ghost off: nat) returns (separators: seq<Entry>)
      requires capacity >= 0 && pos == off && off + 8 * capacity <= |file|
      modifies `pos
      ensures separators == LeadingPairs(WordsAt(file, off, 2 * capacity), capacity)
    {
      ghost var ps := WordsAt(file, off, 2 * capacity);
      separators := [];
      var i := 0;
      while i < capacity
        invariant 0 <= i <= capacity && pos == off + 8 * i
        invariant separators == LeadingPairs(ps, i) && |separators| == i
      {
        var separator := ReadEntry(off, 2 * capacity, i);
        if separator.key == 0 {
          LeadingStops(ps, i, capacity);
          break;
        }
        separators := separators + [separator];
        i := i + 1;
      }
    }

    /** Writes one more pair of words. */
    method WritePair(key: int, value: int, ghost f: seq<byte>, ghost off: nat, ghost ws: seq<int>)
      requires file == Overwrite(f, off, EncodeWords(ws)) && pos == off + 4 * |ws|
      modifies `file, `pos
      ensures file == Overwrite(f, off, EncodeWords(ws + [key, value])) && pos == off + 4 * |ws + [key, value]|
    {
      WriteWord(key, f, off, ws);
      WriteWord(value, f, off, ws + [key]);
      assert ws + [key] + [value] == ws + [key, value];
    }

    method WritePairs(pairs: seq<Entry>, ghost written: seq<int>, ghost f: seq<byte>, ghost off: nat)
      requires |pairs| <= capacity
      requires file == Overwrite(f, off, EncodeWords(written)) && pos == off + 4 * |written|
      modifies `file, `pos
      ensures var ws := written + (PairWords(pairs) + ZeroWords(2 * (capacity - |pairs|)));
              file == Overwrite(f, off, EncodeWords(ws)) && pos == off + 4 * |ws|
    {
      ghost var ws := written;
      for i := 0 to |pairs|
        invariant ws == written + PairWords(pairs[..i])
        invariant file == Overwrite(f, off, EncodeWords(ws)) && pos == off + 4 * |ws|
      {
        WritePair(pairs[i].key, pairs[i].value, f, off, ws);
        PairsGrow(written, pairs, i);
        ws := ws + [pairs[i].key, pairs[i].value];
      }
      assert pairs[..|pairs|] == pairs;
      for i := |pairs| to capacity
        invariant ws == written + (PairWords(pairs) + ZeroWords(2 * (i - |pairs|)))
        invariant file == Overwrite(f, off, EncodeWords(ws)) && pos == off + 4 * |ws|
      {
        WritePair(0, 0, f, off, ws);
        ZerosGrow(written, PairWords(pairs), 2 * (i - |pairs|));
        ws := ws + [0, 0];
      }
    }

    method WriteLeaf(blockId: int, entries: seq<Entry>, next: int)
      requires Laid() && 1 <= blockId <= |view| + 1 && |entries| <= capacity
      modifies `file, `pos, `view
      ensures Laid() && view == Put(old(view), blockId, LeafBlock(entries, next))
      ensures |old(file)| >= HEADER_SIZE && file[..HEADER_SIZE] == old(file)[..HEADER_SIZE]
    {
      ghost var b, f := LeafBlock(entries, next), file;
      var off := Offset(blockSize, blockId);
      Seek(off);
      WritePairs(entries, [], f, off);
      ghost var slots := PairWords(entries) + ZeroWords(2 * (capacity - |entries|));
      assert [] + slots == slots;
      WriteWord(next, f, off, slots);
      assert slots + [next] == Words(b, capacity);
      WriteKeepsLayout(f, blockSize, capacity, view, blockId, b);
      view := Put(view, blockId, b);
    }

    method WriteInternal(blockId: int, firstChild: int, separators: seq<Entry>)
      requires Laid() && 1 <= blockId <= |view| + 1 && |separators| <= capacity
      modifies `file, `pos, `view
      ensures Laid() && view == Put(old(view), blockId, InternalBlock(firstChild, separators))
      ensures |old(file)| >= HEADER_SIZE && file[..HEADER_SIZE] == old(file)[..HEADER_SIZE]
    {
      ghost var b, f := InternalBlock(firstChild, separators), file;
      var off := Offset(blockSize, blockId);
      Seek(off);
      WriteWord(firstChild, f, off, []);
      assert [] + [firstChild] == [firstChild];
      WritePairs(separators, [firstChild], f, off);
      assert file == WriteBlock(f, blockSize, capacity, blockId, b);
      WriteKeepsLayout(f, blockSize, capacity, view, blockId, b);
      view := Put(view, blockId, b);
    }

    /** Reading a block that is known to hold node `t`. */
    method LoadLeaf(blockId: int, ghost t: Tree) returns (node: Block)
      requires Laid() && blockId == t.id && t.Leaf? && HasNode(view, capacity, t)
      modifies `pos
      ensures node == LeafBlock(t.entries, t.next)
    {
      BlockReadsBack(file, blockSize, capacity, view, blockId);
      node := ReadLeaf(blockId);
    }

    method LoadInternal(blockId: int, ghost t: Tree) returns (node: Block)
      requires Laid() && blockId == t.id && t.Node? && HasNode(view, capacity, t)
      modifies `pos
      ensures node == InternalBlock(t.kids[0].id, Separators(t))
    {
      BlockReadsBack(file, blockSize, capacity, view, blockId);
      node := ReadInternal(blockId);
    }

    // ---- Searching ----

    /** The child of node `t` to go on with: past every separator that is not greater than `key`. */
    method NextChild(blockId: int, key: int, ghost t: Tree) returns (current: int)
      requires Laid() && blockId == t.id && t.Node? && HasNode(view, capacity, t)
      modifies `pos
      ensures current == t.kids[Route(t.keys, key)].id
    {
      var node := LoadInternal(blockId, t);
      current := node.firstChild;
      var i := 0;
      while i < |node.separators|
        invariant 0 <= i <= |node.separators| && current == t.kids[i].id
        invariant forall j :: 0 <= j < i ==> t.keys[j] <= key
      {
        if node.separators[i].key > key {
          break;
        }
        current := node.separators[i].value;
        i := i + 1;
      }
    }

    /** One level of the descent below `root`. */
    method NextLevel(blockId: int, key: int, ghost root: Tree, ghost h: nat, ghost level: nat) returns (current: int)
      requires Laid() && IsInt32(|view|) && level < h && blockId == Descend(root, key, level).id
      requires Holds(view, root) && Shape(root, h, capacity) && IdsWithin(root, |view|)
      modifies `pos
      ensures current == Descend(root, key, level + 1).id
    {
      DescendedNode(view, root, h, capacity, key, level);
      DescendOne(root, h, capacity, key, level);
      current := NextChild(blockId, key, Descend(root, key, level));
    }

    /** The block ids from the root down to the leaf that can hold `key`. */
    method GetPath(key: int, ghost root: Tree) returns (path: Path)
      requires Laid() && IsInt32(|view|) && rootBID == root.id && depth >= 0
      requires Holds(view, root) && Shape(root, depth, capacity) && IdsWithin(root, |view|)
      modifies `pos
      ensures |path.nodes| == depth + 1
      ensures forall d :: 0 <= d <= depth ==> path.nodes[d] == Descend(root, key, d).id
      ensures path.dest == path.nodes[depth]
    {
      var nodes: seq<int> := [];
      var current := rootBID;
      var level := 0;
      while level <= depth
        invariant 0 <= level <= depth && |nodes| == level
        invariant current == Descend(root, key, level).id
        invariant forall d :: 0 <= d < level ==> nodes[d] == Descend(root, key, d).id
        decreases depth - level
      {
        nodes := nodes + [current];
        if level == depth {
          break;
        }
        current := NextLevel(current, key, root, depth, level);
        level := level + 1;
      }
      path := Path(current, nodes);
    }

    method Search(key: int) returns (value: int)
      requires Loaded()
      modifies `pos
      ensures Readable() ==> value == TreeIndex.Search(index, key)
      ensures !Readable() ==> value == -1
    {
      if numOfNodes == 0 {
        return -1;
      }
      LeafIffOneBlock(index, capacity);
      var path := GetPath(key, index.root);
      ghost var leaf := Descend(index.root, key, depth);
      DescendedNode(view, index.root, index.depth, capacity, key, depth);
      FindDescends(index.root, key, depth);
      var node := LoadLeaf(path.dest, leaf);
      var i := 0;
      while i < |node.entries|
        invariant 0 <= i <= |node.entries| && Lookup(node.entries[i..], key) == Lookup(node.entries, key)
      {
        if node.entries[i].key == key {
          return node.entries[i].value;
        }
        assert node.entries[i..][1..] == node.entries[i + 1..];
        i := i + 1;
      }
      return -1;
    }

    /** The entries with first <= key <= last, read along the leaf chain, in whatever order its keys are. */
    method RangeSearch(first: int, last: int, ghost chain: seq<Tree>) returns (entries: seq<Entry>)
      requires Loaded() && (index.Rooted? ==> ChainOf(chain, index.root))
      modifies `pos
      ensures entries == if Readable() then RangeAlong(chain, index, first, last) else []
    {
      if numOfNodes == 0 {
        return [];
      }
      assert index.Rooted?;
      assert depth >= 0 && IsInt32(|view|) by { LeafIffOneBlock(index, capacity); }
      ghost var ls := RangeLeaves(view, index, capacity, chain, first);
      var path := GetPath(first, index.root);
      entries := WalkLeaves(path.dest, first, last, ls);
    }

    /** Along the chain from the first of the leaves `ls` to its end, or to the first key beyond `last`. */
    method WalkLeaves(start: int, first: int, last: int, ghost ls: seq<Tree>) returns (entries: seq<Entry>)
      requires Laid() && ls != [] && start == ls[0].id && Chained(ls, 0)
      requires forall k :: 0 <= k < |ls| ==> HasNode(view, capacity, ls[k])
      modifies `pos
      ensures entries == InRange(Until(Concat(ls), last), first, last)
    {
      entries := [];
      var leafId := start;
      ghost var k := 0;
      while leafId != 0
        invariant 0 <= k <= |ls| && leafId == (if k < |ls| then ls[k].id else 0)
        invariant entries == InRange(Concat(ls[..k]), first, last) && AllUpTo(Concat(ls[..k]), last)
        decreases |ls| - k
      {
        assert Linked(ls, k, 0);
        var leaf := LoadLeaf(leafId, ls[k]);
        var found, beyond := ScanLeaf(leaf.entries, first, last);
        entries := entries + found;
        if beyond {
          WalkStops(ls, k, first, last);
          return;
        }
        WalkGoesOn(ls, k, first, last);
        leafId := leaf.next;
        k := k + 1;
        assert k < |ls| ==> HasNode(view, capacity, ls[k]);
      }
      assert ls[..|ls|] == ls;
      WalkEnds(Concat(ls), last);
    }

    /** The entries of one leaf from `first` on, up to the first key beyond `last`. */
    static method ScanLeaf(es: seq<Entry>, first: int, last: int) returns (found: seq<Entry>, beyond: bool)
      ensures found == InRange(Until(es, last), first, last)
      ensures beyond <==> !AllUpTo(es, last)
    {
      found := [];
      var i := 0;
      while i < |es|
        invariant 0 <= i <= |es| && found == InRange(es[..i], first, last) && AllUpTo(es[..i], last)
      {
        if es[i].key > last {
          ScanStops(es, i, last);
          return found, true;
        }
        ScanStep(es, i, first, last);
        if es[i].key >= first {
          found := found + [es[i]];
        }
        i := i + 1;
      }
      assert es[..|es|] == es;
      WalkEnds(es, last);
      beyond := false;
    }

    // ---- Insertion ----

    method WriteMetadata()
      requires Laid() && IsInt32(rootBID) && IsInt32(depth)
      modifies `file, `pos
      ensures Laid() && |old(file)| >= HEADER_SIZE && Header(file, IntAt(old(file), 0), rootBID, depth)
    {
      MetadataKeepsLayout(file, blockSize, capacity, view, rootBID, depth);
      ghost var f := file;
      Seek(4);
      WriteWord(rootBID, f, 4, []);
      WriteWord(depth, f, 4, [] + [rootBID]);
      assert [] + [rootBID] + [depth] == [rootBID, depth];
    }

    /** The first leaf. A block 1 that the count has missed is overwritten. */
    method InsertEmpty(entry: Entry)
      requires Laid() && |view| <= 1
      modifies `file, `pos, `view, `numOfNodes, `rootBID
      ensures Laid() && view == [LeafBlock([entry], 0)] && numOfNodes == 1 && rootBID == 1
      ensures |old(file)| >= HEADER_SIZE && file[..HEADER_SIZE] == old(file)[..HEADER_SIZE]
    {
      numOfNodes := 1;
      rootBID := 1;
      WriteLeaf(rootBID, [entry], 0);
    }

    /** Insertion into the leaf `t`, in its own block or in two. The second block is the one behind those counted: with
        a count that is too low it overwrites a block. */
    method InsertLeaf(entry: Entry, blockId: int, ghost t: Tree) returns (promoted: Entry)
      requires Laid() && 1 <= blockId <= |view| && 0 <= numOfNodes <= |view|
      requires t.Leaf? && t.id == blockId && HasNode(view, capacity, t)
      requires Sorted(t.entries) && |t.entries| <= capacity
      modifies `file, `pos, `view, `numOfNodes
      ensures Laid() && numOfNodes == old(numOfNodes) + if |t.entries| < capacity then 0 else 1
      ensures old(numOfNodes) == |old(view)| || |t.entries| < capacity ==>
                && view == LeafInserted(old(view), blockId, InsertSorted(t.entries, entry), t.next, capacity)
                && promoted == Promoted(Trees.InsertLeaf(t, entry, capacity, |old(view)|))
      ensures old(numOfNodes) < |old(view)| && |t.entries| == capacity ==>
                && |view| == |old(view)| && promoted == Entry(promoted.key, numOfNodes)
                && var es, mid := InsertSorted(t.entries, entry), SplitIndex(capacity);
                && HasBlock(view, numOfNodes, LeafBlock(es[mid..], t.next))
                && (blockId != numOfNodes ==> HasBlock(view, blockId, LeafBlock(es[..mid], numOfNodes)))
      ensures |old(file)| >= HEADER_SIZE && file[..HEADER_SIZE] == old(file)[..HEADER_SIZE]
    {
      var leaf := LoadLeaf(blockId, t);
      var entries := AppendAndSort(leaf.entries, entry);
      if |entries| <= capacity {
        WriteLeaf(blockId, entries, leaf.next);
        return NO_SPLIT;
      }
      var mid := SplitIndex(capacity);
      var left, right := entries[..mid], entries[mid..];
      numOfNodes := numOfNodes + 1;
      var newBlockId := numOfNodes;
      WriteLeaf(blockId, left, newBlockId);
      WriteLeaf(newBlockId, right, leaf.next);
      return Entry(right[0].key, newBlockId);
    }

    /** The two blocks of a split internal node. */
    method WriteHalves(blockId: int, firstChild: int, separators: seq<Entry>) returns (newBlockId: int)
      requires Laid() && numOfNodes == |view| && 1 <= blockId <= |view| && |separators| == capacity + 1
      modifies `file, `pos, `view, `numOfNodes
      ensures Laid() && numOfNodes == |view| == newBlockId == |old(view)| + 1
      ensures var mid := SplitIndex(capacity);
              view == Put(Put(old(view), blockId, InternalBlock(firstChild, separators[..mid])),
                          newBlockId, InternalBlock(separators[mid].value, separators[mid + 1..]))
      ensures |old(file)| >= HEADER_SIZE && file[..HEADER_SIZE] == old(file)[..HEADER_SIZE]
    {
      var mid := SplitIndex(capacity);
      var left, right := separators[..mid], separators[mid + 1..];
      var rightFirstChild := separators[mid].value;
      numOfNodes := numOfNodes + 1;
      newBlockId := numOfNodes;
      WriteInternal(blockId, firstChild, left);
      WriteInternal(newBlockId, rightFirstChild, right);
    }

    /** A new root over the two halves of the old one. */
    method GrowRoot(left: int, key: int, right: int)
      requires Laid() && numOfNodes == |view|
      modifies `file, `pos, `view, `numOfNodes, `rootBID, `depth
      ensures Laid() && numOfNodes == |view| == rootBID && depth == old(depth) + 1
      ensures view == Put(old(view), |old(view)| + 1, InternalBlock(left, [Entry(key, right)]))
      ensures |old(file)| >= HEADER_SIZE && file[..HEADER_SIZE] == old(file)[..HEADER_SIZE]
    {
      numOfNodes := numOfNodes + 1;
      var newRootId := numOfNodes;
      WriteInternal(newRootId, left, [Entry(key, right)]);
      rootBID := newRootId;
      depth := depth + 1;
    }

    /** An overfull internal node in two blocks; a split root gets a new root above it. */
    method SplitInternal(blockId: int, firstChild: int, separators: seq<Entry>) returns (promoted: Entry)
      requires Laid() && numOfNodes == |view| && 1 <= blockId <= |view| && |separators| == capacity + 1
      modifies `file, `pos, `view, `numOfNodes, `rootBID, `depth
      ensures Laid() && numOfNodes == |view|
      ensures view == PropagatedToRoot(old(view), blockId, firstChild, separators, capacity, blockId == old(rootBID))
      ensures if blockId == old(rootBID)
              then promoted == NO_SPLIT && rootBID == |view| && depth == old(depth) + 1
              else
                && promoted == UpperSeparator(|old(view)|, separators, capacity)
                && rootBID == old(rootBID) && depth == old(depth)
      ensures |old(file)| >= HEADER_SIZE && file[..HEADER_SIZE] == old(file)[..HEADER_SIZE]
    {
      ghost var written := PropagatedToRoot(view, blockId, firstChild, separators, capacity, blockId == rootBID);
      var promotedKey := separators[SplitIndex(capacity)].key;
      var newBlockId := WriteHalves(blockId, firstChild, separators);
      if blockId == rootBID {
        GrowRoot(blockId, promotedKey, newBlockId);
        promoted := NO_SPLIT;
      } else {
        promoted := Entry(promotedKey, newBlockId);
      }
      assert view == written;
    }

    /** A promoted separator goes into the internal node that is read from the block. */
    method Propagate(entry: Entry, blockId: int) returns (promoted: Entry)
      requires Laid() && numOfNodes == |view| && 1 <= blockId <= |view|
      modifies `file, `pos, `view, `numOfNodes, `rootBID, `depth
      ensures Laid() && numOfNodes == |view| && InFile(old(file), blockSize, capacity, blockId)
      ensures var node := InternalAt(old(file), blockSize, capacity, blockId);
              var seps := Arranged(node.separators + [entry]);
              var grows := |seps| > capacity && blockId == old(rootBID);
              && view == PropagatedToRoot(old(view), blockId, node.firstChild, seps, capacity, grows)
              && |seps| <= capacity + 1
              && SplitAtMiddle(old(view), view, blockId, node.firstChild, seps, capacity, grows)
              && promoted == (if |seps| <= capacity || grows then NO_SPLIT
                              else UpperSeparator(|old(view)|, seps, capacity))
              && rootBID == (if grows then |view| else old(rootBID))
              && depth == (if grows then old(depth) + 1 else old(depth))
      ensures |old(file)| >= HEADER_SIZE && file[..HEADER_SIZE] == old(file)[..HEADER_SIZE]
    {
      BlockInFile(file, blockSize, capacity, view, blockId);
      var node := ReadInternal(blockId);
      var separators := AppendAndArrange(node.separators, entry);
      promoted := WriteSeparators(blockId, node.firstChild, separators);
    }

    /** The separators fit the block, or the node is split. */
    method WriteSeparators(blockId: int, firstChild: int, seps: seq<Entry>) returns (promoted: Entry)
      requires Laid() && numOfNodes == |view| && 1 <= blockId <= |view| && |seps| <= capacity + 1
      modifies `file, `pos, `view, `numOfNodes, `rootBID, `depth
      ensures Laid() && numOfNodes == |view|
      ensures var grows := |seps| > capacity && blockId == old(rootBID);
              && view == PropagatedToRoot(old(view), blockId, firstChild, seps, capacity, grows)
              && SplitAtMiddle(old(view), view, blockId, firstChild, seps, capacity, grows)
              && promoted == (if |seps| <= capacity || grows then NO_SPLIT
                              else UpperSeparator(|old(view)|, seps, capacity))
              && rootBID == (if grows then |view| else old(rootBID))
              && depth == (if grows then old(depth) + 1 else old(depth))
      ensures |old(file)| >= HEADER_SIZE && file[..HEADER_SIZE] == old(file)[..HEADER_SIZE]
    {
      PropagatedInMiddle(view, blockId, firstChild, seps, capacity, |seps| > capacity && blockId == rootBID);
      if |seps| <= capacity {
        ghost var before := view;
        WriteInternal(blockId, firstChild, seps);
        assert view == PropagatedToRoot(before, blockId, firstChild, seps, capacity, false);
        promoted := NO_SPLIT;
      } else {
        promoted := SplitInternal(blockId, firstChild, seps);
      }
    }

    /** Insertion while the root `t` is a leaf. */
    method InsertIntoOnlyOne(entry: Entry, ghost t: Tree)
      requires Laid() && numOfNodes == |view| == 1 && rootBID == 1
      requires t.Leaf? && t.id == 1 && HasNode(view, capacity, t) && Sorted(t.entries) && t.next == 0
      modifies `file, `pos, `view, `numOfNodes, `rootBID, `depth
      ensures Laid() && numOfNodes == |view|
      ensures var o := Trees.InsertLeaf(t, entry, capacity, 1);
              if o.Done? then
                HoldsOutcome(view, o) && |view| == 1 && rootBID == 1 && depth == old(depth)
              else
                && Holds(view, Node(3, [o.left, o.right], [o.key]))
                && |view| == 3 && rootBID == 3 && depth == old(depth) + 1
      ensures |old(file)| >= HEADER_SIZE && file[..HEADER_SIZE] == old(file)[..HEADER_SIZE]
    {
      var root := LoadLeaf(rootBID, t);
      var entries := AppendAndSort(root.entries, entry);
      ghost var o := Trees.InsertLeaf(t, entry, capacity, 1);
      if |entries| <= capacity {
        WriteLeaf(rootBID, entries, root.next);
        assert HasBlock(view, 1, BlockOf(o.tree));
      } else {
        var mid := SplitIndex(capacity);
        var left, right := entries[..mid], entries[mid..];
        var leftId := rootBID;
        numOfNodes := numOfNodes + 1;
        var rightId := numOfNodes;
        WriteLeaf(leftId, left, rightId);
        WriteLeaf(rightId, right, 0);
        assert HasBlock(view, 1, BlockOf(o.left)) && HasBlock(view, 2, BlockOf(o.right));
        RootGrown(view, o);
        GrowRoot(leftId, right[0].key, rightId);
      }
    }

    /** One round of the upward loop. `good` says that the blocks have been as they should be so far. */
    method Climb(promotedBelow: Entry, blockId: int, ghost good: bool, ghost before: seq<Block>,
        ghost outs: seq<Outcome>, ghost root: Tree, ghost h: nat, ghost e: Entry, ghost d: nat)
        returns (promoted: Entry)
      requires Laid() && numOfNodes == |view| && 1 <= blockId <= |view|
      requires good ==>
                 && IsInt32(|before|) && IsStorable(e) && 0 < d <= h
                 && Exactly(before, root, h, capacity) && IdsWithin(root, |before|)
                 && Recorded(outs, root, h, e, capacity, |before|)
                 && Climbing(before, view, rootBID, depth, promotedBelow, outs, root, e.key, d)
                 && promotedBelow != NO_SPLIT && blockId == Descend(root, e.key, d - 1).id
      modifies `file, `pos, `view, `numOfNodes, `rootBID, `depth
      ensures Laid() && numOfNodes == |view| && ChangedOnly(old(view), view, blockId)
      ensures old(depth) <= depth <= old(depth) + 1 && (rootBID == old(rootBID) || rootBID == |view|)
      ensures good ==> LoopState(before, view, rootBID, depth, promoted, outs, root, h, e.key, d - 1)
      ensures |old(file)| >= HEADER_SIZE && file[..HEADER_SIZE] == old(file)[..HEADER_SIZE]
    {
      if good { RoundReads(before, file, blockSize, view, promotedBelow, outs, root, h, e, capacity, d); }
      PropagateChanges(file, blockSize, capacity, view, promotedBelow, blockId, rootBID);
      promoted := Propagate(promotedBelow, blockId);
    }

    /** Up the path as long as blocks split. */
    method ClimbPath(promotedAtLeaf: Entry, nodes: seq<int>, ghost good: bool, ghost before: seq<Block>,
        ghost outs: seq<Outcome>, ghost root: Tree, ghost h: nat, ghost e: Entry)
      requires Laid() && (numOfNodes == |view| || promotedAtLeaf == NO_SPLIT)
      requires h >= 1 && |nodes| == h + 1 && forall d :: 0 <= d <= h ==> 1 <= nodes[d] <= |view|
      requires forall d :: 0 <= d < h ==> nodes[d] != nodes[h]
      requires good ==>
                 && IsInt32(|before|) && IsStorable(e)
                 && Exactly(before, root, h, capacity) && IdsWithin(root, |before|)
                 && Recorded(outs, root, h, e, capacity, |before|)
                 && (forall d :: 0 <= d <= h ==> nodes[d] == Descend(root, e.key, d).id)
                 && LoopState(before, view, rootBID, depth, promotedAtLeaf, outs, root, h, e.key, h)
      modifies `file, `pos, `view, `numOfNodes, `rootBID, `depth
      ensures Laid() && numOfNodes - |view| == old(numOfNodes) - |old(view)|
      ensures SameBlock(old(view), view, nodes[h]) && |old(view)| <= |view| <= |old(view)| + 2 * h
      ensures old(depth) <= depth <= old(depth) + h && (rootBID == old(rootBID) || 1 <= rootBID <= |view|)
      ensures good ==>
                if outs[0].Split? then Grown(view, rootBID, depth, NO_SPLIT, outs[0], h)
                else rootBID == outs[0].tree.id && depth == h && |view| == outs[0].n && Holds(view, outs[0].tree)
      ensures |old(file)| >= HEADER_SIZE && file[..HEADER_SIZE] == old(file)[..HEADER_SIZE]
    {
      var promoted := promotedAtLeaf;
      var i := |nodes| - 1;
      assert |file| >= HEADER_SIZE by { SizeAtLeastHeader(file, blockSize, capacity, view); }
      while i > 0 && promoted != NO_SPLIT
        invariant 0 <= i <= h && Laid() && numOfNodes - |view| == old(numOfNodes) - |old(view)|
        invariant numOfNodes == |view| || promoted == NO_SPLIT
        invariant SameBlock(old(view), view, nodes[h]) && |old(view)| <= |view| <= |old(view)| + 2 * (h - i)
        invariant old(depth) <= depth <= old(depth) + (h - i) && (rootBID == old(rootBID) || 1 <= rootBID <= |view|)
        invariant good ==> LoopState(before, view, rootBID, depth, promoted, outs, root, h, e.key, i)
        invariant |old(file)| >= HEADER_SIZE && file[..HEADER_SIZE] == old(file)[..HEADER_SIZE]
      {
        ghost var was := view;
        promoted := Climb(promoted, nodes[i - 1], good, before, outs, root, h, e, i);
        assert SameBlock(was, view, nodes[h]);
        i := i - 1;
      }
      if good { LoopEnds(before, view, rootBID, depth, promoted, outs, root, h, e, capacity, i); }
    }

    /** Down to the leaf, and into it. `good`: the count is right, or the leaf does not split. */
    method InsertDown(entry: Entry, ghost good: bool, ghost outs: seq<Outcome>, ghost root: Tree, ghost h: nat)
        returns (nodes: seq<int>, promoted: Entry)
      requires Laid() && IsInt32(|view|) && 0 <= numOfNodes <= |view|
      requires rootBID == root.id && depth == h >= 1 && IsStorable(entry)
      requires Exactly(view, root, h, capacity) && IdsWithin(root, |view|)
      requires Recorded(outs, root, h, entry, capacity, |view|)
      requires Descend(root, entry.key, h).Leaf?
      requires good <==> numOfNodes == |view| || |Descend(root, entry.key, h).entries| < capacity
      requires good || numOfNodes == |view| - 1
      modifies `file, `pos, `view, `numOfNodes
      ensures Laid() && |old(view)| <= |view|
      ensures |nodes| == h + 1 && forall d :: 0 <= d <= h ==> nodes[d] == Descend(root, entry.key, d).id
      ensures forall d :: 0 <= d <= h ==> 1 <= nodes[d] <= |old(view)|
      ensures forall d :: 0 <= d < h ==> nodes[d] != nodes[h]
      ensures good ==>
                && numOfNodes - |view| == old(numOfNodes) - |old(view)|
                && (numOfNodes == |view| || promoted == NO_SPLIT)
                && LoopState(old(view), view, rootBID, depth, promoted, outs, root, h, entry.key, h)
      ensures !good ==>
                && numOfNodes == |view| == |old(view)|
                && Mislinked(view, capacity, Descend(root, entry.key, h).id, |old(view)| + 1)
      ensures |old(file)| >= HEADER_SIZE && file[..HEADER_SIZE] == old(file)[..HEADER_SIZE]
    {
      ghost var before := view;
      ghost var leaf := Descend(root, entry.key, h);
      var path := GetPath(entry.key, root);
      nodes := path.nodes;
      PathInView(before, root, h, capacity, entry.key, nodes);
      LeafStep(before, outs, root, h, entry, capacity);
      promoted := InsertLeaf(entry, nodes[|nodes| - 1], leaf);
      if !good { HalfMislinked(before, view, leaf, entry, capacity); }
    }

    /** Insertion into a tree with internal nodes: down to the leaf, then up. If the count is one too low and the leaf
        splits, its block ends up with a wrong link. */
    method InsertBelow(entry: Entry, ghost root: Tree, ghost h: nat) returns (ghost o: Outcome)
      requires Laid() && IsInt32(|view|)
      requires rootBID == root.id && depth == h >= 1 && IsStorable(entry)
      requires Exactly(view, root, h, capacity) && IdsWithin(root, |view|)
      requires 0 <= numOfNodes <= |view|
      requires numOfNodes >= |view| - 1 || InsertInto(root, entry, capacity, |view|).n == |view|
      modifies `file, `pos, `view, `numOfNodes, `rootBID, `depth
      ensures Laid() && o == InsertInto(root, entry, capacity, |old(view)|)
      ensures old(numOfNodes) == |old(view)| || o.n == |old(view)| ==>
                && numOfNodes - |view| == old(numOfNodes) - |old(view)|
                && if o.Split? then Grown(view, rootBID, depth, NO_SPLIT, o, h)
                   else rootBID == o.tree.id && depth == h && |view| == o.n && Holds(view, o.tree)
      ensures old(numOfNodes) != |old(view)| && o.n != |old(view)| ==>
                && Mislinked(view, capacity, Descend(root, entry.key, h).id, |old(view)| + 1)
                && |view| <= |old(view)| + 2 * h && h <= depth <= 2 * h && 1 <= rootBID <= |view|
      ensures |old(file)| >= HEADER_SIZE && file[..HEADER_SIZE] == old(file)[..HEADER_SIZE]
    {
      ghost var before := view;
      ghost var outs := Record(root, h, entry, capacity, |before|);
      o := outs[0];
      ghost var good := numOfNodes == |view| || o.n == |view|;
      NoSplitAtLeaf(root, h, entry, capacity, |view|);
      var nodes, promoted := InsertDown(entry, good, outs, root, h);
      assert nodes[0] == rootBID;
      ghost var down := view;
      ClimbPath(promoted, nodes, good, before, outs, root, h, entry);
      if !good { MislinkedKept(down, view, capacity, nodes[h], |before| + 1); }
    }

    /** The three cases of an insertion, told apart by the number of blocks. */
    method InsertCases(entry: Entry, ghost x: Index)
      requires Laid() && Stored(view, x) && WellFormed(x, capacity) && IsInt32(Blocks(x))
      requires rootBID == RootId(x) && depth == Depth(x) && IsStorable(entry)
      requires numOfNodes == 0 ==> Blocks(x) <= 1
      requires var seen := Counted(x, numOfNodes);
               CountSuffices(numOfNodes, seen, Add(seen, entry, capacity)) || OneShort(numOfNodes, x)
      modifies `file, `pos, `view, `numOfNodes, `rootBID, `depth
      ensures Laid()
      ensures var seen := Counted(x, old(numOfNodes));
              var x' := Add(seen, entry, capacity);
              if CountSuffices(old(numOfNodes), seen, x') then
                && numOfNodes - |view| == old(if numOfNodes == 0 then 0 else numOfNodes - |view|)
                && Stored(view, x') && rootBID == RootId(x') && depth == Depth(x')
              else
                && Mislinked(view, capacity, Descend(x.root, entry.key, x.depth).id, x.n + 1)
                && |view| <= x.n + 2 * x.depth && 0 <= depth <= 2 * x.depth && 1 <= rootBID <= |view|
      ensures |old(file)| >= HEADER_SIZE && file[..HEADER_SIZE] == old(file)[..HEADER_SIZE]
    {
      if x.Rooted? { LeafIffOneBlock(x, capacity); }
      if numOfNodes == 0 {
        InsertEmpty(entry);
      } else if numOfNodes == 1 {
        InsertIntoOnlyOne(entry, x.root);
      } else {
        NewBlocks(x, entry, capacity);
        ghost var o := InsertBelow(entry, x.root, x.depth);
      }
    }

    /** Inserts an entry: afterwards the file is an index file for the tree with the entry added. With a count that is
        too low that holds as long as nothing splits, unless the count is 0: then the one leaf there is makes room for
        a new one. If something splits while the count is one too low, the file is no index file of that tree. */
    method Insert(entry: Entry)
      requires Loaded() && IsStorable(entry) && (numOfNodes == 0 ==> Blocks(index) <= 1)
      requires var seen := Counted(index, numOfNodes);
               && IsInt32(Blocks(Add(seen, entry, capacity)))
               && (CountSuffices(numOfNodes, seen, Add(seen, entry, capacity)) || OneShort(numOfNodes, index))
      modifies `file, `pos, `view, `numOfNodes, `rootBID, `depth, `index
      ensures var seen := Counted(old(index), old(numOfNodes));
              var x' := Add(seen, entry, capacity);
              if CountSuffices(old(numOfNodes), seen, x') then
                && Loaded() && index == x' && HalvedWhereFull(view, seen, entry, capacity)
                && numOfNodes - Blocks(index) == old(if numOfNodes == 0 then 0 else numOfNodes - Blocks(index))
              else
                forall v :: !OnDisk(file, blockSize, capacity, v, x')
    {
      ghost var x, f := index, file;
      ghost var seen := Counted(x, numOfNodes);
      ghost var x' := Add(seen, entry, capacity);
      ghost var good := CountSuffices(numOfNodes, seen, x');
      AddWellFormed(seen, entry, capacity);
      InsertCases(entry, index);
      if good { AddedInRange(x', capacity); }
      FirstWordKept(f, file);
      WriteMetadata();
      index := x';
      if good {
        assert OnDisk(file, blockSize, capacity, view, x');
        AddHalves(view, seen, entry, capacity);
      } else {
        MislinkedIsNoIndex(file, blockSize, capacity, view, x, entry);
      }
    }
  }

  lemma {:induction false} FindDescends(t: Tree, key: int, d: nat)
    requires Descend(t, key, d).Leaf?
    ensures Find(t, key) == Lookup(Descend(t, key, d).entries, key)
    decreases d
  {
    if d > 0 && t.Node? && Paired(t) {
      FindDescends(t.kids[Route(t.keys, key)], key, d - 1);
    }
  }

  lemma OccupiedStep(ws: seq<int>, i: nat)
    requires 2 * i + 2 <= |ws|
    ensures OccupiedPairs(ws, i + 1)
         == OccupiedPairs(ws, i) + if ws[2 * i] != 0 then [Entry(ws[2 * i], ws[2 * i + 1])] else []
  {
  }

  lemma {:induction false} LeadingStops(ws: seq<int>, i: nat, k: nat)
    requires i < k && 2 * k <= |ws| && ws[2 * i] == 0 && |LeadingPairs(ws, i)| == i
    ensures LeadingPairs(ws, k) == LeadingPairs(ws, i)
    decreases k
  {
    if i < k - 1 {
      LeadingStops(ws, i, k - 1);
    }
  }
}
