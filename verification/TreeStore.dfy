/** Trees as blocks: which blocks hold a tree, and what the upward split loop of an insertion keeps. */
module TreeStore {
  import opened Entries
  import opened Trees
  import opened BlockFile

  /** No split to hand up; the code tells it apart from a promotion by comparing both fields. */
  const NO_SPLIT := Entry(-1, -1)

  function BlockOf(t: Tree): Block
    requires Paired(t)
  {
    if t.Leaf? then LeafBlock(t.entries, t.next) else InternalBlock(t.kids[0].id, Separators(t))
  }

  ghost predicate HasBlock(view: seq<Block>, id: int, b: Block) {
    1 <= id <= |view| && view[id - 1] == b
  }

  /** The blocks hold `t`: every node is in the block of its id. */
  ghost predicate Holds(view: seq<Block>, t: Tree) {
    && Paired(t)
    && HasBlock(view, t.id, BlockOf(t))
    && (t.Node? ==> forall i :: 0 <= i < |t.kids| ==> Holds(view, t.kids[i]))
  }

  ghost predicate HoldsOutcome(view: seq<Block>, o: Outcome) {
    Holds(view, Kept(o)) && (o.Split? ==> Holds(view, o.right))
  }

  /** The two views agree on every block that `t` uses. */
  ghost predicate Agree(view: seq<Block>, view': seq<Block>, t: Tree) {
    forall id :: Uses(t, id) > 0 && 1 <= id <= |view| ==> SameBlock(view, view', id)
  }

  ghost predicate SameBlock(view: seq<Block>, view': seq<Block>, id: int) {
    1 <= id <= |view| && id <= |view'| && view'[id - 1] == view[id - 1]
  }

  lemma {:induction false} UsesKid(ts: seq<Tree>, i: nat, id: int)
    requires i < |ts|
    ensures Uses(ts[i], id) <= UsesIn(ts, id)
  {
    if i > 0 {
      UsesKid(ts[1..], i - 1, id);
    }
  }

  lemma {:induction false} UsesTwoKids(ts: seq<Tree>, i: nat, j: nat, id: int)
    requires i < |ts| && j < |ts| && i != j
    ensures Uses(ts[i], id) + Uses(ts[j], id) <= UsesIn(ts, id)
  {
    if i == 0 {
      UsesKid(ts[1..], j - 1, id);
    } else if j == 0 {
      UsesKid(ts[1..], i - 1, id);
    } else {
      UsesTwoKids(ts[1..], i - 1, j - 1, id);
    }
  }

  /** A tree stays where it is when none of its blocks changes. */
  lemma {:induction false} HoldsFrame(view: seq<Block>, view': seq<Block>, t: Tree)
    requires Holds(view, t) && Agree(view, view', t)
    ensures Holds(view', t)
  {
    assert Uses(t, t.id) > 0;
    assert SameBlock(view, view', t.id);
    if t.Node? {
      forall i | 0 <= i < |t.kids| ensures Holds(view', t.kids[i]) {
        forall id | Uses(t.kids[i], id) > 0 && 1 <= id <= |view| ensures SameBlock(view, view', id) {
          UsesKid(t.kids, i, id);
          assert Uses(t, id) > 0;
        }
        HoldsFrame(view, view', t.kids[i]);
      }
    }
  }

  // ---- The path from the root to the leaf ----

  /** The subtree that the descent for `key` reaches after `d` levels. */
  ghost function Descend(t: Tree, key: int, d: nat): Tree
    decreases d
  {
    if d == 0 || t.Leaf? || !Paired(t) then t else Descend(t.kids[Route(t.keys, key)], key, d - 1)
  }

  /** One more level of the descent. */
  lemma {:induction false} DescendOne(t: Tree, h: nat, capacity: int, key: int, d: nat)
    requires Shape(t, h, capacity) && d < h
    ensures var p := Descend(t, key, d);
            && p.Node? && Shape(p, h - d, capacity)
            && Descend(t, key, d + 1) == p.kids[Route(p.keys, key)]
    decreases d
  {
    if d > 0 {
      DescendOne(t.kids[Route(t.keys, key)], h - 1, capacity, key, d - 1);
    }
  }

  lemma {:induction false} DescendShape(t: Tree, h: nat, capacity: int, key: int, d: nat)
    requires Shape(t, h, capacity) && d <= h
    ensures Shape(Descend(t, key, d), h - d, capacity)
    decreases d
  {
    if d > 0 {
      DescendShape(t.kids[Route(t.keys, key)], h - 1, capacity, key, d - 1);
    }
  }

  lemma {:induction false} DescendHolds(view: seq<Block>, t: Tree, key: int, d: nat)
    requires Holds(view, t)
    ensures Holds(view, Descend(t, key, d))
    decreases d
  {
    if d > 0 && t.Node? {
      DescendHolds(view, t.kids[Route(t.keys, key)], key, d - 1);
    }
  }

  lemma {:induction false} DescendUses(t: Tree, key: int, d: nat, id: int)
    ensures Uses(Descend(t, key, d), id) <= Uses(t, id)
    decreases d
  {
    if d > 0 && t.Node? && Paired(t) {
      var r := Route(t.keys, key);
      UsesKid(t.kids, r, id);
      DescendUses(t.kids[r], key, d - 1, id);
    }
  }

  /** What goes on below is part of what goes on above: block counts only grow on the way up. */
  lemma {:induction false} DescendCount(t: Tree, e: Entry, capacity: int, n: int, d: nat)
    requires capacity >= 1
    ensures InsertInto(Descend(t, e.key, d), e, capacity, n).n <= InsertInto(t, e, capacity, n).n
    decreases d
  {
    if d > 0 && t.Node? && Paired(t) {
      var r := Route(t.keys, e.key);
      DescendCount(t.kids[r], e, capacity, n, d - 1);
      assert InsertInto(t, e, capacity, n) == Rejoin(t, InsertInto(t.kids[r], e, capacity, n), r, capacity);
    }
  }

  // ---- One step of the upward loop ----

  /** The state of the blocks once the levels from `sub` down are done: `before` are the blocks at the start of the
      insertion, `view` the blocks now. Everything outside `sub` is untouched, and the outcome below is in place. */
  ghost predicate Reached(before: seq<Block>, view: seq<Block>, sub: Tree, o: Outcome) {
    && |view| == o.n && |before| <= o.n
    && HoldsOutcome(view, o)
    && forall id :: 1 <= id <= |before| && Uses(sub, id) == 0 ==> SameBlock(before, view, id)
  }

  /** `p` is stored in `before`, each block at most once, and no block behind the end of `before` is in use. */
  ghost predicate Separate(before: seq<Block>, p: Tree) {
    && Holds(before, p)
    && forall id :: Uses(p, id) <= Between(0, id, |before|)
  }

  /** The new blocks of an outcome are directly behind the old ones. */
  ghost predicate Accounted(before: seq<Block>, sub: Tree, o: Outcome) {
    forall id :: OutcomeUses(o, id) == Uses(sub, id) + Between(|before|, id, o.n)
  }

  /** `propagate` on the blocks: separators of `p` with one more, in one block or in two. */
  ghost function Propagated(view: seq<Block>, id: int, first: int, seps: seq<Entry>, capacity: int): seq<Block>
    requires 1 <= id <= |view| && capacity >= 1
  {
    if |seps| <= capacity then
      view[id - 1 := InternalBlock(first, seps)]
    else
      var m := SplitIndex(capacity);
      view[id - 1 := InternalBlock(first, seps[..m])] + [InternalBlock(seps[m].value, seps[m + 1..])]
  }

  /** What a split internal node hands up, its upper half being in the block behind the `n` old ones. */
  ghost function UpperSeparator(n: int, seps: seq<Entry>, capacity: int): Entry
    requires |seps| > capacity >= 1
  {
    Entry(seps[SplitIndex(capacity)].key, n + 1)
  }

  /** As `Propagated`, and if the split node is the root a new root block over the two halves. */
  ghost function PropagatedToRoot(view: seq<Block>, id: int, first: int, seps: seq<Entry>, capacity: int,
                                  grows: bool): seq<Block>
    requires 1 <= id <= |view| && capacity >= 1 && (grows ==> |seps| > capacity)
  {
    Propagated(view, id, first, seps, capacity) +
    if grows then [InternalBlock(id, [UpperSeparator(|view|, seps, capacity)])] else []
  }

  /** Only block `id` has changed, and at most two more have been added. */
  ghost predicate ChangedOnly(view: seq<Block>, view': seq<Block>, id: int) {
    && |view| <= |view'| <= |view| + 2
    && forall i :: 1 <= i <= |view| && i != id ==> SameBlock(view, view', i)
  }

  lemma PropagatedChanges(view: seq<Block>, id: int, first: int, seps: seq<Entry>, capacity: int, grows: bool)
    requires 1 <= id <= |view| && capacity >= 1 && (grows ==> |seps| > capacity)
    ensures ChangedOnly(view, PropagatedToRoot(view, id, first, seps, capacity, grows), id)
  {
  }

  lemma DivideHolds(view: seq<Block>, w: Tree, capacity: int)
    requires w.Node? && Paired(w) && capacity >= 1 && 1 <= w.id <= |view|
    requires var view' := Propagated(view, w.id, w.kids[0].id, Separators(w), capacity);
             forall i :: 0 <= i < |w.kids| ==> Holds(view', w.kids[i])
    ensures HoldsOutcome(Propagated(view, w.id, w.kids[0].id, Separators(w), capacity), Divide(w, capacity, |view|))
  {
  }

  /** A subtree beside the path, or an outcome below, is not touched by writing block `p.id` and block `n + 1`. */
  lemma {:induction false} OtherKidKept(before: seq<Block>, view: seq<Block>, view': seq<Block>, p: Tree, r: nat,
                                        below: Outcome, i: nat)
    requires p.Node? && Separate(before, p) && r < |p.kids| && i < |p.kids| && i != r
    requires Reached(before, view, p.kids[r], below)
    requires |view| <= |view'| && forall id :: 1 <= id <= |view| && id != p.id ==> SameBlock(view, view', id)
    ensures Holds(view', p.kids[i])
  {
    forall id | Uses(p.kids[i], id) > 0 && 1 <= id <= |before| ensures SameBlock(before, view', id) {
      UsesTwoKids(p.kids, i, r, id);
      assert Uses(p, id) <= 1;
      assert SameBlock(before, view, id);
      assert SameBlock(view, view', id);
    }
    HoldsFrame(before, view', p.kids[i]);
  }

  lemma {:induction false} OutcomeKept(before: seq<Block>, view: seq<Block>, view': seq<Block>, p: Tree, r: nat,
                                       below: Outcome, t: Tree)
    requires p.Node? && Separate(before, p) && r < |p.kids|
    requires Reached(before, view, p.kids[r], below) && Accounted(before, p.kids[r], below)
    requires |view| <= |view'| && forall id :: 1 <= id <= |view| && id != p.id ==> SameBlock(view, view', id)
    requires t == Kept(below) || (below.Split? && t == below.right)
    ensures Holds(view', t)
  {
    forall id | Uses(t, id) > 0 && 1 <= id <= |view| ensures SameBlock(view, view', id) {
      assert Uses(t, id) <= OutcomeUses(below, id) == Uses(p.kids[r], id) + Between(|before|, id, below.n);
      UsesKid(p.kids, r, id);
      assert Uses(p, id) <= Between(0, id, |before|);
    }
    HoldsFrame(view, view', t);
  }

  lemma {:induction false} WidenedKidHolds(before: seq<Block>, view: seq<Block>, view': seq<Block>, p: Tree, r: nat,
                                           below: Outcome, i: nat)
    requires p.Node? && Separate(before, p) && r < |p.kids| && below.Split?
    requires Reached(before, view, p.kids[r], below) && Accounted(before, p.kids[r], below)
    requires |view| <= |view'| && forall id :: 1 <= id <= |view| && id != p.id ==> SameBlock(view, view', id)
    requires i < |Widen(p.(kids := p.kids[r := below.left]), below.key, below.right).kids|
    ensures Holds(view', Widen(p.(kids := p.kids[r := below.left]), below.key, below.right).kids[i])
  {
    var p' := p.(kids := p.kids[r := below.left]);
    var w := Widen(p', below.key, below.right);
    var pos := Position(Separators(p'), Entry(below.key, below.right.id));
    assert w.kids[i] == if i <= pos then p'.kids[i] else if i == pos + 1 then below.right else p'.kids[i - 1];
    var k := if i <= pos then i else i - 1;
    if i == pos + 1 {
      OutcomeKept(before, view, view', p, r, below, below.right);
    } else if k == r {
      OutcomeKept(before, view, view', p, r, below, below.left);
    } else {
      OtherKidKept(before, view, view', p, r, below, k);
    }
  }

  /** One round of the upward loop: `propagate` turns "all done from the child down" into "all done from `p` down". */
  lemma StepUp(before: seq<Block>, view: seq<Block>, p: Tree, r: nat, below: Outcome, capacity: int)
    requires p.Node? && Separate(before, p) && r < |p.kids| && capacity >= 1
    requires below.Split? && below.left.id == p.kids[r].id
    requires Reached(before, view, p.kids[r], below) && Accounted(before, p.kids[r], below)
    ensures HasBlock(view, p.id, BlockOf(p))
    ensures var seps := InsertSorted(Separators(p), Entry(below.key, below.right.id));
            Reached(before, Propagated(view, p.id, p.kids[0].id, seps, capacity), p, Rejoin(p, below, r, capacity))
  {
    UsesKid(p.kids, r, p.id);
    assert Uses(p, p.id) <= 1;
    assert SameBlock(before, view, p.id);
    var p' := p.(kids := p.kids[r := below.left]);
    assert Separators(p') == Separators(p);
    var w := Widen(p', below.key, below.right);
    WidenSeparators(p', below.key, below.right);
    var view' := Propagated(view, w.id, w.kids[0].id, Separators(w), capacity);
    assert w.kids[0].id == p.kids[0].id;
    forall i | 0 <= i < |w.kids| ensures Holds(view', w.kids[i]) {
      WidenedKidHolds(before, view, view', p, r, below, i);
    }
    DivideHolds(view, w, capacity);
    forall id | 1 <= id <= |before| && Uses(p, id) == 0 ensures SameBlock(before, view', id) {
      UsesKid(p.kids, r, id);
      assert SameBlock(before, view, id);
    }
  }

  /** Where nothing splits, the blocks above are right as they are. */
  lemma StepUpDone(before: seq<Block>, view: seq<Block>, p: Tree, r: nat, below: Outcome, capacity: int)
    requires p.Node? && Separate(before, p) && r < |p.kids| && capacity >= 1
    requires below.Done? && below.tree.id == p.kids[r].id
    requires Reached(before, view, p.kids[r], below) && Accounted(before, p.kids[r], below)
    ensures Reached(before, view, p, Rejoin(p, below, r, capacity))
  {
    UsesKid(p.kids, r, p.id);
    assert Uses(p, p.id) <= 1;
    assert SameBlock(before, view, p.id);
    var p' := p.(kids := p.kids[r := below.tree]);
    assert Separators(p') == Separators(p);
    forall i | 0 <= i < |p'.kids| ensures Holds(view, p'.kids[i]) {
      if i == r {
        OutcomeKept(before, view, view, p, r, below, below.tree);
      } else {
        OtherKidKept(before, view, view, p, r, below, i);
      }
    }
    forall id | 1 <= id <= |before| && Uses(p, id) == 0 ensures SameBlock(before, view, id) {
      UsesKid(p.kids, r, id);
    }
  }

  // ---- The whole upward loop ----

  /** What inserting does from level `d` of the descent on down. */
  ghost function LevelOutcome(root: Tree, e: Entry, capacity: int, n: int, d: nat): Outcome
    requires capacity >= 1
  {
    InsertInto(Descend(root, e.key, d), e, capacity, n)
  }

  /** A tree in the blocks, each block used exactly once. */
  ghost predicate Exactly(before: seq<Block>, root: Tree, h: nat, capacity: int) {
    Shape(root, h, capacity) && Holds(before, root) && forall id :: Uses(root, id) == Between(0, id, |before|)
  }

  lemma {:induction false} LevelSeparate(before: seq<Block>, root: Tree, h: nat, capacity: int, key: int, d: nat)
    requires Exactly(before, root, h, capacity)
    ensures Separate(before, Descend(root, key, d))
  {
    DescendHolds(before, root, key, d);
    forall id ensures Uses(Descend(root, key, d), id) <= Between(0, id, |before|) {
      DescendUses(root, key, d, id);
    }
  }

  lemma {:induction false} LevelShape(before: seq<Block>, root: Tree, h: nat, e: Entry, capacity: int, d: nat)
    requires capacity >= 1 && Exactly(before, root, h, capacity) && IsStorable(e) && d <= h
    ensures var o := LevelOutcome(root, e, capacity, |before|, d);
            && Accounted(before, Descend(root, e.key, d), o)
            && Kept(o).id == Descend(root, e.key, d).id
            && OutcomeShape(o, h - d, capacity)
            && |before| <= o.n
  {
    DescendShape(root, h, capacity, e.key, d);
    InsertShape(Descend(root, e.key, d), h - d, e, capacity, |before|);
  }

  lemma LevelAbove(root: Tree, h: nat, e: Entry, capacity: int, n: int, d: nat)
    requires capacity >= 1 && Shape(root, h, capacity) && 0 < d <= h
    ensures var p := Descend(root, e.key, d - 1);
            && p.Node? && Paired(p)
            && Descend(root, e.key, d) == p.kids[Route(p.keys, e.key)]
            && LevelOutcome(root, e, capacity, n, d - 1)
            == Rejoin(p, LevelOutcome(root, e, capacity, n, d), Route(p.keys, e.key), capacity)
  {
    DescendOne(root, h, capacity, e.key, d - 1);
  }

  /** `outs[d]` is what inserting does from level `d` down. */
  ghost predicate Recorded(outs: seq<Outcome>, root: Tree, h: nat, e: Entry, capacity: int, n: int)
    requires capacity >= 1
  {
    |outs| == h + 1 && forall d :: 0 <= d <= h ==> RecordedAt(outs, root, e, capacity, n, d)
  }

  ghost predicate RecordedAt(outs: seq<Outcome>, root: Tree, e: Entry, capacity: int, n: int, d: int)
    requires capacity >= 1 && 0 <= d < |outs|
  {
    outs[d] == LevelOutcome(root, e, capacity, n, d)
  }

  lemma Record(root: Tree, h: nat, e: Entry, capacity: int, n: int) returns (outs: seq<Outcome>)
    requires capacity >= 1
    ensures Recorded(outs, root, h, e, capacity, n)
    ensures outs[0] == InsertInto(root, e, capacity, n)
  {
    outs := seq(h + 1, d requires 0 <= d => LevelOutcome(root, e, capacity, n, d));
  }

  /** What an outcome hands to the upward loop. */
  function Promoted(o: Outcome): Entry {
    if o.Done? then NO_SPLIT else Entry(o.key, o.right.id)
  }

  /** What a round of the loop leaves behind, told by the number of separators. */
  lemma RoundOutcome(p: Tree, r: nat, below: Outcome, capacity: int)
    requires p.Node? && Paired(p) && r < |p.kids| && capacity >= 1 && below.Split? && below.left.id == p.kids[r].id
    ensures var seps := InsertSorted(Separators(p), Entry(below.key, below.right.id));
            var o := Rejoin(p, below, r, capacity);
            && Kept(o).id == p.id
            && (o.Split? <==> |seps| > capacity)
            && Promoted(o) == if |seps| > capacity then UpperSeparator(below.n, seps, capacity) else NO_SPLIT
  {
    var p' := p.(kids := p.kids[r := below.left]);
    assert Separators(p') == Separators(p);
    WidenSeparators(p', below.key, below.right);
    var w := Widen(p', below.key, below.right);
    if |w.keys| > capacity {
      assert Separators(w)[SplitIndex(capacity)].key == w.keys[SplitIndex(capacity)];
    }
  }

  lemma ClimbTold(before: seq<Block>, outs: seq<Outcome>, root: Tree, h: nat, e: Entry, capacity: int, d: nat)
    requires capacity >= 1 && Exactly(before, root, h, capacity) && IsStorable(e) && 0 < d <= h
    requires Recorded(outs, root, h, e, capacity, |before|) && outs[d].Split?
    ensures var p := Descend(root, e.key, d - 1);
            && p.Node? && Paired(p)
            && var seps := InsertSorted(Separators(p), Promoted(outs[d]));
               && Kept(outs[d - 1]).id == p.id
               && (outs[d - 1].Split? <==> |seps| > capacity)
               && Promoted(outs[d - 1])
                  == if |seps| > capacity then UpperSeparator(outs[d].n, seps, capacity) else NO_SPLIT
  {
    assert RecordedAt(outs, root, e, capacity, |before|, d) && RecordedAt(outs, root, e, capacity, |before|, d - 1);
    LevelAbove(root, h, e, capacity, |before|, d);
    LevelShape(before, root, h, e, capacity, d);
    var p := Descend(root, e.key, d - 1);
    RoundOutcome(p, Route(p.keys, e.key), outs[d], capacity);
  }

  lemma {:induction false} LevelAccounted(before: seq<Block>, root: Tree, h: nat, e: Entry, capacity: int, d: nat)
    requires capacity >= 1 && Exactly(before, root, h, capacity) && IsStorable(e) && d <= h
    ensures var o := LevelOutcome(root, e, capacity, |before|, d);
            Accounted(before, Descend(root, e.key, d), o) && Kept(o).id == Descend(root, e.key, d).id
  {
    LevelShape(before, root, h, e, capacity, d);
  }

  lemma {:induction false} RecordedRound(outs: seq<Outcome>, root: Tree, h: nat, e: Entry, capacity: int, n: int,
                                         d: nat)
    requires capacity >= 1 && Recorded(outs, root, h, e, capacity, n) && 0 < d <= h
    ensures outs[d] == LevelOutcome(root, e, capacity, n, d) && outs[d - 1] == LevelOutcome(root, e, capacity, n, d - 1)
  {
    assert RecordedAt(outs, root, e, capacity, n, d) && RecordedAt(outs, root, e, capacity, n, d - 1);
  }

  /** What a round starts from: the node above level `d`, and how its outcome comes from the one below. */
  lemma {:induction false} RoundStarts(before: seq<Block>, outs: seq<Outcome>, root: Tree, h: nat, e: Entry,
                                       capacity: int, d: nat)
    requires capacity >= 1 && Exactly(before, root, h, capacity) && IsStorable(e) && 0 < d <= h
    requires Recorded(outs, root, h, e, capacity, |before|)
    ensures var p := Descend(root, e.key, d - 1);
            && p.Node? && Paired(p) && Separate(before, p)
            && var r := Route(p.keys, e.key);
               && Descend(root, e.key, d) == p.kids[r]
               && Accounted(before, p.kids[r], outs[d]) && Kept(outs[d]).id == p.kids[r].id
               && outs[d - 1] == Rejoin(p, outs[d], r, capacity)
  {
    LevelAbove(root, h, e, capacity, |before|, d);
    LevelSeparate(before, root, h, capacity, e.key, d - 1);
    LevelAccounted(before, root, h, e, capacity, d);
    RecordedRound(outs, root, h, e, capacity, |before|, d);
  }

  /** One round of the loop, from level `d` to level `d - 1`. */
  lemma ClimbOne(before: seq<Block>, view: seq<Block>, outs: seq<Outcome>, root: Tree, h: nat, e: Entry, capacity: int,
                 d: nat)
    requires capacity >= 1 && Exactly(before, root, h, capacity) && IsStorable(e) && 0 < d <= h
    requires Recorded(outs, root, h, e, capacity, |before|)
    requires outs[d].Split? && Reached(before, view, Descend(root, e.key, d), outs[d])
    ensures var p := Descend(root, e.key, d - 1);
            && p.Node? && Paired(p) && HasBlock(view, p.id, BlockOf(p))
            && Reached(before, Propagated(view, p.id, p.kids[0].id, InsertSorted(Separators(p), Promoted(outs[d])),
                 capacity), p, outs[d - 1])
  {
    RoundStarts(before, outs, root, h, e, capacity, d);
    var p := Descend(root, e.key, d - 1);
    StepUp(before, view, p, Route(p.keys, e.key), outs[d], capacity);
  }

  /** Once nothing splits, the loop may stop: all levels above are in place. */
  lemma {:induction false} DoneToTop(before: seq<Block>, view: seq<Block>, outs: seq<Outcome>, root: Tree, h: nat,
                                     e: Entry, capacity: int, d: nat)
    requires capacity >= 1 && Exactly(before, root, h, capacity) && IsStorable(e) && d <= h
    requires Recorded(outs, root, h, e, capacity, |before|)
    requires outs[d].Done? && Reached(before, view, Descend(root, e.key, d), outs[d])
    ensures outs[0].Done? && Reached(before, view, root, outs[0])
    decreases d
  {
    if d > 0 {
      DoneOnce(before, view, outs, root, h, e, capacity, d);
      DoneToTop(before, view, outs, root, h, e, capacity, d - 1);
    }
  }

  lemma DoneOnce(before: seq<Block>, view: seq<Block>, outs: seq<Outcome>, root: Tree, h: nat, e: Entry, capacity: int,
                 d: nat)
    requires capacity >= 1 && Exactly(before, root, h, capacity) && IsStorable(e) && 0 < d <= h
    requires Recorded(outs, root, h, e, capacity, |before|)
    requires outs[d].Done? && Reached(before, view, Descend(root, e.key, d), outs[d])
    ensures outs[d - 1].Done? && Reached(before, view, Descend(root, e.key, d - 1), outs[d - 1])
  {
    RoundStarts(before, outs, root, h, e, capacity, d);
    var p := Descend(root, e.key, d - 1);
    StepUpDone(before, view, p, Route(p.keys, e.key), outs[d], capacity);
  }

  /** A new root over the two halves of the old one. */
  lemma {:induction false} RootGrown(view: seq<Block>, o: Outcome)
    requires o.Split? && HoldsOutcome(view, o) && |view| == o.n
    ensures Holds(view + [InternalBlock(o.left.id, [Entry(o.key, o.right.id)])],
                  Node(o.n + 1, [o.left, o.right], [o.key]))
  {
    var view' := view + [InternalBlock(o.left.id, [Entry(o.key, o.right.id)])];
    HoldsFrame(view, view', o.left);
    HoldsFrame(view, view', o.right);
    var root := Node(o.n + 1, [o.left, o.right], [o.key]);
    assert Separators(root) == [Entry(o.key, o.right.id)];
    assert HasBlock(view', root.id, BlockOf(root));
  }

  /** `insertLeaf` on the blocks: the entries in one block or in two. */
  ghost function LeafInserted(view: seq<Block>, id: int, es: seq<Entry>, next: int, capacity: int): seq<Block>
    requires 1 <= id <= |view| && capacity >= 1
  {
    if |es| <= capacity then
      view[id - 1 := LeafBlock(es, next)]
    else
      var m := SplitIndex(capacity);
      view[id - 1 := LeafBlock(es[..m], |view| + 1)] + [LeafBlock(es[m..], next)]
  }

}
