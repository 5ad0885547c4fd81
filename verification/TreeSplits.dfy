/** Where an insertion splits, and into what: the full nodes at the lower end of the path, each in its middle. */
module TreeSplits {
  import opened Entries
  import opened Trees
  import opened BlockFile
  import opened TreeStore

  /** The number of entries of a leaf, or of separators of an internal node. */
  function Size(t: Tree): nat {
    if t.Leaf? then |t.entries| else |t.keys|
  }

  /** How many nodes of the path for `key` are full without a gap, counted from the leaf up. */
  ghost function FullLevels(t: Tree, h: nat, key: int, capacity: int): (m: nat)
    ensures m <= h + 1
    decreases h
  {
    if h == 0 || t.Leaf? || !Paired(t) then (if Size(t) == capacity then 1 else 0)
    else
      var b := FullLevels(t.kids[Route(t.keys, key)], h - 1, key, capacity);
      if b == h && Size(t) == capacity then h + 1 else b
  }

  /** Every node of the path from level `d` down is full. */
  ghost predicate FullFrom(t: Tree, h: nat, key: int, capacity: int, d: nat) {
    forall k: nat :: d <= k <= h ==> FullAt(t, key, capacity, k)
  }

  ghost predicate FullAt(t: Tree, key: int, capacity: int, k: nat) {
    Size(Descend(t, key, k)) == capacity
  }

  lemma {:induction false} FullBelow(t: Tree, h: nat, key: int, capacity: int, d: nat)
    requires Shape(t, h, capacity) && 0 < d <= h
    ensures FullFrom(t, h, key, capacity, d) <==>
            FullFrom(t.kids[Route(t.keys, key)], h - 1, key, capacity, d - 1)
  {
    var kid := t.kids[Route(t.keys, key)];
    assert forall k: nat :: 0 < k <= h ==> FullAt(t, key, capacity, k) == FullAt(kid, key, capacity, k - 1);
    if FullFrom(t, h, key, capacity, d) {
      forall k: nat | d - 1 <= k <= h - 1 ensures FullAt(kid, key, capacity, k) {
        assert FullAt(t, key, capacity, k + 1);
      }
    }
  }

  /** So the levels that count are those from which on down every node is full. */
  lemma {:induction false} FullLevelsMeans(t: Tree, h: nat, key: int, capacity: int, d: nat)
    requires Shape(t, h, capacity) && d <= h
    ensures h - d < FullLevels(t, h, key, capacity) <==> FullFrom(t, h, key, capacity, d)
    decreases h
  {
    if h == 0 {
      assert FullFrom(t, h, key, capacity, d) <==> FullAt(t, key, capacity, 0);
    } else {
      var kid := t.kids[Route(t.keys, key)];
      var below := if d == 0 then 0 else d - 1;
      FullLevelsMeans(kid, h - 1, key, capacity, below);
      FullBelow(t, h, key, capacity, below + 1);
      assert FullFrom(t, h, key, capacity, 0) <==> FullAt(t, key, capacity, 0) && FullFrom(t, h, key, capacity, 1);
    }
  }

  /** The sizes of the two parts of a split node, which had one entry or separator too many: a leaf keeps half of its
      entries, rounded down; an internal node keeps as many separators and hands the next one up. */
  ghost predicate Halves(o: Outcome, capacity: int)
    requires capacity >= 1
  {
    && o.Split? && Paired(o.left) && Paired(o.right)
    && match o.left
       case Leaf(_, entries, next) =>
         && o.right.Leaf? && next == o.right.id
         && |entries| == (capacity + 1) / 2 && |o.right.entries| == capacity + 1 - (capacity + 1) / 2
       case Node(_, _, keys) =>
         && o.right.Node?
         && |keys| == (capacity + 1) / 2 && |o.right.keys| == capacity / 2
  }

  /** And nothing is lost or moved: one part behind the other, with what goes up between them, they are `all`. */
  ghost predicate InMiddle(o: Outcome, capacity: int, all: seq<Entry>)
    requires capacity >= 1
  {
    && Halves(o, capacity)
    && if o.left.Leaf? then
         o.left.entries + o.right.entries == all && |o.right.entries| > 0 && o.key == o.right.entries[0].key
       else
         Separators(o.left) + [Entry(o.key, o.right.kids[0].id)] + Separators(o.right) == all
  }

  /** What the top of `t` holds, with what an insertion adds there. */
  ghost function TopWith(t: Tree, e: Entry, capacity: int, n: int): seq<Entry>
    requires Paired(t) && capacity >= 1
  {
    if t.Leaf? then InsertSorted(t.entries, e)
    else InsertSorted(Separators(t), Promoted(InsertInto(t.kids[Route(t.keys, e.key)], e, capacity, n)))
  }

  /** A split is in the middle, at every level. */
  lemma {:induction false} SplitsInMiddle(t: Tree, h: nat, e: Entry, capacity: int, n: nat)
    requires capacity >= 1 && Shape(t, h, capacity) && IsStorable(e)
    ensures var o := InsertInto(t, e, capacity, n);
            o.Split? ==> InMiddle(o, capacity, TopWith(t, e, capacity, n))
  {
    if h == 0 {
      SplitHalves(capacity);
    } else {
      var r := Route(t.keys, e.key);
      var below := InsertInto(t.kids[r], e, capacity, n);
      assert Kept(below).id == t.kids[r].id by { InsertShape(t.kids[r], h - 1, e, capacity, n); }
      RejoinInMiddle(t, r, below, capacity);
    }
  }

  lemma {:induction false} RejoinInMiddle(t: Tree, r: nat, below: Outcome, capacity: int)
    requires capacity >= 1 && t.Node? && Paired(t) && |t.keys| <= capacity && r < |t.kids|
    requires Kept(below).id == t.kids[r].id
    ensures var o := Rejoin(t, below, r, capacity);
            o.Split? ==> InMiddle(o, capacity, InsertSorted(Separators(t), Promoted(below)))
  {
    if below.Split? {
      var t' := t.(kids := t.kids[r := below.left]);
      assert Separators(t') == Separators(t);
      WidenSeparators(t', below.key, below.right);
      DivideInMiddle(Widen(t', below.key, below.right), capacity, below.n);
    }
  }

  lemma {:induction false} DivideInMiddle(w: Tree, capacity: int, n: int)
    requires capacity >= 1 && w.Node? && Paired(w) && |w.keys| <= capacity + 1
    ensures var o := Divide(w, capacity, n);
            o.Split? ==> InMiddle(o, capacity, Separators(w))
  {
    SplitHalves(capacity);
    if |w.keys| > capacity {
      var o := Divide(w, capacity, n);
      var m := (capacity + 1) / 2;
      assert Separators(o.left) == Separators(w)[..m];
      assert Separators(o.right) == Separators(w)[m + 1..];
      assert Entry(o.key, o.right.kids[0].id) == Separators(w)[m];
    }
  }

  /** A node splits exactly when it and all nodes below it on the path are full, and each split takes one new block. */
  lemma {:induction false} SplitsExactlyWhen(t: Tree, h: nat, e: Entry, capacity: int, n: nat)
    requires capacity >= 1 && Shape(t, h, capacity) && IsStorable(e)
    ensures var o, m := InsertInto(t, e, capacity, n), FullLevels(t, h, e.key, capacity);
            && (o.Split? <==> m == h + 1) && o.n == n + m
            && (o.Split? ==> o.left.id == t.id && o.right.id == o.n)
    decreases h
  {
    if h > 0 {
      var r := Route(t.keys, e.key);
      SplitsExactlyWhen(t.kids[r], h - 1, e, capacity, n);
      RejoinSplits(t, r, InsertInto(t.kids[r], e, capacity, n), capacity);
    }
  }

  lemma RejoinSplits(t: Tree, r: nat, below: Outcome, capacity: int)
    requires capacity >= 1 && t.Node? && Paired(t) && |t.keys| <= capacity && r < |t.kids|
    ensures var o := Rejoin(t, below, r, capacity);
            && (o.Split? <==> below.Split? && |t.keys| == capacity) && o.n == below.n + (if o.Split? then 1 else 0)
            && (o.Split? ==> o.left.id == t.id && o.right.id == o.n)
  {
  }

  // ---- In blocks ----

  /** The blocks `id` and `new` hold the two parts of a split node. */
  ghost predicate Halved(view: seq<Block>, id: int, new': int, capacity: int) {
    && 1 <= id <= |view| && 1 <= new' <= |view|
    && match view[id - 1]
       case LeafBlock(entries, next) =>
         && view[new' - 1].LeafBlock? && next == new'
         && |entries| == (capacity + 1) / 2 && |view[new' - 1].entries| == capacity + 1 - (capacity + 1) / 2
       case InternalBlock(_, separators) =>
         && view[new' - 1].InternalBlock?
         && |separators| == (capacity + 1) / 2 && |view[new' - 1].separators| == capacity / 2
  }

  lemma {:induction false} HoldsBelow(view: seq<Block>, t: Tree, r: nat, below: Outcome, capacity: int)
    requires capacity >= 1 && t.Node? && Paired(t) && |t.keys| <= capacity && r < |t.kids|
    requires HoldsOutcome(view, Rejoin(t, below, r, capacity))
    ensures HoldsOutcome(view, below)
  {
    var t' := t.(kids := t.kids[r := Kept(below)]);
    if below.Done? {
      assert t'.kids[r] == below.tree;
    } else {
      var w := Widen(t', below.key, below.right);
      var p := Position(Separators(t'), Entry(below.key, below.right.id));
      assert w.kids[p + 1] == below.right;
      assert w.kids[if r <= p then r else r + 1] == below.left;
      HoldsDivided(view, w, capacity, below.n, p + 1);
      HoldsDivided(view, w, capacity, below.n, if r <= p then r else r + 1);
    }
  }

  lemma HoldsDivided(view: seq<Block>, w: Tree, capacity: int, n: int, i: nat)
    requires capacity >= 1 && w.Node? && Paired(w) && i < |w.kids| && HoldsOutcome(view, Divide(w, capacity, n))
    requires |w.keys| <= capacity + 1
    ensures Holds(view, w.kids[i])
  {
    var o := Divide(w, capacity, n);
    if o.Split? {
      var m := |o.left.kids|;
      if i < m { assert o.left.kids[i] == w.kids[i]; } else { assert o.right.kids[i - m] == w.kids[i]; }
    }
  }

  /** The top nodes of an outcome are in their blocks. */
  ghost predicate TopsStored(view: seq<Block>, o: Outcome) {
    && Paired(Kept(o)) && HasBlock(view, Kept(o).id, BlockOf(Kept(o)))
    && (o.Split? ==> Paired(o.right) && HasBlock(view, o.right.id, BlockOf(o.right)))
  }

  lemma LeafHalved(view: seq<Block>, t: Tree, e: Entry, capacity: int, n: nat)
    requires capacity >= 1 && t.Leaf? && |t.entries| == capacity && TopsStored(view, InsertLeaf(t, e, capacity, n))
    ensures Halved(view, t.id, n + 1, capacity)
  {
    SplitHalves(capacity);
  }

  lemma NodeHalved(view: seq<Block>, t: Tree, r: nat, below: Outcome, capacity: int)
    requires capacity >= 1 && t.Node? && Paired(t) && |t.keys| == capacity && r < |t.kids| && below.Split?
    requires TopsStored(view, Rejoin(t, below, r, capacity))
    ensures Halved(view, t.id, below.n + 1, capacity)
  {
    SplitHalves(capacity);
  }

  lemma {:induction false} BelowIsStored(view: seq<Block>, t: Tree, h: nat, e: Entry, capacity: int, n: nat)
    requires capacity >= 1 && h > 0 && Shape(t, h, capacity) && HoldsOutcome(view, InsertInto(t, e, capacity, n))
    ensures HoldsOutcome(view, InsertInto(t.kids[Route(t.keys, e.key)], e, capacity, n))
  {
    var r := Route(t.keys, e.key);
    HoldsBelow(view, t, r, InsertInto(t.kids[r], e, capacity, n), capacity);
  }

  /** The node at a level that splits: the child that the path goes on to has split as well, and what is made of both is
      in its blocks. */
  lemma {:induction false} LevelSplits(view: seq<Block>, t: Tree, h: nat, e: Entry, capacity: int, n: nat, d: nat)
      returns (p: Tree, r: nat, below: Outcome)
    requires capacity >= 1 && Shape(t, h, capacity) && IsStorable(e) && d < h
    requires HoldsOutcome(view, InsertInto(t, e, capacity, n)) && h - d < FullLevels(t, h, e.key, capacity)
    ensures p == Descend(t, e.key, d) && p.Node? && Paired(p) && |p.keys| == capacity && r < |p.kids|
    ensures below.Split? && below.n == n + (h - d) && TopsStored(view, Rejoin(p, below, r, capacity))
    decreases d
  {
    if d == 0 {
      p := t;
      r, below := TopSplits(t, h, e, capacity, n);
      TopIsStored(view, t, r, below, capacity);
    } else {
      BelowIsStored(view, t, h, e, capacity, n);
      p, r, below := LevelSplits(view, t.kids[Route(t.keys, e.key)], h - 1, e, capacity, n, d - 1);
    }
  }

  lemma {:induction false} TopSplits(t: Tree, h: nat, e: Entry, capacity: int, n: nat) returns (r: nat, below: Outcome)
    requires capacity >= 1 && Shape(t, h, capacity) && IsStorable(e) && h > 0
    requires FullLevels(t, h, e.key, capacity) == h + 1
    ensures |t.keys| == capacity && r < |t.kids| && below.Split? && below.n == n + h
    ensures InsertInto(t, e, capacity, n) == Rejoin(t, below, r, capacity)
  {
    r := Route(t.keys, e.key);
    below := InsertInto(t.kids[r], e, capacity, n);
    SplitsExactlyWhen(t.kids[r], h - 1, e, capacity, n);
  }

  lemma TopIsStored(view: seq<Block>, t: Tree, r: nat, below: Outcome, capacity: int)
    requires capacity >= 1 && t.Node? && Paired(t) && r < |t.kids| && HoldsOutcome(view, Rejoin(t, below, r, capacity))
    ensures TopsStored(view, Rejoin(t, below, r, capacity))
  {
  }

  lemma {:induction false} LeafSplits(view: seq<Block>, t: Tree, h: nat, e: Entry, capacity: int, n: nat)
      returns (leaf: Tree)
    requires capacity >= 1 && Shape(t, h, capacity) && HoldsOutcome(view, InsertInto(t, e, capacity, n))
    requires FullLevels(t, h, e.key, capacity) > 0
    ensures leaf == Descend(t, e.key, h) && leaf.Leaf? && |leaf.entries| == capacity
    ensures TopsStored(view, InsertLeaf(leaf, e, capacity, n))
    decreases h
  {
    if h == 0 {
      leaf := t;
    } else {
      BelowIsStored(view, t, h, e, capacity, n);
      leaf := LeafSplits(view, t.kids[Route(t.keys, e.key)], h - 1, e, capacity, n);
    }
  }

  /** After an insertion the blocks of every node that has split hold its two parts; the new block of the leaf comes
      first, then that of its parent, and so on. */
  lemma {:induction false} SplitBlocks(view: seq<Block>, t: Tree, h: nat, e: Entry, capacity: int, n: nat, d: nat)
    requires capacity >= 1 && Shape(t, h, capacity) && IsStorable(e) && d <= h
    requires HoldsOutcome(view, InsertInto(t, e, capacity, n)) && h - d < FullLevels(t, h, e.key, capacity)
    ensures Halved(view, Descend(t, e.key, d).id, n + (h - d) + 1, capacity)
  {
    if d == h {
      var leaf := LeafSplits(view, t, h, e, capacity, n);
      LeafHalved(view, leaf, e, capacity, n);
    } else {
      var p, r, below := LevelSplits(view, t, h, e, capacity, n, d);
      NodeHalved(view, p, r, below, capacity);
    }
  }

  /** What `propagate` does to the blocks, without the functions that it is proved against: the separators fit, or the
      middle one goes up, those before it stay and those behind it go to the next block, its child leading them. */
  ghost predicate SplitAtMiddle(view: seq<Block>, view': seq<Block>, id: int, first: int, seps: seq<Entry>,
                                capacity: int, grows: bool)
    requires capacity >= 1 && |seps| <= capacity + 1 && 1 <= id <= |view|
  {
    if |seps| <= capacity then
      view' == view[id - 1 := InternalBlock(first, seps)]
    else
      var m := (capacity + 1) / 2;
      && |view'| == |view| + (if grows then 2 else 1)
      && (forall i :: 1 <= i <= |view| && i != id ==> SameBlock(view, view', i))
      && view'[id - 1] == InternalBlock(first, seps[..m])
      && view'[|view|] == InternalBlock(seps[m].value, seps[m + 1..])
      && (grows ==> view'[|view| + 1] == InternalBlock(id, [Entry(seps[m].key, |view| + 1)]))
  }

  lemma PropagatedInMiddle(view: seq<Block>, id: int, first: int, seps: seq<Entry>, capacity: int, grows: bool)
    requires capacity >= 1 && |seps| <= capacity + 1 && 1 <= id <= |view| && (grows ==> |seps| > capacity)
    ensures SplitAtMiddle(view, PropagatedToRoot(view, id, first, seps, capacity, grows), id, first, seps, capacity,
              grows)
    ensures |seps| > capacity ==>
              UpperSeparator(|view|, seps, capacity) == Entry(seps[(capacity + 1) / 2].key, |view| + 1)
  {
    SplitHalves(capacity);
  }
}
