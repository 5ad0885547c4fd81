/** The B+ tree as a value, and insertion on it: what the blocks of the index file stand for. */
module Trees {
  import opened Entries

  /** `keys[i]` separates `kids[i]` from `kids[i + 1]`. `id` is the block that stores the node. */
  datatype Tree =
    | Leaf(id: int, entries: seq<Entry>, next: int)
    | Node(id: int, kids: seq<Tree>, keys: seq<int>)

  /** What inserting below a node hands to its parent; `n` is the number of blocks in use afterwards. */
  datatype Outcome =
    | Done(tree: Tree, n: int)
    | Split(left: Tree, key: int, right: Tree, n: int)

  predicate IsInt32(v: int) {
    -0x8000_0000 <= v < 0x8000_0000
  }

  function SplitIndex(capacity: int): int
    requires capacity >= 1
  {
    (capacity - 1) / 2 + 1
  }

  /** Both halves of an overfull leaf fit a leaf, the left one with half of the entries rounded down; an overfull
      internal node loses its middle separator and keeps at least half the capacity, rounded down, on each side. */
  lemma SplitHalves(capacity: int)
    requires capacity >= 1
    ensures SplitIndex(capacity) == (capacity + 1) / 2
    ensures 1 <= SplitIndex(capacity) <= capacity + 1 - SplitIndex(capacity) <= capacity
    ensures SplitIndex(capacity) >= capacity / 2 && capacity - SplitIndex(capacity) == capacity / 2
  {
  }

  predicate Paired(t: Tree) {
    t.Node? ==> |t.kids| == |t.keys| + 1
  }

  /** The separators as the block stores them: key, and id of the child to the right. */
  function Separators(t: Tree): (s: seq<Entry>)
    requires t.Node? && Paired(t)
    ensures |s| == |t.keys|
  {
    seq(|t.keys|, i requires 0 <= i < |t.keys| => Entry(t.keys[i], t.kids[i + 1].id))
  }

  /** The child to descend to: the loop stops at the first separator greater than `key`. */
  function Route(keys: seq<int>, key: int): (r: nat)
    ensures r <= |keys|
    ensures forall i :: 0 <= i < r ==> keys[i] <= key
    ensures r < |keys| ==> keys[r] > key
  {
    if keys == [] || keys[0] > key then 0 else 1 + Route(keys[1..], key)
  }

  /** Structure that every insertion keeps, duplicate keys or not: all leaves at height 0 and no block
      overfull, except for `slack` entries more at the top. */
  ghost predicate Shape(t: Tree, h: nat, capacity: int, slack: nat := 0) {
    match t
    case Leaf(_, entries, _) =>
      && h == 0
      && 1 <= |entries| <= capacity + slack
      && Sorted(entries)
      && forall i :: 0 <= i < |entries| ==> IsStorable(entries[i])
    case Node(_, kids, keys) =>
      && h > 0
      && |kids| == |keys| + 1 <= capacity + slack + 1
      && Sorted(Separators(t))
      && (forall i :: 0 <= i < |keys| ==> keys[i] != 0 && IsInt32(keys[i]))
      && forall i :: 0 <= i < |kids| ==> Shape(kids[i], h - 1, capacity)
  }

  predicate IsStorable(e: Entry) {
    e.key != 0 && IsInt32(e.key) && IsInt32(e.value)
  }

  /** How often block `id` occurs in the tree. */
  ghost function Uses(t: Tree, id: int): nat {
    (if t.id == id then 1 else 0) + if t.Leaf? then 0 else UsesIn(t.kids, id)
  }

  ghost function UsesIn(ts: seq<Tree>, id: int): nat {
    if ts == [] then 0 else Uses(ts[0], id) + UsesIn(ts[1..], id)
  }

  /** 1 for the block ids `lo + 1 ..= hi`, else 0. */
  ghost function Between(lo: int, id: int, hi: int): nat {
    if lo < id <= hi then 1 else 0
  }

  function InsertLeaf(t: Tree, e: Entry, capacity: int, n: int): Outcome
    requires t.Leaf? && capacity >= 1
  {
    var es := InsertSorted(t.entries, e);
    if |es| <= capacity then
      Done(t.(entries := es), n)
    else
      var m := SplitIndex(capacity);
      Split(Leaf(t.id, es[..m], n + 1), es[m].key, Leaf(n + 1, es[m..], t.next), n + 1)
  }

  /** An internal node with one more separator, sorted into place; it may be overfull. */
  function Widen(t: Tree, key: int, right: Tree): Tree
    requires t.Node? && Paired(t)
  {
    var p := Position(Separators(t), Entry(key, right.id));
    Node(t.id, t.kids[..p + 1] + [right] + t.kids[p + 1..], t.keys[..p] + [key] + t.keys[p..])
  }

  /** The part of an internal node from child `i` to child `j`. */
  function Cut(t: Tree, id: int, i: nat, j: nat): Tree
    requires t.Node? && Paired(t) && i <= j <= |t.keys|
  {
    Node(id, t.kids[i..j + 1], t.keys[i..j])
  }

  /** An internal node as it is if it fits its block, and else in two, the middle key moving up. */
  function Divide(t: Tree, capacity: int, n: int): Outcome
    requires t.Node? && Paired(t) && capacity >= 1
  {
    if |t.keys| <= capacity then
      Done(t, n)
    else
      var m := SplitIndex(capacity);
      Split(Cut(t, t.id, 0, m), t.keys[m], Cut(t, n + 1, m + 1, |t.keys|), n + 1)
  }

  function Absorb(t: Tree, key: int, right: Tree, capacity: int, n: int): Outcome
    requires t.Node? && Paired(t) && capacity >= 1
  {
    Divide(Widen(t, key, right), capacity, n)
  }

  function Rejoin(t: Tree, below: Outcome, r: nat, capacity: int): Outcome
    requires t.Node? && Paired(t) && r < |t.kids| && capacity >= 1
  {
    match below
    case Done(c, n) => Done(t.(kids := t.kids[r := c]), n)
    case Split(c, key, right, n) => Absorb(t.(kids := t.kids[r := c]), key, right, capacity, n)
  }

  /** Insertion below `t`. (A node with unmatched keys and kids is no tree of the index and stays as it is.) */
  function InsertInto(t: Tree, e: Entry, capacity: int, n: int): Outcome
    requires capacity >= 1
  {
    if t.Leaf? then
      InsertLeaf(t, e, capacity, n)
    else if !Paired(t) then
      Done(t, n)
    else
      var r := Route(t.keys, e.key);
      Rejoin(t, InsertInto(t.kids[r], e, capacity, n), r, capacity)
  }

  // ---- Structure is kept by every insertion ----

  lemma {:induction false} UsesInConcat(a: seq<Tree>, b: seq<Tree>, id: int)
    ensures UsesIn(a + b, id) == UsesIn(a, id) + UsesIn(b, id)
  {
    if a == [] {
      assert a + b == b;
    } else {
      assert (a + b)[1..] == a[1..] + b;
      UsesInConcat(a[1..], b, id);
    }
  }

  lemma {:induction false} UsesInAdded(ts: seq<Tree>, i: nat, c: Tree, id: int)
    requires i <= |ts|
    ensures UsesIn(ts[..i] + [c] + ts[i..], id) == UsesIn(ts, id) + Uses(c, id)
  {
    assert ts == ts[..i] + ts[i..];
    UsesInConcat(ts[..i], ts[i..], id);
    UsesInConcat(ts[..i] + [c], ts[i..], id);
    UsesInConcat(ts[..i], [c], id);
  }

  lemma {:induction false} UsesInUpdate(ts: seq<Tree>, r: nat, c: Tree, id: int)
    requires r < |ts|
    ensures UsesIn(ts[r := c], id) + Uses(ts[r], id) == UsesIn(ts, id) + Uses(c, id)
  {
    var rest := ts[..r] + ts[r + 1..];
    assert rest[..r] + [c] + rest[r..] == ts[r := c];
    assert rest[..r] + [ts[r]] + rest[r..] == ts;
    UsesInAdded(rest, r, c, id);
    UsesInAdded(rest, r, ts[r], id);
  }

  ghost function OutcomeUses(o: Outcome, id: int): nat {
    if o.Done? then Uses(o.tree, id) else Uses(o.left, id) + Uses(o.right, id)
  }

  /** The tree that stays in the old block. */
  function Kept(o: Outcome): Tree {
    if o.Done? then o.tree else o.left
  }

  ghost predicate OutcomeShape(o: Outcome, h: nat, capacity: int) {
    && Shape(Kept(o), h, capacity)
    && (o.Split? ==> Shape(o.right, h, capacity) && o.key != 0 && IsInt32(o.key) && o.right.id > 0)
  }

  /** Appending to the separators and sorting them is what `Widen` does to the block. */
  lemma WidenSeparators(t: Tree, key: int, right: Tree)
    requires t.Node? && Paired(t)
    ensures Separators(Widen(t, key, right)) == InsertSorted(Separators(t), Entry(key, right.id))
  {
  }

  lemma WidenShape(t: Tree, h: nat, key: int, right: Tree, capacity: int)
    requires h > 0 && Shape(t, h, capacity) && Shape(right, h - 1, capacity) && key != 0 && IsInt32(key)
    ensures Shape(Widen(t, key, right), h, capacity, 1)
  {
    WidenSeparators(t, key, right);
    InsertKeepsSorted(Separators(t), Entry(key, right.id));
    var w := Widen(t, key, right);
    assert Sorted(Separators(w));
    var p := Position(Separators(t), Entry(key, right.id));
    forall i | 0 <= i < |w.kids| ensures Shape(w.kids[i], h - 1, capacity) {
      assert w.kids[i] == if i <= p then t.kids[i] else if i == p + 1 then right else t.kids[i - 1];
    }
    forall i | 0 <= i < |w.keys| ensures w.keys[i] != 0 && IsInt32(w.keys[i]) {
      assert w.keys[i] == if i < p then t.keys[i] else if i == p then key else t.keys[i - 1];
    }
  }

  lemma {:induction false} WidenUses(t: Tree, key: int, right: Tree, id: int)
    requires t.Node? && Paired(t)
    ensures Uses(Widen(t, key, right), id) == Uses(t, id) + Uses(right, id)
  {
    UsesInAdded(t.kids, Position(Separators(t), Entry(key, right.id)) + 1, right, id);
  }

  lemma {:induction false} CutShape(t: Tree, h: nat, capacity: int, id: int, i: nat, j: nat)
    requires t.Node? && Shape(t, h, capacity, 1) && i <= j <= |t.keys| && j - i <= capacity
    ensures Shape(Cut(t, id, i, j), h, capacity)
  {
    assert Separators(Cut(t, id, i, j)) == Separators(t)[i..j];
    SortedSlice(Separators(t), i, j);
  }

  lemma {:induction false} DivideShape(t: Tree, h: nat, capacity: int, n: int)
    requires t.Node? && Shape(t, h, capacity, 1) && capacity >= 1 && n >= 0
    ensures OutcomeShape(Divide(t, capacity, n), h, capacity)
  {
    if |t.keys| > capacity {
      CutShape(t, h, capacity, t.id, 0, SplitIndex(capacity));
      CutShape(t, h, capacity, n + 1, SplitIndex(capacity) + 1, |t.keys|);
    }
  }

  lemma {:induction false} DivideUses(t: Tree, capacity: int, n: int, id: int)
    requires t.Node? && Paired(t) && capacity >= 1
    ensures var o := Divide(t, capacity, n); OutcomeUses(o, id) == Uses(t, id) + Between(n, id, o.n)
  {
    if |t.keys| > capacity {
      var m := SplitIndex(capacity);
      var cut := |t.keys| + 1;
      assert t.kids == t.kids[0..m + 1] + t.kids[m + 1..cut];
      UsesInConcat(t.kids[0..m + 1], t.kids[m + 1..cut], id);
    }
  }

  lemma {:induction false} InsertLeafShape(t: Tree, e: Entry, capacity: int, n: int)
    requires t.Leaf? && capacity >= 1 && Shape(t, 0, capacity) && IsStorable(e) && n >= 0
    ensures var o := InsertLeaf(t, e, capacity, n);
            && OutcomeShape(o, 0, capacity)
            && (forall id :: OutcomeUses(o, id) == Uses(t, id) + Between(n, id, o.n))
            && n <= o.n <= n + 1
  {
    InsertKeepsSorted(t.entries, e);
    var es := InsertSorted(t.entries, e);
    if |es| > capacity {
      var m := SplitIndex(capacity);
      SortedSlice(es, 0, m);
      SortedSlice(es, m, |es|);
      assert es[0..m] == es[..m] && es[m..|es|] == es[m..];
    }
  }

  lemma {:induction false} RejoinShape(t: Tree, h: nat, r: nat, below: Outcome, capacity: int)
    requires capacity >= 1 && h > 0 && Shape(t, h, capacity) && r < |t.kids|
    requires OutcomeShape(below, h - 1, capacity) && Kept(below).id == t.kids[r].id && below.n >= 0
    ensures OutcomeShape(Rejoin(t, below, r, capacity), h, capacity)
  {
    var t' := t.(kids := t.kids[r := Kept(below)]);
    assert Separators(t') == Separators(t);
    if below.Split? {
      WidenShape(t', h, below.key, below.right, capacity);
      DivideShape(Widen(t', below.key, below.right), h, capacity, below.n);
    }
  }

  lemma {:induction false} RejoinUses(t: Tree, r: nat, below: Outcome, capacity: int, id: int)
    requires t.Node? && Paired(t) && r < |t.kids| && capacity >= 1
    ensures var o := Rejoin(t, below, r, capacity);
            OutcomeUses(o, id) + Uses(t.kids[r], id) == Uses(t, id) + OutcomeUses(below, id) + Between(below.n, id, o.n)
  {
    UsesInUpdate(t.kids, r, Kept(below), id);
    if below.Split? {
      var t' := t.(kids := t.kids[r := below.left]);
      WidenUses(t', below.key, below.right, id);
      DivideUses(Widen(t', below.key, below.right), capacity, below.n, id);
    }
  }

  /** Every block id below `t` is at most `n`, and every `next` is 0 or such an id. */
  ghost predicate IdsWithin(t: Tree, n: int) {
    match t
    case Leaf(id, _, next) => id <= n && 0 <= next <= n
    case Node(id, kids, _) => id <= n && forall i :: 0 <= i < |kids| ==> IdsWithin(kids[i], n)
  }

  lemma {:induction false} IdsGrow(t: Tree, n: int, n': int)
    requires IdsWithin(t, n) && n <= n'
    ensures IdsWithin(t, n')
    decreases t
  {
    if t.Node? {
      forall i | 0 <= i < |t.kids| ensures IdsWithin(t.kids[i], n') {
        IdsGrow(t.kids[i], n, n');
      }
    }
  }

  ghost predicate OutcomeIds(o: Outcome) {
    IdsWithin(Kept(o), o.n) && (o.Split? ==> IdsWithin(o.right, o.n))
  }

  /** The children after a child split: the new one, the changed one, or an old one. */
  lemma WidenedKid(t: Tree, r: nat, left: Tree, key: int, right: Tree, i: nat)
    requires t.Node? && Paired(t) && r < |t.kids|
    requires i < |Widen(t.(kids := t.kids[r := left]), key, right).kids|
    ensures var kid := Widen(t.(kids := t.kids[r := left]), key, right).kids[i];
            kid == right || kid == left || kid in t.kids
  {
  }

  lemma {:induction false} DivideIds(t: Tree, capacity: int, n: int)
    requires t.Node? && Paired(t) && capacity >= 1 && IdsWithin(t, n)
    ensures OutcomeIds(Divide(t, capacity, n))
  {
    forall i | 0 <= i < |t.kids| ensures IdsWithin(t.kids[i], n + 1) {
      IdsGrow(t.kids[i], n, n + 1);
    }
  }

  lemma {:induction false} RejoinIds(t: Tree, r: nat, below: Outcome, capacity: int)
    requires t.Node? && Paired(t) && r < |t.kids| && capacity >= 1
    requires IdsWithin(t, below.n) && OutcomeIds(below)
    ensures OutcomeIds(Rejoin(t, below, r, capacity))
  {
    if below.Split? {
      var w := Widen(t.(kids := t.kids[r := below.left]), below.key, below.right);
      forall i | 0 <= i < |w.kids| ensures IdsWithin(w.kids[i], below.n) {
        WidenedKid(t, r, below.left, below.key, below.right, i);
      }
      DivideIds(w, capacity, below.n);
    }
  }

  lemma {:induction false} InsertIds(t: Tree, e: Entry, capacity: int, n: int)
    requires capacity >= 1 && IdsWithin(t, n) && n >= 0
    ensures OutcomeIds(InsertInto(t, e, capacity, n)) && n <= InsertInto(t, e, capacity, n).n
    decreases t
  {
    if t.Node? && Paired(t) {
      var r := Route(t.keys, e.key);
      var below := InsertInto(t.kids[r], e, capacity, n);
      InsertIds(t.kids[r], e, capacity, n);
      IdsGrow(t, n, below.n);
      RejoinIds(t, r, below, capacity);
    }
  }

  /** Shape and block use after one insertion: the old blocks stay in place and the new ones are `n + 1 ..= o.n`. */
  lemma {:induction false} InsertShape(t: Tree, h: nat, e: Entry, capacity: int, n: int)
    requires capacity >= 1 && Shape(t, h, capacity) && IsStorable(e) && n >= 0
    ensures var o := InsertInto(t, e, capacity, n);
            && OutcomeShape(o, h, capacity)
            && (forall id :: OutcomeUses(o, id) == Uses(t, id) + Between(n, id, o.n))
            && Kept(o).id == t.id
            && n <= o.n <= n + h + 1
            && (o.Split? ==> n < o.right.id == o.n)
    decreases h
  {
    if h == 0 {
      InsertLeafShape(t, e, capacity, n);
    } else {
      var r := Route(t.keys, e.key);
      var below := InsertInto(t.kids[r], e, capacity, n);
      InsertShape(t.kids[r], h - 1, e, capacity, n);
      RejoinShape(t, h, r, below, capacity);
      forall id {
        RejoinUses(t, r, below, capacity, id);
      }
    }
  }
}
