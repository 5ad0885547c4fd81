/** How full the blocks are, and what that says about the height of the tree and the number of blocks. */
module TreeOccupancy {
  import opened Entries
  import opened Trees
  import opened TreeLeaves

  /** Every block below `t` and `t` itself hold at least what a split leaves behind. */
  ghost predicate Filled(t: Tree, capacity: int)
    requires capacity >= 1
  {
    match t
    case Leaf(_, entries, _) => |entries| >= SplitIndex(capacity)
    case Node(_, kids, keys) => |keys| >= capacity / 2 && forall i :: 0 <= i < |kids| ==> Filled(kids[i], capacity)
  }

  ghost predicate KidsFilled(t: Tree, capacity: int)
    requires capacity >= 1
  {
    t.Node? ==> forall i :: 0 <= i < |t.kids| ==> Filled(t.kids[i], capacity)
  }

  /** The root may hold less, but not nothing. */
  ghost predicate RootFilled(t: Tree, capacity: int)
    requires capacity >= 1
  {
    (if t.Leaf? then t.entries != [] else t.keys != []) && KidsFilled(t, capacity)
  }

  ghost predicate OutcomeFilled(o: Outcome, capacity: int)
    requires capacity >= 1
  {
    Filled(Kept(o), capacity) && (o.Split? ==> Filled(o.right, capacity))
  }

  ghost predicate NoEmptier(t: Tree, was: Tree) {
    t.Leaf? == was.Leaf? && if t.Leaf? then |t.entries| >= |was.entries| else |t.keys| >= |was.keys|
  }

  lemma RejoinFilled(t: Tree, r: nat, below: Outcome, capacity: int)
    requires t.Node? && Paired(t) && r < |t.kids| && |t.keys| <= capacity && capacity >= 1
    requires KidsFilled(t, capacity) && OutcomeFilled(below, capacity)
    ensures var o := Rejoin(t, below, r, capacity);
            && (o.Split? ==> OutcomeFilled(o, capacity))
            && (o.Done? ==> KidsFilled(o.tree, capacity) && NoEmptier(o.tree, t))
  {
    if below.Split? {
      var t' := t.(kids := t.kids[r := below.left]);
      var w := Widen(t', below.key, below.right);
      var p := Position(Separators(t'), Entry(below.key, below.right.id));
      forall i | 0 <= i < |w.kids| ensures Filled(w.kids[i], capacity) {
        assert w.kids[i] == if i <= p then t'.kids[i] else if i == p + 1 then below.right else t'.kids[i - 1];
      }
    }
  }

  lemma {:induction false} InsertFilled(t: Tree, h: nat, e: Entry, capacity: int, n: int)
    requires capacity >= 1 && Shape(t, h, capacity) && KidsFilled(t, capacity)
    ensures var o := InsertInto(t, e, capacity, n);
            && (o.Split? ==> OutcomeFilled(o, capacity))
            && (o.Done? ==> KidsFilled(o.tree, capacity) && NoEmptier(o.tree, t))
    decreases t
  {
    if t.Node? {
      var r := Route(t.keys, e.key);
      InsertFilled(t.kids[r], h - 1, e, capacity, n);
      RejoinFilled(t, r, InsertInto(t.kids[r], e, capacity, n), capacity);
    }
  }

  // ---- Height and size ----

  ghost function Pow(b: nat, e: nat): nat {
    if e == 0 then 1 else b * Pow(b, e - 1)
  }

  lemma MulStep(a: nat, c: nat)
    ensures (a + 1) * c == a * c + c
  {
  }

  lemma MulAssoc(a: nat, b: nat, c: nat)
    ensures a * b * c == a * (b * c)
  {
  }

  lemma {:induction false} KidsCountAtLeast(ts: seq<Tree>, low: nat)
    requires forall i :: 0 <= i < |ts| ==> |Contents(ts[i])| >= low
    ensures |KidsContents(ts)| >= |ts| * low
  {
    if ts != [] {
      ConcatSum(Leaves(ts[0]), LeavesOf(ts[1..]));
      KidsCountAtLeast(ts[1..], low);
      MulStep(|ts| - 1, low);
    }
  }

  lemma {:induction false} KidsCountAtMost(ts: seq<Tree>, high: nat)
    requires forall i :: 0 <= i < |ts| ==> |Contents(ts[i])| <= high
    ensures |KidsContents(ts)| <= |ts| * high
  {
    if ts != [] {
      ConcatSum(Leaves(ts[0]), LeavesOf(ts[1..]));
      KidsCountAtMost(ts[1..], high);
      MulStep(|ts| - 1, high);
    }
  }

  lemma MulMonotone(a: nat, b: nat, c: nat)
    requires a <= b
    ensures a * c <= b * c
  {
  }

  /** A filled subtree of height `h` holds at least this many entries. */
  lemma {:induction false} FilledCount(t: Tree, h: nat, capacity: int)
    requires capacity >= 1 && Shape(t, h, capacity) && Filled(t, capacity)
    ensures |Contents(t)| >= Pow(capacity / 2 + 1, h) * SplitIndex(capacity)
    decreases t
  {
    if t.Leaf? {
      assert Concat([t]) == t.entries;
    } else {
      var low := Pow(capacity / 2 + 1, h - 1) * SplitIndex(capacity);
      forall i | 0 <= i < |t.kids| ensures |Contents(t.kids[i])| >= low {
        FilledCount(t.kids[i], h - 1, capacity);
      }
      KidsCountAtLeast(t.kids, low);
      MulMonotone(capacity / 2 + 1, |t.kids|, low);
      MulAssoc(capacity / 2 + 1, Pow(capacity / 2 + 1, h - 1), SplitIndex(capacity));
    }
  }

  /** The height is logarithmic in the number of entries: each level multiplies the least number of entries. */
  lemma {:induction false} HeightBound(t: Tree, h: nat, capacity: int)
    requires capacity >= 1 && Shape(t, h, capacity) && RootFilled(t, capacity) && h >= 1
    ensures |Contents(t)| >= 2 * (Pow(capacity / 2 + 1, h - 1) * SplitIndex(capacity))
  {
    var low := Pow(capacity / 2 + 1, h - 1) * SplitIndex(capacity);
    forall i | 0 <= i < |t.kids| ensures |Contents(t.kids[i])| >= low {
      FilledCount(t.kids[i], h - 1, capacity);
    }
    KidsCountAtLeast(t.kids, low);
    MulMonotone(2, |t.kids|, low);
  }

  /** And no tree of height `h` holds more than a full one. */
  lemma {:induction false} FullCount(t: Tree, h: nat, capacity: int)
    requires capacity >= 1 && Shape(t, h, capacity)
    ensures |Contents(t)| <= Pow(capacity + 1, h) * capacity
    decreases t
  {
    if t.Leaf? {
      assert Concat([t]) == t.entries;
    } else {
      var high := Pow(capacity + 1, h - 1) * capacity;
      forall i | 0 <= i < |t.kids| ensures |Contents(t.kids[i])| <= high {
        FullCount(t.kids[i], h - 1, capacity);
      }
      KidsCountAtMost(t.kids, high);
      MulMonotone(|t.kids|, capacity + 1, high);
      MulAssoc(capacity + 1, Pow(capacity + 1, h - 1), capacity);
    }
  }
}
