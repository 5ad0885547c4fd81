/** The leaves of a tree from left to right and the entries in them, and that no insertion loses or doubles an entry. */
module TreeLeaves {
  import opened Entries
  import opened Trees

  ghost function Leaves(t: Tree): (ls: seq<Tree>) {
    if t.Leaf? then [t] else LeavesOf(t.kids)
  }

  ghost function LeavesOf(ts: seq<Tree>): seq<Tree> {
    if ts == [] then [] else Leaves(ts[0]) + LeavesOf(ts[1..])
  }

  lemma {:induction false} LeavesOfConcat(a: seq<Tree>, b: seq<Tree>)
    ensures LeavesOf(a + b) == LeavesOf(a) + LeavesOf(b)
  {
    if a == [] {
      assert a + b == b;
    } else {
      assert (a + b)[1..] == a[1..] + b;
      LeavesOfConcat(a[1..], b);
    }
  }

  lemma {:induction false} LeavesAt(ts: seq<Tree>, r: nat)
    requires r < |ts|
    ensures LeavesOf(ts) == LeavesOf(ts[..r]) + Leaves(ts[r]) + LeavesOf(ts[r + 1..])
  {
    var rest := ts[r..];
    assert ts == ts[..r] + rest;
    LeavesOfConcat(ts[..r], rest);
    assert rest[0] == ts[r] && rest[1..] == ts[r + 1..];
  }

  ghost function OutcomeLeaves(o: Outcome): seq<Tree> {
    if o.Done? then Leaves(o.tree) else Leaves(o.left) + Leaves(o.right)
  }

  lemma {:induction false} DivideLeaves(t: Tree, capacity: int, n: int)
    requires t.Node? && Paired(t) && capacity >= 1
    ensures OutcomeLeaves(Divide(t, capacity, n)) == Leaves(t)
  {
    if |t.keys| > capacity {
      var m := SplitIndex(capacity);
      var a, b := t.kids[0..m + 1], t.kids[m + 1..|t.keys| + 1];
      assert t.kids == a + b;
      LeavesOfConcat(a, b);
      assert Leaves(t) == LeavesOf(t.kids);
      var o := Divide(t, capacity, n);
      assert OutcomeLeaves(o) == Leaves(Cut(t, t.id, 0, m)) + Leaves(Cut(t, n + 1, m + 1, |t.keys|));
    }
  }

  lemma {:induction false} UpdateLeaves(t: Tree, r: nat, c: Tree)
    requires t.Node? && Paired(t) && r < |t.kids|
    ensures Leaves(t.(kids := t.kids[r := c])) == LeavesOf(t.kids[..r]) + Leaves(c) + LeavesOf(t.kids[r + 1..])
  {
    var kids := t.kids[r := c];
    assert kids[..r] == t.kids[..r] && kids[r + 1..] == t.kids[r + 1..];
    LeavesAt(kids, r);
  }

  // ---- Entries ----

  /** The entries of a list of leaves, one leaf after the other. */
  ghost function Concat(ls: seq<Tree>): seq<Entry> {
    if ls == [] then [] else (if ls[0].Leaf? then ls[0].entries else []) + Concat(ls[1..])
  }

  ghost function Contents(t: Tree): seq<Entry> {
    Concat(Leaves(t))
  }

  ghost function KidsContents(ts: seq<Tree>): seq<Entry> {
    Concat(LeavesOf(ts))
  }

  ghost function OutcomeContents(o: Outcome): seq<Entry> {
    Concat(OutcomeLeaves(o))
  }

  lemma {:induction false} ConcatSum(a: seq<Tree>, b: seq<Tree>)
    ensures Concat(a + b) == Concat(a) + Concat(b)
  {
    if a == [] {
      assert a + b == b;
    } else {
      assert (a + b)[1..] == a[1..] + b;
      ConcatSum(a[1..], b);
    }
  }

  lemma {:induction false} KidsContentsSum(a: seq<Tree>, b: seq<Tree>)
    ensures KidsContents(a + b) == KidsContents(a) + KidsContents(b)
  {
    LeavesOfConcat(a, b);
    ConcatSum(LeavesOf(a), LeavesOf(b));
  }

  lemma {:induction false} KidsContentsOne(t: Tree)
    ensures KidsContents([t]) == Contents(t)
  {
    assert LeavesOf([t]) == Leaves(t);
  }

  lemma {:induction false} KidsContentsSnoc(ts: seq<Tree>, i: nat)
    requires i < |ts|
    ensures KidsContents(ts[..i + 1]) == KidsContents(ts[..i]) + Contents(ts[i])
  {
    assert ts[..i + 1] == ts[..i] + [ts[i]];
    KidsContentsSum(ts[..i], [ts[i]]);
    KidsContentsOne(ts[i]);
  }

  lemma {:induction false} KidsContentsAt(ts: seq<Tree>, r: nat)
    requires r < |ts|
    ensures KidsContents(ts) == KidsContents(ts[..r]) + Contents(ts[r]) + KidsContents(ts[r + 1..])
  {
    LeavesAt(ts, r);
    ConcatSum(LeavesOf(ts[..r]) + Leaves(ts[r]), LeavesOf(ts[r + 1..]));
    ConcatSum(LeavesOf(ts[..r]), Leaves(ts[r]));
  }

  lemma {:induction false} OutcomeContentsSum(o: Outcome)
    ensures OutcomeContents(o) == if o.Done? then Contents(o.tree) else Contents(o.left) + Contents(o.right)
  {
    if o.Split? { ConcatSum(Leaves(o.left), Leaves(o.right)); }
  }

  // ---- No insertion loses or doubles an entry, whatever the keys ----

  lemma {:induction false} InsertLeafContents(t: Tree, e: Entry, capacity: int, n: int)
    requires t.Leaf? && capacity >= 1
    ensures OutcomeContents(InsertLeaf(t, e, capacity, n)) == InsertSorted(t.entries, e)
  {
    var o := InsertLeaf(t, e, capacity, n);
    if o.Done? {
      assert Concat([o.tree]) == o.tree.entries;
    } else {
      assert OutcomeLeaves(o)[1..] == [o.right];
      assert Concat([o.right]) == o.right.entries;
    }
  }

  lemma {:induction false} UpdateContents(t: Tree, r: nat, c: Tree)
    requires t.Node? && Paired(t) && r < |t.kids|
    ensures multiset(Contents(t.(kids := t.kids[r := c]))) + multiset(Contents(t.kids[r]))
         == multiset(Contents(t)) + multiset(Contents(c))
  {
    var kids := t.kids[r := c];
    KidsContentsAt(t.kids, r);
    KidsContentsAt(kids, r);
    assert kids[..r] == t.kids[..r] && kids[r + 1..] == t.kids[r + 1..];
  }

  lemma {:induction false} WidenContents(t: Tree, key: int, right: Tree)
    requires t.Node? && Paired(t)
    ensures multiset(Contents(Widen(t, key, right))) == multiset(Contents(t)) + multiset(Contents(right))
  {
    var i := Position(Separators(t), Entry(key, right.id)) + 1;
    assert t.kids == t.kids[..i] + t.kids[i..];
    KidsContentsSum(t.kids[..i], t.kids[i..]);
    KidsContentsSum(t.kids[..i] + [right], t.kids[i..]);
    KidsContentsSum(t.kids[..i], [right]);
    KidsContentsOne(right);
  }

  lemma {:induction false} AbsorbContents(t: Tree, key: int, right: Tree, capacity: int, n: int)
    requires t.Node? && Paired(t) && capacity >= 1
    ensures multiset(OutcomeContents(Absorb(t, key, right, capacity, n)))
         == multiset(Contents(t)) + multiset(Contents(right))
  {
    WidenContents(t, key, right);
    DivideLeaves(Widen(t, key, right), capacity, n);
  }

  lemma {:induction false} RejoinContents(t: Tree, below: Outcome, r: nat, capacity: int, e: Entry)
    requires t.Node? && Paired(t) && r < |t.kids| && capacity >= 1
    requires multiset(OutcomeContents(below)) == multiset(Contents(t.kids[r])) + multiset{e}
    ensures multiset(OutcomeContents(Rejoin(t, below, r, capacity))) == multiset(Contents(t)) + multiset{e}
  {
    var t' := t.(kids := t.kids[r := Kept(below)]);
    var kid, kept := multiset(Contents(t.kids[r])), multiset(Contents(Kept(below)));
    OutcomeContentsSum(below);
    UpdateContents(t, r, Kept(below));
    if below.Done? {
      Exchanged(multiset(Contents(t')), kid, multiset(Contents(t)), kept, multiset{}, e);
    } else {
      AbsorbContents(t', below.key, below.right, capacity, below.n);
      Exchanged(multiset(Contents(t')), kid, multiset(Contents(t)), kept, multiset(Contents(below.right)), e);
    }
  }

  lemma Exchanged(t': multiset<Entry>, kid: multiset<Entry>, t: multiset<Entry>, kept: multiset<Entry>,
                  right: multiset<Entry>, e: Entry)
    requires t' + kid == t + kept && kept + right == kid + multiset{e}
    ensures t' + right == t + multiset{e}
  {
    forall x ensures (t' + right)[x] == (t + multiset{e})[x] {
      assert (t' + kid)[x] == (t + kept)[x] && (kept + right)[x] == (kid + multiset{e})[x];
    }
  }

  /** The entries grow by exactly the new one, whatever keys there are and whichever way the tree splits. */
  lemma {:induction false} InsertAddsEntry(t: Tree, h: nat, e: Entry, capacity: int, n: int)
    requires capacity >= 1 && Shape(t, h, capacity)
    ensures multiset(OutcomeContents(InsertInto(t, e, capacity, n))) == multiset(Contents(t)) + multiset{e}
    decreases t
  {
    if t.Leaf? {
      InsertLeafContents(t, e, capacity, n);
      InsertAddsOne(t.entries, e);
      assert Concat([t]) == t.entries;
    } else {
      var r := Route(t.keys, e.key);
      var below := InsertInto(t.kids[r], e, capacity, n);
      assert InsertInto(t, e, capacity, n) == Rejoin(t, below, r, capacity);
      InsertAddsEntry(t.kids[r], h - 1, e, capacity, n);
      RejoinContents(t, below, r, capacity, e);
    }
  }
}
