/** The chain of `next` links, whatever the order of the keys: every insertion keeps all leaves on one chain that ends,
    so that a walk along it ends too. */
module TreeChain {
  import opened Entries
  import opened Trees
  import opened TreeLeaves
  import opened TreeOrder
  import opened TreeContents
  import opened TreeIndex

  /** Following `next` from the first of `ls` visits exactly the leaves of `t` and then ends. */
  ghost predicate ChainOf(ls: seq<Tree>, t: Tree) {
    Chained(ls, 0) && multiset(ls) == multiset(Leaves(t))
  }

  // ---- An insertion exchanges one leaf for itself with the entry, or for its halves ----

  lemma Exchange(kid: multiset<Tree>, kept: multiset<Tree>, right: multiset<Tree>, below: multiset<Tree>,
                 t: multiset<Tree>, t': multiset<Tree>, all: multiset<Tree>)
    requires t' + kid == t + kept && kept + right == below && all == t' + right
    ensures all + kid == t + below
  {
    forall x ensures (all + kid)[x] == (t + below)[x] {
      assert (t' + kid)[x] == (t + kept)[x] && (kept + right)[x] == below[x] && all[x] == (t' + right)[x];
    }
  }

  lemma {:induction false} WidenLeaves(t: Tree, key: int, right: Tree)
    requires t.Node? && Paired(t)
    ensures multiset(Leaves(Widen(t, key, right))) == multiset(Leaves(t)) + multiset(Leaves(right))
  {
    var i := Position(Separators(t), Entry(key, right.id)) + 1;
    var a, b := t.kids[..i], t.kids[i..];
    assert t.kids == a + b;
    LeavesOfConcat(a, b);
    LeavesOfConcat(a + [right], b);
    LeavesOfConcat(a, [right]);
    assert LeavesOf([right]) == Leaves(right);
  }

  lemma {:induction false} ExchangeKid(t: Tree, r: nat, c: Tree)
    requires t.Node? && Paired(t) && r < |t.kids|
    ensures multiset(Leaves(t.(kids := t.kids[r := c]))) + multiset(Leaves(t.kids[r]))
         == multiset(Leaves(t)) + multiset(Leaves(c))
  {
    LeavesAt(t.kids, r);
    UpdateLeaves(t, r, c);
  }

  lemma {:induction false} RejoinExchanges(t: Tree, r: nat, below: Outcome, capacity: int)
    requires t.Node? && Paired(t) && r < |t.kids| && capacity >= 1
    ensures multiset(OutcomeLeaves(Rejoin(t, below, r, capacity))) + multiset(Leaves(t.kids[r]))
         == multiset(Leaves(t)) + multiset(OutcomeLeaves(below))
  {
    var t' := t.(kids := t.kids[r := Kept(below)]);
    ExchangeKid(t, r, Kept(below));
    if below.Split? {
      WidenLeaves(t', below.key, below.right);
      DivideLeaves(Widen(t', below.key, below.right), capacity, below.n);
      Exchange(multiset(Leaves(t.kids[r])), multiset(Leaves(below.left)), multiset(Leaves(below.right)),
        multiset(OutcomeLeaves(below)), multiset(Leaves(t)), multiset(Leaves(t')),
        multiset(OutcomeLeaves(Rejoin(t, below, r, capacity))));
    }
  }

  /** The leaf that `getPath` reaches. */
  ghost function LeafFor(t: Tree, key: int): Tree {
    if t.Leaf? || !Paired(t) then t else LeafFor(t.kids[Route(t.keys, key)], key)
  }

  lemma {:induction false} LeafForIsLeaf(t: Tree, h: nat, key: int, capacity: int)
    requires Shape(t, h, capacity)
    ensures LeafFor(t, key).Leaf? && LeafFor(t, key) in Leaves(t)
    ensures LeafIndex(t, key) < |Leaves(t)| && Leaves(t)[LeafIndex(t, key)] == LeafFor(t, key)
    decreases t
  {
    if t.Node? {
      var r := Route(t.keys, key);
      LeafForIsLeaf(t.kids[r], h - 1, key, capacity);
      LeavesAt(t.kids, r);
    }
  }

  lemma {:induction false} FindsInLeafFor(t: Tree, key: int)
    ensures LeafFor(t, key).Leaf? ==> Find(t, key) == Lookup(LeafFor(t, key).entries, key)
    decreases t
  {
    if t.Node? && Paired(t) { FindsInLeafFor(t.kids[Route(t.keys, key)], key); }
  }

  lemma {:induction false} LookupIsLeast(es: seq<Entry>, key: int)
    requires Sorted(es) && !FreshKey(es, key)
    ensures Entry(key, Lookup(es, key)) in es
    ensures forall e :: e in es && e.key == key ==> Lookup(es, key) <= e.value
  {
    if es[0].key == key {
      forall i | 0 < i < |es| && es[i].key == key ensures es[0].value <= es[i].value {
        assert InOrder(es, 0, i);
      }
    } else {
      var rest := es[1..];
      SortedSlice(es, 1, |es|);
      assert es[1..|es|] == rest;
      var i :| 0 <= i < |es| && es[i].key == key;
      assert rest[i - 1] == es[i];
      LookupIsLeast(rest, key);
      assert forall e :: e in es && e.key == key ==> e in rest;
    }
  }

  /** Of several entries with the key in the leaf that the path leads to, the search gives the one with the least value;
      in any tree, whatever its keys. */
  lemma {:induction false} SearchIsLeast(x: Index, key: int, capacity: int)
    requires capacity >= 1 && WellFormed(x, capacity) && x.Rooted?
    ensures var l := LeafFor(x.root, key);
            && l.Leaf? && l in Leaves(x.root)
            && if FreshKey(l.entries, key) then Search(x, key) == -1
               else
                 && Entry(key, Search(x, key)) in l.entries
                 && forall e :: e in l.entries && e.key == key ==> Search(x, key) <= e.value
  {
    var l := LeafFor(x.root, key);
    LeafForIsLeaf(x.root, x.depth, key, capacity);
    FindsInLeafFor(x.root, key);
    LeafForShape(x.root, x.depth, key, capacity);
    if FreshKey(l.entries, key) { LookupFresh(l.entries, key); } else { LookupIsLeast(l.entries, key); }
  }

  lemma {:induction false} LeafForShape(t: Tree, h: nat, key: int, capacity: int)
    requires Shape(t, h, capacity)
    ensures Shape(LeafFor(t, key), 0, capacity)
    decreases t
  {
    if t.Node? { LeafForShape(t.kids[Route(t.keys, key)], h - 1, key, capacity); }
  }

  lemma {:induction false} InsertExchanges(t: Tree, h: nat, e: Entry, capacity: int, n: int)
    requires capacity >= 1 && Shape(t, h, capacity)
    ensures LeafFor(t, e.key).Leaf?
    ensures multiset(OutcomeLeaves(InsertInto(t, e, capacity, n))) + multiset{LeafFor(t, e.key)}
         == multiset(Leaves(t)) + multiset(OutcomeLeaves(InsertLeaf(LeafFor(t, e.key), e, capacity, n)))
    decreases t
  {
    if t.Node? {
      var r := Route(t.keys, e.key);
      var below, l := InsertInto(t.kids[r], e, capacity, n), LeafFor(t, e.key);
      assert InsertInto(t, e, capacity, n) == Rejoin(t, below, r, capacity);
      InsertExchanges(t.kids[r], h - 1, e, capacity, n);
      RejoinExchanges(t, r, below, capacity);
      ExchangeOnce(multiset(OutcomeLeaves(Rejoin(t, below, r, capacity))), multiset(Leaves(t.kids[r])),
        multiset(Leaves(t)), multiset(OutcomeLeaves(below)), multiset{l},
        multiset(OutcomeLeaves(InsertLeaf(l, e, capacity, n))));
    }
  }

  lemma ExchangeOnce(all: multiset<Tree>, kid: multiset<Tree>, t: multiset<Tree>, below: multiset<Tree>,
                     leaf: multiset<Tree>, leaf': multiset<Tree>)
    requires all + kid == t + below && below + leaf == kid + leaf'
    ensures all + leaf == t + leaf'
  {
    forall x ensures (all + leaf)[x] == (t + leaf')[x] {
      assert (all + kid)[x] == (t + below)[x] && (below + leaf)[x] == (kid + leaf')[x];
    }
  }

  // ---- The chain ----

  lemma {:induction false} SplicedLeaves(ls: seq<Tree>, j: nat, mid: seq<Tree>)
    requires j < |ls|
    ensures multiset(Spliced(ls, j, mid)) + multiset{ls[j]} == multiset(ls) + multiset(mid)
  {
    assert ls == ls[..j] + [ls[j]] + ls[j + 1..];
  }

  lemma SameRest(a: multiset<Tree>, b: multiset<Tree>, leaf: multiset<Tree>)
    requires a + leaf == b + leaf
    ensures a == b
  {
    forall x ensures a[x] == b[x] {
      assert (a + leaf)[x] == (b + leaf)[x];
    }
  }

  lemma {:induction false} LeafOnChain(ls: seq<Tree>, j: nat, e: Entry, capacity: int, n: int) returns (ls': seq<Tree>)
    requires capacity >= 1 && Chained(ls, 0) && j < |ls| && ls[j].Leaf?
    ensures ls' == Spliced(ls, j, OutcomeLeaves(InsertLeaf(ls[j], e, capacity, n)))
    ensures Chained(ls', 0) && ls' != [] && ls'[0].id == ls[0].id
  {
    var o := InsertLeaf(ls[j], e, capacity, n);
    if o.Done? {
      ls' := Spliced(ls, j, [o.tree]);
      assert OutcomeLeaves(o) == [o.tree];
      ChainedOne(ls, j, o.tree, 0);
    } else {
      ls' := Spliced(ls, j, [o.left, o.right]);
      assert OutcomeLeaves(o) == [o.left, o.right];
      ChainedTwo(ls, j, o.left, o.right, 0);
    }
  }

  /** Inserting keeps all leaves on one chain with the same first block, whatever the order of the keys. */
  lemma {:induction false} InsertKeepsChain(t: Tree, h: nat, e: Entry, capacity: int, n: int, ls: seq<Tree>)
      returns (ls': seq<Tree>)
    requires capacity >= 1 && Shape(t, h, capacity) && ChainOf(ls, t)
    ensures Chained(ls', 0) && multiset(ls') == multiset(OutcomeLeaves(InsertInto(t, e, capacity, n)))
    ensures ls != [] && ls' != [] && ls'[0].id == ls[0].id
  {
    var l := LeafFor(t, e.key);
    InsertExchanges(t, h, e, capacity, n);
    LeafForIsLeaf(t, h, e.key, capacity);
    assert l in multiset(ls);
    var j :| 0 <= j < |ls| && ls[j] == l;
    ls' := LeafOnChain(ls, j, e, capacity, n);
    SplicedLeaves(ls, j, OutcomeLeaves(InsertLeaf(l, e, capacity, n)));
    SameRest(multiset(ls'), multiset(OutcomeLeaves(InsertInto(t, e, capacity, n))), multiset{l});
  }

  lemma {:induction false} AddKeepsChain(x: Index, e: Entry, capacity: int, ls: seq<Tree>) returns (ls': seq<Tree>)
    requires capacity >= 1 && WellFormed(x, capacity) && x.Rooted? && ChainOf(ls, x.root)
    ensures ChainOf(ls', Add(x, e, capacity).root)
    ensures ls != [] && ls' != [] && ls'[0].id == ls[0].id
  {
    var o := InsertInto(x.root, e, capacity, x.n);
    ls' := InsertKeepsChain(x.root, x.depth, e, capacity, x.n, ls);
    if o.Split? { NewRootLeaves(o); }
  }

  /** After any run of storable entries, at any capacity, all leaves are on one chain that begins at block 1. */
  lemma {:induction false} RunChain(es: seq<Entry>, capacity: int) returns (ls: seq<Tree>)
    requires capacity >= 1 && AllStorable(es) && es != []
    ensures var x := Run(Empty, es, capacity);
            x.Rooted? && ChainOf(ls, x.root) && ls != [] && ls[0].id == 1 && DistinctIds(ls)
    decreases |es|
  {
    var before, e := es[..|es| - 1], es[|es| - 1];
    if before == [] {
      ls := [Leaf(1, [e], 0)];
      assert Run(Empty, before, capacity) == Empty;
    } else {
      ls := RunChain(before, capacity);
      RunWellFormed(before, capacity);
      ls := AddKeepsChain(Run(Empty, before, capacity), e, capacity, ls);
    }
    RunWellFormed(es, capacity);
    ChainDistinct(ls, Run(Empty, es, capacity), capacity);
  }

  // ---- No leaf twice, and no other chain ----

  /** The walk never comes back to a block. */
  ghost predicate DistinctIds(ls: seq<Tree>) {
    forall i, j :: 0 <= i < j < |ls| ==> ls[i].id != ls[j].id
  }

  ghost function IdCount(ls: seq<Tree>, id: int): nat {
    if ls == [] then 0 else (if ls[0].id == id then 1 else 0) + IdCount(ls[1..], id)
  }

  lemma {:induction false} IdCountSum(a: seq<Tree>, b: seq<Tree>, id: int)
    ensures IdCount(a + b, id) == IdCount(a, id) + IdCount(b, id)
  {
    if a == [] {
      assert a + b == b;
    } else {
      assert (a + b)[1..] == a[1..] + b;
      IdCountSum(a[1..], b, id);
    }
  }

  lemma {:induction false} IdCountAt(ls: seq<Tree>, i: nat)
    requires i < |ls|
    ensures IdCount(ls[i..], ls[i].id) >= 1
  {
  }

  lemma {:induction false} IdCountOfSame(a: seq<Tree>, b: seq<Tree>, id: int)
    requires multiset(a) == multiset(b)
    ensures IdCount(a, id) == IdCount(b, id)
  {
    if a == [] {
      assert |multiset(b)| == 0;
    } else {
      assert a[0] in multiset(b);
      var i :| 0 <= i < |b| && b[i] == a[0];
      var x, y := b[..i], b[i + 1..];
      assert b == x + [a[0]] + y;
      TailOfSame(a, x, y);
      IdCountOfSame(a[1..], x + y, id);
      IdCountSum(x + [a[0]], y, id);
      IdCountSum(x, [a[0]], id);
      IdCountSum(x, y, id);
    }
  }

  lemma TailOfSame(a: seq<Tree>, x: seq<Tree>, y: seq<Tree>)
    requires a != [] && multiset(a) == multiset(x + [a[0]] + y)
    ensures multiset(a[1..]) == multiset(x + y)
  {
    assert a == [a[0]] + a[1..];
    assert multiset(x + [a[0]] + y) == multiset(x + y) + multiset{a[0]};
    SameRest(multiset(a[1..]), multiset(x + y), multiset{a[0]});
  }

  lemma {:induction false} LeafIdsAreUsed(t: Tree, id: int)
    ensures IdCount(Leaves(t), id) <= Uses(t, id)
    decreases t, 0
  {
    if t.Leaf? {
      assert [t][1..] == [];
    } else {
      KidIdsAreUsed(t, t.kids, id);
    }
  }

  lemma {:induction false} KidIdsAreUsed(t: Tree, ts: seq<Tree>, id: int)
    requires t.Node? && forall i :: 0 <= i < |ts| ==> ts[i] in t.kids
    ensures IdCount(LeavesOf(ts), id) <= UsesIn(ts, id)
    decreases t, 0, |ts|
  {
    if ts != [] {
      LeafIdsAreUsed(ts[0], id);
      KidIdsAreUsed(t, ts[1..], id);
      IdCountSum(Leaves(ts[0]), LeavesOf(ts[1..]), id);
    }
  }

  lemma {:induction false} CountedTwice(ls: seq<Tree>, i: nat, j: nat)
    requires i < j < |ls| && ls[i].id == ls[j].id
    ensures IdCount(ls, ls[i].id) >= 2
  {
    if i == 0 {
      IsCounted(ls[1..], j - 1, ls[0].id);
    } else {
      CountedTwice(ls[1..], i - 1, j - 1);
    }
  }

  lemma {:induction false} IsCounted(ls: seq<Tree>, i: nat, id: int)
    requires i < |ls| && ls[i].id == id
    ensures IdCount(ls, id) >= 1
  {
    if i > 0 { IsCounted(ls[1..], i - 1, id); }
  }

  lemma {:induction false} ChainDistinct(ls: seq<Tree>, x: Index, capacity: int)
    requires capacity >= 1 && WellFormed(x, capacity) && x.Rooted? && ChainOf(ls, x.root)
    ensures DistinctIds(ls)
  {
    forall i, j | 0 <= i < j < |ls| ensures ls[i].id != ls[j].id {
      CountedOnce(ls, x, capacity, ls[i].id);
      if ls[i].id == ls[j].id { CountedTwice(ls, i, j); }
    }
  }

  lemma {:induction false} CountedOnce(ls: seq<Tree>, x: Index, capacity: int, id: int)
    requires capacity >= 1 && WellFormed(x, capacity) && x.Rooted? && ChainOf(ls, x.root)
    ensures IdCount(ls, id) <= 1
  {
    IdCountOfSame(ls, Leaves(x.root), id);
    LeafIdsAreUsed(x.root, id);
    assert Uses(x.root, id) == Between(0, id, x.n);
  }

  lemma {:induction false} ChainTail(ls: seq<Tree>)
    requires ls != [] && Chained(ls, 0)
    ensures Chained(ls[1..], 0) && (DistinctIds(ls) ==> DistinctIds(ls[1..]))
  {
    forall i | 0 <= i < |ls| - 1 ensures Linked(ls[1..], i, 0) {
      assert Linked(ls, i + 1, 0);
    }
  }

  lemma {:induction false} NextOnChain(ls: seq<Tree>, i: nat)
    requires Chained(ls, 0) && i < |ls|
    ensures ls[i].Leaf? && (ls[i].next != 0 ==> i + 1 < |ls| && ls[i + 1].id == ls[i].next)
    ensures i + 1 < |ls| ==> ls[i].next == ls[i + 1].id
  {
    assert Linked(ls, i, 0);
  }

  /** Nothing links to the first leaf of a chain. */
  lemma {:induction false} FirstOfChain(a: seq<Tree>, b: seq<Tree>, k: nat)
    requires Chained(a, 0) && Chained(b, 0) && multiset(a) == multiset(b) && DistinctIds(a)
    requires a != [] && a[0].id != 0 && k < |b| && b[k] == a[0]
    ensures k == 0
  {
    if k > 0 {
      NextOnChain(b, k - 1);
      assert b[k - 1] in multiset(b);
      var m :| 0 <= m < |a| && a[m] == b[k - 1];
      NextOnChain(a, m);
    }
  }

  /** Two chains of the same leaves are the same. */
  lemma {:induction false} ChainUnique(a: seq<Tree>, b: seq<Tree>)
    requires Chained(a, 0) && Chained(b, 0) && multiset(a) == multiset(b) && DistinctIds(a)
    requires forall l :: l in a ==> l.id != 0
    ensures a == b
  {
    if a == [] {
      assert |multiset(b)| == 0;
    } else {
      assert a[0] in multiset(b);
      var k :| 0 <= k < |b| && b[k] == a[0];
      FirstOfChain(a, b, k);
      ChainTail(a);
      ChainTail(b);
      TailsOfSame(a, b);
      ChainUnique(a[1..], b[1..]);
    }
  }

  lemma {:induction false} TailsOfSame(a: seq<Tree>, b: seq<Tree>)
    requires a != [] && b != [] && a[0] == b[0] && multiset(a) == multiset(b)
    ensures multiset(a[1..]) == multiset(b[1..])
    ensures a[1..] == b[1..] ==> a == b
  {
    assert b == [] + [a[0]] + b[1..] && [] + b[1..] == b[1..];
    TailOfSame(a, [], b[1..]);
    assert a == [a[0]] + a[1..] && b == [b[0]] + b[1..];
  }

  // ---- Ranges along the chain ----

  /** The entries before the first one with a key beyond `last`. */
  function Until(es: seq<Entry>, last: int): seq<Entry> {
    if es == [] || es[0].key > last then [] else [es[0]] + Until(es[1..], last)
  }

  lemma {:induction false} UntilOfAscending(es: seq<Entry>, first: int, last: int)
    requires Ascending(es)
    ensures InRange(Until(es, last), first, last) == InRange(es, first, last)
  {
    if es == [] {
    } else if es[0].key > last {
      InRangeOutside(es, first, last);
    } else {
      UntilOfAscending(es[1..], first, last);
      assert ([es[0]] + Until(es[1..], last))[1..] == Until(es[1..], last);
    }
  }

  lemma {:induction false} UntilSum(a: seq<Entry>, b: seq<Entry>, last: int)
    requires AllUpTo(a, last)
    ensures Until(a + b, last) == a + Until(b, last)
  {
    if a == [] {
      assert a + b == b && a + Until(b, last) == Until(b, last);
    } else {
      assert (a + b)[1..] == a[1..] + b;
      UntilSum(a[1..], b, last);
    }
  }

  lemma {:induction false} UntilCut(a: seq<Entry>, b: seq<Entry>, last: int)
    requires !AllUpTo(a, last)
    ensures Until(a + b, last) == Until(a, last)
  {
    assert a != [];
    if a[0].key <= last {
      assert (a + b)[1..] == a[1..] + b;
      assert !AllUpTo(a[1..], last) by { assert forall i :: 0 < i < |a| ==> a[i] == a[1..][i - 1]; }
      UntilCut(a[1..], b, last);
    }
  }

  /** The walk goes on after a leaf without a key beyond `last`, and has then read it all. */
  lemma {:induction false} WalkGoesOn(ls: seq<Tree>, k: nat, first: int, last: int)
    requires k < |ls| && ls[k].Leaf? && AllUpTo(Concat(ls[..k]), last) && AllUpTo(ls[k].entries, last)
    ensures AllUpTo(Concat(ls[..k + 1]), last)
    ensures InRange(Concat(ls[..k + 1]), first, last)
         == InRange(Concat(ls[..k]), first, last) + InRange(Until(ls[k].entries, last), first, last)
  {
    assert ls[..k + 1] == ls[..k] + [ls[k]];
    ConcatSum(ls[..k], [ls[k]]);
    assert Concat([ls[k]]) == ls[k].entries;
    InRangeSum(Concat(ls[..k]), ls[k].entries, first, last);
    WalkEnds(ls[k].entries, last);
  }

  /** It stops in a leaf with such a key, and has then read all it should. */
  lemma {:induction false} WalkStops(ls: seq<Tree>, k: nat, first: int, last: int)
    requires k < |ls| && ls[k].Leaf? && AllUpTo(Concat(ls[..k]), last) && !AllUpTo(ls[k].entries, last)
    ensures InRange(Until(Concat(ls), last), first, last)
         == InRange(Concat(ls[..k]), first, last) + InRange(Until(ls[k].entries, last), first, last)
  {
    var a, es, c := Concat(ls[..k]), ls[k].entries, Concat(ls[k + 1..]);
    ConcatSpliced(ls, k, []);
    assert Concat(ls) == a + (es + c);
    UntilSum(a, es + c, last);
    UntilCut(es, c, last);
    InRangeSum(a, Until(es, last), first, last);
  }

  /** What has been read when the walk has come to the end. */
  lemma {:induction false} WalkEnds(es: seq<Entry>, last: int)
    requires AllUpTo(es, last)
    ensures Until(es, last) == es
  {
    UntilSum(es, [], last);
    assert es + [] == es;
  }

  /** One more entry of a leaf. */
  lemma {:induction false} ScanStep(es: seq<Entry>, i: nat, first: int, last: int)
    requires i < |es| && es[i].key <= last && AllUpTo(es[..i], last)
    ensures AllUpTo(es[..i + 1], last)
    ensures InRange(es[..i + 1], first, last)
         == InRange(es[..i], first, last) + if first <= es[i].key then [es[i]] else []
  {
    assert es[..i + 1] == es[..i] + [es[i]];
    InRangeSum(es[..i], [es[i]], first, last);
    assert [es[i]][1..] == [];
  }

  lemma {:induction false} ScanStops(es: seq<Entry>, i: nat, last: int)
    requires i < |es| && es[i].key > last && AllUpTo(es[..i], last)
    ensures Until(es, last) == es[..i] && !AllUpTo(es, last)
  {
    assert es == es[..i] + es[i..];
    UntilSum(es[..i], es[i..], last);
  }

  lemma {:induction false} UntilIsPrefix(es: seq<Entry>, last: int) returns (rest: seq<Entry>)
    ensures es == Until(es, last) + rest
  {
    if es == [] || es[0].key > last {
      rest := es;
    } else {
      rest := UntilIsPrefix(es[1..], last);
      assert es == [es[0]] + es[1..];
    }
  }

  ghost function IndexOf(ls: seq<Tree>, l: Tree): (j: nat)
    ensures j <= |ls| && (l in ls ==> j < |ls| && ls[j] == l)
  {
    if ls == [] || ls[0] == l then 0 else 1 + IndexOf(ls[1..], l)
  }

  /** What `rangeSearch` reads along a chain: from the leaf that `getPath` reaches for `first` on, until a key is
      beyond `last`. */
  ghost function RangeAlong(chain: seq<Tree>, x: Index, first: int, last: int): seq<Entry> {
    if x.Empty? then []
    else InRange(Until(Concat(chain[IndexOf(chain, LeafFor(x.root, first))..]), last), first, last)
  }

  lemma {:induction false} UntilIsLongest(es: seq<Entry>, last: int) returns (n: nat)
    ensures n <= |es| && Until(es, last) == es[..n] && AllUpTo(es[..n], last)
    ensures n < |es| ==> es[n].key > last
  {
    n := 0;
    if es != [] && es[0].key <= last {
      n := UntilIsLongest(es[1..], last);
      assert es[..n + 1] == [es[0]] + es[1..][..n];
      n := n + 1;
    }
  }

  /** The walk reads the leaves of the chain from the one that the path leads to, entry by entry, up to the first key
      beyond `last` and no further, even if smaller keys come after it, and keeps the entries from `first` on. */
  lemma {:induction false} RangeStopsAtFirst(chain: seq<Tree>, x: Index, first: int, last: int)
      returns (read: seq<Entry>, n: nat)
    requires x.Rooted? && LeafFor(x.root, first) in chain
    ensures exists j :: 0 <= j < |chain| && chain[j] == LeafFor(x.root, first) && read == Concat(chain[j..])
    ensures n <= |read| && AllUpTo(read[..n], last) && (n < |read| ==> read[n].key > last)
    ensures RangeAlong(chain, x, first, last) == InRange(read[..n], first, last)
  {
    var j := IndexOf(chain, LeafFor(x.root, first));
    read := Concat(chain[j..]);
    n := UntilIsLongest(read, last);
  }

  /** In a sound index the chain is the list of leaves in order, and the range is as in a list in order. */
  lemma {:induction false} SoundRangeAlong(chain: seq<Tree>, x: Index, capacity: int, first: int, last: int)
    requires capacity >= 1 && Sound(x, capacity) && (x.Rooted? ==> ChainOf(chain, x.root))
    ensures RangeAlong(chain, x, first, last) == Range(x, first, last)
  {
    if x.Rooted? {
      var ls, j := Leaves(x.root), LeafIndex(x.root, first);
      ChainIsLeaves(chain, x, capacity);
      LeafForIsLeaf(x.root, x.depth, first, capacity);
      var i := IndexOf(ls, LeafFor(x.root, first));
      assert i == j;
      SoundContents(x, capacity);
      SuffixAscending(ls, j);
      UntilOfAscending(Concat(ls[j..]), first, last);
    }
  }

  lemma {:induction false} ChainIsLeaves(chain: seq<Tree>, x: Index, capacity: int)
    requires capacity >= 1 && Sound(x, capacity) && x.Rooted? && ChainOf(chain, x.root)
    ensures chain == Leaves(x.root) && DistinctIds(chain)
  {
    ChainDistinct(chain, x, capacity);
    forall l | l in chain ensures l.id != 0 {
      assert l in multiset(chain);
      LeafIdUsed(x.root, l);
      assert Uses(x.root, 0) == 0;
    }
    ChainUnique(chain, Leaves(x.root));
  }

  lemma {:induction false} LeafIdUsed(t: Tree, l: Tree)
    requires l in Leaves(t)
    ensures Uses(t, l.id) >= 1
  {
    var i :| 0 <= i < |Leaves(t)| && Leaves(t)[i] == l;
    assert Leaves(t) == Leaves(t)[..i] + Leaves(t)[i..];
    IdCountSum(Leaves(t)[..i], Leaves(t)[i..], l.id);
    IdCountAt(Leaves(t), i);
    LeafIdsAreUsed(t, l.id);
  }

  lemma {:induction false} ConcatOfSame(a: seq<Tree>, b: seq<Tree>)
    requires multiset(a) == multiset(b)
    ensures multiset(Concat(a)) == multiset(Concat(b))
  {
    if a == [] {
      assert |multiset(b)| == 0;
    } else {
      assert a[0] in multiset(b);
      var i :| 0 <= i < |b| && b[i] == a[0];
      var x, y := b[..i], b[i + 1..];
      assert b == x + [a[0]] + y;
      TailOfSame(a, x, y);
      ConcatOfSame(a[1..], x + y);
      ConcatSameWith(a, x, y);
    }
  }

  lemma {:induction false} ConcatSameWith(a: seq<Tree>, x: seq<Tree>, y: seq<Tree>)
    requires a != [] && multiset(Concat(a[1..])) == multiset(Concat(x + y))
    ensures multiset(Concat(a)) == multiset(Concat(x + [a[0]] + y))
  {
    ConcatWith(x, a[0], y);
    ConcatWith([], a[0], a[1..]);
    assert [] + [a[0]] + a[1..] == a && [] + a[1..] == a[1..];
  }

  lemma {:induction false} ConcatWith(x: seq<Tree>, l: Tree, y: seq<Tree>)
    ensures multiset(Concat(x + [l] + y)) == multiset(Concat(x + y)) + multiset(Concat([l]))
  {
    ConcatSum(x + [l], y);
    ConcatSum(x, [l]);
    ConcatSum(x, y);
  }

  /** Whatever the order of the keys, a range holds nothing but stored entries within its bounds, none too often. */
  lemma {:induction false} RangeAlongIsStored(chain: seq<Tree>, x: Index, first: int, last: int)
    requires x.Rooted? ==> ChainOf(chain, x.root)
    ensures multiset(RangeAlong(chain, x, first, last)) <= multiset(InRange(IndexContents(x), first, last))
  {
    if x.Rooted? {
      var j := IndexOf(chain, LeafFor(x.root, first));
      var skipped, read := Concat(chain[..j]), Concat(chain[j..]);
      assert chain == chain[..j] + chain[j..];
      ConcatSum(chain[..j], chain[j..]);
      var rest := UntilIsPrefix(read, last);
      InRangeSum(skipped, read, first, last);
      InRangeSum(Until(read, last), rest, first, last);
      ConcatOfSame(chain, Leaves(x.root));
      InRangeOfSame(Concat(chain), IndexContents(x), first, last);
    }
  }
}
