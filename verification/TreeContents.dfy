/** What the tree stores, as the code reads it: the leaf chain, point lookups and ranges. */
module TreeContents {
  import opened Entries
  import opened Trees
  import opened TreeLeaves
  import opened TreeOrder

  lemma {:induction false} ConcatSpliced(ls: seq<Tree>, j: nat, mid: seq<Tree>)
    requires j < |ls| && ls[j].Leaf?
    ensures Concat(ls) == Concat(ls[..j]) + ls[j].entries + Concat(ls[j + 1..])
    ensures Concat(Spliced(ls, j, mid)) == Concat(ls[..j]) + Concat(mid) + Concat(ls[j + 1..])
  {
    assert ls == ls[..j] + ls[j..];
    ConcatSum(ls[..j], ls[j..]);
    ConcatSum(ls[..j] + mid, ls[j + 1..]);
    ConcatSum(ls[..j], mid);
  }

  // ---- The leaf chain ----

  /** Following `next` from the first leaf visits exactly these leaves and then `end`. */
  ghost predicate Chained(ls: seq<Tree>, end: int) {
    forall i :: 0 <= i < |ls| ==> Linked(ls, i, end)
  }

  ghost predicate Linked(ls: seq<Tree>, i: int, end: int)
    requires 0 <= i < |ls|
  {
    ls[i].Leaf? && ls[i].next == if i + 1 < |ls| then ls[i + 1].id else end
  }

  /** A leaf split links the new leaf between its left half and the old successor. */
  lemma {:induction false} InsertChained(t: Tree, h: nat, e: Entry, capacity: int, n: int, lo: int, hi: int, end: int)
    requires Takes(t, h, e, capacity, n, lo, hi) && Chained(Leaves(t), end)
    ensures Chained(OutcomeLeaves(InsertInto(t, e, capacity, n)), end)
  {
    InsertLeaves(t, h, e, capacity, n, lo, hi);
    var ls, j := Leaves(t), LeafIndex(t, e.key);
    var o := InsertLeaf(ls[j], e, capacity, n);
    if o.Done? {
      assert OutcomeLeaves(o) == [o.tree];
      ChainedOne(ls, j, o.tree, end);
    } else {
      assert OutcomeLeaves(o) == [o.left, o.right];
      ChainedTwo(ls, j, o.left, o.right, end);
    }
  }

  lemma ChainedOne(ls: seq<Tree>, j: nat, a: Tree, end: int)
    requires Chained(ls, end) && j < |ls| && ls[j].Leaf? && a.Leaf? && a.id == ls[j].id && a.next == ls[j].next
    ensures Chained(Spliced(ls, j, [a]), end)
  {
    var r := ls[j := a];
    assert Spliced(ls, j, [a]) == r;
    forall i | 0 <= i < |r| ensures Linked(r, i, end) {
      assert Linked(ls, i, end);
    }
  }

  lemma ChainedTwo(ls: seq<Tree>, j: nat, a: Tree, b: Tree, end: int)
    requires Chained(ls, end) && j < |ls| && ls[j].Leaf? && a.Leaf? && b.Leaf?
    requires a.id == ls[j].id && a.next == b.id && b.next == ls[j].next
    ensures Chained(Spliced(ls, j, [a, b]), end)
  {
    var r := Spliced(ls, j, [a, b]);
    forall i | 0 <= i < |r| ensures Linked(r, i, end) {
      assert Linked(ls, if i <= j then i else i - 1, end);
      assert i > j + 1 ==> r[i] == ls[i - 1];
      assert j < i && i + 1 < |r| ==> r[i + 1] == ls[i];
    }
  }

  // ---- Searching ----

  ghost predicate AllUpTo(es: seq<Entry>, key: int) {
    forall i :: 0 <= i < |es| ==> es[i].key <= key
  }

  ghost predicate AllAbove(es: seq<Entry>, key: int) {
    forall i :: 0 <= i < |es| ==> es[i].key > key
  }

  /** Leaf `j` of the list is the last one that can hold `key`, and holds it if any does. */
  ghost predicate SplitAt(ls: seq<Tree>, j: nat, key: int) {
    && j < |ls| && ls[j].Leaf?
    && AllUpTo(Concat(ls[..j]), key)
    && AllAbove(Concat(ls[j + 1..]), key)
    && (FreshKey(ls[j].entries, key) ==> FreshKey(Concat(ls), key))
  }

  /** The leaf that `getPath` reaches splits the tree at the key. */
  lemma {:induction false} LeafIndexSplits(t: Tree, key: int, lo: int, hi: int, b: nat)
    requires Ordered(t, lo, hi, b)
    ensures SplitAt(Leaves(t), LeafIndex(t, key), key)
  {
    if t.Leaf? {
      assert Concat([t]) == t.entries;
    } else {
      var r := Route(t.keys, key);
      LeafIndexSplits(t.kids[r], key, Lower(t.keys, r, lo), Upper(t.keys, r, hi), b);
      RoutedPrefix(t, key, lo, hi, b);
      RoutedSuffix(t, r + 1, key, lo, hi, b);
      KidSplits(t, r, key);
    }
  }

  lemma {:induction false} KidSplits(t: Tree, r: nat, key: int)
    requires t.Node? && Paired(t) && r == Route(t.keys, key)
    requires SplitAt(Leaves(t.kids[r]), LeafIndex(t.kids[r], key), key)
    requires AllUpTo(KidsContents(t.kids[..r]), key) && AllAbove(KidsContents(t.kids[r + 1..]), key)
    requires FreshKey(Contents(t.kids[r]), key) ==> FreshKey(KidsContents(t.kids[..r]), key)
    ensures SplitAt(Leaves(t), LeafIndex(t, key), key)
  {
    LeavesAt(t.kids, r);
    SplitAround(LeavesOf(t.kids[..r]), Leaves(t.kids[r]), LeavesOf(t.kids[r + 1..]), LeafIndex(t.kids[r], key), key);
  }

  lemma {:induction false} SplitAround(a: seq<Tree>, k: seq<Tree>, c: seq<Tree>, j: nat, key: int)
    requires SplitAt(k, j, key) && AllUpTo(Concat(a), key) && AllAbove(Concat(c), key)
    requires FreshKey(Concat(k), key) ==> FreshKey(Concat(a), key)
    ensures SplitAt(a + k + c, |a| + j, key)
  {
    ConcatAround(a, k, c, j);
    AllSum(Concat(a), Concat(k[..j]), key);
    AllSum(Concat(k[j + 1..]), Concat(c), key);
    ConcatSum(a + k, c);
    ConcatSum(a, k);
    FreshSum(Concat(a), Concat(k), key);
    FreshSum(Concat(a) + Concat(k), Concat(c), key);
  }

  lemma AllSum(a: seq<Entry>, b: seq<Entry>, key: int)
    ensures AllUpTo(a, key) && AllUpTo(b, key) ==> AllUpTo(a + b, key)
    ensures AllAbove(a, key) && AllAbove(b, key) ==> AllAbove(a + b, key)
  {
  }

  lemma FreshSum(a: seq<Entry>, b: seq<Entry>, key: int)
    ensures FreshKey(a + b, key) <==> FreshKey(a, key) && FreshKey(b, key)
  {
    assert forall i :: 0 <= i < |a| ==> (a + b)[i] == a[i];
    assert forall i :: 0 <= i < |b| ==> (a + b)[|a| + i] == b[i];
  }

  lemma {:induction false} ConcatAround(a: seq<Tree>, b: seq<Tree>, c: seq<Tree>, j: nat)
    requires j < |b|
    ensures var s := a + b + c;
            && s[|a| + j] == b[j]
            && Concat(s[..|a| + j]) == Concat(a) + Concat(b[..j])
            && Concat(s[|a| + j + 1..]) == Concat(b[j + 1..]) + Concat(c)
  {
    var s := a + b + c;
    assert s[..|a| + j] == a + b[..j];
    assert s[|a| + j + 1..] == b[j + 1..] + c;
    ConcatSum(a, b[..j]);
    ConcatSum(b[j + 1..], c);
  }

  /** Left of the child that a key is routed to nothing is greater, and the key itself only if it begins that child. */
  lemma {:induction false} RoutedPrefix(t: Tree, key: int, lo: int, hi: int, b: nat)
    requires t.Node? && Ordered(t, lo, hi, b)
    ensures var r := Route(t.keys, key);
            && AllUpTo(KidsContents(t.kids[..r]), key)
            && (FreshKey(Contents(t.kids[r]), key) ==> FreshKey(KidsContents(t.kids[..r]), key))
  {
    var r := Route(t.keys, key);
    if r == 0 {
      assert KidsContents(t.kids[..0]) == [];
    } else {
      OrderedPrefix(t, r, lo, hi, b);
      OrderedContents(t.kids[r], t.keys[r - 1], Upper(t.keys, r, hi), b);
      assert Contents(t.kids[r])[0].key == t.keys[r - 1];
    }
  }

  lemma {:induction false} RoutedSuffix(t: Tree, i: nat, key: int, lo: int, hi: int, b: nat)
    requires t.Node? && Ordered(t, lo, hi, b) && Route(t.keys, key) < i <= |t.kids|
    ensures AllAbove(KidsContents(t.kids[i..]), key)
    decreases |t.kids| - i
  {
    if i < |t.kids| {
      RoutedSuffix(t, i + 1, key, lo, hi, b);
      OrderedContents(t.kids[i], t.keys[i - 1], Upper(t.keys, i, hi), b);
      assert t.keys[Route(t.keys, key)] <= t.keys[i - 1];
      ConcatSum(Leaves(t.kids[i]), LeavesOf(t.kids[i + 1..]));
      assert t.kids[i..][1..] == t.kids[i + 1..];
    }
  }

  /** `v` answers a search for `key` among `es`: the value of an entry with that key, and -1 only without one. */
  ghost predicate Answer(es: seq<Entry>, key: int, v: int) {
    if FreshKey(es, key) then v == -1 else exists i :: 0 <= i < |es| && es[i] == Entry(key, v)
  }

  /** The value of the first entry with this key, and -1 without one. */
  function Lookup(es: seq<Entry>, key: int): int {
    if es == [] then -1 else if es[0].key == key then es[0].value else Lookup(es[1..], key)
  }

  lemma {:induction false} LookupFresh(es: seq<Entry>, key: int)
    requires FreshKey(es, key)
    ensures Lookup(es, key) == -1
  {
    if es != [] { LookupFresh(es[1..], key); }
  }

  lemma {:induction false} LookupAnswers(es: seq<Entry>, key: int)
    ensures Answer(es, key, Lookup(es, key))
  {
    if es != [] && es[0].key != key {
      LookupAnswers(es[1..], key);
      if FreshKey(es[1..], key) {
        assert forall i :: 0 < i < |es| ==> es[i] == es[1..][i - 1];
      } else {
        var i :| 0 <= i < |es[1..]| && es[1..][i] == Entry(key, Lookup(es[1..], key));
        assert es[i + 1] == es[1..][i];
      }
    } else if es != [] {
      assert es[0] == Entry(key, Lookup(es, key));
    }
  }

  /** Looking in the one leaf that `getPath` reaches answers as looking through the whole tree would. */
  lemma {:induction false} SearchesOneLeaf(t: Tree, key: int, lo: int, hi: int, b: nat)
    requires Ordered(t, lo, hi, b)
    ensures var j := LeafIndex(t, key);
            && j < |Leaves(t)| && Leaves(t)[j].Leaf?
            && Answer(Contents(t), key, Lookup(Leaves(t)[j].entries, key))
  {
    var ls, j := Leaves(t), LeafIndex(t, key);
    LeafIndexSplits(t, key, lo, hi, b);
    LookupAnswers(ls[j].entries, key);
    ConcatSpliced(ls, j, []);
    var x, es, z := Concat(ls[..j]), ls[j].entries, Concat(ls[j + 1..]);
    if FreshKey(es, key) {
      assert FreshKey(Contents(t), key);
    } else {
      var i :| 0 <= i < |es| && es[i] == Entry(key, Lookup(es, key));
      assert Contents(t)[|x| + i] == es[i];
    }
  }

  // ---- Ranges ----

  /** The entries with first <= key <= last, in order. */
  function InRange(es: seq<Entry>, first: int, last: int): seq<Entry> {
    if es == [] then []
    else (if first <= es[0].key <= last then [es[0]] else []) + InRange(es[1..], first, last)
  }

  lemma {:induction false} InRangeSum(a: seq<Entry>, b: seq<Entry>, first: int, last: int)
    ensures InRange(a + b, first, last) == InRange(a, first, last) + InRange(b, first, last)
  {
    if a == [] {
      assert a + b == b;
    } else {
      assert (a + b)[1..] == a[1..] + b;
      InRangeSum(a[1..], b, first, last);
    }
  }

  lemma {:induction false} InRangeOutside(es: seq<Entry>, first: int, last: int)
    requires forall i :: 0 <= i < |es| ==> es[i].key < first || es[i].key > last
    ensures InRange(es, first, last) == []
  {
    if es != [] { InRangeOutside(es[1..], first, last); }
  }

  lemma {:induction false} InRangeMembers(es: seq<Entry>, first: int, last: int)
    ensures forall e :: e in InRange(es, first, last) <==> e in es && first <= e.key <= last
  {
    if es != [] {
      InRangeMembers(es[1..], first, last);
      assert es == [es[0]] + es[1..];
    }
  }

  /** A range of an ascending list is ascending and holds exactly the entries with a key in the range. */
  lemma {:induction false} InRangeExact(es: seq<Entry>, first: int, last: int)
    requires Ascending(es)
    ensures var r := InRange(es, first, last);
            Ascending(r) && forall e :: e in r <==> e in es && first <= e.key <= last
  {
    if es != [] {
      InRangeExact(es[1..], first, last);
      assert es == [es[0]] + es[1..];
      forall i | 0 <= i < |InRange(es[1..], first, last)| ensures es[0].key <= InRange(es[1..], first, last)[i].key {
        assert InRange(es[1..], first, last)[i] in es[1..];
      }
    }
  }

  /** Which entries are in range, and how often, does not depend on their order. */
  lemma {:induction false} InRangeOfSame(a: seq<Entry>, b: seq<Entry>, first: int, last: int)
    requires multiset(a) == multiset(b)
    ensures multiset(InRange(a, first, last)) == multiset(InRange(b, first, last))
  {
    if a == [] {
      assert |multiset(b)| == 0;
    } else {
      assert a[0] in multiset(b);
      var i :| 0 <= i < |b| && b[i] == a[0];
      var x, y := b[..i], b[i + 1..];
      assert b == x + [a[0]] + y;
      WithoutFirst(a, x, y);
      InRangeOfSame(a[1..], x + y, first, last);
      InRangeAround(x, a[0], y, first, last);
    }
  }

  lemma {:induction false} InRangeAround(x: seq<Entry>, e: Entry, y: seq<Entry>, first: int, last: int)
    ensures multiset(InRange(x + [e] + y, first, last))
         == multiset(InRange(x + y, first, last)) + multiset(if first <= e.key <= last then [e] else [])
  {
    InRangeSum(x, y, first, last);
    InRangeSum(x + [e], y, first, last);
    InRangeSum(x, [e], first, last);
    assert InRange([e], first, last) == if first <= e.key <= last then [e] else [];
  }

  /** What a range that starts at leaf `j` misses are copies of `first` in the leaves before, and there are none if
      `first` occurs only once. */
  lemma {:induction false} RangeStarts(ls: seq<Tree>, j: nat, first: int, last: int)
    requires SplitAt(ls, j, first)
    ensures var missed := InRange(Concat(ls[..j]), first, last);
            && InRange(Concat(ls), first, last) == missed + InRange(Concat(ls[j..]), first, last)
            && (forall i :: 0 <= i < |missed| ==> missed[i].key == first)
            && (Copies(Concat(ls), first) <= 1 ==> missed == [])
  {
    var x, y := Concat(ls[..j]), Concat(ls[j..]);
    assert ls == ls[..j] + ls[j..];
    ConcatSum(ls[..j], ls[j..]);
    InRangeSum(x, y, first, last);
    InRangeMembers(x, first, last);
    var missed := InRange(x, first, last);
    forall i | 0 <= i < |missed| ensures missed[i].key == first {
      assert missed[i] in x;
    }
    if Copies(Concat(ls), first) <= 1 {
      CopiesSum(x, y, first);
      CopiesFresh(x, first);
      CopiesFresh(y, first);
      assert ls[j..] == [ls[j]] + ls[j + 1..];
      FreshSum(ls[j].entries, Concat(ls[j + 1..]), first);
      FreshSum(x, y, first);
      InRangeOutside(x, first, last);
    }
  }
}
