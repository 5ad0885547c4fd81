/** The whole index: root, depth and block count, and what a run of insertions makes of it. */
module TreeIndex {
  import opened Entries
  import opened Trees
  import opened TreeLeaves
  import opened TreeOrder
  import opened TreeContents
  import opened TreeOccupancy

  /** `n` is the number of blocks in use; an index without blocks has no root. */
  datatype Index = Empty | Rooted(root: Tree, depth: nat, n: int)

  const MIN_KEY := -0x8000_0000
  const KEY_END := 0x8000_0000

  /** The index after an insertion below its root: as deep as before, or with a new root over two halves. */
  function Rerooted(depth: nat, o: Outcome): Index {
    match o
    case Done(t, n) => Rooted(t, depth, n)
    case Split(l, key, r, n) => Rooted(Node(n + 1, [l, r], [key]), depth + 1, n + 1)
  }

  /** Insertion into the index: the first leaf, an insertion below the root, or a new root over two halves. */
  function Add(x: Index, e: Entry, capacity: int): Index
    requires capacity >= 1
  {
    match x
    case Empty => Rooted(Leaf(1, [e], 0), 0, 1)
    case Rooted(root, depth, n) => Rerooted(depth, InsertInto(root, e, capacity, n))
  }

  function Run(x: Index, es: seq<Entry>, capacity: int): Index
    requires capacity >= 1
    decreases |es|
  {
    if es == [] then x else Add(Run(x, es[..|es| - 1], capacity), es[|es| - 1], capacity)
  }

  function Blocks(x: Index): int {
    if x.Empty? then 0 else x.n
  }

  ghost function IndexContents(x: Index): seq<Entry> {
    if x.Empty? then [] else Contents(x.root)
  }

  /** The structural invariant: balanced at `depth`, blocks 1 .. n each used exactly once, filled, never overfull. */
  ghost predicate WellFormed(x: Index, capacity: int)
    requires capacity >= 1
  {
    x.Rooted? ==>
      && Shape(x.root, x.depth, capacity)
      && (forall id :: Uses(x.root, id) == Between(0, id, x.n))
      && RootFilled(x.root, capacity)
      && IdsWithin(x.root, x.n)
      && x.depth < x.n
      && (x.root.Leaf? ==> x.root.next == 0)
  }

  /** Also: keys and separators in order, and the leaf chain complete. */
  ghost predicate Sound(x: Index, capacity: int)
    requires capacity >= 1
  {
    && WellFormed(x, capacity)
    && (x.Rooted? ==> Ordered(x.root, MIN_KEY, KEY_END, Spare(capacity)) && Chained(Leaves(x.root), 0))
  }

  /** A lone leaf is block 1 of 1; any other tree has more blocks. This is how `insert` tells the cases apart. */
  lemma LeafIffOneBlock(x: Index, capacity: int)
    requires capacity >= 1 && WellFormed(x, capacity) && x.Rooted?
    ensures 1 <= x.root.id <= x.n
    ensures x.n == 1 <==> x.root.Leaf?
    ensures x.n == 1 <==> x.depth == 0
  {
    assert Uses(x.root, x.root.id) >= 1;
    assert Uses(x.root, 1) == 1;
    if x.root.Leaf? {
      assert Uses(x.root, x.n) == 1;
    } else {
      var kid := x.root.kids[0];
      assert UsesIn(x.root.kids, kid.id) == Uses(kid, kid.id) + UsesIn(x.root.kids[1..], kid.id);
      assert Uses(kid, kid.id) >= 1;
      assert UsesIn(x.root.kids, x.root.id) == 0;
      assert Uses(x.root, kid.id) >= 1;
    }
  }

  lemma {:induction false} AddShape(x: Index, e: Entry, capacity: int)
    requires capacity >= 1 && WellFormed(x, capacity) && IsStorable(e) && x.Rooted?
    ensures var x' := Add(x, e, capacity);
            Shape(x'.root, x'.depth, capacity) && x.n <= x'.n <= x.n + x.depth + 2 && x'.depth < x'.n
  {
    LeafIffOneBlock(x, capacity);
    InsertShape(x.root, x.depth, e, capacity, x.n);
    var o := InsertInto(x.root, e, capacity, x.n);
  }

  lemma {:induction false} AddUses(x: Index, e: Entry, capacity: int, id: int)
    requires capacity >= 1 && WellFormed(x, capacity) && IsStorable(e) && x.Rooted?
    ensures Uses(Add(x, e, capacity).root, id) == Between(0, id, Add(x, e, capacity).n)
  {
    LeafIffOneBlock(x, capacity);
    InsertShape(x.root, x.depth, e, capacity, x.n);
    var o := InsertInto(x.root, e, capacity, x.n);
    assert OutcomeUses(o, id) == Between(0, id, o.n);
    if o.Split? {
      NewRootUses(o, id);
    }
  }

  lemma AddFilled(x: Index, e: Entry, capacity: int)
    requires capacity >= 1 && WellFormed(x, capacity) && x.Rooted?
    ensures RootFilled(Add(x, e, capacity).root, capacity)
  {
    InsertFilled(x.root, x.depth, e, capacity, x.n);
  }

  lemma {:induction false} RerootedIds(depth: nat, o: Outcome)
    requires OutcomeIds(o)
    ensures IdsWithin(Rerooted(depth, o).root, Rerooted(depth, o).n)
  {
    if o.Split? {
      IdsGrow(o.left, o.n, o.n + 1);
      IdsGrow(o.right, o.n, o.n + 1);
    }
  }

  lemma {:induction false} AddIds(x: Index, e: Entry, capacity: int)
    requires capacity >= 1 && x.Rooted? && x.n >= 0 && IdsWithin(x.root, x.n)
    ensures IdsWithin(Add(x, e, capacity).root, Add(x, e, capacity).n)
  {
    InsertIds(x.root, e, capacity, x.n);
    RerootedIds(x.depth, InsertInto(x.root, e, capacity, x.n));
  }

  /** Every insertion of a storable entry keeps the structural invariant, duplicate keys or not. */
  lemma AddWellFormed(x: Index, e: Entry, capacity: int)
    requires capacity >= 1 && WellFormed(x, capacity) && IsStorable(e)
    ensures WellFormed(Add(x, e, capacity), capacity)
    ensures Blocks(x) <= Blocks(Add(x, e, capacity)) <= Blocks(x) + (if x.Empty? then 1 else x.depth + 2)
  {
    if x.Rooted? {
      LeafIffOneBlock(x, capacity);
      AddShape(x, e, capacity);
      forall id { AddUses(x, e, capacity, id); }
      AddFilled(x, e, capacity);
      AddIds(x, e, capacity);
    }
  }

  lemma {:induction false} NewRootUses(o: Outcome, id: int)
    requires o.Split?
    ensures Uses(Node(o.n + 1, [o.left, o.right], [o.key]), id) == OutcomeUses(o, id) + Between(o.n, id, o.n + 1)
  {
    var kids := [o.left, o.right];
    assert kids[1..] == [o.right];
    assert UsesIn([o.right], id) == Uses(o.right, id);
  }

  /** No insertion of a storable entry loses or doubles an entry, duplicate keys or not. */
  lemma AddContents(x: Index, e: Entry, capacity: int)
    requires capacity >= 1 && WellFormed(x, capacity)
    ensures multiset(IndexContents(Add(x, e, capacity))) == multiset(IndexContents(x)) + multiset{e}
  {
    if x.Empty? {
      assert Concat([Leaf(1, [e], 0)]) == [e];
    } else {
      InsertAddsEntry(x.root, x.depth, e, capacity, x.n);
      var o := InsertInto(x.root, e, capacity, x.n);
      if o.Split? { NewRootLeaves(o); }
    }
  }

  lemma {:induction false} NewRootLeaves(o: Outcome)
    requires o.Split?
    ensures Leaves(Node(o.n + 1, [o.left, o.right], [o.key])) == OutcomeLeaves(o)
  {
    assert [o.left, o.right][1..] == [o.right];
    assert LeavesOf([o.right]) == Leaves(o.right);
  }

  lemma {:induction false} NewRootOrdered(o: Outcome, lo: int, hi: int, b: nat)
    requires o.Split? && OutcomeOrdered(o, lo, hi, b)
    ensures Ordered(Node(o.n + 1, [o.left, o.right], [o.key]), lo, hi, b)
  {
  }

  /** Every insertion of a storable entry for which there is room keeps the whole invariant. At an even capacity there
      always is; at an odd one there is while no key occurs more often than half the capacity, rounded up. */
  lemma AddSound(x: Index, e: Entry, capacity: int)
    requires capacity >= 1 && Sound(x, capacity) && IsStorable(e) && RoomFor(IndexContents(x), e, capacity)
    ensures Sound(Add(x, e, capacity), capacity)
  {
    AddWellFormed(x, e, capacity);
    if x.Rooted? {
      LeafIffOneBlock(x, capacity);
      var o := InsertInto(x.root, e, capacity, x.n);
      assert Takes(x.root, x.depth, e, capacity, x.n, MIN_KEY, KEY_END);
      InsertOrdered(x.root, x.depth, e, capacity, x.n, MIN_KEY, KEY_END);
      InsertChained(x.root, x.depth, e, capacity, x.n, MIN_KEY, KEY_END, 0);
      if o.Split? {
        NewRootLeaves(o);
        NewRootOrdered(o, MIN_KEY, KEY_END, Spare(capacity));
      }
    } else {
      LoneLeafOrdered(e, capacity);
    }
  }

  lemma LoneLeafOrdered(e: Entry, capacity: int)
    requires capacity >= 1 && IsStorable(e)
    ensures Ordered(Leaf(1, [e], 0), MIN_KEY, KEY_END, Spare(capacity)) && Chained(Leaves(Leaf(1, [e], 0)), 0)
  {
    assert KeysOf([e])[0] == e.key;
  }

  /** In a sound index the entries, read leaf by leaf, have ascending keys. */
  lemma SoundContents(x: Index, capacity: int)
    requires capacity >= 1 && Sound(x, capacity)
    ensures Ascending(IndexContents(x))
  {
    if x.Rooted? {
      OrderedContents(x.root, MIN_KEY, KEY_END, Spare(capacity));
    }
  }

  // ---- Runs of insertions ----

  ghost predicate AllStorable(es: seq<Entry>) {
    forall i :: 0 <= i < |es| ==> IsStorable(es[i])
  }

  lemma {:induction false} RunWellFormed(es: seq<Entry>, capacity: int)
    requires capacity >= 1 && AllStorable(es)
    ensures WellFormed(Run(Empty, es, capacity), capacity)
    decreases |es|
  {
    if es != [] {
      var before := es[..|es| - 1];
      RunWellFormed(before, capacity);
      AddWellFormed(Run(Empty, before, capacity), es[|es| - 1], capacity);
    }
  }

  /** After any run the index holds exactly the inserted entries. */
  lemma {:induction false} RunContents(es: seq<Entry>, capacity: int)
    requires capacity >= 1 && AllStorable(es)
    ensures multiset(IndexContents(Run(Empty, es, capacity))) == multiset(es)
    decreases |es|
  {
    if es != [] {
      var before, e := es[..|es| - 1], es[|es| - 1];
      RunContents(before, capacity);
      RunWellFormed(before, capacity);
      AddContents(Run(Empty, before, capacity), e, capacity);
      LastEntry(es);
    }
  }

  /** A run builds a single block exactly when its entries fit into one. */
  lemma {:induction false} OneBlockExactlyWhen(es: seq<Entry>, capacity: int)
    requires capacity >= 1 && AllStorable(es)
    ensures Blocks(Run(Empty, es, capacity)) == 1 <==> 1 <= |es| <= capacity
    decreases |es|
  {
    if es != [] {
      var before, e := es[..|es| - 1], es[|es| - 1];
      var x := Run(Empty, before, capacity);
      OneBlockExactlyWhen(before, capacity);
      RunWellFormed(before, capacity);
      AddWellFormed(x, e, capacity);
      if x.Rooted? {
        LeafIffOneBlock(x, capacity);
        if x.root.Leaf? { LoneLeafAdds(x, before, e, capacity); }
      }
    }
  }

  lemma {:induction false} LoneLeafAdds(x: Index, before: seq<Entry>, e: Entry, capacity: int)
    requires capacity >= 1 && AllStorable(before) && x == Run(Empty, before, capacity) && x.Rooted? && x.root.Leaf?
    ensures x.n == 1 ==> (Blocks(Add(x, e, capacity)) == 1 <==> |before| < capacity)
  {
    RunContents(before, capacity);
    assert Concat([x.root]) == x.root.entries;
    assert |multiset(x.root.entries)| == |multiset(before)|;
  }

  lemma LastEntry(es: seq<Entry>)
    requires es != []
    ensures multiset(es) == multiset(es[..|es| - 1]) + multiset{es[|es| - 1]}
  {
    assert es == es[..|es| - 1] + [es[|es| - 1]];
  }

  /** After any run that leaves room the index is sound: any run at an even capacity, and at an odd one any run that
      inserts no key more often than half the capacity, rounded up. */
  lemma {:induction false} RunSound(es: seq<Entry>, capacity: int)
    requires capacity >= 1 && AllStorable(es) && Roomy(es, capacity)
    ensures Sound(Run(Empty, es, capacity), capacity)
    decreases |es|
  {
    if es != [] {
      var before, e := es[..|es| - 1], es[|es| - 1];
      var x := Run(Empty, before, capacity);
      RoomyBefore(es, capacity);
      RunSound(before, capacity);
      RunContents(before, capacity);
      forall key ensures Copies(IndexContents(x), key) == Copies(before, key) {
        CopiesOfSame(IndexContents(x), before, key);
      }
      AddSound(x, e, capacity);
    }
  }

  lemma {:induction false} RoomyBefore(es: seq<Entry>, capacity: int)
    requires capacity >= 1 && es != [] && Roomy(es, capacity)
    ensures Roomy(es[..|es| - 1], capacity) && RoomFor(es[..|es| - 1], es[|es| - 1], capacity)
  {
    var before, e := es[..|es| - 1], es[|es| - 1];
    assert es == before + [e];
    forall key ensures Copies(es, key) == Copies(before, key) + if e.key == key then 1 else 0 {
      CopiesSum(before, [e], key);
    }
  }

  // ---- Searching ----

  /** The descent of `getPath` followed by a scan of the leaf. */
  function Find(t: Tree, key: int): int {
    if t.Leaf? then Lookup(t.entries, key)
    else if !Paired(t) then -1
    else Find(t.kids[Route(t.keys, key)], key)
  }

  function Search(x: Index, key: int): int {
    if x.Empty? then -1 else Find(x.root, key)
  }

  lemma {:induction false} FindsAtLeafIndex(t: Tree, h: nat, key: int, capacity: int)
    requires Shape(t, h, capacity)
    ensures var j := LeafIndex(t, key);
            j < |Leaves(t)| && Leaves(t)[j].Leaf? && Find(t, key) == Lookup(Leaves(t)[j].entries, key)
  {
    if t.Node? {
      var r := Route(t.keys, key);
      FindsAtLeafIndex(t.kids[r], h - 1, key, capacity);
      LeavesAt(t.kids, r);
    }
  }

  /** In a sound index the search answers as a scan of all entries would. */
  lemma {:induction false} SearchAnswers(x: Index, key: int, capacity: int)
    requires capacity >= 1 && Sound(x, capacity)
    ensures Answer(IndexContents(x), key, Search(x, key))
  {
    if x.Rooted? {
      FindsAtLeafIndex(x.root, x.depth, key, capacity);
      SearchesOneLeaf(x.root, key, MIN_KEY, KEY_END, Spare(capacity));
    }
  }

  /** Whatever the order of the keys, the search gives nothing but a value stored under the key, or -1. */
  lemma {:induction false} FindIsStored(t: Tree, key: int)
    ensures Find(t, key) == -1 || Entry(key, Find(t, key)) in Contents(t)
  {
    if t.Leaf? {
      assert Contents(t) == t.entries by { assert Concat([t]) == t.entries; }
      LookupAnswers(t.entries, key);
    } else if Paired(t) {
      var r := Route(t.keys, key);
      FindIsStored(t.kids[r], key);
      KidsContentsAt(t.kids, r);
    }
  }

  /** After any run whatsoever the search gives a value inserted with the key, or -1. */
  lemma {:induction false} SearchGivesInserted(es: seq<Entry>, capacity: int, key: int)
    requires capacity >= 1 && AllStorable(es)
    ensures var v := Search(Run(Empty, es, capacity), key); v == -1 || Entry(key, v) in es
  {
    var x := Run(Empty, es, capacity);
    if Search(x, key) != -1 {
      FindIsStored(x.root, key);
      RunContents(es, capacity);
      assert Entry(key, Search(x, key)) in multiset(es);
    }
  }

  lemma {:induction false} AnswerOfSame(a: seq<Entry>, b: seq<Entry>, key: int, v: int)
    requires multiset(a) == multiset(b) && Answer(a, key, v)
    ensures Answer(b, key, v)
  {
    CopiesOfSame(a, b, key);
    CopiesFresh(a, key);
    CopiesFresh(b, key);
    if !FreshKey(a, key) {
      var i :| 0 <= i < |a| && a[i] == Entry(key, v);
      assert a[i] in multiset(b);
      assert a[i] in b;
    }
  }

  /** After any run that leaves room, the search gives a value inserted with the key, and -1 only if there is none. */
  lemma SearchAfterRun(es: seq<Entry>, capacity: int, key: int)
    requires capacity >= 1 && AllStorable(es) && Roomy(es, capacity)
    ensures Answer(es, key, Search(Run(Empty, es, capacity), key))
  {
    var x := Run(Empty, es, capacity);
    RunSound(es, capacity);
    RunContents(es, capacity);
    SearchAnswers(x, key, capacity);
    AnswerOfSame(IndexContents(x), es, key, Search(x, key));
  }

  /** For a key inserted at most once that makes the search a map lookup. */
  lemma SearchIsMap(es: seq<Entry>, capacity: int, key: int)
    requires capacity >= 1 && AllStorable(es) && Roomy(es, capacity) && Copies(es, key) <= 1
    ensures Search(Run(Empty, es, capacity), key) == Lookup(es, key)
  {
    SearchAfterRun(es, capacity, key);
    LookupAnswers(es, key);
    if !FreshKey(es, key) { OneAnswer(es, key, Search(Run(Empty, es, capacity), key), Lookup(es, key)); }
  }

  lemma {:induction false} OneAnswer(es: seq<Entry>, key: int, v: int, w: int)
    requires Copies(es, key) <= 1 && Entry(key, v) in es && Entry(key, w) in es
    ensures v == w
  {
    if es[0].key == key {
      CopiesFresh(es[1..], key);
      assert es == [es[0]] + es[1..];
    } else {
      OneAnswer(es[1..], key, v, w);
    }
  }

  // ---- Ranges ----

  /** What `rangeSearch` reads: from the leaf that `getPath` reaches for `first` on. */
  ghost function Range(x: Index, first: int, last: int): seq<Entry> {
    if x.Empty? then []
    else
      var ls, j := Leaves(x.root), LeafIndex(x.root, first);
      if j <= |ls| then InRange(Concat(ls[j..]), first, last) else []
  }

  /** `found` answers a range over `es`: ascending, complete above `first`, with at least one entry for `first` if
      there is one, and complete if `first` occurs at most once. */
  ghost predicate RangeFound(es: seq<Entry>, first: int, last: int, found: seq<Entry>) {
    && Ascending(found)
    && multiset(found) <= multiset(InRange(es, first, last))
    && multiset(InRange(found, first + 1, last)) == multiset(InRange(es, first + 1, last))
    && (first <= last && !FreshKey(es, first) ==> !FreshKey(found, first))
    && (Copies(es, first) <= 1 ==> multiset(found) == multiset(InRange(es, first, last)))
  }

  /** The same, and distinct keys come out strictly increasing. */
  ghost predicate RangeAnswer(es: seq<Entry>, first: int, last: int, found: seq<Entry>) {
    RangeFound(es, first, last, found) && (AtMost(es, 1) ==> StrictKeys(found))
  }

  lemma {:induction false} RangeIsFound(x: Index, capacity: int, first: int, last: int)
    requires capacity >= 1 && Sound(x, capacity)
    ensures RangeFound(IndexContents(x), first, last, Range(x, first, last))
  {
    if x.Rooted? {
      LeafIndexSplits(x.root, first, MIN_KEY, KEY_END, Spare(capacity));
      SoundContents(x, capacity);
      RangeFromSplit(Leaves(x.root), LeafIndex(x.root, first), first, last);
    }
  }

  lemma {:induction false} RangeFromSplit(ls: seq<Tree>, j: nat, first: int, last: int)
    requires SplitAt(ls, j, first) && Ascending(Concat(ls))
    ensures RangeFound(Concat(ls), first, last, InRange(Concat(ls[j..]), first, last))
  {
    var x, y := Concat(ls[..j]), Concat(ls[j..]);
    RangeStarts(ls, j, first, last);
    SuffixAscending(ls, j);
    InRangeExact(y, first, last);
    AboveFirst(ls, j, first, last);
    InRangeTwice(y, first, last);
    if first <= last && !FreshKey(Concat(ls), first) { FirstIsFound(ls, j, first, last); }
  }

  lemma {:induction false} SuffixAscending(ls: seq<Tree>, j: nat)
    requires j <= |ls| && Ascending(Concat(ls))
    ensures Ascending(Concat(ls[j..]))
  {
    assert ls == ls[..j] + ls[j..];
    ConcatSum(ls[..j], ls[j..]);
    AscendingSuffix(Concat(ls[..j]), Concat(ls[j..]));
  }

  lemma {:induction false} AscendingSuffix(x: seq<Entry>, y: seq<Entry>)
    requires Ascending(x + y)
    ensures Ascending(y)
  {
    assert forall i :: 0 <= i < |y| ==> y[i] == (x + y)[|x| + i];
  }

  lemma {:induction false} AboveFirst(ls: seq<Tree>, j: nat, first: int, last: int)
    requires SplitAt(ls, j, first)
    ensures InRange(Concat(ls), first + 1, last) == InRange(Concat(ls[j..]), first + 1, last)
  {
    assert ls == ls[..j] + ls[j..];
    ConcatSum(ls[..j], ls[j..]);
    InRangeSum(Concat(ls[..j]), Concat(ls[j..]), first + 1, last);
    InRangeOutside(Concat(ls[..j]), first + 1, last);
  }

  lemma {:induction false} FirstIsFound(ls: seq<Tree>, j: nat, first: int, last: int)
    requires SplitAt(ls, j, first) && first <= last && !FreshKey(Concat(ls), first)
    ensures !FreshKey(InRange(Concat(ls[j..]), first, last), first)
  {
    var y, es := Concat(ls[j..]), ls[j].entries;
    assert ls[j..] == [ls[j]] + ls[j + 1..];
    var i :| 0 <= i < |es| && es[i].key == first;
    assert y[i] == es[i] && y[i] in y;
    InRangeMembers(y, first, last);
    assert y[i] in InRange(y, first, last);
  }

  lemma {:induction false} InRangeTwice(es: seq<Entry>, first: int, last: int)
    ensures InRange(InRange(es, first, last), first + 1, last) == InRange(es, first + 1, last)
  {
    if es != [] {
      InRangeTwice(es[1..], first, last);
      var head := if first <= es[0].key <= last then [es[0]] else [];
      InRangeSum(head, InRange(es[1..], first, last), first + 1, last);
      assert head != [] ==> head[1..] == [];
    }
  }

  lemma {:induction false} RangeFoundOfSame(a: seq<Entry>, b: seq<Entry>, first: int, last: int, found: seq<Entry>)
    requires multiset(a) == multiset(b) && RangeFound(a, first, last, found)
    ensures RangeFound(b, first, last, found)
  {
    InRangeOfSame(a, b, first, last);
    InRangeOfSame(a, b, first + 1, last);
    CopiesOfSame(a, b, first);
    CopiesFresh(a, first);
    CopiesFresh(b, first);
  }

  lemma {:induction false} CopiesInRange(es: seq<Entry>, first: int, last: int, key: int)
    ensures Copies(InRange(es, first, last), key) <= Copies(es, key)
  {
    if es != [] {
      CopiesInRange(es[1..], first, last, key);
      var head := if first <= es[0].key <= last then [es[0]] else [];
      CopiesSum(head, InRange(es[1..], first, last), key);
      assert head != [] ==> head[1..] == [];
    }
  }

  lemma {:induction false} OnceFound(es: seq<Entry>, first: int, last: int, found: seq<Entry>)
    requires Ascending(found) && multiset(found) == multiset(InRange(es, first, last)) && AtMost(es, 1)
    ensures StrictKeys(found)
  {
    forall key ensures Copies(found, key) <= 1 {
      CopiesOfSame(found, InRange(es, first, last), key);
      CopiesInRange(es, first, last, key);
    }
    AscendingOnce(found);
  }

  /** After any run that leaves room, a range holds the inserted entries within it, in key order, all of them if its
      first key was inserted at most once; else some copies of that key may be missing, but nothing more. */
  lemma RangeAfterRun(es: seq<Entry>, capacity: int, first: int, last: int)
    requires capacity >= 1 && AllStorable(es) && Roomy(es, capacity)
    ensures RangeAnswer(es, first, last, Range(Run(Empty, es, capacity), first, last))
  {
    var x := Run(Empty, es, capacity);
    RunSound(es, capacity);
    RunContents(es, capacity);
    RangeIsFound(x, capacity, first, last);
    RangeFoundOfSame(IndexContents(x), es, first, last, Range(x, first, last));
    if AtMost(es, 1) { OnceFound(es, first, last, Range(x, first, last)); }
  }

  /** After any run the height is logarithmic in the number of insertions, and no lower than that number needs. */
  lemma HeightAfterRun(es: seq<Entry>, capacity: int)
    requires capacity >= 1 && AllStorable(es) && es != []
    ensures var x := Run(Empty, es, capacity);
            && x.Rooted?
            && |es| <= Pow(capacity + 1, x.depth) * capacity
            && (x.depth >= 1 ==> |es| >= 2 * (Pow(capacity / 2 + 1, x.depth - 1) * SplitIndex(capacity)))
  {
    RunWellFormed(es, capacity);
    RunContents(es, capacity);
    var x := Run(Empty, es, capacity);
    assert |multiset(IndexContents(x))| == |multiset(es)|;
    FullCount(x.root, x.depth, capacity);
    if x.depth >= 1 { HeightBound(x.root, x.depth, capacity); }
  }
}
