/** Repeated keys: exactly when every inserted key can still be found, and when a range misses nothing. */
module TreeRepeats {
  import opened Entries
  import opened Trees
  import opened TreeLeaves
  import opened TreeOrder
  import opened TreeContents
  import opened TreeIndex

  /** After inserting `es`, a search for any of their keys gives a value inserted with it. */
  ghost predicate KeepsKeys(es: seq<Entry>, capacity: int)
    requires capacity >= 1
  {
    forall i :: 0 <= i < |es| ==> Answer(es, es[i].key, Search(Run(Empty, es, capacity), es[i].key))
  }

  function Same(e: Entry, n: nat): (s: seq<Entry>)
    ensures |s| == n && forall i :: 0 <= i < n ==> s[i] == e
  {
    seq(n, _ => e)
  }

  lemma {:induction false} CopiesOfOne(e: Entry, n: nat, key: int)
    ensures Copies(Same(e, n), key) == if e.key == key then n else 0
  {
    if e.key == key { CopiesAll(Same(e, n), key); } else { CopiesFresh(Same(e, n), key); }
  }

  lemma {:induction false} CopiesOfThree(a: Entry, i: nat, b: Entry, j: nat, c: Entry, k: nat, key: int)
    ensures Copies(Same(a, i) + Same(b, j) + Same(c, k), key)
         == (if a.key == key then i else 0) + (if b.key == key then j else 0) + if c.key == key then k else 0
  {
    CopiesSum(Same(a, i) + Same(b, j), Same(c, k), key);
    CopiesSum(Same(a, i), Same(b, j), key);
    CopiesOfOne(a, i, key);
    CopiesOfOne(b, j, key);
    CopiesOfOne(c, k, key);
  }

  // ---- One leaf, and its split ----

  lemma {:induction false} PositionIs(s: seq<Entry>, e: Entry, p: nat)
    requires p <= |s| && (forall i :: 0 <= i < p ==> !Less(e, s[i])) && (p < |s| ==> Less(e, s[p]))
    ensures Position(s, e) == p
  {
    if s != [] && p > 0 { PositionIs(s[1..], e, p - 1); }
  }

  lemma InsertLast(s: seq<Entry>, e: Entry)
    requires forall i :: 0 <= i < |s| ==> !Less(e, s[i])
    ensures InsertSorted(s, e) == s + [e]
  {
  }

  lemma {:induction false} FillLeaf(es: seq<Entry>, capacity: int)
    requires Sorted(es) && 0 < |es| <= capacity
    ensures Run(Empty, es, capacity) == Rooted(Leaf(1, es, 0), 0, 1)
    decreases |es|
  {
    var before, e := es[..|es| - 1], es[|es| - 1];
    assert es == before + [e];
    if before != [] {
      LastIsGreatest(es, before);
      FillLeaf(before, capacity);
      InsertLast(before, e);
    } else {
      assert Run(Empty, before, capacity) == Empty;
    }
  }

  lemma LastIsGreatest(es: seq<Entry>, before: seq<Entry>)
    requires Sorted(es) && es != [] && before == es[..|es| - 1]
    ensures Sorted(before) && forall i :: 0 <= i < |before| ==> !Less(es[|es| - 1], before[i])
  {
    SortedSlice(es, 0, |es| - 1);
    assert es[0..|es| - 1] == before;
    forall i | 0 <= i < |before| ensures !Less(es[|es| - 1], before[i]) {
      assert InOrder(es, i, |es| - 1);
    }
  }

  /** One entry more than a leaf holds, in order: two leaves under a new root. */
  lemma {:induction false} SplitLone(es: seq<Entry>, capacity: int)
    requires capacity >= 1 && Sorted(es) && |es| == capacity + 1
    ensures var m := SplitIndex(capacity);
            Run(Empty, es, capacity) == Rooted(Node(3, [Leaf(1, es[..m], 2), Leaf(2, es[m..], 0)], [es[m].key]), 1, 3)
  {
    var before, e := es[..|es| - 1], es[|es| - 1];
    assert es == before + [e];
    LastIsGreatest(es, before);
    FillLeaf(before, capacity);
    InsertLast(before, e);
  }

  // ---- Odd capacities of at least 3 ----

  const ONE := Entry(1, 0)
  const TWO := Entry(2, 0)
  const THREE := Entry(3, 0)

  /** At capacity 2m - 1: twos for the left leaf and one more, threes up to a split, and then ones. */
  function LosingRun(m: nat, ones: nat): seq<Entry>
    requires m >= 1
  {
    Same(TWO, m + 1) + Same(THREE, m - 1) + Same(ONE, ones)
  }

  function RightLeaf(m: nat): Tree
    requires m >= 1
  {
    Leaf(2, [TWO] + Same(THREE, m - 1), 0)
  }

  function BeforeLoss(m: nat, ones: nat): Index
    requires m >= 1
  {
    Rooted(Node(3, [Leaf(1, Same(ONE, ones) + Same(TWO, m), 2), RightLeaf(m)], [2]), 1, 3)
  }

  lemma SortedThree(a: Entry, i: nat, b: Entry, j: nat, c: Entry, k: nat)
    requires a.key < b.key < c.key
    ensures Sorted(Same(a, i) + Same(b, j) + Same(c, k))
  {
    var s := Same(a, i) + Same(b, j) + Same(c, k);
    forall x, y | 0 <= x < y < |s| ensures InOrder(s, x, y) {
      assert s[x] == if x < i then a else if x < i + j then b else c;
      assert s[y] == if y < i then a else if y < i + j then b else c;
    }
  }

  lemma LosingHalves(m: nat)
    requires m >= 1
    ensures var es := LosingRun(m, 0);
            && |es| == 2 * m && Sorted(es) && es[m] == TWO
            && es[..m] == Same(ONE, 0) + Same(TWO, m) && es[m..] == RightLeaf(m).entries
  {
    var es := LosingRun(m, 0);
    SortedThree(ONE, 0, TWO, m + 1, THREE, m - 1);
    assert es == Same(ONE, 0) + Same(TWO, m + 1) + Same(THREE, m - 1);
  }

  lemma {:induction false} FirstSplit(m: nat, es: seq<Entry>, capacity: int, x: Index)
    requires m >= 2 && es == LosingRun(m, 0) && capacity == 2 * m - 1
    requires |es| == 2 * m && x == Rooted(Node(3, [Leaf(1, es[..m], 2), Leaf(2, es[m..], 0)], [es[m].key]), 1, 3)
    ensures Run(Empty, es, capacity) == x
  {
    LosingHalves(m);
    SplitLone(es, capacity);
  }

  lemma InsertOne(m: nat, ones: nat)
    requires m >= 1
    ensures InsertSorted(Same(ONE, ones) + Same(TWO, m), ONE) == Same(ONE, ones + 1) + Same(TWO, m)
  {
    var s := Same(ONE, ones) + Same(TWO, m);
    PositionIs(s, ONE, ones);
    assert s[..ones] + [ONE] + s[ones..] == Same(ONE, ones + 1) + Same(TWO, m);
  }

  /** Insertion into a node, one level at a time. */
  lemma Descends(t: Tree, e: Entry, capacity: int, n: int, r: nat, below: Outcome)
    requires capacity >= 1 && t.Node? && Paired(t) && Route(t.keys, e.key) == r
    requires InsertInto(t.kids[r], e, capacity, n) == below
    ensures InsertInto(t, e, capacity, n) == Rejoin(t, below, r, capacity)
  {
  }

  lemma RunSnoc(es: seq<Entry>, e: Entry, capacity: int)
    requires capacity >= 1
    ensures Run(Empty, es + [e], capacity) == Add(Run(Empty, es, capacity), e, capacity)
  {
    assert (es + [e])[..|es|] == es;
  }

  lemma {:induction false} MoreOnes(m: nat, ones: nat)
    requires m >= 2 && ones < m
    ensures Run(Empty, LosingRun(m, ones), 2 * m - 1) == BeforeLoss(m, ones)
  {
    if ones == 0 {
      var es := LosingRun(m, 0);
      LosingHalves(m);
      FirstSplit(m, es, 2 * m - 1, Rooted(Node(3, [Leaf(1, es[..m], 2), Leaf(2, es[m..], 0)], [es[m].key]), 1, 3));
    } else {
      MoreOnes(m, ones - 1);
      AddOne(m, ones - 1);
      LosingSnoc(m, ones - 1);
      RunSnoc(LosingRun(m, ones - 1), ONE, 2 * m - 1);
    }
  }

  lemma LosingSnoc(m: nat, ones: nat)
    requires m >= 1
    ensures LosingRun(m, ones + 1) == LosingRun(m, ones) + [ONE]
  {
  }

  lemma {:induction false} AddOne(m: nat, ones: nat)
    requires m >= 2 && ones + 1 < m
    ensures Add(BeforeLoss(m, ones), ONE, 2 * m - 1) == BeforeLoss(m, ones + 1)
  {
    var root, left := BeforeLoss(m, ones).root, Leaf(1, Same(ONE, ones + 1) + Same(TWO, m), 2);
    InsertOne(m, ones);
    assert Route([2], 1) == 0;
    Descends(root, ONE, 2 * m - 1, 3, 0, Done(left, 3));
    assert root.kids[0 := left] == [left, RightLeaf(m)];
  }

  lemma {:induction false} LeafSplitsAgain(m: nat)
    requires m >= 2
    ensures InsertInto(Leaf(1, Same(ONE, m - 1) + Same(TWO, m), 2), ONE, 2 * m - 1, 3)
         == Split(Leaf(1, Same(ONE, m), 4), 2, Leaf(4, Same(TWO, m), 2), 4)
  {
    InsertOne(m, m - 1);
    var all := Same(ONE, m) + Same(TWO, m);
    assert all[..m] == Same(ONE, m) && all[m..] == Same(TWO, m);
  }

  /** A second separator 2 goes behind the first, whose block is older. */
  lemma {:induction false} SecondTwo(left: Tree, left': Tree, right: Tree, right': Tree, capacity: int)
    requires right.id == 2 && right'.id == 4 && capacity >= 2
    ensures Rejoin(Node(3, [left, right], [2]), Split(left', 2, right', 4), 0, capacity)
         == Done(Node(3, [left', right, right'], [2, 2]), 4)
  {
    var t := Node(3, [left', right], [2]);
    assert [left, right][0 := left'] == t.kids;
    assert Separators(t) == [Entry(2, 2)];
    PositionIs(Separators(t), Entry(2, 4), 1);
    assert Widen(t, 2, right') == Node(3, [left', right, right'], [2, 2]);
  }

  /** The last one splits the left leaf again, promotes 2 once more, and the new block goes behind that with the 3s. */
  lemma {:induction false} SecondSplit(m: nat)
    requires m >= 2
    ensures Run(Empty, LosingRun(m, m), 2 * m - 1)
         == Rooted(Node(3, [Leaf(1, Same(ONE, m), 4), RightLeaf(m), Leaf(4, Same(TWO, m), 2)], [2, 2]), 1, 4)
  {
    var c, left, root := 2 * m - 1, Leaf(1, Same(ONE, m - 1) + Same(TWO, m), 2), BeforeLoss(m, m - 1).root;
    var left', right' := Leaf(1, Same(ONE, m), 4), Leaf(4, Same(TWO, m), 2);
    MoreOnes(m, m - 1);
    LosingSnoc(m, m - 1);
    RunSnoc(LosingRun(m, m - 1), ONE, c);
    LeafSplitsAgain(m);
    assert Route([2], 1) == 0;
    Descends(root, ONE, c, 3, 0, Split(left', 2, right', 4));
    SecondTwo(left, left', RightLeaf(m), right', c);
  }

  lemma {:induction false} ThreeNotFound(m: nat)
    requires m >= 2
    ensures Search(Run(Empty, LosingRun(m, m), 2 * m - 1), 3) == -1
  {
    SecondSplit(m);
    var last := Leaf(4, Same(TWO, m), 2);
    assert Route([2, 2], 3) == 2;
    LookupFresh(Same(TWO, m), 3);
    assert Find(last, 3) == -1;
    assert Find(Node(3, [Leaf(1, Same(ONE, m), 4), RightLeaf(m), last], [2, 2]), 3) == Find(last, 3);
  }

  /** The key 3 is stored and not found, though no key was inserted more than m + 1 times. */
  lemma {:induction false} LosesThree(m: nat) returns (es: seq<Entry>)
    requires m >= 2
    ensures AllStorable(es) && AtMost(es, m + 1) && !KeepsKeys(es, 2 * m - 1)
  {
    es := LosingRun(m, m);
    ThreeNotFound(m);
    ThreeNotKept(m, es, 2 * m - 1);
    LosingRunAllowed(m, es);
  }

  lemma {:induction false} ThreeNotKept(m: nat, es: seq<Entry>, capacity: int)
    requires m >= 2 && es == LosingRun(m, m) && capacity >= 1 && Search(Run(Empty, es, capacity), 3) == -1
    ensures !KeepsKeys(es, capacity)
  {
    assert es[m + 1] == THREE;
    NotKept(es, capacity, m + 1);
  }

  lemma {:induction false} LosingRunAllowed(m: nat, es: seq<Entry>)
    requires m >= 2 && es == LosingRun(m, m)
    ensures AllStorable(es) && AtMost(es, m + 1)
  {
    forall key ensures Copies(es, key) <= m + 1 {
      CopiesOfThree(TWO, m + 1, THREE, m - 1, ONE, m, key);
    }
  }

  lemma {:induction false} NotKept(es: seq<Entry>, capacity: int, i: nat)
    requires capacity >= 1 && i < |es| && forall j :: 0 <= j < |es| ==> es[j].value == 0
    requires Search(Run(Empty, es, capacity), es[i].key) == -1
    ensures !KeepsKeys(es, capacity)
  {
    assert !Answer(es, es[i].key, Search(Run(Empty, es, capacity), es[i].key));
  }

  // ---- Capacity 1 ----

  const FOUR := Entry(4, 0)
  const FIVE := Entry(5, 0)

  function One(id: int, e: Entry, next: int): Tree {
    Leaf(id, [e], next)
  }

  lemma SplitOne(id: int, e: Entry, f: Entry, next: int, n: int)
    requires !Less(f, e)
    ensures InsertLeaf(One(id, e, next), f, 1, n) == Split(One(id, e, n + 1), f.key, One(n + 1, f, next), n + 1)
  {
    InsertLast([e], f);
    assert [e, f][..1] == [e] && [e, f][1..] == [f];
  }

  lemma {:induction false} FirstFour()
    ensures Add(Add(Empty, ONE, 1), FOUR, 1) == Rooted(Node(3, [One(1, ONE, 2), One(2, FOUR, 0)], [4]), 1, 3)
  {
    SplitOne(1, ONE, FOUR, 0, 1);
  }

  lemma {:induction false} SecondFour()
    ensures Add(Rooted(Node(3, [One(1, ONE, 2), One(2, FOUR, 0)], [4]), 1, 3), FOUR, 1)
         == Rooted(Node(6, [Node(3, [One(1, ONE, 2), One(2, FOUR, 4)], [4]), Node(5, [One(4, FOUR, 0)], [])], [4]),
                   2, 6)
  {
    var root := Node(3, [One(1, ONE, 2), One(2, FOUR, 0)], [4]);
    SplitOne(2, FOUR, FOUR, 0, 3);
    assert Route([4], 4) == 1;
    assert InsertInto(root.kids[1], FOUR, 1, 3) == Split(One(2, FOUR, 4), 4, One(4, FOUR, 0), 4);
    var t := Node(3, [One(1, ONE, 2), One(2, FOUR, 4)], [4]);
    assert root.kids[1 := One(2, FOUR, 4)] == t.kids;
    assert Separators(t) == [Entry(4, 2)];
    assert Position(Separators(t), Entry(4, 4)) == 1;
    var w := Node(3, [One(1, ONE, 2), One(2, FOUR, 4), One(4, FOUR, 0)], [4, 4]);
    assert Widen(t, 4, One(4, FOUR, 0)) == w;
    assert Cut(w, 3, 0, 1) == t && Cut(w, 5, 2, 2) == Node(5, [One(4, FOUR, 0)], []);
  }

  lemma {:induction false} ThenFive(left: Tree)
    ensures Add(Rooted(Node(6, [left, Node(5, [One(4, FOUR, 0)], [])], [4]), 2, 6), FIVE, 1)
         == Rooted(Node(6, [left, Node(5, [One(4, FOUR, 7), One(7, FIVE, 0)], [5])], [4]), 2, 7)
  {
    var inner := Node(5, [One(4, FOUR, 0)], []);
    SplitOne(4, FOUR, FIVE, 0, 6);
    assert Route([4], 5) == 1 && Route([], 5) == 0;
    assert InsertInto(inner.kids[0], FIVE, 1, 6) == Split(One(4, FOUR, 7), 5, One(7, FIVE, 0), 7);
    var t := Node(5, [One(4, FOUR, 7)], []);
    assert inner.kids[0 := One(4, FOUR, 7)] == t.kids;
    assert Separators(t) == [];
    var w := Node(5, [One(4, FOUR, 7), One(7, FIVE, 0)], [5]);
    assert Widen(t, 5, One(7, FIVE, 0)) == w;
    assert InsertInto(inner, FIVE, 1, 6) == Done(w, 7);
    assert [left, inner][1 := w] == [left, w];
  }

  /** The last insertion splits both levels on the left, and the second half of the left node goes behind the one
      that leads to 5. */
  lemma {:induction false} ThenTwoBelow()
    ensures InsertInto(Node(3, [One(1, ONE, 2), One(2, FOUR, 4)], [4]), TWO, 1, 7)
         == Split(Node(3, [One(1, ONE, 8), One(8, TWO, 2)], [2]), 4, Node(9, [One(2, FOUR, 4)], []), 9)
  {
    var inner := Node(3, [One(1, ONE, 2), One(2, FOUR, 4)], [4]);
    SplitOne(1, ONE, TWO, 2, 7);
    assert Route([4], 2) == 0;
    assert InsertInto(inner.kids[0], TWO, 1, 7) == Split(One(1, ONE, 8), 2, One(8, TWO, 2), 8);
    var t := Node(3, [One(1, ONE, 8), One(2, FOUR, 4)], [4]);
    assert inner.kids[0 := One(1, ONE, 8)] == t.kids;
    assert Separators(t) == [Entry(4, 2)];
    assert Position(Separators(t), Entry(2, 8)) == 0;
    var w := Node(3, [One(1, ONE, 8), One(8, TWO, 2), One(2, FOUR, 4)], [2, 4]);
    assert Widen(t, 2, One(8, TWO, 2)) == w;
    assert Cut(w, 3, 0, 1) == Node(3, [One(1, ONE, 8), One(8, TWO, 2)], [2]);
    assert Cut(w, 9, 2, 2) == Node(9, [One(2, FOUR, 4)], []);
  }

  lemma {:induction false} ThenTwo(right: Tree)
    requires right.id == 5
    ensures var x := Add(Rooted(Node(6, [Node(3, [One(1, ONE, 2), One(2, FOUR, 4)], [4]), right], [4]), 2, 7), TWO, 1);
            x.Rooted? && Find(x.root, 5) == -1
  {
    var inner := Node(3, [One(1, ONE, 2), One(2, FOUR, 4)], [4]);
    var inner' := Node(3, [One(1, ONE, 8), One(8, TWO, 2)], [2]);
    var last := Node(9, [One(2, FOUR, 4)], []);
    ThenTwoBelow();
    assert Route([4], 2) == 0;
    var t := Node(6, [inner', right], [4]);
    assert [inner, right][0 := inner'] == t.kids;
    assert Separators(t) == [Entry(4, 5)];
    assert Position(Separators(t), Entry(4, 9)) == 1;
    var w := Node(6, [inner', right, last], [4, 4]);
    assert Widen(t, 4, last) == w;
    assert Cut(w, 10, 2, 2) == Node(10, [last], []);
    assert Route([4], 5) == 1 && Route([], 5) == 0;
    assert Find(last, 5) == Lookup([FOUR], 5) == -1;
  }

  /** At capacity 1 two fours are enough to lose 5. */
  lemma {:induction false} LosesFive() returns (es: seq<Entry>)
    ensures AllStorable(es) && AtMost(es, 2) && !KeepsKeys(es, 1)
  {
    es := [ONE, FOUR, FOUR, FIVE, TWO];
    FiveNotKept(es);
    forall key ensures Copies(es, key) <= 2 {
      TwoFours(es, key);
    }
  }

  lemma {:induction false} TwoFours(es: seq<Entry>, key: int)
    requires es == [ONE, FOUR, FOUR, FIVE, TWO]
    ensures Copies(es, key) <= 2
  {
    var four := Same(ONE, 1) + Same(FOUR, 2) + Same(FIVE, 1);
    assert es == four + Same(TWO, 1);
    CopiesSum(four, Same(TWO, 1), key);
    CopiesOfThree(ONE, 1, FOUR, 2, FIVE, 1, key);
    CopiesOfOne(TWO, 1, key);
  }

  lemma {:induction false} TwoRun(es: seq<Entry>, a: Entry, b: Entry)
    requires es == [a, b]
    ensures Run(Empty, es, 1) == Add(Add(Empty, a, 1), b, 1)
  {
    assert [a, b] == [a] + [b] && [a] == [] + [a];
    RunSnoc([a], b, 1);
    RunSnoc([], a, 1);
  }

  function LeftOne(): Tree {
    Node(3, [One(1, ONE, 2), One(2, FOUR, 4)], [4])
  }

  lemma {:induction false} RunThree(es: seq<Entry>)
    requires es == [ONE, FOUR]
    ensures Run(Empty, es + [FOUR], 1) == Rooted(Node(6, [LeftOne(), Node(5, [One(4, FOUR, 0)], [])], [4]), 2, 6)
  {
    TwoRun(es, ONE, FOUR);
    FirstFour();
    SecondFour();
    RunSnoc(es, FOUR, 1);
  }

  lemma {:induction false} RunFour(es: seq<Entry>, left: Tree)
    requires Run(Empty, es, 1) == Rooted(Node(6, [left, Node(5, [One(4, FOUR, 0)], [])], [4]), 2, 6)
    ensures Run(Empty, es + [FIVE], 1)
         == Rooted(Node(6, [left, Node(5, [One(4, FOUR, 7), One(7, FIVE, 0)], [5])], [4]), 2, 7)
  {
    ThenFive(left);
    RunSnoc(es, FIVE, 1);
  }

  lemma {:induction false} RunFive(es: seq<Entry>, right: Tree)
    requires right.id == 5 && Run(Empty, es, 1) == Rooted(Node(6, [LeftOne(), right], [4]), 2, 7)
    ensures Search(Run(Empty, es + [TWO], 1), 5) == -1
  {
    ThenTwo(right);
    RunSnoc(es, TWO, 1);
  }

  lemma {:induction false} FiveNotFound(two: seq<Entry>, three: seq<Entry>, four: seq<Entry>)
    requires two == [ONE, FOUR] && three == two + [FOUR] && four == three + [FIVE]
    ensures Search(Run(Empty, four + [TWO], 1), 5) == -1
  {
    RunThree(two);
    RunFour(three, LeftOne());
    RunFive(four, Node(5, [One(4, FOUR, 7), One(7, FIVE, 0)], [5]));
  }

  lemma {:induction false} FiveNotKept(es: seq<Entry>)
    requires es == [ONE, FOUR, FOUR, FIVE, TWO]
    ensures !KeepsKeys(es, 1)
  {
    FiveGrows(es, es[..2], es[..3], es[..4]);
    assert forall j :: 0 <= j < |es| ==> es[j].value == 0;
    FiveMissed(es, es[..2], es[..3], es[..4]);
  }

  lemma {:induction false} FiveMissed(es: seq<Entry>, two: seq<Entry>, three: seq<Entry>, four: seq<Entry>)
    requires two == [ONE, FOUR] && three == two + [FOUR] && four == three + [FIVE] && es == four + [TWO]
    requires |es| == 5 && es[3].key == 5 && forall j :: 0 <= j < |es| ==> es[j].value == 0
    ensures !KeepsKeys(es, 1)
  {
    FiveNotFound(two, three, four);
    NotKept(es, 1, 3);
  }

  lemma FiveGrows(es: seq<Entry>, two: seq<Entry>, three: seq<Entry>, four: seq<Entry>)
    requires es == [ONE, FOUR, FOUR, FIVE, TWO] && two == es[..2] && three == es[..3] && four == es[..4]
    ensures two == [ONE, FOUR] && three == two + [FOUR] && four == three + [FIVE] && es == four + [TWO]
  {
  }

  // ---- Exactly when ----

  /** Every run that inserts no key more than `u` times keeps all its keys findable exactly when the capacity is even
      or `u` is at most half the capacity, rounded up. */
  lemma FindableExactlyWhen(capacity: int, u: int)
    requires capacity >= 1
    ensures (forall es :: AllStorable(es) && AtMost(es, u) ==> KeepsKeys(es, capacity))
            <==> capacity % 2 == 0 || u <= (capacity + 1) / 2
  {
    if capacity % 2 == 0 || u <= (capacity + 1) / 2 {
      forall es | AllStorable(es) && AtMost(es, u) ensures KeepsKeys(es, capacity) {
        FindableWithin(es, capacity, u);
      }
    } else {
      var es := Loser(capacity);
      assert AtMost(es, u);
    }
  }

  lemma FindableWithin(es: seq<Entry>, capacity: int, u: int)
    requires capacity >= 1 && AllStorable(es) && AtMost(es, u) && (capacity % 2 == 0 || u <= (capacity + 1) / 2)
    ensures KeepsKeys(es, capacity)
  {
    SplitHalves(capacity);
    assert Roomy(es, capacity);
    forall i | 0 <= i < |es| ensures Answer(es, es[i].key, Search(Run(Empty, es, capacity), es[i].key)) {
      SearchAfterRun(es, capacity, es[i].key);
    }
  }

  lemma Loser(capacity: int) returns (es: seq<Entry>)
    requires capacity >= 1 && capacity % 2 == 1
    ensures AllStorable(es) && AtMost(es, (capacity + 1) / 2 + 1) && !KeepsKeys(es, capacity)
  {
    if capacity == 1 {
      es := LosesFive();
    } else {
      es := LosesThree((capacity + 1) / 2);
    }
  }

  /** Without a bound on the repetitions: exactly when the capacity is even. */
  lemma AlwaysFindableExactlyWhen(capacity: int)
    requires capacity >= 1
    ensures (forall es :: AllStorable(es) ==> KeepsKeys(es, capacity)) <==> capacity % 2 == 0
  {
    if capacity % 2 == 0 {
      forall es | AllStorable(es) ensures KeepsKeys(es, capacity) {
        CopiesBounded(es);
        FindableWithin(es, capacity, |es|);
      }
    } else {
      var es := Loser(capacity);
    }
  }

  lemma {:induction false} CopiesBounded(es: seq<Entry>)
    ensures AtMost(es, |es|)
  {
    forall key ensures Copies(es, key) <= |es| {
      CopiesWithin(es, key);
    }
  }

  lemma {:induction false} CopiesWithin(es: seq<Entry>, key: int)
    ensures Copies(es, key) <= |es|
  {
    if es != [] { CopiesWithin(es[1..], key); }
  }

  // ---- Ranges ----

  ghost predicate RangeComplete(es: seq<Entry>, capacity: int, first: int, last: int)
    requires capacity >= 1
  {
    multiset(Range(Run(Empty, es, capacity), first, last)) == multiset(InRange(es, first, last))
  }

  /** Of two leaves a range that starts at the separator reads the second only. */
  lemma {:induction false} RangeOfSecond(a: Tree, b: Tree, key: int, id: int, depth: nat, n: int)
    requires a.Leaf? && b.Leaf?
    ensures Range(Rooted(Node(id, [a, b], [key]), depth, n), key, key) == InRange(b.entries, key, key)
  {
    var root := Node(id, [a, b], [key]);
    LeavesOfPair(a, b);
    assert Route([key], key) == 1;
    assert root.kids[..1] == [a];
    assert LeafIndex(root, key) == 1;
    assert [a, b][1..] == [b] && Concat([b]) == b.entries;
  }

  function Straddling(capacity: int): seq<Entry>
    requires capacity >= 1
  {
    var m := SplitIndex(capacity);
    Same(ONE, m - 1) + Same(TWO, 2) + Same(THREE, capacity - m)
  }

  lemma {:induction false} StraddlingSplit(capacity: int)
    requires capacity >= 1
    ensures var es, m := Straddling(capacity), SplitIndex(capacity);
            && |es| == capacity + 1
            && Run(Empty, es, capacity) == Rooted(Node(3, [Leaf(1, es[..m], 2), Leaf(2, es[m..], 0)], [2]), 1, 3)
  {
    var es, m := Straddling(capacity), SplitIndex(capacity);
    SortedThree(ONE, m - 1, TWO, 2, THREE, capacity - m);
    SplitLone(es, capacity);
    assert es[SplitIndex(capacity)] == TWO;
  }

  lemma {:induction false} OneBehind(capacity: int)
    requires capacity >= 1
    ensures Copies(Straddling(capacity), 2) == 2 && Copies(Straddling(capacity)[SplitIndex(capacity)..], 2) == 1
  {
    var es, m := Straddling(capacity), SplitIndex(capacity);
    CopiesOfThree(ONE, m - 1, TWO, 2, THREE, capacity - m, 2);
    assert es[m..] == Same(ONE, 0) + Same(TWO, 1) + Same(THREE, capacity - m);
    CopiesOfThree(ONE, 0, TWO, 1, THREE, capacity - m, 2);
  }

  lemma {:induction false} StraddlingRange(capacity: int)
    requires capacity >= 1
    ensures SplitIndex(capacity) <= |Straddling(capacity)|
    ensures Range(Run(Empty, Straddling(capacity), capacity), 2, 2)
         == InRange(Straddling(capacity)[SplitIndex(capacity)..], 2, 2)
  {
    var es, m := Straddling(capacity), SplitIndex(capacity);
    StraddlingSplit(capacity);
    RangeOfSecond(Leaf(1, es[..m], 2), Leaf(2, es[m..], 0), 2, 3, 1, 3);
  }

  lemma {:induction false} StraddlingIncomplete(capacity: int)
    requires capacity >= 1
    ensures !RangeComplete(Straddling(capacity), capacity, 2, 2)
  {
    var es, right := Straddling(capacity), Straddling(capacity)[SplitIndex(capacity)..];
    StraddlingRange(capacity);
    OneBehind(capacity);
    RangeLength(es, 2);
    RangeLength(right, 2);
    DifferentLengths(InRange(right, 2, 2), InRange(es, 2, 2));
  }

  /** Two copies of a key on both sides of a split: a range that starts at the key misses the first. */
  lemma {:induction false} RangeMissesOne(capacity: int) returns (es: seq<Entry>)
    requires capacity >= 1
    ensures es == Straddling(capacity)
    ensures AllStorable(es) && Copies(es, 2) == 2 && !RangeComplete(es, capacity, 2, 2)
  {
    es := Straddling(capacity);
    OneBehind(capacity);
    StraddlingIncomplete(capacity);
  }

  lemma DifferentLengths(a: seq<Entry>, b: seq<Entry>)
    requires |a| != |b|
    ensures multiset(a) != multiset(b)
  {
    assert |multiset(a)| == |a| && |multiset(b)| == |b|;
  }

  lemma LeavesOfPair(a: Tree, b: Tree)
    requires a.Leaf? && b.Leaf?
    ensures LeavesOf([a, b]) == [a, b] && LeavesOf([a]) == [a]
  {
    assert [a, b][1..] == [b];
    assert LeavesOf([b]) == [b] + LeavesOf([]) && LeavesOf([a]) == [a] + LeavesOf([]);
  }

  lemma {:induction false} RangeLength(es: seq<Entry>, key: int)
    ensures |InRange(es, key, key)| == Copies(es, key)
  {
    if es != [] { RangeLength(es[1..], key); }
  }

  lemma {:induction false} StraddlingRoomy(capacity: int)
    requires capacity >= 2
    ensures Roomy(Straddling(capacity), capacity)
  {
    var m := SplitIndex(capacity);
    forall key ensures capacity % 2 == 0 || Copies(Straddling(capacity), key) <= m {
      CopiesOfThree(ONE, m - 1, TWO, 2, THREE, capacity - m, key);
    }
  }

  /** Of the runs that leave room, those whose ranges are all complete when they start at a key inserted at most `u`
      times: all of them exactly when `u` is at most 1, or the capacity is 1, which leaves no room for a second copy. */
  lemma RangeCompleteExactlyWhen(capacity: int, u: int)
    requires capacity >= 1
    ensures (forall es, first, last :: AllStorable(es) && Roomy(es, capacity) && Copies(es, first) <= u ==>
               RangeComplete(es, capacity, first, last))
            <==> u <= 1 || capacity == 1
  {
    if u <= 1 || capacity == 1 {
      forall es, first, last | AllStorable(es) && Roomy(es, capacity) && Copies(es, first) <= u
        ensures RangeComplete(es, capacity, first, last)
      {
        RangeAfterRun(es, capacity, first, last);
      }
    } else {
      var es := RangeMissesOne(capacity);
      StraddlingRoomy(capacity);
      assert Copies(es, 2) <= u && !RangeComplete(es, capacity, 2, 2);
    }
  }
}
