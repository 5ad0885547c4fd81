/** Key order in the tree. Equal keys are allowed: then the order is kept as long as no key can fill the left part of a
    split and go on in the right one, which an even capacity rules out and an odd one does while keys are few. */
module TreeOrder {
  import opened Entries
  import opened Trees
  import opened TreeLeaves

  /** The smallest key below `t`, found by going left. */
  ghost function Least(t: Tree): int {
    if t.Leaf? then
      if t.entries == [] then 0 else t.entries[0].key
    else
      if t.kids == [] then 0 else Least(t.kids[0])
  }

  ghost function Lower(keys: seq<int>, i: int, lo: int): int
    requires i <= |keys|
  {
    if i <= 0 then lo else keys[i - 1]
  }

  ghost function Upper(keys: seq<int>, i: int, hi: int): int
    requires 0 <= i
  {
    if i < |keys| then keys[i] else hi
  }

  ghost function KeysOf(es: seq<Entry>): (keys: seq<int>)
    ensures |keys| == |es| && forall i :: 0 <= i < |es| ==> keys[i] == es[i].key
  {
    seq(|es|, i requires 0 <= i < |es| => es[i].key)
  }

  /** Keys in order and within lo .. hi, with `hi` itself at most `b` times. */
  ghost predicate Fits(keys: seq<int>, lo: int, hi: int, b: nat) {
    && (forall i :: 0 <= i < |keys| ==> lo <= keys[i] <= hi)
    && (forall i, j :: 0 <= i < j < |keys| ==> keys[i] <= keys[j])
    && (|keys| > b ==> keys[|keys| - 1 - b] < hi)
  }

  /** How many copies of its upper bound a node may hold: one less than goes to the right in a split. */
  ghost function Spare(capacity: int): nat
    requires capacity >= 1
  {
    capacity / 2
  }

  /** Every key is in `lo .. hi`, every subtree in the interval its separators cut out, every separator is the smallest
      key to its right, and the upper bound of a node occurs in it at most `b` times. */
  ghost predicate Ordered(t: Tree, lo: int, hi: int, b: nat) {
    match t
    case Leaf(_, entries, _) =>
      entries != [] && Fits(KeysOf(entries), lo, hi, b)
    case Node(_, kids, keys) =>
      && |kids| == |keys| + 1
      && Fits(keys, lo, hi, b)
      && (forall i :: 0 <= i < |kids| ==> Ordered(kids[i], Lower(keys, i, lo), Upper(keys, i, hi), b))
      && forall i :: 0 < i < |kids| ==> Least(kids[i]) == keys[i - 1]
  }

  ghost predicate OutcomeOrdered(o: Outcome, lo: int, hi: int, b: nat) {
    if o.Done? then
      Ordered(o.tree, lo, hi, b)
    else
      && lo <= o.key < hi
      && Ordered(o.left, lo, o.key, b)
      && Ordered(o.right, o.key, hi, b)
      && Least(o.right) == o.key
  }

  ghost function Min(a: int, b: int): int { if a < b then a else b }

  // ---- Entries of an ordered tree ----

  ghost predicate Within(es: seq<Entry>, lo: int, hi: int) {
    forall i :: 0 <= i < |es| ==> lo <= es[i].key <= hi
  }

  lemma {:induction false} LeastInside(t: Tree, lo: int, hi: int, b: nat)
    requires Ordered(t, lo, hi, b)
    ensures lo <= Least(t) <= hi
    ensures t.Node? && t.keys != [] ==> Least(t) <= t.keys[0]
  {
    if t.Node? {
      LeastInside(t.kids[0], Lower(t.keys, 0, lo), Upper(t.keys, 0, hi), b);
    }
  }

  lemma AscendingSum(a: seq<Entry>, b: seq<Entry>, lo: int, mid: int, hi: int)
    requires Ascending(a) && Ascending(b) && Within(a, lo, mid) && Within(b, mid, hi) && lo <= mid <= hi
    ensures Ascending(a + b) && Within(a + b, lo, hi)
  {
  }

  /** In an ordered tree the entries, read leaf by leaf, have ascending keys. */
  lemma {:induction false} OrderedContents(t: Tree, lo: int, hi: int, b: nat)
    requires Ordered(t, lo, hi, b)
    ensures Ascending(Contents(t)) && Within(Contents(t), lo, hi)
    ensures Contents(t) != [] && Contents(t)[0].key == Least(t)
    decreases t, if t.Node? then |t.kids| + 1 else 0
  {
    if t.Leaf? {
      assert Concat([t]) == t.entries;
      assert forall i :: 0 <= i < |t.entries| ==> KeysOf(t.entries)[i] == t.entries[i].key;
    } else {
      OrderedPrefix(t, |t.kids|, lo, hi, b);
      assert t.kids[..|t.kids|] == t.kids;
    }
  }

  lemma {:induction false} OrderedPrefix(t: Tree, i: nat, lo: int, hi: int, b: nat)
    requires t.Node? && Ordered(t, lo, hi, b) && 0 < i <= |t.kids|
    ensures var c := KidsContents(t.kids[..i]);
            Ascending(c) && Within(c, lo, Upper(t.keys, i - 1, hi)) && c != [] && c[0].key == Least(t)
    decreases t, i
  {
    var lo', hi' := Lower(t.keys, i - 1, lo), Upper(t.keys, i - 1, hi);
    OrderedContents(t.kids[i - 1], lo', hi', b);
    LeastInside(t.kids[i - 1], lo', hi', b);
    KidsContentsSnoc(t.kids, i - 1);
    if i == 1 {
      assert KidsContents(t.kids[..0]) == [];
    } else {
      OrderedPrefix(t, i - 1, lo, hi, b);
      LeastInside(t.kids[i - 2], Lower(t.keys, i - 2, lo), lo', b);
      AscendingSum(KidsContents(t.kids[..i - 1]), Contents(t.kids[i - 1]), lo, lo', hi');
    }
  }

  /** Separators with the same key have as many copies of it to their right. */
  lemma {:induction false} SeparatorsAreCopies(t: Tree, j: nat, lo: int, hi: int, b: nat)
    requires t.Node? && Ordered(t, lo, hi, b) && j <= |t.keys| && forall i :: 0 <= i < j ==> t.keys[i] == t.keys[0]
    ensures j > 0 ==> Copies(KidsContents(t.kids[..j + 1]), t.keys[0]) >= j
  {
    if j > 0 {
      var kid := t.kids[j];
      OrderedContents(kid, Lower(t.keys, j, lo), Upper(t.keys, j, hi), b);
      KidsContentsSnoc(t.kids, j);
      CopiesSum(KidsContents(t.kids[..j]), Contents(kid), t.keys[0]);
      SeparatorsAreCopies(t, j - 1, lo, hi, b);
    }
  }

  // ---- Leaves ----

  /** A key below the upper bound, put where it belongs, leaves the copies of that bound as they are. */
  lemma InsertFits(keys: seq<int>, p: nat, key: int, lo: int, hi: int, b: nat)
    requires Fits(keys, lo, hi, b) && p <= |keys| && lo <= key < hi
    requires (forall i :: 0 <= i < p ==> keys[i] <= key) && (forall i :: p <= i < |keys| ==> key <= keys[i])
    ensures Fits(keys[..p] + [key] + keys[p..], lo, hi, b)
  {
  }

  lemma SliceFits(keys: seq<int>, i: nat, j: nat, lo: int, hi: int, b: nat)
    requires Fits(keys, lo, hi, b) && i <= j <= |keys|
    requires j == |keys| || j - i <= b || keys[j - 1 - b] < keys[j]
    ensures Fits(keys[i..j], Lower(keys, i, lo), Upper(keys, j, hi), b)
  {
  }

  /** No key could take up the whole left part of a split and the middle as well. */
  ghost predicate Roomy(es: seq<Entry>, capacity: int)
    requires capacity >= 1
  {
    capacity % 2 == 0 || AtMost(es, SplitIndex(capacity))
  }

  /** The same after one more entry. */
  ghost predicate RoomFor(es: seq<Entry>, e: Entry, capacity: int)
    requires capacity >= 1
  {
    capacity % 2 == 0 || forall key :: Copies(es, key) + (if e.key == key then 1 else 0) <= SplitIndex(capacity)
  }

  lemma {:induction false} LeafTakes(t: Tree, e: Entry, lo: int, hi: int, b: nat)
    requires t.Leaf? && Ordered(t, lo, hi, b) && lo <= e.key < hi
    ensures Ascending(InsertSorted(t.entries, e)) && Fits(KeysOf(InsertSorted(t.entries, e)), lo, hi, b)
    ensures InsertSorted(t.entries, e)[0].key == Min(Least(t), e.key)
  {
    var es, keys, p := t.entries, KeysOf(t.entries), Position(t.entries, e);
    assert forall i :: 0 <= i < |es| ==> keys[i] == es[i].key;
    InsertAscending(es, e);
    InsertFits(keys, p, e.key, lo, hi, b);
    assert KeysOf(InsertSorted(es, e)) == keys[..p] + [e.key] + keys[p..];
  }

  lemma {:induction false} CopiesInserted(es: seq<Entry>, e: Entry, key: int)
    ensures Copies(InsertSorted(es, e), key) == Copies(es, key) + if e.key == key then 1 else 0
  {
    var p := Position(es, e);
    assert es == es[..p] + es[p..];
    CopiesAround(es[..p], e, es[p..], key);
  }

  /** The left half of an overfull leaf has its new upper bound not too often. */
  lemma {:induction false} LeftLeaf(es: seq<Entry>, e: Entry, capacity: int)
    requires capacity >= 1 && |es| == capacity && Ascending(InsertSorted(es, e)) && RoomFor(es, e, capacity)
    ensures var b, m, r := Spare(capacity), SplitIndex(capacity), InsertSorted(es, e);
            m <= b || r[m - 1 - b].key < r[m].key
  {
    var m, r := SplitIndex(capacity), InsertSorted(es, e);
    if r[0].key == r[m].key {
      CopiesOfEqualEnds(r, m + 1);
      CopiesInserted(es, e, r[0].key);
    }
  }

  lemma {:induction false} LeafSlice(es: seq<Entry>, id: int, i: nat, j: nat, next: int, lo: int, hi: int, b: nat)
    requires i < j <= |es| && Fits(KeysOf(es)[i..j], lo, hi, b)
    ensures Ordered(Leaf(id, es[i..j], next), lo, hi, b)
  {
    assert KeysOf(es[i..j]) == KeysOf(es)[i..j];
  }

  lemma {:induction false} SplitLeafOrdered(es: seq<Entry>, id: int, id': int, next: int, m: nat, lo: int, hi: int,
                                            b: nat)
    requires Fits(KeysOf(es), lo, hi, b) && 0 < m < |es| && es[m].key < hi
    requires m <= b || es[m - 1 - b].key < es[m].key
    ensures OutcomeOrdered(Split(Leaf(id, es[0..m], id'), es[m].key, Leaf(id', es[m..|es|], next), id'), lo, hi, b)
  {
    assert Ordered(Leaf(id, es[0..m], id'), lo, es[m].key, b) by {
      SliceFits(KeysOf(es), 0, m, lo, hi, b);
      LeafSlice(es, id, 0, m, id', lo, es[m].key, b);
    }
    assert Ordered(Leaf(id', es[m..|es|], next), es[m].key, hi, b) by {
      SliceFits(KeysOf(es), m, |es|, lo, hi, b);
      RaisedLower(KeysOf(es)[m..|es|], es[m].key, hi, b);
      LeafSlice(es, id', m, |es|, next, es[m].key, hi, b);
    }
  }

  lemma RaisedLower(keys: seq<int>, lo: int, hi: int, b: nat)
    requires keys != [] && keys[0] == lo && (forall i, j :: 0 <= i < j < |keys| ==> keys[i] <= keys[j])
    requires (forall i :: 0 <= i < |keys| ==> keys[i] <= hi) && (|keys| > b ==> keys[|keys| - 1 - b] < hi)
    ensures Fits(keys, lo, hi, b)
  {
  }

  lemma {:induction false} InsertLeafOrdered(t: Tree, e: Entry, capacity: int, n: int, lo: int, hi: int)
    requires t.Leaf? && capacity >= 1 && |t.entries| <= capacity
    requires Ordered(t, lo, hi, Spare(capacity)) && lo <= e.key < hi && RoomFor(t.entries, e, capacity)
    ensures var o := InsertLeaf(t, e, capacity, n);
            OutcomeOrdered(o, lo, hi, Spare(capacity)) && Least(Kept(o)) == Min(Least(t), e.key)
  {
    var b, es := Spare(capacity), InsertSorted(t.entries, e);
    LeafTakes(t, e, lo, hi, b);
    if |es| > capacity {
      LeftLeaf(t.entries, e, capacity);
      OverfullLeafOrdered(t, e, capacity, n, lo, hi, b);
    }
  }

  lemma {:induction false} OverfullLeafOrdered(t: Tree, e: Entry, capacity: int, n: int, lo: int, hi: int, b: nat)
    requires t.Leaf? && capacity >= 1 && |t.entries| == capacity && b == Spare(capacity)
    requires var es := InsertSorted(t.entries, e);
             && Fits(KeysOf(es), lo, hi, b)
             && (SplitIndex(capacity) <= b || es[SplitIndex(capacity) - 1 - b].key < es[SplitIndex(capacity)].key)
    ensures OutcomeOrdered(InsertLeaf(t, e, capacity, n), lo, hi, b)
    ensures Kept(InsertLeaf(t, e, capacity, n)).entries[0] == InsertSorted(t.entries, e)[0]
  {
    var es, m := InsertSorted(t.entries, e), SplitIndex(capacity);
    assert |es| - 1 - b == m && KeysOf(es)[m] == es[m].key;
    SplitLeafOrdered(es, t.id, n + 1, t.next, m, lo, hi, b);
    assert es[..m] == es[0..m] && es[m..] == es[m..|es|];
  }

  // ---- Internal nodes ----

  /** Sorting puts a promoted separator directly after the child that split: it is not below the separators before,
      strictly below those behind, and of equal keys its block is the newest. */
  lemma PromotedPosition(t: Tree, r: nat, key: int, id: int, lo: int, hi: int, b: nat)
    requires t.Node? && Paired(t) && Fits(t.keys, lo, hi, b) && r <= |t.keys|
    requires Lower(t.keys, r, lo) <= key < Upper(t.keys, r, hi)
    requires forall i :: 0 <= i < |t.kids| ==> t.kids[i].id <= id
    ensures Position(Separators(t), Entry(key, id)) == r
  {
    var p, s := Position(Separators(t), Entry(key, id)), Separators(t);
    assert r < |t.keys| ==> s[r] == Entry(t.keys[r], t.kids[r + 1].id);
    assert p < |t.keys| ==> s[p] == Entry(t.keys[p], t.kids[p + 1].id);
  }

  /** One child replaced by its two halves, the key between them. */
  ghost function Replace2(t: Tree, r: nat, left: Tree, key: int, right: Tree): Tree
    requires t.Node? && Paired(t) && r < |t.kids|
  {
    Node(t.id, t.kids[..r] + [left, right] + t.kids[r + 1..], t.keys[..r] + [key] + t.keys[r..])
  }

  lemma WidenIsReplace2(t: Tree, r: nat, left: Tree, key: int, right: Tree, lo: int, hi: int, b: nat)
    requires t.Node? && Paired(t) && Fits(t.keys, lo, hi, b) && r <= |t.keys|
    requires Lower(t.keys, r, lo) <= key < Upper(t.keys, r, hi)
    requires left.id <= right.id && forall i :: 0 <= i < |t.kids| ==> t.kids[i].id <= right.id
    ensures Widen(t.(kids := t.kids[r := left]), key, right) == Replace2(t, r, left, key, right)
  {
    PromotedPosition(t.(kids := t.kids[r := left]), r, key, right.id, lo, hi, b);
  }

  /** The children after a split and their intervals: the two halves share that of the old child. */
  lemma Replace2Kid(t: Tree, r: nat, left: Tree, key: int, right: Tree, lo: int, hi: int, i: nat)
    requires t.Node? && Paired(t) && r < |t.kids| && i <= |t.kids|
    ensures var w := Replace2(t, r, left, key, right);
            var kid, lo', hi' := w.kids[i], Lower(w.keys, i, lo), Upper(w.keys, i, hi);
            if i < r then kid == t.kids[i] && lo' == Lower(t.keys, i, lo) && hi' == Upper(t.keys, i, hi)
            else if i > r + 1 then
              kid == t.kids[i - 1] && lo' == Lower(t.keys, i - 1, lo) && hi' == Upper(t.keys, i - 1, hi)
            else if i == r then kid == left && lo' == Lower(t.keys, r, lo) && hi' == key
            else kid == right && lo' == key && hi' == Upper(t.keys, r, hi)
  {
  }

  lemma {:induction false} Replace2Ordered(t: Tree, r: nat, left: Tree, key: int, right: Tree, lo: int, hi: int, b: nat)
    requires t.Node? && Ordered(t, lo, hi, b) && r < |t.kids|
    requires OutcomeOrdered(Split(left, key, right, 0), Lower(t.keys, r, lo), Upper(t.keys, r, hi), b)
    requires r > 0 ==> Least(left) == t.keys[r - 1]
    ensures Ordered(Replace2(t, r, left, key, right), lo, hi, b)
  {
    var w := Replace2(t, r, left, key, right);
    InsertFits(t.keys, r, key, lo, hi, b);
    forall i | 0 <= i < |w.kids|
      ensures Ordered(w.kids[i], Lower(w.keys, i, lo), Upper(w.keys, i, hi), b)
      ensures i > 0 ==> Least(w.kids[i]) == w.keys[i - 1]
    {
      Replace2Kid(t, r, left, key, right, lo, hi, i);
    }
  }

  lemma {:induction false} CutOrdered(t: Tree, id: int, i: nat, j: nat, lo: int, hi: int, b: nat)
    requires t.Node? && Ordered(t, lo, hi, b) && i <= j <= |t.keys|
    requires j == |t.keys| || j - i <= b || t.keys[j - 1 - b] < t.keys[j]
    ensures Ordered(Cut(t, id, i, j), Lower(t.keys, i, lo), Upper(t.keys, j, hi), b)
  {
    var c := Cut(t, id, i, j);
    SliceFits(t.keys, i, j, lo, hi, b);
    forall k | 0 <= k < |c.kids|
      ensures Ordered(c.kids[k], Lower(c.keys, k, Lower(t.keys, i, lo)), Upper(c.keys, k, Upper(t.keys, j, hi)), b)
      ensures k > 0 ==> Least(c.kids[k]) == c.keys[k - 1]
    {
      assert c.kids[k] == t.kids[i + k];
    }
  }

  /** The left half of an overfull node has its new upper bound not too often. */
  lemma {:induction false} LeftHalf(t: Tree, capacity: int, lo: int, hi: int)
    requires t.Node? && capacity >= 1 && Ordered(t, lo, hi, Spare(capacity)) && |t.keys| > capacity
    requires Roomy(Contents(t), capacity)
    ensures var m := SplitIndex(capacity); m <= Spare(capacity) || t.keys[m - 1 - Spare(capacity)] < t.keys[m]
  {
    var m := SplitIndex(capacity);
    if m > Spare(capacity) && t.keys[0] == t.keys[m] {
      SeparatorsAreCopies(t, m + 1, lo, hi, Spare(capacity));
      assert t.kids == t.kids[..m + 2] + t.kids[m + 2..];
      KidsContentsSum(t.kids[..m + 2], t.kids[m + 2..]);
      CopiesSum(KidsContents(t.kids[..m + 2]), KidsContents(t.kids[m + 2..]), t.keys[0]);
    }
  }

  lemma {:induction false} SplitNodeOrdered(t: Tree, id: int, m: nat, lo: int, hi: int, b: nat)
    requires t.Node? && Ordered(t, lo, hi, b) && m < |t.keys| && t.keys[m] < hi
    requires m <= b || t.keys[m - 1 - b] < t.keys[m]
    ensures OutcomeOrdered(Split(Cut(t, t.id, 0, m), t.keys[m], Cut(t, id, m + 1, |t.keys|), id), lo, hi, b)
  {
    CutOrdered(t, t.id, 0, m, lo, hi, b);
    CutOrdered(t, id, m + 1, |t.keys|, lo, hi, b);
    assert Cut(t, id, m + 1, |t.keys|).kids[0] == t.kids[m + 1];
  }

  lemma {:induction false} DivideOrdered(t: Tree, capacity: int, n: int, lo: int, hi: int)
    requires t.Node? && capacity >= 1 && Ordered(t, lo, hi, Spare(capacity)) && |t.keys| <= capacity + 1
    requires Roomy(Contents(t), capacity)
    ensures OutcomeOrdered(Divide(t, capacity, n), lo, hi, Spare(capacity))
    ensures Least(Kept(Divide(t, capacity, n))) == Least(t)
  {
    if |t.keys| > capacity {
      LeftHalf(t, capacity, lo, hi);
      OverfullNodeOrdered(t, capacity, n, SplitIndex(capacity), lo, hi, Spare(capacity));
    }
  }

  lemma {:induction false} OverfullNodeOrdered(t: Tree, capacity: int, n: int, m: nat, lo: int, hi: int, b: nat)
    requires t.Node? && Ordered(t, lo, hi, b) && capacity >= 1 && |t.keys| == capacity + 1
    requires m == SplitIndex(capacity) && b == Spare(capacity) && (m <= b || t.keys[m - 1 - b] < t.keys[m])
    ensures OutcomeOrdered(Divide(t, capacity, n), lo, hi, b) && Least(Kept(Divide(t, capacity, n))) == Least(t)
  {
    assert |t.keys| - 1 - b == m;
    SplitNodeOrdered(t, n + 1, m, lo, hi, b);
    assert Cut(t, t.id, 0, m).kids[0] == t.kids[0];
  }

  /** What a split below hands up carries the newest block. */
  ghost predicate Newest(t: Tree, below: Outcome) {
    t.Node? && (below.Split? ==>
      below.left.id <= below.right.id && forall i :: 0 <= i < |t.kids| ==> t.kids[i].id <= below.right.id)
  }

  lemma {:induction false} RejoinOrdered(t: Tree, r: nat, below: Outcome, capacity: int, lo: int, hi: int)
    requires t.Node? && capacity >= 1 && Ordered(t, lo, hi, Spare(capacity)) && r < |t.kids| && |t.keys| <= capacity
    requires OutcomeOrdered(below, Lower(t.keys, r, lo), Upper(t.keys, r, hi), Spare(capacity)) && Newest(t, below)
    requires r > 0 ==> Least(Kept(below)) == t.keys[r - 1]
    requires Roomy(OutcomeContents(Rejoin(t, below, r, capacity)), capacity)
    ensures var o := Rejoin(t, below, r, capacity);
            && OutcomeOrdered(o, lo, hi, Spare(capacity))
            && Least(Kept(o)) == if r == 0 then Least(Kept(below)) else Least(t)
  {
    if below.Split? {
      var w := Replace2(t, r, below.left, below.key, below.right);
      WidenIsReplace2(t, r, below.left, below.key, below.right, lo, hi, Spare(capacity));
      Replace2Ordered(t, r, below.left, below.key, below.right, lo, hi, Spare(capacity));
      DivideLeaves(w, capacity, below.n);
      DivideOrdered(w, capacity, below.n, lo, hi);
    }
  }

  // ---- Insertion ----

  /** A key that is routed past a separator does not change a smallest key. */
  lemma {:induction false} RoutedLeast(t: Tree, key: int, lo: int, hi: int, b: nat)
    requires t.Node? && Ordered(t, lo, hi, b)
    ensures var r := Route(t.keys, key);
            if r == 0 then Least(t.kids[0]) == Least(t)
            else Least(t) <= key && Min(Least(t.kids[r]), key) == t.keys[r - 1]
  {
    LeastInside(t, lo, hi, b);
    if |t.keys| > 0 && Route(t.keys, key) > 0 {
      assert t.keys[0] <= key;
    }
  }

  /** A subtree in order, with ids up to `n`, that takes an entry within its bounds. */
  ghost predicate Takes(t: Tree, h: nat, e: Entry, capacity: int, n: int, lo: int, hi: int) {
    && capacity >= 1 && n >= 0 && Shape(t, h, capacity) && IsStorable(e) && IdsWithin(t, n)
    && Ordered(t, lo, hi, Spare(capacity)) && lo <= e.key < hi
    && RoomFor(Contents(t), e, capacity)
  }

  lemma {:induction false} KidTakes(t: Tree, h: nat, e: Entry, capacity: int, n: int, lo: int, hi: int)
    requires t.Node? && Takes(t, h, e, capacity, n, lo, hi)
    ensures var r := Route(t.keys, e.key);
            h > 0 && Takes(t.kids[r], h - 1, e, capacity, n, Lower(t.keys, r, lo), Upper(t.keys, r, hi))
  {
    var r := Route(t.keys, e.key);
    KidsContentsAt(t.kids, r);
    forall key ensures Copies(Contents(t.kids[r]), key) <= Copies(Contents(t), key) {
      CopiesSum(KidsContents(t.kids[..r]) + Contents(t.kids[r]), KidsContents(t.kids[r + 1..]), key);
      CopiesSum(KidsContents(t.kids[..r]), Contents(t.kids[r]), key);
    }
  }

  lemma {:induction false} InsertedRoomy(t: Tree, h: nat, e: Entry, capacity: int, n: int)
    requires capacity >= 1 && Shape(t, h, capacity) && RoomFor(Contents(t), e, capacity)
    ensures Roomy(OutcomeContents(InsertInto(t, e, capacity, n)), capacity)
  {
    var c := OutcomeContents(InsertInto(t, e, capacity, n));
    InsertAddsEntry(t, h, e, capacity, n);
    assert multiset(c) == multiset(Contents(t) + [e]);
    forall key ensures Copies(c, key) == Copies(Contents(t), key) + if e.key == key then 1 else 0 {
      CopiesOfSame(c, Contents(t) + [e], key);
      CopiesSum(Contents(t), [e], key);
    }
  }

  lemma {:induction false} BelowIsNewest(t: Tree, h: nat, e: Entry, capacity: int, n: int)
    requires capacity >= 1 && t.Node? && h > 0 && Shape(t, h, capacity) && IsStorable(e) && IdsWithin(t, n) && n >= 0
    ensures Newest(t, InsertInto(t.kids[Route(t.keys, e.key)], e, capacity, n))
  {
    var r := Route(t.keys, e.key);
    InsertShape(t.kids[r], h - 1, e, capacity, n);
    assert IdsWithin(t.kids[r], n);
    forall i | 0 <= i < |t.kids| ensures t.kids[i].id <= n {
      assert IdsWithin(t.kids[i], n);
    }
  }

  /** Inserting keeps the order, and what is promoted separates the two halves. */
  lemma {:induction false} InsertOrdered(t: Tree, h: nat, e: Entry, capacity: int, n: int, lo: int, hi: int)
    requires Takes(t, h, e, capacity, n, lo, hi)
    ensures var o := InsertInto(t, e, capacity, n);
            OutcomeOrdered(o, lo, hi, Spare(capacity)) && Least(Kept(o)) == Min(Least(t), e.key)
    decreases t
  {
    if t.Leaf? {
      assert Concat([t]) == t.entries;
      InsertLeafOrdered(t, e, capacity, n, lo, hi);
    } else {
      var r := Route(t.keys, e.key);
      var below := InsertInto(t.kids[r], e, capacity, n);
      assert InsertInto(t, e, capacity, n) == Rejoin(t, below, r, capacity);
      KidTakes(t, h, e, capacity, n, lo, hi);
      InsertOrdered(t.kids[r], h - 1, e, capacity, n, Lower(t.keys, r, lo), Upper(t.keys, r, hi));
      RoutedLeast(t, e.key, lo, hi, Spare(capacity));
      BelowIsNewest(t, h, e, capacity, n);
      InsertedRoomy(t, h, e, capacity, n);
      RejoinOrdered(t, r, below, capacity, lo, hi);
    }
  }

  // ---- Which leaf changes ----

  /** How many leaves lie to the left of the one that `getPath` reaches for this key. */
  ghost function LeafIndex(t: Tree, key: int): nat {
    if t.Leaf? || !Paired(t) then 0 else
      var r := Route(t.keys, key);
      |LeavesOf(t.kids[..r])| + LeafIndex(t.kids[r], key)
  }

  ghost function Spliced(ls: seq<Tree>, j: nat, mid: seq<Tree>): seq<Tree>
    requires j < |ls|
  {
    ls[..j] + mid + ls[j + 1..]
  }

  lemma {:induction false} Replace2Leaves(t: Tree, r: nat, left: Tree, key: int, right: Tree)
    requires t.Node? && Paired(t) && r < |t.kids|
    ensures Leaves(Replace2(t, r, left, key, right))
         == LeavesOf(t.kids[..r]) + (Leaves(left) + Leaves(right)) + LeavesOf(t.kids[r + 1..])
  {
    var pair := [left, right];
    LeavesOfConcat(t.kids[..r] + pair, t.kids[r + 1..]);
    LeavesOfConcat(t.kids[..r], pair);
    assert pair[1..] == [right];
    assert LeavesOf([right]) == Leaves(right);
  }

  lemma {:induction false} RejoinLeaves(t: Tree, r: nat, below: Outcome, capacity: int, lo: int, hi: int, b: nat)
    requires t.Node? && Paired(t) && capacity >= 1 && Fits(t.keys, lo, hi, b) && r < |t.kids| && Newest(t, below)
    requires below.Split? ==> Lower(t.keys, r, lo) <= below.key < Upper(t.keys, r, hi)
    ensures OutcomeLeaves(Rejoin(t, below, r, capacity))
         == LeavesOf(t.kids[..r]) + OutcomeLeaves(below) + LeavesOf(t.kids[r + 1..])
  {
    if below.Split? {
      WidenIsReplace2(t, r, below.left, below.key, below.right, lo, hi, b);
      Replace2Leaves(t, r, below.left, below.key, below.right);
      DivideLeaves(Replace2(t, r, below.left, below.key, below.right), capacity, below.n);
    } else {
      UpdateLeaves(t, r, below.tree);
    }
  }

  lemma SplicedInside(a: seq<Tree>, k: seq<Tree>, c: seq<Tree>, j: nat, mid: seq<Tree>)
    requires j < |k|
    ensures a + Spliced(k, j, mid) + c == Spliced(a + k + c, |a| + j, mid)
  {
    var s := a + k + c;
    assert s[..|a| + j] == a + k[..j] && s[|a| + j + 1..] == k[j + 1..] + c;
  }

  /** What is promoted lies between the separators around the child the entry was routed to, strictly below the next. */
  lemma {:induction false} PromotedBetween(t: Tree, h: nat, e: Entry, capacity: int, n: int, lo: int, hi: int)
    requires t.Node? && Takes(t, h, e, capacity, n, lo, hi)
    ensures var r := Route(t.keys, e.key);
            var below := InsertInto(t.kids[r], e, capacity, n);
            below.Split? ==> Lower(t.keys, r, lo) <= below.key < Upper(t.keys, r, hi)
  {
    var r := Route(t.keys, e.key);
    KidTakes(t, h, e, capacity, n, lo, hi);
    InsertOrdered(t.kids[r], h - 1, e, capacity, n, Lower(t.keys, r, lo), Upper(t.keys, r, hi));
  }

  lemma {:induction false} LeavesAround(t: Tree, r: nat, below: Outcome, capacity: int, lo: int, hi: int, b: nat,
                                        j: nat, mid: seq<Tree>)
    requires t.Node? && Paired(t) && capacity >= 1 && Fits(t.keys, lo, hi, b) && r < |t.kids| && Newest(t, below)
    requires below.Split? ==> Lower(t.keys, r, lo) <= below.key < Upper(t.keys, r, hi)
    requires j < |Leaves(t.kids[r])| && OutcomeLeaves(below) == Spliced(Leaves(t.kids[r]), j, mid)
    ensures var i := |LeavesOf(t.kids[..r])| + j;
            && i < |Leaves(t)| && Leaves(t)[i] == Leaves(t.kids[r])[j]
            && OutcomeLeaves(Rejoin(t, below, r, capacity)) == Spliced(Leaves(t), i, mid)
  {
    var x, y, z := LeavesOf(t.kids[..r]), Leaves(t.kids[r]), LeavesOf(t.kids[r + 1..]);
    assert OutcomeLeaves(Rejoin(t, below, r, capacity)) == x + Spliced(y, j, mid) + z by {
      RejoinLeaves(t, r, below, capacity, lo, hi, b);
    }
    assert Leaves(t) == x + y + z by { LeavesAt(t.kids, r); }
    SplicedInside(x, y, z, j, mid);
  }

  /** An insertion changes the list of leaves only at the leaf it reaches: that leaf, or its two halves in order. */
  lemma {:induction false} InsertLeaves(t: Tree, h: nat, e: Entry, capacity: int, n: int, lo: int, hi: int)
    requires Takes(t, h, e, capacity, n, lo, hi)
    ensures var j := LeafIndex(t, e.key);
            && j < |Leaves(t)| && Leaves(t)[j].Leaf?
            && OutcomeLeaves(InsertInto(t, e, capacity, n))
            == Spliced(Leaves(t), j, OutcomeLeaves(InsertLeaf(Leaves(t)[j], e, capacity, n)))
    decreases t
  {
    if t.Node? {
      var r := Route(t.keys, e.key);
      var kid := t.kids[r];
      var below, j := InsertInto(kid, e, capacity, n), LeafIndex(kid, e.key);
      assert InsertInto(t, e, capacity, n) == Rejoin(t, below, r, capacity);
      assert LeafIndex(t, e.key) == |LeavesOf(t.kids[..r])| + j;
      KidTakes(t, h, e, capacity, n, lo, hi);
      InsertLeaves(kid, h - 1, e, capacity, n, Lower(t.keys, r, lo), Upper(t.keys, r, hi));
      PromotedBetween(t, h, e, capacity, n, lo, hi);
      BelowIsNewest(t, h, e, capacity, n);
      LeavesAround(t, r, below, capacity, lo, hi, Spare(capacity), j,
        OutcomeLeaves(InsertLeaf(Leaves(kid)[j], e, capacity, n)));
    }
  }
}
