/** Distinct keys: then the order in the tree is strict, and every subtree lies in a half-open interval of keys. */
module TreeStrict {
  import opened Entries
  import opened Trees
  import opened TreeLeaves
  import opened TreeOrder
  import opened TreeIndex

  /** Keys from `lo` on, below `hi`. */
  ghost predicate Inside(es: seq<Entry>, lo: int, hi: int) {
    forall i :: 0 <= i < |es| ==> lo <= es[i].key < hi
  }

  ghost predicate Increasing(keys: seq<int>) {
    forall i, j :: 0 <= i < j < |keys| ==> keys[i] < keys[j]
  }

  /** Keys and separators strictly increase, every key is in `lo .. hi` without `hi`, every subtree in the interval that
      its separators cut out, and every separator is the smallest key to its right. */
  ghost predicate Strict(t: Tree, lo: int, hi: int) {
    match t
    case Leaf(_, entries, _) =>
      entries != [] && StrictKeys(entries) && Inside(entries, lo, hi)
    case Node(_, kids, keys) =>
      && |kids| == |keys| + 1
      && Increasing(keys)
      && (forall i :: 0 <= i < |keys| ==> lo < keys[i] < hi)
      && (forall i :: 0 <= i < |kids| ==> Strict(kids[i], Lower(keys, i, lo), Upper(keys, i, hi)))
      && forall i :: 0 < i < |kids| ==> Least(kids[i]) == keys[i - 1]
  }

  lemma {:induction false} StrictLeast(t: Tree, lo: int, hi: int)
    requires Strict(t, lo, hi)
    ensures lo <= Least(t) < hi
    ensures t.Node? && t.keys != [] ==> Least(t) < t.keys[0]
  {
    if t.Node? { StrictLeast(t.kids[0], lo, Upper(t.keys, 0, hi)); }
  }

  // ---- Strict order implies distinct keys ----

  lemma StrictSum(a: seq<Entry>, b: seq<Entry>, lo: int, mid: int, hi: int)
    requires StrictKeys(a) && StrictKeys(b) && Inside(a, lo, mid) && Inside(b, mid, hi) && lo <= mid <= hi
    ensures StrictKeys(a + b) && Inside(a + b, lo, hi)
  {
  }

  /** In a strictly ordered tree the entries, read leaf by leaf, have strictly increasing keys, all below `hi`. */
  lemma {:induction false} StrictContents(t: Tree, lo: int, hi: int)
    requires Strict(t, lo, hi)
    ensures StrictKeys(Contents(t)) && Inside(Contents(t), lo, hi)
    decreases t, if t.Node? then |t.kids| + 1 else 0
  {
    if t.Leaf? {
      assert Concat([t]) == t.entries;
    } else {
      StrictPrefix(t, |t.kids|, lo, hi);
      assert t.kids[..|t.kids|] == t.kids;
    }
  }

  lemma {:induction false} StrictPrefix(t: Tree, i: nat, lo: int, hi: int)
    requires t.Node? && Strict(t, lo, hi) && 0 < i <= |t.kids|
    ensures var c := KidsContents(t.kids[..i]); StrictKeys(c) && Inside(c, lo, Upper(t.keys, i - 1, hi))
    decreases t, i
  {
    var lo', hi' := Lower(t.keys, i - 1, lo), Upper(t.keys, i - 1, hi);
    StrictContents(t.kids[i - 1], lo', hi');
    StrictLeast(t.kids[i - 1], lo', hi');
    KidsContentsSnoc(t.kids, i - 1);
    if i == 1 {
      assert KidsContents(t.kids[..0]) == [];
    } else {
      StrictPrefix(t, i - 1, lo, hi);
      StrictSum(KidsContents(t.kids[..i - 1]), Contents(t.kids[i - 1]), lo, lo', hi');
    }
  }

  // ---- Distinct keys imply strict order ----

  /** Each subtree then has distinct keys too, and none of them is the separator to its right: that is the smallest key
      of the next subtree. */
  lemma {:induction false} KidOnce(t: Tree, i: nat, lo: int, hi: int, b: nat)
    requires t.Node? && Ordered(t, lo, hi, b) && i < |t.kids|
    requires AtMost(Contents(t), 1) && FreshKey(Contents(t), hi)
    ensures AtMost(Contents(t.kids[i]), 1) && FreshKey(Contents(t.kids[i]), Upper(t.keys, i, hi))
  {
    var x, y, z := KidsContents(t.kids[..i]), Contents(t.kids[i]), KidsContents(t.kids[i + 1..]);
    KidsContentsAt(t.kids, i);
    forall key ensures Copies(Contents(t), key) == Copies(x, key) + Copies(y, key) + Copies(z, key) {
      CopiesSum(x + y, z, key);
      CopiesSum(x, y, key);
    }
    var hi' := Upper(t.keys, i, hi);
    CopiesFresh(Contents(t), hi);
    CopiesFresh(y, hi');
    if i < |t.keys| {
      SeparatorIsBehind(t, i, lo, hi, b);
      CopiesFresh(z, hi');
    }
  }

  lemma {:induction false} SeparatorIsBehind(t: Tree, i: nat, lo: int, hi: int, b: nat)
    requires t.Node? && Ordered(t, lo, hi, b) && i < |t.keys|
    ensures !FreshKey(KidsContents(t.kids[i + 1..]), t.keys[i])
  {
    var next, rest := t.kids[i + 1], t.kids[i + 1..];
    OrderedContents(next, t.keys[i], Upper(t.keys, i + 1, hi), b);
    KidsContentsAt(rest, 0);
    assert rest[0] == next && KidsContents(rest[..0]) == [];
    assert KidsContents(rest)[0] == Contents(next)[0];
  }

  lemma {:induction false} OnceIsStrict(t: Tree, lo: int, hi: int, b: nat)
    requires Ordered(t, lo, hi, b) && AtMost(Contents(t), 1) && FreshKey(Contents(t), hi)
    ensures Strict(t, lo, hi)
    decreases t
  {
    OrderedContents(t, lo, hi, b);
    if t.Leaf? {
      assert Concat([t]) == t.entries;
      AscendingOnce(t.entries);
    } else {
      forall i | 0 <= i < |t.kids| ensures Strict(t.kids[i], Lower(t.keys, i, lo), Upper(t.keys, i, hi)) {
        KidOnce(t, i, lo, hi, b);
        OnceIsStrict(t.kids[i], Lower(t.keys, i, lo), Upper(t.keys, i, hi), b);
      }
      SeparatorsStrict(t, lo, hi, b);
    }
  }

  /** No interval between separators is empty, so the separators increase strictly. */
  lemma {:induction false} SeparatorsStrict(t: Tree, lo: int, hi: int, b: nat)
    requires t.Node? && Ordered(t, lo, hi, b)
    requires forall i :: 0 <= i < |t.kids| ==> Strict(t.kids[i], Lower(t.keys, i, lo), Upper(t.keys, i, hi))
    ensures Increasing(t.keys) && forall i :: 0 <= i < |t.keys| ==> lo < t.keys[i] < hi
  {
    forall i | 0 <= i < |t.kids| ensures Lower(t.keys, i, lo) < Upper(t.keys, i, hi) {
      StrictLeast(t.kids[i], Lower(t.keys, i, lo), Upper(t.keys, i, hi));
    }
    forall i, j | 0 <= i < j < |t.keys| ensures t.keys[i] < t.keys[j] {
      assert Lower(t.keys, i + 1, lo) < Upper(t.keys, i + 1, hi) && t.keys[i + 1] <= t.keys[j];
    }
    if t.keys != [] {
      var last := |t.keys| - 1;
      assert Lower(t.keys, 0, lo) < Upper(t.keys, 0, hi) && Lower(t.keys, last + 1, lo) < Upper(t.keys, last + 1, hi);
      assert forall i :: 0 <= i < |t.keys| ==> t.keys[0] <= t.keys[i] <= t.keys[last];
    }
  }

  /** An ordered tree is strictly ordered exactly when its keys are distinct and its upper bound is none of them. */
  lemma {:induction false} StrictExactlyWhen(t: Tree, lo: int, hi: int, b: nat)
    requires Ordered(t, lo, hi, b)
    ensures Strict(t, lo, hi) <==> AtMost(Contents(t), 1) && FreshKey(Contents(t), hi)
  {
    if Strict(t, lo, hi) {
      StrictContents(t, lo, hi);
      StrictIsOnce(Contents(t));
    } else if AtMost(Contents(t), 1) && FreshKey(Contents(t), hi) {
      OnceIsStrict(t, lo, hi, b);
    }
  }

  // ---- The index ----

  ghost predicate StrictIndex(x: Index) {
    x.Rooted? ==> Strict(x.root, MIN_KEY, KEY_END)
  }

  /** A sound index of storable entries is strictly ordered exactly when its keys are distinct. */
  lemma {:induction false} IndexStrictExactlyWhen(x: Index, capacity: int)
    requires capacity >= 1 && Sound(x, capacity)
    ensures StrictIndex(x) <==> AtMost(IndexContents(x), 1)
    ensures StrictIndex(x) ==> StrictKeys(IndexContents(x))
  {
    if x.Rooted? {
      ContentsStorable(x.root, x.depth, capacity);
      StrictExactlyWhen(x.root, MIN_KEY, KEY_END, Spare(capacity));
      if StrictIndex(x) { StrictContents(x.root, MIN_KEY, KEY_END); }
    }
  }

  lemma {:induction false} ContentsStorable(t: Tree, h: nat, capacity: int)
    requires Shape(t, h, capacity)
    ensures AllStorable(Contents(t))
    decreases t
  {
    if t.Leaf? {
      assert Concat([t]) == t.entries;
    } else {
      forall i | 0 <= i < |t.kids| ensures AllStorable(Contents(t.kids[i])) {
        ContentsStorable(t.kids[i], h - 1, capacity);
      }
      KidsStorable(t.kids);
    }
  }

  lemma {:induction false} KidsStorable(ts: seq<Tree>)
    requires forall i :: 0 <= i < |ts| ==> AllStorable(Contents(ts[i]))
    ensures AllStorable(KidsContents(ts))
  {
    if ts != [] {
      KidsStorable(ts[1..]);
      KidsContentsAt(ts, 0);
      assert KidsContents(ts[..0]) == [];
    }
  }

  /** At any capacity, inserting a fresh key keeps the separators strictly increasing and every subtree in its half-open
      interval. */
  lemma {:induction false} AddStrict(x: Index, e: Entry, capacity: int)
    requires capacity >= 1 && Sound(x, capacity) && StrictIndex(x)
    requires IsStorable(e) && FreshKey(IndexContents(x), e.key)
    ensures Sound(Add(x, e, capacity), capacity) && StrictIndex(Add(x, e, capacity))
  {
    var es := IndexContents(x);
    IndexStrictExactlyWhen(x, capacity);
    CopiesFresh(es, e.key);
    AddSound(x, e, capacity);
    AddContents(x, e, capacity);
    forall key ensures Copies(IndexContents(Add(x, e, capacity)), key) <= 1 {
      CopiesOfSame(IndexContents(Add(x, e, capacity)), es + [e], key);
      CopiesSum(es, [e], key);
    }
    IndexStrictExactlyWhen(Add(x, e, capacity), capacity);
  }

  /** After any run of distinct keys, at any capacity, the tree, its entries and every range are strictly ordered. */
  lemma RunStrict(es: seq<Entry>, capacity: int)
    requires capacity >= 1 && AllStorable(es) && AtMost(es, 1)
    ensures var x := Run(Empty, es, capacity);
            && Sound(x, capacity) && StrictIndex(x) && StrictKeys(IndexContents(x))
            && forall first, last :: StrictKeys(Range(x, first, last))
  {
    var x := Run(Empty, es, capacity);
    assert Roomy(es, capacity);
    RunSound(es, capacity);
    RunContents(es, capacity);
    forall key ensures Copies(IndexContents(x), key) <= 1 {
      CopiesOfSame(IndexContents(x), es, key);
    }
    IndexStrictExactlyWhen(x, capacity);
    forall first, last ensures StrictKeys(Range(x, first, last)) {
      RangeAfterRun(es, capacity, first, last);
    }
  }
}
