/** Entries of the index file, their order, and the sort that every insertion relies on. */
module Entries {

  /** A key with its value, or a separator key with the id of the block to its right. */
  datatype Entry = Entry(key: int, value: int)

  /** The comparison handed to `std::sort`: by key, then by value. */
  predicate Less(a: Entry, b: Entry) {
    a.key < b.key || (a.key == b.key && a.value < b.value)
  }

  ghost predicate Sorted(s: seq<Entry>) {
    forall i, j :: 0 <= i < j < |s| ==> InOrder(s, i, j)
  }

  ghost predicate InOrder(s: seq<Entry>, i: int, j: int)
    requires 0 <= i < j < |s|
  {
    !Less(s[j], s[i])
  }

  ghost predicate StrictKeys(s: seq<Entry>) {
    forall i, j :: 0 <= i < j < |s| ==> s[i].key < s[j].key
  }

  ghost predicate FreshKey(s: seq<Entry>, key: int) {
    forall i :: 0 <= i < |s| ==> s[i].key != key
  }

  /** The number of leading entries that are not greater than `e`. */
  function Position(s: seq<Entry>, e: Entry): (p: nat)
    ensures p <= |s|
    ensures forall i :: 0 <= i < p ==> !Less(e, s[i])
    ensures p < |s| ==> Less(e, s[p])
  {
    if s == [] || Less(e, s[0]) then 0 else 1 + Position(s[1..], e)
  }

  /** `s` with `e` put after every entry that is not greater. */
  function InsertSorted(s: seq<Entry>, e: Entry): (r: seq<Entry>)
    ensures |r| == |s| + 1
  {
    s[..Position(s, e)] + [e] + s[Position(s, e)..]
  }

  lemma InsertAddsOne(s: seq<Entry>, e: Entry)
    ensures multiset(InsertSorted(s, e)) == multiset(s) + multiset{e}
  {
    var p := Position(s, e);
    assert s == s[..p] + s[p..];
  }

  lemma SortedSlice(s: seq<Entry>, i: nat, j: nat)
    requires Sorted(s) && i <= j <= |s|
    ensures Sorted(s[i..j])
  {
    forall a, b | 0 <= a < b < j - i ensures InOrder(s[i..j], a, b) {
      assert InOrder(s, i + a, i + b);
    }
  }

  lemma InsertKeepsSorted(s: seq<Entry>, e: Entry)
    requires Sorted(s)
    ensures Sorted(InsertSorted(s, e))
  {
    var p, r := Position(s, e), InsertSorted(s, e);
    forall i, j | 0 <= i < j < |r| ensures InOrder(r, i, j) {
      if i != p && j != p {
        assert InOrder(s, if i < p then i else i - 1, if j < p then j else j - 1);
      } else if i == p && p < j - 1 {
        assert InOrder(s, p, j - 1);
      }
    }
  }

  /** A sorted arrangement of a multiset of entries is unique: what `std::sort` returns is determined. */
  lemma {:induction false} SortedUnique(a: seq<Entry>, b: seq<Entry>)
    requires Sorted(a) && Sorted(b) && multiset(a) == multiset(b)
    ensures a == b
  {
    if a == [] {
      assert |multiset(b)| == 0;
    } else {
      assert |multiset(a)| == |a| && |multiset(b)| == |b|;
      FirstIsLeast(a, b);
      FirstIsLeast(b, a);
      assert a == [a[0]] + a[1..] && b == [b[0]] + b[1..];
      RestKept(a, b);
      SortedSlice(a, 1, |a|);
      SortedSlice(b, 1, |b|);
      assert a[1..|a|] == a[1..] && b[1..|b|] == b[1..];
      SortedUnique(a[1..], b[1..]);
    }
  }

  lemma RestKept(a: seq<Entry>, b: seq<Entry>)
    requires a != [] && b != [] && a[0] == b[0] && multiset(a) == multiset(b)
    ensures multiset(a[1..]) == multiset(b[1..])
  {
    assert a == [a[0]] + a[1..] && b == [b[0]] + b[1..];
    assert multiset(a[1..]) == multiset(a) - multiset{a[0]};
    assert multiset(b[1..]) == multiset(b) - multiset{b[0]};
  }

  lemma FirstIsLeast(a: seq<Entry>, b: seq<Entry>)
    requires Sorted(a) && a != [] && b != [] && multiset(a) == multiset(b)
    ensures !Less(b[0], a[0])
  {
    assert b[0] in multiset(b);
    assert b[0] in a;
    var k :| 0 <= k < |a| && a[k] == b[0];
    assert k > 0 ==> InOrder(a, 0, k);
  }

  /** Stands for `std::sort`: the result is sorted and a permutation, which determines it. */
  method SortEntries(s: seq<Entry>) returns (r: seq<Entry>)
    ensures Sorted(r) && multiset(r) == multiset(s)
  {
    r := [];
    for i := 0 to |s|
      invariant Sorted(r) && multiset(r) == multiset(s[..i])
    {
      InsertKeepsSorted(r, s[i]);
      InsertAddsOne(r, s[i]);
      assert s[..i + 1] == s[..i] + [s[i]];
      r := InsertSorted(r, s[i]);
    }
    assert s[..|s|] == s;
  }

  /** The one sorted arrangement of some entries. */
  ghost function Arranged(s: seq<Entry>): (r: seq<Entry>)
    ensures |r| == |s|
  {
    if s == [] then [] else InsertSorted(Arranged(s[..|s| - 1]), s[|s| - 1])
  }

  lemma {:induction false} ArrangedSorts(s: seq<Entry>)
    ensures Sorted(Arranged(s)) && multiset(Arranged(s)) == multiset(s)
  {
    if s != [] {
      var before, e := s[..|s| - 1], s[|s| - 1];
      ArrangedSorts(before);
      InsertKeepsSorted(Arranged(before), e);
      InsertAddsOne(Arranged(before), e);
      assert s == before + [e];
    }
  }

  /** On sorted entries, appending one and sorting is insertion at the right place. */
  lemma {:induction false} ArrangedAppend(s: seq<Entry>, e: Entry)
    requires Sorted(s)
    ensures Arranged(s + [e]) == InsertSorted(s, e)
  {
    ArrangedSorts(s);
    SortedUnique(Arranged(s), s);
    assert (s + [e])[..|s|] == s;
  }

  /** Append, then sort. */
  method AppendAndArrange(s: seq<Entry>, e: Entry) returns (r: seq<Entry>)
    ensures r == Arranged(s + [e])
  {
    r := SortEntries(s + [e]);
    ArrangedSorts(s + [e]);
    SortedUnique(r, Arranged(s + [e]));
  }

  /** On sorted entries this is insertion at the right place. */
  method AppendAndSort(s: seq<Entry>, e: Entry) returns (r: seq<Entry>)
    requires Sorted(s)
    ensures r == InsertSorted(s, e)
  {
    r := AppendAndArrange(s, e);
    ArrangedAppend(s, e);
  }

  /** Keys in order; equal keys may follow each other. */
  ghost predicate Ascending(s: seq<Entry>) {
    forall i, j :: 0 <= i < j < |s| ==> s[i].key <= s[j].key
  }

  lemma InsertAscending(s: seq<Entry>, e: Entry)
    requires Ascending(s)
    ensures Ascending(InsertSorted(s, e))
    ensures forall i :: 0 <= i < |s| ==> if i < Position(s, e) then s[i].key <= e.key else e.key <= s[i].key
  {
    assert forall i :: 0 <= i < |s| ==> if i < Position(s, e) then s[i].key <= e.key else e.key <= s[i].key;
    AroundAscending(s, e, Position(s, e));
  }

  lemma {:induction false} AroundAscending(s: seq<Entry>, e: Entry, p: nat)
    requires Ascending(s) && p <= |s|
    requires forall i :: 0 <= i < |s| ==> if i < p then s[i].key <= e.key else e.key <= s[i].key
    ensures Ascending(s[..p] + [e] + s[p..])
  {
    var r := s[..p] + [e] + s[p..];
    assert forall i :: 0 <= i < |r| ==> r[i] == if i < p then s[i] else if i == p then e else s[i - 1];
  }

  /** How many entries have this key. */
  ghost function Copies(s: seq<Entry>, key: int): nat {
    if s == [] then 0 else (if s[0].key == key then 1 else 0) + Copies(s[1..], key)
  }

  lemma {:induction false} CopiesSum(a: seq<Entry>, b: seq<Entry>, key: int)
    ensures Copies(a + b, key) == Copies(a, key) + Copies(b, key)
  {
    if a == [] {
      assert a + b == b;
    } else {
      assert (a + b)[1..] == a[1..] + b;
      CopiesSum(a[1..], b, key);
    }
  }

  lemma {:induction false} CopiesFresh(s: seq<Entry>, key: int)
    ensures Copies(s, key) == 0 <==> FreshKey(s, key)
  {
    if s != [] {
      CopiesFresh(s[1..], key);
      assert forall i :: 0 < i < |s| ==> s[i] == s[1..][i - 1];
    }
  }

  lemma {:induction false} CopiesAll(s: seq<Entry>, key: int)
    requires forall i :: 0 <= i < |s| ==> s[i].key == key
    ensures Copies(s, key) == |s|
  {
    if s != [] { CopiesAll(s[1..], key); }
  }

  lemma WithoutFirst(a: seq<Entry>, x: seq<Entry>, y: seq<Entry>)
    requires a != [] && multiset(a) == multiset(x + [a[0]] + y)
    ensures multiset(a[1..]) == multiset(x + y)
  {
    assert a == [a[0]] + a[1..];
    forall e ensures multiset(a[1..])[e] == multiset(x + y)[e] {
      assert multiset(a)[e] == multiset([a[0]])[e] + multiset(a[1..])[e];
    }
  }

  lemma CopiesAround(x: seq<Entry>, e: Entry, y: seq<Entry>, key: int)
    ensures Copies(x + [e] + y, key) == Copies(x + y, key) + if e.key == key then 1 else 0
  {
    CopiesSum(x, y, key);
    CopiesSum(x + [e], y, key);
    CopiesSum(x, [e], key);
    assert Copies([e], key) == if e.key == key then 1 else 0;
  }

  /** The count depends only on the entries, not on their order. */
  lemma {:induction false} CopiesOfSame(a: seq<Entry>, b: seq<Entry>, key: int)
    requires multiset(a) == multiset(b)
    ensures Copies(a, key) == Copies(b, key)
  {
    if a == [] {
      assert |multiset(b)| == 0;
    } else {
      assert a[0] in multiset(b);
      var i :| 0 <= i < |b| && b[i] == a[0];
      assert b == b[..i] + [a[0]] + b[i + 1..];
      WithoutFirst(a, b[..i], b[i + 1..]);
      CopiesOfSame(a[1..], b[..i] + b[i + 1..], key);
      CopiesAround(b[..i], a[0], b[i + 1..], key);
    }
  }

  /** An ascending list whose first and last of `n` leading entries have the same key has that key `n` times. */
  lemma {:induction false} CopiesOfEqualEnds(s: seq<Entry>, n: nat)
    requires Ascending(s) && 0 < n <= |s| && s[0].key == s[n - 1].key
    ensures Copies(s, s[0].key) >= n
  {
    CopiesAll(s[..n], s[0].key);
    assert s == s[..n] + s[n..];
    CopiesSum(s[..n], s[n..], s[0].key);
  }

  /** No key more than `u` times. */
  ghost predicate AtMost(s: seq<Entry>, u: int) {
    forall key :: Copies(s, key) <= u
  }

  lemma {:induction false} EqualsTwice(s: seq<Entry>, i: nat, j: nat)
    requires Ascending(s) && i < j < |s| && s[i].key == s[j].key
    ensures Copies(s, s[i].key) >= 2
  {
    assert s == s[..i] + s[i..];
    CopiesSum(s[..i], s[i..], s[i].key);
    CopiesOfEqualEnds(s[i..], j - i + 1);
  }

  /** Ascending keys that occur only once are strictly increasing. */
  lemma {:induction false} AscendingOnce(s: seq<Entry>)
    requires Ascending(s) && AtMost(s, 1)
    ensures StrictKeys(s)
  {
    forall i, j | 0 <= i < j < |s| ensures s[i].key < s[j].key {
      if s[i].key == s[j].key { EqualsTwice(s, i, j); }
    }
  }

  lemma {:induction false} StrictIsOnce(s: seq<Entry>)
    requires StrictKeys(s)
    ensures AtMost(s, 1)
  {
    if s != [] {
      StrictIsOnce(s[1..]);
      forall key ensures Copies(s, key) <= 1 {
        CopiesFresh(s[1..], s[0].key);
      }
    }
  }
}
