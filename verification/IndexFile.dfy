/** The commands on index files: creating one, and inserting the entries of an input into it. */
module IndexFile {
  import opened Entries
  import opened Trees
  import opened TreeOrder
  import opened TreeContents
  import opened TreeIndex
  import opened TreeChain
  import opened Bytes
  import opened BlockFile
  import opened BPlusTreeFile

  /** A fresh index file: the block size, no root, depth 0. */
  method CreateIndexFile(blockSize: int) returns (disk: seq<byte>)
    requires IsInt32(blockSize)
    ensures |disk| == HEADER_SIZE && Header(disk, blockSize, 0, 0)
    ensures forall capacity :: Dimensions(blockSize, capacity) ==> OnDisk(disk, blockSize, capacity, [], Empty)
  {
    disk := [];
    disk := disk + EncodeInt(blockSize);
    disk := disk + EncodeInt(0);
    disk := disk + EncodeInt(0);
    assert disk[0..4] == EncodeInt(blockSize) && disk[4..8] == EncodeInt(0) && disk[8..12] == EncodeInt(0);
    DecodesEncoded(blockSize);
    DecodesEncoded(0);
  }

  /** A run in two parts is the run of both parts together. */
  lemma {:induction false} RunSum(x: Index, a: seq<Entry>, b: seq<Entry>, capacity: int)
    requires capacity >= 1
    ensures Run(x, a + b, capacity) == Run(Run(x, a, capacity), b, capacity)
    decreases |b|
  {
    if b == [] {
      assert a + b == a;
    } else {
      var b' := b[..|b| - 1];
      assert (a + b)[..|a + b| - 1] == a + b';
      RunSum(x, a, b', capacity);
    }
  }

  lemma {:induction false} RunKeepsWellFormed(x: Index, es: seq<Entry>, capacity: int)
    requires capacity >= 1 && WellFormed(x, capacity) && AllStorable(es)
    ensures WellFormed(Run(x, es, capacity), capacity) && Blocks(x) <= Blocks(Run(x, es, capacity))
    decreases |es|
  {
    if es != [] {
      var before := es[..|es| - 1];
      RunKeepsWellFormed(x, before, capacity);
      AddWellFormed(Run(x, before, capacity), es[|es| - 1], capacity);
    }
  }

  /** The entry that a run inserts after `i` others, and that its block ids fit. */
  lemma {:induction false} RunStep(x: Index, es: seq<Entry>, i: nat, capacity: int)
    requires capacity >= 1 && WellFormed(x, capacity) && AllStorable(es) && i < |es|
    requires IsInt32(Blocks(Run(x, es, capacity)))
    ensures Add(Run(x, es[..i], capacity), es[i], capacity) == Run(x, es[..i + 1], capacity)
    ensures 0 <= Blocks(Run(x, es[..i], capacity)) <= Blocks(Run(x, es[..i + 1], capacity))
    ensures Blocks(Run(x, es[..i + 1], capacity)) <= Blocks(Run(x, es, capacity))
  {
    assert es[..i + 1][..i] == es[..i];
    assert es == es[..i + 1] + es[i + 1..];
    RunSum(x, es[..i + 1], es[i + 1..], capacity);
    RunKeepsWellFormed(x, es[..i], capacity);
    RunKeepsWellFormed(x, es[..i + 1], capacity);
    AddWellFormed(Run(x, es[..i], capacity), es[i], capacity);
    RunKeepsWellFormed(Run(x, es[..i + 1], capacity), es[i + 1..], capacity);
    assert Blocks(x) >= 0 by { if x.Rooted? { LeafIffOneBlock(x, capacity); } }
  }

  /** The index as a session on a reopened file sees it: a lone leaf whose block lost its tail does not count. */
  function Seen(x: Index, blockSize: int): Index {
    Counted(x, WholeBlocks(x, blockSize))
  }

  /** The file holds `x`, in blocks of the size in its header. */
  ghost predicate Openable(disk: seq<byte>, capacity: int, blocks: seq<Block>, x: Index)
    requires |disk| >= HEADER_SIZE
  {
    OnDisk(disk, IntAt(disk, 0), capacity, blocks, x)
  }

  /** How every session begins. */
  method Open(disk: seq<byte>, ghost capacity: int, ghost blocks: seq<Block>, ghost x: Index)
      returns (tree: BPlusTree, r: OpenResult)
    requires |disk| >= HEADER_SIZE
    requires IntAt(disk, 0) >= 12 ==> Openable(disk, capacity, blocks, x)
    ensures fresh(tree) && r == (if IntAt(disk, 0) < 12 then InvalidBlockSize else Opened)
    ensures r.Opened? ==>
              && tree.Loaded() && tree.index == x && tree.capacity == capacity && tree.blockSize == IntAt(disk, 0)
              && tree.numOfNodes == WholeBlocks(x, IntAt(disk, 0))
              && (tree.Readable() <==> Seen(x, IntAt(disk, 0)) == x)
  {
    tree := new BPlusTree();
    r := tree.GetMetadata(disk, blocks, x);
    if r.Opened? && x.Rooted? { LeafIffOneBlock(x, capacity); }
  }

  /** A count that suffices for a run suffices for its next entry and for what remains after that. */
  lemma {:induction false} CountStep(x: Index, es: seq<Entry>, i: nat, count: int, capacity: int)
    requires capacity >= 1 && WellFormed(x, capacity) && AllStorable(es) && i < |es|
    requires IsInt32(Blocks(Run(x, es, capacity)))
    requires CountSuffices(count, Run(x, es[..i], capacity), Run(x, es, capacity))
    ensures var now, then' := Run(x, es[..i], capacity), Run(x, es[..i + 1], capacity);
            && then' == Add(now, es[i], capacity) && IsInt32(Blocks(then'))
            && CountSuffices(count, now, then')
            && CountSuffices(count - Blocks(now) + Blocks(then'), then', Run(x, es, capacity))
            && count - Blocks(now) + Blocks(then') != 0 && Blocks(x) <= Blocks(now) <= Blocks(then')
  {
    RunStep(x, es, i, capacity);
    var now := Run(x, es[..i], capacity);
    RunKeepsWellFormed(x, es[..i], capacity);
    AddWellFormed(now, es[i], capacity);
    LeafIffOneBlock(Add(now, es[i], capacity), capacity);
  }

  /** A session that began by seeing `x` and has inserted the first `i` of `es`, if the count suffices for the rest. */
  ghost predicate Inserting(index: Index, count: int, x: Index, es: seq<Entry>, i: nat, capacity: int)
    requires capacity >= 1 && i <= |es|
  {
    && Counted(index, count) == Run(x, es[..i], capacity)
    && (count == 0 ==> i == 0 && Blocks(index) <= 1)
    && CountSuffices(count, Run(x, es[..i], capacity), Run(x, es, capacity))
  }

  /** The block count suffices until the last of `es`, for which it is one too low. */
  ghost predicate ShortForLast(x: Index, count: int, es: seq<Entry>, capacity: int)
    requires capacity >= 1
  {
    es != [] && OneShort(count, x) && OneShort(count, Run(x, es[..|es| - 1], capacity))
  }

  /** A session can insert if the run fits and the block count suffices for it, or for all of it but the last entry. */
  ghost predicate Startable(index: Index, count: int, es: seq<Entry>, capacity: int)
    requires capacity >= 1
  {
    && AllStorable(es) && (count == 0 ==> Blocks(index) <= 1)
    && var x := Counted(index, count);
    && WellFormed(x, capacity)
    && IsInt32(Blocks(Run(x, es, capacity)))
    && (CountSuffices(count, x, Run(x, es, capacity)) || ShortForLast(x, count, es, capacity))
  }

  /** The entries for which the block count suffices: all of them, or all but the last. */
  ghost predicate SafePart(x: Index, count: int, es: seq<Entry>, safe: seq<Entry>, capacity: int)
    requires capacity >= 1
  {
    if CountSuffices(count, x, Run(x, es, capacity)) then safe == es
    else ShortForLast(x, count, es, capacity) && safe == es[..|es| - 1]
  }

  lemma {:induction false} SafeFits(x: Index, count: int, es: seq<Entry>, safe: seq<Entry>, capacity: int)
    requires capacity >= 1 && WellFormed(x, capacity) && AllStorable(es) && IsInt32(Blocks(Run(x, es, capacity)))
    requires SafePart(x, count, es, safe, capacity)
    ensures AllStorable(safe) && IsInt32(Blocks(Run(x, safe, capacity))) && safe <= es && |es| <= |safe| + 1
    ensures CountSuffices(count, x, Run(x, safe, capacity))
  {
    if safe != es {
      RunStep(x, es, |es| - 1, capacity);
    }
  }

  /** The last entry of a session whose count is one too low for it. */
  lemma {:induction false} LastIsShort(x: Index, count: int, es: seq<Entry>, safe: seq<Entry>, capacity: int)
    requires capacity >= 1 && SafePart(x, count, es, safe, capacity) && |safe| < |es|
    ensures var before := Run(x, safe, capacity);
            && OneShort(count, before) && Counted(before, count) == before
            && Add(before, es[|safe|], capacity) == Run(x, es, capacity)
            && !CountSuffices(count, before, Run(x, es, capacity))
  {
  }

  /** The next of the entries `es` into the tree. `count` is the block count that the session began with. */
  method InsertNext(tree: BPlusTree, entries: seq<Entry>, i: nat, ghost x: Index, ghost count: int,
                    ghost safe: seq<Entry>)
    requires tree.Loaded() && AllStorable(entries) && i < |entries| && WellFormed(x, tree.capacity)
    requires IsInt32(Blocks(Run(x, entries, tree.capacity)))
    requires SafePart(x, count, entries, safe, tree.capacity) && i <= |safe|
    requires Inserting(tree.index, tree.numOfNodes, x, safe, i, tree.capacity)
    requires tree.numOfNodes - Blocks(Run(x, safe[..i], tree.capacity)) == count - Blocks(x)
    modifies tree`file, tree`pos, tree`view, tree`numOfNodes, tree`rootBID, tree`depth, tree`index
    ensures if i < |safe| then
              && tree.Loaded() && Inserting(tree.index, tree.numOfNodes, x, safe, i + 1, tree.capacity)
              && tree.numOfNodes - Blocks(Run(x, safe[..i + 1], tree.capacity)) == count - Blocks(x)
            else
              forall v :: !OnDisk(tree.file, tree.blockSize, tree.capacity, v, Run(x, entries, tree.capacity))
  {
    SafeFits(x, count, entries, safe, tree.capacity);
    if i < |safe| {
      CountStep(x, safe, i, tree.numOfNodes, tree.capacity);
    } else {
      assert safe[..i] == safe;
      LastIsShort(x, count, entries, safe, tree.capacity);
    }
    tree.Insert(entries[i]);
  }

  /** The entries one by one. The first one goes into the index that the session sees, the others after it. */
  method InsertAll(tree: BPlusTree, entries: seq<Entry>)
    requires tree.Loaded() && Startable(tree.index, tree.numOfNodes, entries, tree.capacity)
    modifies tree`file, tree`pos, tree`view, tree`numOfNodes, tree`rootBID, tree`depth, tree`index
    ensures var x := Counted(old(tree.index), old(tree.numOfNodes));
            var x' := Run(x, entries, tree.capacity);
            if CountSuffices(old(tree.numOfNodes), x, x') then
              tree.Loaded() && tree.index == if entries == [] then old(tree.index) else x'
            else
              forall v :: !OnDisk(tree.file, tree.blockSize, tree.capacity, v, x')
  {
    ghost var x, count := Counted(tree.index, tree.numOfNodes), tree.numOfNodes;
    ghost var good := CountSuffices(count, x, Run(x, entries, tree.capacity));
    ghost var safe := if good then entries else entries[..|entries| - 1];
    SafeFits(x, count, entries, safe, tree.capacity);
    assert safe[..0] == [];
    var i := 0;
    while i < |entries|
      invariant 0 <= i <= |entries|
      invariant i == 0 ==> tree.index == old(tree.index)
      invariant i <= |safe| ==>
                  && tree.Loaded() && Inserting(tree.index, tree.numOfNodes, x, safe, i, tree.capacity)
                  && tree.numOfNodes - Blocks(Run(x, safe[..i], tree.capacity)) == count - Blocks(x)
      invariant i > |safe| ==>
                  forall v :: !OnDisk(tree.file, tree.blockSize, tree.capacity, v, Run(x, entries, tree.capacity))
    {
      InsertNext(tree, entries, i, x, count, safe);
      i := i + 1;
    }
    assert good ==> safe[..|safe|] == entries;
  }

  /** One session: opens the file, inserts the entries in order, and leaves the file of the resulting tree, unless the
      block count is too low for the last of them: then what it leaves is no index file of that tree. */
  method InsertEntries(disk: seq<byte>, entries: seq<Entry>, ghost capacity: int, ghost blocks: seq<Block>,
                       ghost x: Index)
      returns (r: OpenResult, disk': seq<byte>, ghost blocks': seq<Block>)
    requires |disk| >= HEADER_SIZE
    requires IntAt(disk, 0) >= 12 ==>
               && Openable(disk, capacity, blocks, x)
               && Startable(x, WholeBlocks(x, IntAt(disk, 0)), entries, capacity)
    ensures r == (if IntAt(disk, 0) < 12 then InvalidBlockSize else Opened)
    ensures r.InvalidBlockSize? ==> disk' == disk
    ensures r.Opened? ==>
              var seen := Seen(x, IntAt(disk, 0));
              var x' := if entries == [] then x else Run(seen, entries, capacity);
              if CountSuffices(WholeBlocks(x, IntAt(disk, 0)), seen, Run(seen, entries, capacity)) then
                OnDisk(disk', IntAt(disk, 0), capacity, blocks', x')
              else
                forall v :: !OnDisk(disk', IntAt(disk, 0), capacity, v, x')
  {
    var tree;
    tree, r := Open(disk, capacity, blocks, x);
    if r.InvalidBlockSize? {
      disk', blocks' := disk, blocks;
      return;
    }
    InsertAll(tree, entries);
    disk', blocks' := tree.file, tree.view;
  }

  function Flatten(runs: seq<seq<Entry>>): seq<Entry> {
    if runs == [] then [] else Flatten(runs[..|runs| - 1]) + runs[|runs| - 1]
  }

  lemma {:induction false} FlattenPrefix(runs: seq<seq<Entry>>, i: nat) returns (rest: seq<Entry>)
    requires i <= |runs|
    ensures Flatten(runs) == Flatten(runs[..i]) + rest
    decreases |runs| - i
  {
    if i == |runs| {
      rest := [];
      assert runs[..i] == runs;
    } else {
      rest := FlattenPrefix(runs, i + 1);
      assert runs[..i + 1][..i] == runs[..i];
      rest := runs[i] + rest;
    }
  }

  /** With blocks that have no tail every session can be followed by another. */
  lemma {:induction false} StartableAgain(disk: seq<byte>, blockSize: int, capacity: int, blocks: seq<Block>, x: Index,
                                          entries: seq<Entry>)
    requires OnDisk(disk, blockSize, capacity, blocks, x) && !HasTail(blockSize)
    requires AllStorable(entries) && IsInt32(Blocks(Run(x, entries, capacity)))
    ensures |disk| >= HEADER_SIZE && IntAt(disk, 0) == blockSize >= 12
    ensures Startable(x, WholeBlocks(x, blockSize), entries, capacity) && Seen(x, blockSize) == x
  {
    if x.Rooted? { LeafIffOneBlock(x, capacity); }
    assert entries[..0] == [];
  }

  /** Inserting session by session, reopening the file each time, gives the tree that one session would build. */
  method InsertInSessions(blockSize: int, runs: seq<seq<Entry>>, ghost capacity: int)
      returns (disk: seq<byte>, ghost blocks: seq<Block>)
    requires IsInt32(blockSize) && Dimensions(blockSize, capacity) && !HasTail(blockSize)
    requires AllStorable(Flatten(runs)) && IsInt32(Blocks(Run(Empty, Flatten(runs), capacity)))
    ensures OnDisk(disk, blockSize, capacity, blocks, Run(Empty, Flatten(runs), capacity))
    ensures var x := Run(Empty, Flatten(runs), capacity);
            Header(disk, blockSize, RootId(x), Depth(x)) && |disk| == FileSize(blockSize, capacity, Blocks(x))
  {
    disk := CreateIndexFile(blockSize);
    blocks := [];
    for i := 0 to |runs|
      invariant OnDisk(disk, blockSize, capacity, blocks, Run(Empty, Flatten(runs[..i]), capacity))
    {
      ghost var x := Run(Empty, Flatten(runs[..i]), capacity);
      SessionFits(runs, i, capacity);
      StartableAgain(disk, blockSize, capacity, blocks, x, runs[i]);
      var r;
      r, disk, blocks := InsertEntries(disk, runs[i], capacity, blocks, x);
    }
    assert runs[..|runs|] == runs;
  }

  lemma {:induction false} SessionFits(runs: seq<seq<Entry>>, i: nat, capacity: int)
    requires capacity >= 1 && i < |runs|
    requires AllStorable(Flatten(runs)) && IsInt32(Blocks(Run(Empty, Flatten(runs), capacity)))
    ensures var x := Run(Empty, Flatten(runs[..i]), capacity);
            && AllStorable(runs[i])
            && Run(x, runs[i], capacity) == Run(Empty, Flatten(runs[..i + 1]), capacity)
            && IsInt32(Blocks(Run(x, runs[i], capacity)))
  {
    assert runs[..i + 1][..i] == runs[..i];
    var before, through := Flatten(runs[..i]), Flatten(runs[..i + 1]);
    assert through == before + runs[i];
    var rest := FlattenPrefix(runs, i + 1);
    StorableParts(before, runs[i], rest);
    RunSum(Empty, before, runs[i], capacity);
    RunSum(Empty, through, rest, capacity);
    RunKeepsWellFormed(Empty, through, capacity);
    RunKeepsWellFormed(Run(Empty, through, capacity), rest, capacity);
  }

  lemma StorableParts(a: seq<Entry>, b: seq<Entry>, c: seq<Entry>)
    requires AllStorable(a + b + c)
    ensures AllStorable(a + b) && AllStorable(b) && AllStorable(c)
  {
    var s := a + b + c;
    assert forall i :: 0 <= i < |a + b| ==> (a + b)[i] == s[i];
    assert forall i :: 0 <= i < |b| ==> b[i] == s[|a| + i];
    assert forall i :: 0 <= i < |c| ==> c[i] == s[|a| + |b| + i];
  }

  // ---- Searching ----

  /** The lines that searching `x` for `keys` gives; key 0 gives none. */
  function SearchLines(keys: seq<int>, x: Index): seq<(int, int)> {
    if keys == [] then []
    else
      var before, key := SearchLines(keys[..|keys| - 1], x), keys[|keys| - 1];
      if key == 0 then before else before + [(key, TreeIndex.Search(x, key))]
  }

  function Nonzero(keys: seq<int>): seq<int> {
    if keys == [] then []
    else Nonzero(keys[..|keys| - 1]) + if keys[|keys| - 1] == 0 then [] else [keys[|keys| - 1]]
  }

  /** The lines a reader expects when exactly the entries `es` were inserted. */
  ghost predicate Answered(keys: seq<int>, es: seq<Entry>, lines: seq<(int, int)>) {
    && |lines| == |Nonzero(keys)|
    && forall k :: 0 <= k < |lines| ==> lines[k].0 == Nonzero(keys)[k] && Answer(es, lines[k].0, lines[k].1)
  }

  lemma {:induction false} LinesAnswer(keys: seq<int>, es: seq<Entry>, capacity: int)
    requires capacity >= 1 && AllStorable(es) && Roomy(es, capacity)
    ensures Answered(keys, es, SearchLines(keys, Run(Empty, es, capacity)))
  {
    if keys != [] {
      var key := keys[|keys| - 1];
      LinesAnswer(keys[..|keys| - 1], es, capacity);
      if key != 0 { SearchAfterRun(es, capacity, key); }
    }
  }

  /** Every line that is not a miss gives a value inserted with its key. */
  ghost predicate AllInserted(lines: seq<(int, int)>, es: seq<Entry>) {
    forall k :: 0 <= k < |lines| ==> lines[k].1 == -1 || Entry(lines[k].0, lines[k].1) in es
  }

  lemma {:induction false} LinesInserted(keys: seq<int>, es: seq<Entry>, capacity: int, x: Index)
    requires capacity >= 1 && AllStorable(es) && (x == Run(Empty, es, capacity) || x == Empty)
    ensures AllInserted(SearchLines(keys, x), es)
  {
    if keys != [] {
      LinesInserted(keys[..|keys| - 1], es, capacity, x);
      if x != Empty { SearchGivesInserted(es, capacity, keys[|keys| - 1]); }
    }
  }

  /** Nothing was inserted, blocks have no tail, or the entries do not fit into one block. */
  predicate Visible(es: seq<Entry>, capacity: int, blockSize: int) {
    es == [] || !HasTail(blockSize) || |es| > capacity
  }

  /** After a run into a new file, a session sees the index exactly under this condition. */
  lemma {:induction false} SeenExactlyWhen(es: seq<Entry>, capacity: int, blockSize: int)
    requires capacity >= 1 && AllStorable(es)
    ensures var x := Run(Empty, es, capacity);
            Seen(x, blockSize) == (if Visible(es, capacity, blockSize) then x else Empty)
            && (x == Empty ==> Visible(es, capacity, blockSize))
  {
    var x := Run(Empty, es, capacity);
    OneBlockExactlyWhen(es, capacity);
    RunWellFormed(es, capacity);
    if x.Rooted? { LeafIffOneBlock(x, capacity); }
    if es != [] { assert x.Rooted?; }
  }

  /** Searches a file into which the entries `es` were inserted. No line gives a value that was not inserted. The lines
      answer for `es` if the run leaves room, unless it filled only one block with a tail: then every search fails. */
  method SearchEntries(disk: seq<byte>, keys: seq<int>, ghost capacity: int, ghost blocks: seq<Block>,
                       ghost es: seq<Entry>) returns (r: OpenResult, lines: seq<(int, int)>)
    requires |disk| >= HEADER_SIZE && capacity >= 1 && AllStorable(es)
    requires IntAt(disk, 0) >= 12 ==> Openable(disk, capacity, blocks, Run(Empty, es, capacity))
    ensures r == (if IntAt(disk, 0) < 12 then InvalidBlockSize else Opened)
    ensures r.InvalidBlockSize? ==> lines == []
    ensures AllInserted(lines, es)
    ensures r.Opened? ==>
              var visible := Visible(es, capacity, IntAt(disk, 0));
              && lines == SearchLines(keys, if visible then Run(Empty, es, capacity) else Empty)
              && (Roomy(es, capacity) && visible ==> Answered(keys, es, lines))
  {
    ghost var x := Run(Empty, es, capacity);
    var tree;
    tree, r := Open(disk, capacity, blocks, x);
    lines := [];
    if r.InvalidBlockSize? {
      return;
    }
    ghost var seen := Seen(x, IntAt(disk, 0));
    for i := 0 to |keys|
      invariant tree.Loaded() && tree.index == x && (tree.Readable() <==> seen == x)
      invariant lines == SearchLines(keys[..i], seen)
    {
      assert keys[..i + 1][..i] == keys[..i];
      if keys[i] != 0 {
        var value := tree.Search(keys[i]);
        lines := lines + [(keys[i], value)];
      }
    }
    assert keys[..|keys|] == keys;
    LinesInserted(keys, es, capacity, seen);
    SeenExactlyWhen(es, capacity, IntAt(disk, 0));
    if Roomy(es, capacity) { LinesAnswer(keys, es, capacity); }
  }

  /** The lines that the ranges of `x` give. */
  ghost function RangeLines(ranges: seq<(int, int)>, chain: seq<Tree>, x: Index): (lines: seq<seq<Entry>>)
    ensures |lines| == |ranges|
  {
    if ranges == [] then []
    else
      var range := ranges[|ranges| - 1];
      RangeLines(ranges[..|ranges| - 1], chain, x) + [RangeAlong(chain, x, range.0, range.1)]
  }

  lemma {:induction false} RangeLinesAt(ranges: seq<(int, int)>, chain: seq<Tree>, x: Index, k: nat)
    requires k < |ranges|
    ensures RangeLines(ranges, chain, x)[k] == RangeAlong(chain, x, ranges[k].0, ranges[k].1)
  {
    if k < |ranges| - 1 { RangeLinesAt(ranges[..|ranges| - 1], chain, x, k); }
  }

  method AnswerRanges(tree: BPlusTree, ranges: seq<(int, int)>, ghost chain: seq<Tree>, ghost seen: Index)
      returns (lines: seq<seq<Entry>>)
    requires tree.Loaded() && (tree.index.Rooted? ==> ChainOf(chain, tree.index.root))
    requires seen == if tree.Readable() then tree.index else Empty
    modifies tree`pos
    ensures lines == RangeLines(ranges, chain, seen)
  {
    lines := [];
    for i := 0 to |ranges|
      invariant lines == RangeLines(ranges[..i], chain, seen)
    {
      assert ranges[..i + 1][..i] == ranges[..i];
      var found := tree.RangeSearch(ranges[i].0, ranges[i].1, chain);
      lines := lines + [found];
    }
    assert ranges[..|ranges|] == ranges;
  }

  /** The chain of a run, on which every range is read to an end. */
  lemma {:induction false} ChainAfterRun(es: seq<Entry>, capacity: int) returns (chain: seq<Tree>)
    requires capacity >= 1 && AllStorable(es)
    ensures var x := Run(Empty, es, capacity); x.Rooted? ==> ChainOf(chain, x.root) && DistinctIds(chain)
  {
    chain := [];
    if es != [] { chain := RunChain(es, capacity); }
  }

  /** What a range along the chain of a run holds: inserted entries within it and no others, and if the run leaves room
      what `RangeAnswer` asks for. */
  lemma {:induction false} RangeAlongRun(es: seq<Entry>, capacity: int, chain: seq<Tree>, first: int, last: int)
    requires capacity >= 1 && AllStorable(es)
    requires var x := Run(Empty, es, capacity); x.Rooted? ==> ChainOf(chain, x.root)
    ensures var found := RangeAlong(chain, Run(Empty, es, capacity), first, last);
            && multiset(found) <= multiset(InRange(es, first, last))
            && (Roomy(es, capacity) ==> RangeAnswer(es, first, last, found))
  {
    var x := Run(Empty, es, capacity);
    RangeAlongIsStored(chain, x, first, last);
    RunContents(es, capacity);
    InRangeOfSame(IndexContents(x), es, first, last);
    if Roomy(es, capacity) {
      RunSound(es, capacity);
      SoundRangeAlong(chain, x, capacity, first, last);
      RangeAfterRun(es, capacity, first, last);
    }
  }

  /** Searches ranges of a file into which the entries `es` were inserted. Every walk ends, with inserted entries of the
      range and no others, and with what `RangeAnswer` asks for if the run leaves room. */
  method RangeSearchEntries(disk: seq<byte>, ranges: seq<(int, int)>, ghost capacity: int, ghost blocks: seq<Block>,
                            ghost es: seq<Entry>)
      returns (r: OpenResult, lines: seq<seq<Entry>>, ghost chain: seq<Tree>)
    requires |disk| >= HEADER_SIZE && capacity >= 1 && AllStorable(es)
    requires IntAt(disk, 0) >= 12 ==> Openable(disk, capacity, blocks, Run(Empty, es, capacity))
    ensures r == (if IntAt(disk, 0) < 12 then InvalidBlockSize else Opened)
    ensures |lines| == if r.Opened? then |ranges| else 0
    ensures var x := Run(Empty, es, capacity);
            && (x.Rooted? ==> ChainOf(chain, x.root) && DistinctIds(chain))
            && forall k :: 0 <= k < |lines| ==>
                 lines[k] == if Visible(es, capacity, IntAt(disk, 0))
                             then RangeAlong(chain, x, ranges[k].0, ranges[k].1) else []
    ensures Visible(es, capacity, IntAt(disk, 0)) ==>
              forall k :: 0 <= k < |lines| ==>
                && multiset(lines[k]) <= multiset(InRange(es, ranges[k].0, ranges[k].1))
                && (Roomy(es, capacity) ==> RangeAnswer(es, ranges[k].0, ranges[k].1, lines[k]))
  {
    ghost var x := Run(Empty, es, capacity);
    chain := ChainAfterRun(es, capacity);
    var tree;
    tree, r := Open(disk, capacity, blocks, x);
    lines := [];
    if r.InvalidBlockSize? {
      return;
    }
    SeenExactlyWhen(es, capacity, IntAt(disk, 0));
    ghost var seen := Seen(x, IntAt(disk, 0));
    lines := AnswerRanges(tree, ranges, chain, seen);
    forall k | 0 <= k < |lines|
      ensures lines[k] == RangeAlong(chain, seen, ranges[k].0, ranges[k].1)
      ensures seen == x ==> multiset(lines[k]) <= multiset(InRange(es, ranges[k].0, ranges[k].1))
      ensures seen == x && Roomy(es, capacity) ==> RangeAnswer(es, ranges[k].0, ranges[k].1, lines[k])
    {
      RangeLinesAt(ranges, chain, seen, k);
      RangeAlongRun(es, capacity, chain, ranges[k].0, ranges[k].1);
    }
  }
}
