/** Blocks in the index file: their words and offsets, and how they read back when one of them is written. */
module BlockFile {
  import opened Entries
  import opened Trees
  import opened Bytes

  const HEADER_SIZE := 12

  datatype Block =
    | LeafBlock(entries: seq<Entry>, next: int)
    | InternalBlock(firstChild: int, separators: seq<Entry>)

  // ---- Words of a block ----

  function PairWords(es: seq<Entry>): (ws: seq<int>)
    ensures |ws| == 2 * |es|
  {
    if es == [] then [] else PairWords(es[..|es| - 1]) + [es[|es| - 1].key, es[|es| - 1].value]
  }

  function ZeroWords(n: nat): (ws: seq<int>)
    ensures |ws| == n
  {
    seq(n, _ => 0)
  }

  function Pairs(b: Block): seq<Entry> {
    if b.LeafBlock? then b.entries else b.separators
  }

  /** Empty slots are zero words; a leaf ends with the next leaf's id, an internal node begins with its first child. */
  function Words(b: Block, capacity: nat): (ws: seq<int>)
    requires |Pairs(b)| <= capacity
    ensures |ws| == 2 * capacity + 1
  {
    var slots := PairWords(Pairs(b)) + ZeroWords(2 * (capacity - |Pairs(b)|));
    if b.LeafBlock? then slots + [b.next] else [b.firstChild] + slots
  }

  /** What the block can hold so that reading gives it back: key 0 marks an empty slot. */
  ghost predicate Storable(b: Block, capacity: nat) {
    && |Pairs(b)| <= capacity
    && (forall i :: 0 <= i < |Pairs(b)| ==> IsStorable(Pairs(b)[i]))
    && IsInt32(if b.LeafBlock? then b.next else b.firstChild)
  }

  /** The pairs with a nonzero key among the first `k`. */
  function OccupiedPairs(ws: seq<int>, k: nat): seq<Entry>
    requires 2 * k <= |ws|
  {
    if k == 0 then []
    else OccupiedPairs(ws, k - 1) + if ws[2 * k - 2] != 0 then [Entry(ws[2 * k - 2], ws[2 * k - 1])] else []
  }

  /** The pairs before the first zero key among the first `k`. */
  function LeadingPairs(ws: seq<int>, k: nat): (es: seq<Entry>)
    requires 2 * k <= |ws|
    ensures |es| <= k
  {
    if k == 0 then []
    else
      var es := LeadingPairs(ws, k - 1);
      if |es| < k - 1 || ws[2 * k - 2] == 0 then es else es + [Entry(ws[2 * k - 2], ws[2 * k - 1])]
  }

  function ReadAsLeaf(ws: seq<int>, capacity: nat): Block
    requires |ws| == 2 * capacity + 1
  {
    LeafBlock(OccupiedPairs(ws, capacity), ws[2 * capacity])
  }

  function ReadAsInternal(ws: seq<int>, capacity: nat): Block
    requires |ws| == 2 * capacity + 1
  {
    InternalBlock(ws[0], LeadingPairs(ws[1..], capacity))
  }

  lemma {:induction false} PairWordsAt(es: seq<Entry>, i: nat)
    requires i < |es|
    ensures PairWords(es)[2 * i] == es[i].key && PairWords(es)[2 * i + 1] == es[i].value
  {
    if i < |es| - 1 {
      PairWordsAt(es[..|es| - 1], i);
    }
  }

  /** The slots as words: the pairs, then zeros. */
  ghost predicate SlotsOf(ws: seq<int>, es: seq<Entry>, capacity: nat) {
    && |es| <= capacity && 2 * capacity <= |ws|
    && forall i :: 0 <= i < capacity ==> SlotAt(ws, es, i)
  }

  ghost predicate SlotAt(ws: seq<int>, es: seq<Entry>, i: nat)
    requires 2 * i + 1 < |ws|
  {
    if i < |es| then ws[2 * i] == es[i].key && ws[2 * i + 1] == es[i].value else ws[2 * i] == 0
  }

  lemma WordsHoldSlots(b: Block, capacity: nat)
    requires |Pairs(b)| <= capacity
    ensures SlotsOf(if b.LeafBlock? then Words(b, capacity) else Words(b, capacity)[1..], Pairs(b), capacity)
  {
    var es := Pairs(b);
    var ws := if b.LeafBlock? then Words(b, capacity) else Words(b, capacity)[1..];
    forall i | 0 <= i < capacity ensures SlotAt(ws, es, i) {
      if i < |es| { PairWordsAt(es, i); }
    }
  }

  lemma {:induction false} OccupiedSlots(ws: seq<int>, es: seq<Entry>, capacity: nat, k: nat)
    requires SlotsOf(ws, es, capacity) && k <= capacity
    requires forall i :: 0 <= i < |es| ==> es[i].key != 0
    ensures OccupiedPairs(ws, k) == if k <= |es| then es[..k] else es
    decreases k
  {
    if k > 0 {
      OccupiedSlots(ws, es, capacity, k - 1);
      assert SlotAt(ws, es, k - 1);
    }
  }

  lemma {:induction false} LeadingSlots(ws: seq<int>, es: seq<Entry>, capacity: nat, k: nat)
    requires SlotsOf(ws, es, capacity) && k <= capacity
    requires forall i :: 0 <= i < |es| ==> es[i].key != 0
    ensures LeadingPairs(ws, k) == if k <= |es| then es[..k] else es
    decreases k
  {
    if k > 0 {
      LeadingSlots(ws, es, capacity, k - 1);
      assert SlotAt(ws, es, k - 1);
    }
  }

  /** Reading the words of a block gives the block. */
  lemma ReadsBack(b: Block, capacity: nat)
    requires Storable(b, capacity)
    ensures b.LeafBlock? ==> ReadAsLeaf(Words(b, capacity), capacity) == b
    ensures b.InternalBlock? ==> ReadAsInternal(Words(b, capacity), capacity) == b
  {
    WordsHoldSlots(b, capacity);
    assert forall i :: 0 <= i < |Pairs(b)| ==> IsStorable(Pairs(b)[i]);
    if b.LeafBlock? {
      OccupiedSlots(Words(b, capacity), b.entries, capacity, capacity);
    } else {
      LeadingSlots(Words(b, capacity)[1..], b.separators, capacity, capacity);
    }
  }

  lemma {:induction false} PairWordsFit(es: seq<Entry>)
    requires forall i :: 0 <= i < |es| ==> IsStorable(es[i])
    ensures forall i :: 0 <= i < |PairWords(es)| ==> IsInt32(PairWords(es)[i])
  {
    if es != [] {
      PairWordsFit(es[..|es| - 1]);
      assert IsStorable(es[|es| - 1]);
    }
  }

  lemma WordsFit(b: Block, capacity: nat)
    requires Storable(b, capacity)
    ensures forall i :: 0 <= i < 2 * capacity + 1 ==> IsInt32(Words(b, capacity)[i])
  {
    PairWordsFit(Pairs(b));
  }

  // ---- Blocks in the file ----

  /** The number of bytes of a block that are read and written; `blockSize` may leave up to 7 more unused. */
  function Used(capacity: nat): nat {
    8 * capacity + 4
  }

  /** Where block `id` begins: the blocks follow the header one after the other. */
  function Offset(blockSize: nat, id: int): (off: int)
    ensures off >= HEADER_SIZE
    decreases id
  {
    if id <= 1 then HEADER_SIZE else Offset(blockSize, id - 1) + blockSize
  }

  /** The product that `blockOffset` computes. */
  lemma {:induction false} OffsetIsProduct(blockSize: nat, id: int)
    requires id >= 1
    ensures Offset(blockSize, id) == HEADER_SIZE + (id - 1) * blockSize
    decreases id
  {
    if id > 1 {
      OffsetIsProduct(blockSize, id - 1);
    }
  }

  /** The file ends with the used part of its last block. */
  function FileSize(blockSize: nat, capacity: nat, n: nat): int {
    if n == 0 then HEADER_SIZE else Offset(blockSize, n) + Used(capacity)
  }

  /** `capacity` entries of 8 bytes and one id of 4 fit in a block, and no more. */
  predicate Dimensions(blockSize: int, capacity: int) {
    capacity >= 1 && 8 * capacity <= blockSize - 4 < 8 * capacity + 8
  }

  lemma {:induction false} OffsetGap(blockSize: nat, i: int, j: int)
    requires 1 <= i < j
    ensures Offset(blockSize, i) + blockSize <= Offset(blockSize, j)
    decreases j
  {
    if i < j - 1 {
      OffsetGap(blockSize, i, j - 1);
    }
  }

  lemma {:induction false} OffsetInFile(blockSize: nat, capacity: nat, id: int, n: nat)
    requires Dimensions(blockSize, capacity) && 1 <= id <= n
    ensures Offset(blockSize, id) + Used(capacity) <= FileSize(blockSize, capacity, n)
  {
    if id < n { OffsetGap(blockSize, id, n); }
  }

  /** Block `id` of the file holds `b`. */
  ghost predicate HoldsBlock(f: seq<byte>, blockSize: nat, capacity: nat, id: int, b: Block) {
    var off := Offset(blockSize, id);
    && 1 <= id && |Pairs(b)| <= capacity
    && off + Used(capacity) <= |f|
    && f[off..off + Used(capacity)] == EncodeWords(Words(b, capacity))
  }

  ghost predicate BlockInPlace(f: seq<byte>, blockSize: nat, capacity: nat, view: seq<Block>, id: int)
    requires 1 <= id <= |view|
  {
    HoldsBlock(f, blockSize, capacity, id, view[id - 1])
  }

  /** The file is a header and the blocks of `view`, block `id` being `view[id - 1]`. */
  ghost predicate Layout(f: seq<byte>, blockSize: nat, capacity: nat, view: seq<Block>) {
    && Dimensions(blockSize, capacity)
    && |f| == FileSize(blockSize, capacity, |view|)
    && forall id :: 1 <= id <= |view| ==> BlockInPlace(f, blockSize, capacity, view, id)
  }

  /** Block `id` replaced, or added directly behind the last one. */
  function Put(view: seq<Block>, id: int, b: Block): seq<Block>
    requires 1 <= id <= |view| + 1
  {
    if id <= |view| then view[id - 1 := b] else view + [b]
  }

  function WriteBlock(f: seq<byte>, blockSize: nat, capacity: nat, id: int, b: Block): seq<byte>
    requires |Pairs(b)| <= capacity
  {
    Overwrite(f, Offset(blockSize, id), EncodeWords(Words(b, capacity)))
  }

  lemma WrittenBlock(f: seq<byte>, blockSize: nat, capacity: nat, id: int, b: Block)
    requires Dimensions(blockSize, capacity) && 1 <= id && |Pairs(b)| <= capacity
    ensures HoldsBlock(WriteBlock(f, blockSize, capacity, id, b), blockSize, capacity, id, b)
  {
  }

  lemma WrittenSize(f: seq<byte>, blockSize: nat, capacity: nat, n: nat, id: int, b: Block)
    requires Dimensions(blockSize, capacity) && |f| == FileSize(blockSize, capacity, n)
    requires 1 <= id <= n + 1 && |Pairs(b)| <= capacity
    ensures |WriteBlock(f, blockSize, capacity, id, b)| == FileSize(blockSize, capacity, if id <= n then n else n + 1)
  {
    OffsetInFile(blockSize, capacity, id, id);
    if id <= n {
      OffsetInFile(blockSize, capacity, id, n);
    } else if n >= 1 {
      OffsetGap(blockSize, n, id);
    }
  }

  /** Writing one block changes that block and nothing else: not the header, not any other block. */
  lemma WriteKeepsLayout(f: seq<byte>, blockSize: nat, capacity: nat, view: seq<Block>, id: int, b: Block)
    requires Layout(f, blockSize, capacity, view) && 1 <= id <= |view| + 1 && |Pairs(b)| <= capacity
    ensures var g := WriteBlock(f, blockSize, capacity, id, b);
            && Layout(g, blockSize, capacity, Put(view, id, b))
            && HEADER_SIZE <= |f| && HEADER_SIZE <= |g| && g[..HEADER_SIZE] == f[..HEADER_SIZE]
  {
    WrittenSize(f, blockSize, capacity, |view|, id, b);
    WrittenBlock(f, blockSize, capacity, id, b);
    var g, view' := WriteBlock(f, blockSize, capacity, id, b), Put(view, id, b);
    forall i | 1 <= i <= |view'| ensures BlockInPlace(g, blockSize, capacity, view', i) {
      if i != id {
        assert BlockInPlace(f, blockSize, capacity, view, i);
        OtherBlockKept(f, blockSize, capacity, id, EncodeWords(Words(b, capacity)), i, view[i - 1]);
      }
    }
  }

  /** The bytes of two blocks do not overlap. */
  lemma {:induction false} OtherBytesKept(f: seq<byte>, blockSize: nat, capacity: nat, id: int, data: seq<byte>,
                                          other: int)
    requires Dimensions(blockSize, capacity) && 1 <= other && Offset(blockSize, other) + Used(capacity) <= |f|
    requires 1 <= id && id != other && |data| == Used(capacity)
    ensures var g := Overwrite(f, Offset(blockSize, id), data);
            var lo, hi := Offset(blockSize, other), Offset(blockSize, other) + Used(capacity);
            hi <= |g| && g[lo..hi] == f[lo..hi]
  {
    if id < other { OffsetGap(blockSize, id, other); } else { OffsetGap(blockSize, other, id); }
    OverwriteFrame(f, Offset(blockSize, id), data, Offset(blockSize, other), Offset(blockSize, other) + Used(capacity));
  }

  lemma {:induction false} OtherBlockKept(f: seq<byte>, blockSize: nat, capacity: nat, id: int, data: seq<byte>,
                                          other: int, b: Block)
    requires Dimensions(blockSize, capacity) && HoldsBlock(f, blockSize, capacity, other, b)
    requires 1 <= id && id != other && |data| == Used(capacity)
    ensures HoldsBlock(Overwrite(f, Offset(blockSize, id), data), blockSize, capacity, other, b)
  {
    OtherBytesKept(f, blockSize, capacity, id, data, other);
  }

  predicate InFile(f: seq<byte>, blockSize: int, capacity: int, id: int) {
    blockSize >= 0 && capacity >= 0 && Offset(blockSize, id) + Used(capacity) <= |f|
  }

  /** A reader finds something at every block of the file. */
  lemma BlockInFile(f: seq<byte>, blockSize: nat, capacity: nat, view: seq<Block>, id: int)
    requires Layout(f, blockSize, capacity, view) && 1 <= id <= |view|
    ensures InFile(f, blockSize, capacity, id)
  {
    OffsetInFile(blockSize, capacity, id, |view|);
  }

  /** The leaf that a reader finds at a block, whatever its bytes are. */
  function LeafAt(f: seq<byte>, blockSize: int, capacity: int, id: int): Block
    requires InFile(f, blockSize, capacity, id)
  {
    ReadAsLeaf(WordsAt(f, Offset(blockSize, id), 2 * capacity + 1), capacity)
  }

  function InternalAt(f: seq<byte>, blockSize: int, capacity: int, id: int): Block
    requires InFile(f, blockSize, capacity, id)
  {
    ReadAsInternal(WordsAt(f, Offset(blockSize, id), 2 * capacity + 1), capacity)
  }

  /** Every stored block reads back as what was written, whatever was written to other blocks since. */
  lemma BlockReadsBack(f: seq<byte>, blockSize: nat, capacity: nat, view: seq<Block>, id: int)
    requires Layout(f, blockSize, capacity, view) && 1 <= id <= |view| && Storable(view[id - 1], capacity)
    ensures InFile(f, blockSize, capacity, id)
    ensures view[id - 1] == if view[id - 1].LeafBlock? then LeafAt(f, blockSize, capacity, id)
                            else InternalAt(f, blockSize, capacity, id)
  {
    var b := view[id - 1];
    assert BlockInPlace(f, blockSize, capacity, view, id);
    WordsFit(b, capacity);
    WordsReadBack(f, Offset(blockSize, id), Words(b, capacity));
    ReadsBack(b, capacity);
  }

  /** The block count that `getMetadata` derives from the file size is right exactly when blocks have no unused tail;
      otherwise it is one too low, because the last block is short. */
  lemma BlockCountFromSize(blockSize: nat, capacity: nat, n: nat)
    requires Dimensions(blockSize, capacity) && n >= 1
    ensures var count := (FileSize(blockSize, capacity, n) - HEADER_SIZE) / blockSize;
            && (count == n <==> (blockSize - 4) % 8 == 0)
            && (count == n - 1 <==> (blockSize - 4) % 8 != 0)
  {
    var used := Used(capacity);
    OffsetIsProduct(blockSize, n);
    assert FileSize(blockSize, capacity, n) - HEADER_SIZE == (n - 1) * blockSize + used;
    if used == blockSize {
      assert (n - 1) * blockSize + used == n * blockSize;
      QuotientIs(n * blockSize, blockSize, n, 0);
    } else {
      QuotientIs((n - 1) * blockSize + used, blockSize, n - 1, used);
    }
  }

  lemma QuotientIs(x: int, d: int, q: int, r: int)
    requires d > 0 && x == q * d + r && 0 <= r < d
    ensures x / d == q
  {
    var k := x / d - q;
    assert x == (x / d) * d + x % d;
    assert k * d == (x / d) * d - q * d;
    assert k * d == r - x % d;
  }
}
