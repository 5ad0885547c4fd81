# Two verified cores: the file-backed B+ tree and the bounded event queues

The first core is the index in `index_file/`: a B+ tree whose nodes are fixed-size blocks of 32-bit words in one file.
The second is `custom-queue-latency/`: four bounded event queues and the three pipelines built on them.

## How it is built

**The B+ tree.** `Trees` to `TreeIndex` define the tree as a value, what an insertion does to it (`Trees.InsertInto`,
`TreeIndex.Add`), and prove what insertions keep: every leaf at the same depth, each block id used exactly once, keys
in their intervals, each separator the least key to its right, the leaf chain, occupancy and height. `TreeStrict`
proves that with distinct keys the order is strict and the intervals half-open, `TreeChain` that the leaf chain visits
every leaf once and ends whatever the order of the keys, `TreeSplits` where insertions split and into what. `Bytes`
and `BlockFile` define the file as bytes and prove that blocks read back and that writing one leaves the others alone.
`BPlusTreeFile.BPlusTree` is the class with the source's fields and methods; the ghost fields `view` and `index` say
which blocks the file holds and which tree they are. Each method is proved against the tree, so what holds of
`TreeIndex.Run` holds of the file. The upward loop after a split is verified with the state in between:
`TreeStore.Reached` says that all of the file is the new tree except for one promoted pair that its parent does not
know yet.

**Repeated keys.** Insertion is correct as a structure, and loses no entry, for any storable entries; then every
search and range also ends and gives nothing that was not inserted. Order, and that nothing is missed, ask that a run
is `TreeOrder.Roomy`: the capacity is even, or no key is inserted more than (capacity + 1) / 2 times. Keys are then in
ascending order, equal ones side by side. `TreeRepeats` proves that this is exactly what search needs: every inserted
key stays findable in all runs at an even capacity, and at an odd one in all runs that repeat no key more often than
that, but not in all runs that repeat keys once more. The reason is the split of a leaf: at an odd capacity one key
can fill the left half and the first place of the right one. When the left leaf splits again it can promote the same
key once more, and sorting puts the new separator behind the block of the first, where larger keys are.

**Reopened files.** A session counts the blocks from the file size, so blocks with unused bytes at their end make the
count one too low (`BlockFile.BlockCountFromSize`). Reading only asks whether the count is 0, which goes wrong exactly
for a tree of one block; `IndexFile.SeenExactlyWhen` gives the condition in terms of what was inserted. Inserting
works with such a count exactly until a leaf splits: the left half then links to the block before the one it should
link to.

**The queues.** `SpscRing`, `MpmcRing` and `LinkedQueue` (with its proofs in `LinkedQueueSteps` and `LinkedQueueRuns`)
are transition systems with one access to shared memory a step; every thread has a program counter with its local
variables, and threads may be any number where the source allows it. A run is any interleaving, with `close` and the
raising of the stop flags anywhere in between. Histories (events enqueued, dequeued, depths reported) are part of the
state but never decide a step. `GlobalLockQueue` is a class with one method for each critical section, and a
transition system of these sections. `SpscQueue` is the ring as an object on an array, for passes that nothing
interrupts. `SpscCalls`, `MpmcCalls` and `LinkedQueueCalls` say what calls do: exactly when they give up, what a call
does that nothing interrupts (step by step, from the single accesses in `MpmcAccesses` and `LinkedQueueAccesses`;
`Trails` has the notion of steps in a row), and what pushes do after `close` or a stop in every run.

**The pipelines.** `IngressThreads` are the ingress threads and their counters, `RingThreads` the workers at their
rings. `SharedPipeline` runs on the queue behind one mutex. `DispatchPipeline` and `DirectPipeline` run the worker
rings of `SpscRing` at their own granularity, so the rings' invariants hold inside the pipelines. The dispatch queue
is a `SharedQueue`: its moves are to put an event behind the others, to take the oldest, to refuse a push (only under
`Drop`, or once stopped or closed), to end a pop (only once stopped or closed), and to close.
`MpmcRing.IsSharedQueue`, `LinkedQueueRuns.IsSharedQueue` and `GlobalLockQueue.IsSharedQueue` prove that each step of
the three shared queues is such a move or does nothing, and that each call makes one move and returns its result.

## Where the source and its documentation disagree

`index_file/README.md:187-193` draws a split of five entries at capacity 4 into three and two. The code splits them into two
and three: the split index is (capacity - 1) / 2 + 1 = 2 (`index_file/BPlusTree.cpp:182-184`). The model follows the code.

## Model

| member | source | states |
|---|---|---|
| Entries.SortEntries | index_file/BPlusTree.cpp:16-23 | the result is sorted by key, then value, and has the same entries |
| Entries.SortedUnique | index_file/BPlusTree.cpp:16-23 | there is only one sorted arrangement of the same entries, so the contract of the sort fixes its result |
| Entries.AppendAndSort | index_file/BPlusTree.cpp:298-300 | appending an entry to a sorted node and sorting puts it in its position and moves nothing else |
| Entries.InsertAscending | index_file/BPlusTree.cpp:298-300 | any key keeps the keys of a node ascending, and lands between those that are not greater and those that are not smaller |
| Trees.SplitHalves | index_file/BPlusTree.cpp:182-184 | an overfull leaf is split at floor((cap+1)/2) into two non-empty halves that fit, and both halves of an internal node keep at least floor(cap/2) separators |
| Trees.InsertShape | index_file/BPlusTree.cpp:77-92 | inserting any storable entry keeps all leaves at one depth, no node overfull, and each block id used once; a split adds exactly the new blocks |
| Trees.InsertIds | index_file/BPlusTree.cpp:302-315 | every block id, and every leaf's `next` that is not 0, stays one of the blocks in use, and no insertion lowers their number |
| TreeLeaves.InsertAddsEntry | index_file/BPlusTree.cpp:77-92 | however the tree splits and whatever keys it holds, its entries grow by exactly the new one |
| TreeOrder.PromotedPosition | index_file/BPlusTree.cpp:318-321 | sorting puts a promoted pair directly behind the child that was split, also behind equal separators, whose blocks are older |
| TreeOrder.InsertOrdered | index_file/BPlusTree.cpp:77-92 | any entry for which there is room keeps separators ascending, every subtree in its interval with few copies of the upper end, and each separator the least key of the subtree to its right; for distinct keys `TreeStrict.AddStrict` makes that strict |
| TreeOrder.PromotedBetween | index_file/BPlusTree.cpp:83-88 | the promoted key is not below the separator before the child the entry was routed to, and strictly below the one behind |
| TreeOrder.InsertLeaves | index_file/BPlusTree.cpp:297-316 | an insertion replaces one leaf in the in-order list by itself with the entry, or by its two halves |
| TreeOrder.OrderedContents | index_file/BPlusTree.cpp:53-75 | the leaves of an ordered tree hold ascending keys from left to right, all within the bounds of the tree |
| TreeContents.InsertChained | index_file/BPlusTree.cpp:302-315 | through every leaf split the chain of `next` links stays the in-order list of all leaves |
| TreeContents.LeafIndexSplits | index_file/BPlusTree.cpp:53-75 | the path for a key leads to the leaf before which no key is larger and behind which all are, and which holds the key if any leaf does |
| TreeContents.SearchesOneLeaf | index_file/BPlusTree.cpp:94-108 | scanning that leaf gives a value stored under the key in the whole tree, and -1 only if there is none |
| TreeContents.InRangeExact | index_file/BPlusTree.cpp:110-131 | the range of an ascending list is exactly its entries within the bounds, ascending |
| TreeContents.RangeStarts | index_file/BPlusTree.cpp:116-125 | a range that starts in the leaf the path leads to misses nothing but copies of its first key in the leaves before, and none if that key is stored once |
| TreeOccupancy.InsertFilled | index_file/BPlusTree.cpp:307-315 | after an insertion every non-root leaf holds at least floor((cap+1)/2) entries and every non-root internal node at least floor(cap/2) separators |
| TreeOccupancy.HeightBound | index_file/BPlusTree.cpp:328-349 | a tree of height h >= 1 holds at least 2 * (floor(cap/2)+1)^(h-1) * floor((cap+1)/2) entries |
| TreeOccupancy.FullCount | index_file/BPlusTree.cpp:318-326 | a tree of height h holds at most (cap+1)^h * cap entries |
| TreeIndex.AddWellFormed | index_file/BPlusTree.cpp:77-92 | for any storable entry, an insertion keeps: all leaves at `depth_`, blocks 1..`numOfNodes_` each reached exactly once, occupancy, `next` links within the file; it adds at most depth + 2 blocks |
| TreeIndex.AddContents | index_file/BPlusTree.cpp:77-92 | for any storable entry the stored entries grow by exactly that one |
| TreeIndex.AddSound | index_file/BPlusTree.cpp:77-92 | for any entry at an even capacity, and at an odd one while no key is then there more than (capacity + 1) / 2 times, it also keeps order and chain |
| TreeIndex.LeafIffOneBlock | index_file/BPlusTree.cpp:78-82 | the block count tells the cases apart: one block exactly when the root is a leaf at depth 0 |
| TreeIndex.RunWellFormed | index_file/b+tree.cpp:23-34 | any run of insertions, duplicates included, gives a well-formed tree |
| TreeIndex.RunContents | index_file/b+tree.cpp:23-34 | after any run the tree holds exactly the inserted entries, repeated ones as often as inserted |
| TreeIndex.RunSound | index_file/b+tree.cpp:23-34 | any run at an even capacity, and any run that repeats no key more than (capacity + 1) / 2 times at an odd one, gives a sound tree |
| TreeIndex.OneBlockExactlyWhen | index_file/BPlusTree.cpp:265-295 | a run fills a single block if and only if it has at least one entry and at most `capacity_` |
| TreeIndex.SearchAnswers | index_file/BPlusTree.cpp:94-108 | in every sound tree the search gives a value stored under the key, and -1 if there is none |
| TreeIndex.SearchGivesInserted | index_file/BPlusTree.cpp:94-108 | after any run whatsoever the search gives a value inserted with the key, or -1 |
| TreeChain.SearchIsLeast | index_file/BPlusTree.cpp:94-108 | of several entries with the key in the leaf that the path leads to, the search gives the one with the least value, in any well-formed tree |
| TreeIndex.SearchAfterRun | index_file/BPlusTree.cpp:94-108 | after any run that leaves room as for `RunSound`, repeated keys included, the search gives a value inserted with the key, and -1 for every other key |
| TreeIndex.RangeAfterRun | index_file/BPlusTree.cpp:110-131 | after any run that leaves room as for `RunSound` the range is ascending, strictly if the keys are distinct, and holds exactly the inserted entries above its first key; of the first key itself at least one entry, and all if it was inserted once |
| TreeIndex.HeightAfterRun | index_file/BPlusTree.cpp:328-349 | after n insertions of any keys the depth is bounded by n on both sides |
| TreeRepeats.FindableExactlyWhen | index_file/BPlusTree.cpp:318-337 | all runs that insert no key more than u times leave every inserted key findable if and only if the capacity is even or u <= (capacity + 1) / 2 |
| TreeRepeats.AlwaysFindableExactlyWhen | index_file/BPlusTree.cpp:318-337 | all runs leave every inserted key findable if and only if the capacity is even |
| TreeRepeats.LosesThree | index_file/BPlusTree.cpp:318-337 | at every odd capacity 2m - 1 >= 3 a run with no key more than m + 1 times after which a stored key is not found |
| TreeRepeats.LosesFive | index_file/BPlusTree.cpp:318-337 | at capacity 1 a run with one key twice after which a stored key is not found |
| TreeRepeats.RangeCompleteExactlyWhen | index_file/BPlusTree.cpp:116-128 | of the runs that leave room, all ranges whose first key was inserted at most u times are complete if and only if u <= 1 or the capacity is 1 |
| TreeStrict.StrictExactlyWhen | index_file/BPlusTree.cpp:318-321 | an ordered subtree is strictly ordered if and only if its keys are distinct and its upper bound is none of them |
| TreeStrict.IndexStrictExactlyWhen | index_file/BPlusTree.cpp:318-321 | a sound index is strictly ordered if and only if no key is in it twice |
| TreeStrict.AddStrict | index_file/BPlusTree.cpp:77-92 | at any capacity, inserting a fresh key keeps separators strictly increasing, every subtree in its half-open key interval, and each separator the least key to its right |
| TreeStrict.RunStrict | index_file/BPlusTree.cpp:77-92 | after any run of distinct keys, at any capacity, the tree is strictly ordered, its entries have strictly increasing keys, and so has every range |
| TreeChain.InsertKeepsChain | index_file/BPlusTree.cpp:302-315 | an insertion puts the new half of a leaf behind the old one on the chain, which still begins at the same block and ends |
| TreeChain.RunChain | index_file/BPlusTree.cpp:302-315 | after any run of storable entries, at any capacity and whatever keys repeat, one chain from block 1 visits every leaf exactly once and ends |
| TreeChain.ChainUnique | index_file/BPlusTree.cpp:302-315 | two chains of the same leaves are the same chain |
| TreeChain.SoundRangeAlong | index_file/BPlusTree.cpp:116-128 | in a sound tree it is the range of the in-order list of leaves |
| TreeChain.RangeStopsAtFirst | index_file/BPlusTree.cpp:116-128 | the walk reads the chain from the leaf that the path leads to up to the first key beyond the range and no further, whatever comes behind it |
| TreeChain.RangeAlongIsStored | index_file/BPlusTree.cpp:116-128 | whatever the order of the keys, what a range reads along the chain are stored entries within its bounds, none too often |
| Bytes.DecodesEncoded | index_file/BPlusTree.cpp:186-194 | reading back the four bytes of a 32-bit int gives the int, negative ones included |
| Bytes.WordsReadBack | index_file/BPlusTree.cpp:186-194 | reading back a sequence of ints written at an offset gives the sequence |
| Bytes.OverwriteFrame | index_file/BPlusTree.cpp:192-202 | writing leaves every byte outside the written stretch alone |
| BlockFile.ReadsBack | index_file/BPlusTree.cpp:204-263 | the words of a leaf or internal node with at most `capacity_` non-zero keys read back as the same node |
| BlockFile.OffsetIsProduct | index_file/BPlusTree.cpp:178-180 | the offset of a block is header + (id - 1) * block size |
| BlockFile.WriteKeepsLayout | index_file/BPlusTree.cpp:235-263 | writing a block changes that block and no other, nor the header, and may append the next block |
| BlockFile.BlockReadsBack | index_file/BPlusTree.cpp:204-233 | every block in the file reads back as what was last written there |
| BlockFile.BlockCountFromSize | index_file/BPlusTree.cpp:48-50 | the count from the file size is right if and only if (blockSize - 4) % 8 == 0, and otherwise one too low |
| TreeStore.HoldsFrame | index_file/BPlusTree.cpp:235-263 | a subtree stays stored when none of its blocks is written |
| TreeStore.StepUp | index_file/BPlusTree.cpp:318-337 | one round of propagation at an inner node: the file then holds the new subtree except for the pair it promotes in turn |
| TreeStore.StepUpDone | index_file/BPlusTree.cpp:86-88 | once nothing is promoted, the subtree one level up is complete as well |
| TreeStore.RootGrown | index_file/BPlusTree.cpp:339-347 | the new root makes the two halves of the old one a tree |
| TreeSplits.SplitsInMiddle | index_file/BPlusTree.cpp:297-350 | wherever an insertion splits: a leaf of capacity + 1 entries keeps the first (capacity + 1) / 2, the next key going up; an internal node of capacity + 1 separators keeps the first (capacity + 1) / 2, hands up the next and leaves the last capacity / 2; nothing else is lost or moved |
| TreeSplits.SplitsExactlyWhen | index_file/BPlusTree.cpp:86-88 | a node splits if and only if it and all nodes below it on the path are full, and each split takes one new block |
| TreeSplits.SplitBlocks | index_file/BPlusTree.cpp:297-350 | after an insertion, the block of each node that has split holds its first half and a new block the second: block n + 1 that of the leaf, n + 2 that of its parent, and so on |
| TreeSplits.PropagatedInMiddle | index_file/BPlusTree.cpp:328-350 | what `propagate` writes, in literal arithmetic: the separators fit, or those before the middle one stay, the middle one goes up or into a new root, and those behind it go to the next block |
| BPlusTreeFile.PromotionIsNoSentinel | index_file/BPlusTree.cpp:10-14 | a promotion equals the sentinel {-1,-1} exactly when nothing was split, even for key -1 |
| BPlusTreeFile.ClimbRound | index_file/BPlusTree.cpp:86-88 | each round of the loop moves the pending promotion one level up, and at the root leaves none |
| BPlusTreeFile.LoopEnds | index_file/BPlusTree.cpp:86-88 | however the loop ends, nothing is pending and the file holds the whole new tree |
| BPlusTreeFile.ReopenedCount | index_file/BPlusTree.cpp:48-50 | for the file of any tree, `numOfNodes_` is rebuilt exactly when the tree is empty or (blockSize - 4) % 8 == 0 |
| BPlusTreeFile.MetadataKeepsLayout | index_file/BPlusTree.cpp:352-356 | writing root and depth changes no block and not the block size |
| BPlusTreeFile.RangeLeaves | index_file/BPlusTree.cpp:116-128 | after the leaf that the path leads to, the chain goes on with stored leaves only, and ends |
| BPlusTreeFile.BPlusTree.GetMetadata | index_file/BPlusTree.cpp:33-51 | block size, root and depth come from the header, capacity from the block size, too small block sizes are refused; the session can insert if and only if the tree is empty or blocks have no tail, and can read also if the tree has more than one block |
| BPlusTreeFile.BPlusTree.ReadLeaf | index_file/BPlusTree.cpp:204-217 | reads the block as a leaf: all slots with a non-zero key, and `next` |
| BPlusTreeFile.BPlusTree.ReadInternal | index_file/BPlusTree.cpp:219-233 | reads the block as an internal node: the slots before the first zero key |
| BPlusTreeFile.BPlusTree.WriteLeaf | index_file/BPlusTree.cpp:235-248 | the block becomes the leaf, the others and the header stay |
| BPlusTreeFile.BPlusTree.WriteInternal | index_file/BPlusTree.cpp:250-263 | the block becomes the internal node, the others and the header stay |
| BPlusTreeFile.BPlusTree.GetPath | index_file/BPlusTree.cpp:53-75 | the recorded ids are the nodes on the way down for the key, the last one a leaf |
| BPlusTreeFile.BPlusTree.Search | index_file/BPlusTree.cpp:94-108 | gives what `TreeIndex.Search` gives on the stored tree, for any key, any well-formed tree and any block count but a wrong 0, with which it gives -1 |
| BPlusTreeFile.BPlusTree.RangeSearch | index_file/BPlusTree.cpp:110-131 | terminates on every well-formed tree on whose leaves there is one chain, so after every run, and gives what `TreeChain.RangeAlong` says, for any block count but a wrong 0, with which it gives nothing |
| BPlusTreeFile.BPlusTree.WalkLeaves | index_file/BPlusTree.cpp:117-128 | walking the chain reads each remaining leaf once, up to the first key beyond the range, in whatever order the keys are; the measure is the number of leaves left |
| BPlusTreeFile.BPlusTree.InsertEmpty | index_file/BPlusTree.cpp:265-269 | block 1 becomes a leaf with the entry, and the root; a block 1 that the count missed is lost |
| BPlusTreeFile.BPlusTree.InsertIntoOnlyOne | index_file/BPlusTree.cpp:271-295 | the lone root leaf takes the entry, or becomes two leaves under a new root |
| BPlusTreeFile.BPlusTree.InsertLeaf | index_file/BPlusTree.cpp:297-316 | the leaf on the path takes the entry, or is split and the first key of the right half promoted with its block; with a count that is too low the right half overwrites a block of the tree |
| BPlusTreeFile.BPlusTree.Propagate | index_file/BPlusTree.cpp:318-350 | the node that is read from the block takes the promoted pair in its sorted place, or keeps its first (capacity + 1) / 2 separators, promotes the next, and puts the last capacity / 2 into the next block; a split root gets a new root of two children |
| BPlusTreeFile.BPlusTree.ClimbPath | index_file/BPlusTree.cpp:86-88 | the upward loop ends with nothing pending and the file holding the new tree; whatever it is given, it leaves the leaf alone and adds at most two blocks a level |
| BPlusTreeFile.MislinkedIsNoIndex | index_file/BPlusTree.cpp:307-313 | a file in which a split leaf does not link to the block behind all others is no index file of the tree after that insertion |
| BPlusTreeFile.BPlusTree.WriteMetadata | index_file/BPlusTree.cpp:352-356 | the header then says root and depth, everything else stays |
| BPlusTreeFile.BPlusTree.Insert | index_file/BPlusTree.cpp:77-92 | with the right block count, and with one that is too low if nothing splits, the file, header included, is afterwards the index file of the tree with the entry added, splits being in the middle as `AddHalves` says; with a count one too low and a split it is no index file of that tree; with a wrong 0 it is that of the entry alone |
| BPlusTreeFile.AddHalves | index_file/BPlusTree.cpp:77-92 | in the blocks of any index file of the tree after an insertion, every full node at the lower end of the path has been halved in its middle, the new blocks are those behind the old ones, and a path that was full all the way has a root of two children |
| IndexFile.CreateIndexFile | index_file/b+tree.cpp:14-21 | the new file is the index file of the empty tree |
| IndexFile.InsertEntries | index_file/b+tree.cpp:23-34 | a session leaves the index file of the tree after the run of its insertions if and only if the block count suffices, that is, blocks have no tail or nothing splits, for sessions in which at most the last insertion splits with a count that is too low; a lone leaf with a tail is forgotten |
| IndexFile.SeenExactlyWhen | index_file/BPlusTree.cpp:48-50 | a reopened file is seen as it is if and only if nothing was inserted, blocks have no tail, or more than `capacity_` entries were inserted; else as empty |
| TreeIndex.SearchIsMap | index_file/BPlusTree.cpp:94-108 | for a key inserted at most once the search gives what a lookup in the list of inserted entries gives |
| IndexFile.SearchEntries | index_file/b+tree.cpp:36-50 | on the file after any run, each non-zero key is answered in input order by a search in the tree the session sees, by a value inserted with the key or -1; if the run leaves room and is seen, by -1 only if the key was not inserted |
| IndexFile.RangeSearchEntries | index_file/b+tree.cpp:52-74 | on the file after any run, every walk ends, and each range is answered by inserted entries within it and no others; as `TreeIndex.RangeAfterRun` says if the run leaves room; by nothing if the session does not see the run |
| IndexFile.InsertInSessions | index_file/b+tree.cpp:14-34 | for block sizes without an unused tail, splitting a run into sessions gives the same tree as one session |
| Events.SlotsDiffer | custom-queue-latency/src/queues.cpp:473-476 | within one lap two events share a ring position only if they are a whole lap apart |
| SpscRing.RunKeepsInv | custom-queue-latency/src/queues.cpp:414-464 | the ring invariant holds in every interleaving of one producer, one consumer and `close`, one access a step |
| SpscRing.AlwaysFifo | custom-queue-latency/src/queues.cpp:414-464 | popped events are a prefix of pushed ones, at most `capacity` are inside, the slot being written is neither live nor being read, the slot being read holds the oldest event |
| SpscRing.NeverOutOfBounds | custom-queue-latency/src/queues.cpp:428-452 | no access is out of the buffer |
| SpscRing.FullExactlyAtCapacity | custom-queue-latency/src/queues.cpp:424-436 | a push finds the ring full exactly when it holds `capacity` events at the head load |
| SpscRing.EmptyExactlyWhenEmpty | custom-queue-latency/src/queues.cpp:449-451 | a pop finds the ring empty exactly when it is empty at the tail load |
| SpscRing.FailedPopLeavesOnlyLater | custom-queue-latency/src/queues.cpp:449-461 | a failed pop means closed or stopped, and everything published before its tail load has been popped |
| SpscRing.ReportedDepthIsExact | custom-queue-latency/src/queues.cpp:430 | the depth formula counts the events beyond the loaded head: at least the occupancy, at most the capacity |
| SpscRing.MaxDepthIsMaximum | custom-queue-latency/src/queues.cpp:430-431 | `max_observed_depth` is the maximum of the reported depths and at most the capacity |
| SpscRing.RefinesBoundedQueue | custom-queue-latency/src/queues.cpp:424-453 | the tail store enqueues, the head store dequeues the oldest event, every other access leaves the queue as it is |
| SpscCalls.PushGivesUpExactlyWhen | custom-queue-latency/src/queues.cpp:418-440 | an access ends a push without an event if and only if it reads `closed` or the stop flag as true, or under `Drop` has found `capacity` events at its head load; and then it has changed nothing |
| SpscCalls.PopGivesUpExactlyWhen | custom-queue-latency/src/queues.cpp:448-462 | an access ends a pop without an event if and only if it reads `closed` or the stop flag as true after finding the ring empty |
| SpscCalls.PushAlone | custom-queue-latency/src/queues.cpp:414-442 | a push that nothing interrupts: refused when closed or stopped; on a full ring refused under `Drop` and else back at its start; in all other cases, under either policy, it appends its event and returns |
| SpscCalls.PopAlone | custom-queue-latency/src/queues.cpp:445-464 | a pop that nothing interrupts takes the oldest event; on an empty ring it fails when closed or stopped and is else back at its start |
| SpscCalls.PushesAfterFlag | custom-queue-latency/src/queues.cpp:418-422 | after `close` or once the stop flag is up, every push that has its checks still to come fails in every run; at most the one push past them publishes its event |
| SpscCalls.FailedPopMayLeaveOne | custom-queue-latency/src/queues.cpp:448-462 | a run in which a pop fails on a closed ring that holds an event, published after its tail load |
| SpscQueue.FullOrRoom | custom-queue-latency/src/queues.cpp:424-427 | the next index meets the head exactly when the ring is full |
| SpscQueue.StoreIsLive | custom-queue-latency/src/queues.cpp:428-430 | a store at the tail of a ring with room adds the event behind the others, across the wrap-around |
| SpscQueue.RingQueue.PushPass | custom-queue-latency/src/queues.cpp:419-441 | a pass of push refuses when closed or stopped, finds the ring full exactly at capacity, and else appends the event and raises the maximum depth to the new size |
| SpscQueue.RingQueue.PopPass | custom-queue-latency/src/queues.cpp:449-462 | a pass of pop takes the oldest event, and of an empty ring ends when closed or stopped |
| MpmcRing.RunKeepsInv | custom-queue-latency/src/queues.cpp:316-375 | the invariant holds in every run of any number of threads |
| MpmcRing.SlotsAreConserved | custom-queue-latency/src/queues.cpp:316-375 | free slot tokens + slots held by pushers + live elements + slots not yet returned by poppers = capacity |
| MpmcRing.AlwaysFifo | custom-queue-latency/src/queues.cpp:343-371 | dequeued events are a prefix of enqueued ones, at most `capacity` are inside |
| MpmcRing.WritesAreExclusive | custom-queue-latency/src/queues.cpp:343-346 | a producer never writes a live slot, nor the slot being read, and is alone in the tail lock |
| MpmcRing.ReadsAreLive | custom-queue-latency/src/queues.cpp:366-369 | a consumer alone in the head lock reads the oldest event |
| MpmcRing.DepthIsSound | custom-queue-latency/src/queues.cpp:347-370 | `depth_` never underflows; the maximum is that of the reported depths and at most the capacity |
| MpmcRing.QuiescentCountersAgree | custom-queue-latency/src/queues.cpp:316-375 | with no thread inside, both semaphores and `depth_` agree with the contents |
| MpmcRing.RefinesBoundedQueue | custom-queue-latency/src/queues.cpp:343-371 | moving the tail enqueues, moving the head dequeues the oldest event, every other access leaves the queue as it is |
| MpmcCalls.PushGivesUpExactlyWhen | custom-queue-latency/src/queues.cpp:320-341 | a push turns back if and only if it reads `closed` or the stop flag as true or its `try_acquire` fails under `Drop`; it has then enqueued nothing and gives back its slot |
| MpmcCalls.NeverStuck | custom-queue-latency/src/queues.cpp:316-375 | in every run a thread inside can take its next access, except that it may wait for a lock; a `try_acquire` can succeed exactly when there is a token |
| MpmcCalls.PushAloneWithoutSlot | custom-queue-latency/src/queues.cpp:320-335 | a push that nothing interrupts and that finds no slot is refused under `Drop`, when closed or when stopped, and is else back at its start |
| MpmcCalls.PushAloneRefused | custom-queue-latency/src/queues.cpp:337-341 | with a slot to be had, it is refused when closed or stopped, with its slot given back |
| MpmcCalls.PushAlone | custom-queue-latency/src/queues.cpp:316-352 | open, not stopped, with a slot to be had and the tail lock free, it appends its event, counts it and returns, under either policy |
| MpmcCalls.PopAloneWithoutItem | custom-queue-latency/src/queues.cpp:355-364 | a pop that nothing interrupts and that finds no item fails when closed or stopped and is else back at its start |
| MpmcCalls.PopAlone | custom-queue-latency/src/queues.cpp:355-375 | with an item to be had and the head lock free, it takes the oldest event, whatever the flags |
| MpmcCalls.PushesAfterFlag | custom-queue-latency/src/queues.cpp:337-341 | after `close` or once the stop flag is up, a thread whose push has its checks still to come, or begins one later, enqueues nothing any more in any run; the pushes past their checks enqueue at most one event each |
| MpmcRing.IsSharedQueue | custom-queue-latency/src/queues.cpp:316-379 | each step is a move that the dispatch pipeline allows its queue, or none, and each call makes one move and returns its result |
| LinkedQueueSteps.RunKeepsInv | custom-queue-latency/src/queues.cpp:184-262 | the invariant holds in every run of any number of threads, node addresses being reused at will |
| LinkedQueueRuns.AlwaysFifo | custom-queue-latency/src/queues.cpp:184-262 | dequeue order is a prefix of link order; a bounded queue never holds more than its capacity |
| LinkedQueueRuns.SlotsAreConserved | custom-queue-latency/src/queues.cpp:184-262 | free slot tokens + slots held by pushers + live elements + slots not yet returned = capacity |
| LinkedQueueRuns.NullBranchUnreachable | custom-queue-latency/src/queues.cpp:243-252 | a consumer with a token always sees a non-null `next`, so the branch for null is never taken |
| LinkedQueueRuns.LocksTouchDifferentNodes | custom-queue-latency/src/queues.cpp:214-256 | then head and tail differ, so the two locks never touch the same node's `next` |
| LinkedQueueRuns.WalkIsTheQueue | custom-queue-latency/src/queues.cpp:243-254 | following `next` from the head meets exactly the nodes linked and not passed, in link order, then null |
| LinkedQueueRuns.DeletedHeadIsUnreachable | custom-queue-latency/src/queues.cpp:258 | the deleted old head is allocated, not the tail, on no walk from the head, and known to no other thread |
| LinkedQueueRuns.NoFreedNodeIsAccessed | custom-queue-latency/src/queues.cpp:215-258 | no access is to a freed node, and no node is deleted twice |
| LinkedQueueRuns.NoNodeLeaks | custom-queue-latency/src/queues.cpp:279-288 | an allocated node is reached from the head exactly when no thread has still to link or delete it |
| LinkedQueueRuns.DepthIsSound | custom-queue-latency/src/queues.cpp:223-255 | `depth_` never underflows; the maximum is that of the reported depths and at most a bounded queue's capacity |
| LinkedQueueRuns.QuiescentCountersAgree | custom-queue-latency/src/queues.cpp:184-262 | with no thread inside, both semaphores and `depth_` agree with the contents |
| LinkedQueueRuns.RefinesBoundedQueue | custom-queue-latency/src/queues.cpp:221-254 | linking enqueues, moving the head dequeues the oldest event, every other access leaves the queue as it is |
| LinkedQueueRuns.PopGivesUpOnlyFor | custom-queue-latency/src/queues.cpp:234-252 | a pop fails only for `close` or the stop flag while it waits for an item, and has then dequeued nothing |
| LinkedQueueCalls.PushGivesUpExactlyWhen | custom-queue-latency/src/queues.cpp:186-220 | a push turns back if and only if it reads `closed` as true, first, while waiting or inside the tail lock, or the stop flag while waiting, or its `try_acquire` fails under `Drop`; it has then linked nothing |
| LinkedQueueCalls.NeverStuck | custom-queue-latency/src/queues.cpp:184-262 | in every run a thread inside can take its next access, except that it may wait for a lock; a `try_acquire` can succeed exactly when there is a token |
| LinkedQueueCalls.PushAloneOnClosed | custom-queue-latency/src/queues.cpp:186-189 | a closed queue refuses a push at its first access |
| LinkedQueueCalls.PushAloneWithoutSlot | custom-queue-latency/src/queues.cpp:191-212 | a push that nothing interrupts and that finds no slot is refused under `Drop` or when stopped, and else goes on waiting for one |
| LinkedQueueCalls.PushAlone | custom-queue-latency/src/queues.cpp:184-232 | on an open queue that is unbounded or has a slot, with the tail lock free, it links its event, counts it and returns, under either policy |
| LinkedQueueCalls.RefusedAlone | custom-queue-latency/src/queues.cpp:217-222 | a push that finds the queue closed inside the tail lock deletes its node, gives its slot back and frees the lock |
| LinkedQueueCalls.PopAloneWithoutItem | custom-queue-latency/src/queues.cpp:234-242 | a pop that nothing interrupts and that finds no item fails when closed or stopped and is else back at its start |
| LinkedQueueCalls.PopAlone | custom-queue-latency/src/queues.cpp:234-262 | with an item to be had and the head lock free, it takes the oldest event, its node becomes the dummy and the old dummy is deleted, whatever the flags |
| LinkedQueueCalls.PushesAfterClose | custom-queue-latency/src/queues.cpp:217-222 | after `close` at most one more event is linked in any run, that of a push past its last check; a thread without such a push links nothing any more, so that all its pushes fail |
| LinkedQueueRuns.IsSharedQueue | custom-queue-latency/src/queues.cpp:184-266 | each step is a move that the dispatch pipeline allows its queue, or none, and each call makes one move and returns its result |
| GlobalLockQueue.EventQueue.constructor | custom-queue-latency/src/queues.cpp:62-64 | an empty open queue of the given capacity and strategy |
| GlobalLockQueue.EventQueue.PushSection | custom-queue-latency/src/queues.cpp:69-116 | one critical section of push, under either strategy and policy: open and not stopped it succeeds exactly with room, and without fails under `Drop` and waits under `Block`; closed or stopped as `PushAttempt` says; and it changes the queue only by appending |
| GlobalLockQueue.EventQueue.PopSection | custom-queue-latency/src/queues.cpp:118-142 | one critical section of pop, the same under both strategies: takes the oldest event, or fails on an empty queue that is closed or stopped, or waits |
| GlobalLockQueue.EventQueue.Close | custom-queue-latency/src/queues.cpp:144-149 | closes and changes nothing else |
| GlobalLockQueue.AlwaysFifo | custom-queue-latency/src/queues.cpp:69-142 | exactly the events pushed and not popped are inside, in order, at most the capacity |
| GlobalLockQueue.IsSharedQueue | custom-queue-latency/src/queues.cpp:69-149 | each section is a move that the dispatch pipeline allows its queue, or none, and a section that ends a call makes its move |
| GlobalLockQueue.PushOnOpen | custom-queue-latency/src/queues.cpp:77-115 | a push to an open queue, not stopped: with room, or unbounded, it appends its event and returns under either policy; without room it fails under `Drop` and waits under `Block`, changing nothing |
| GlobalLockQueue.PushOnStopped | custom-queue-latency/src/queues.cpp:79-107 | a push to an open queue once stopped: without room it fails or still waits; with room it appends, except for a blocking push under the condition variable |
| GlobalLockQueue.PushOnClosed | custom-queue-latency/src/queues.cpp:72-99 | a push to a closed queue fails and changes nothing, unless it is a spinning call that has waited and finds room |
| GlobalLockQueue.PopExactly | custom-queue-latency/src/queues.cpp:118-142 | a pop takes the oldest event if there is one, fails on an empty queue that is closed or whose caller is stopped, and waits otherwise |
| GlobalLockQueue.MaxDepthIsMaximum | custom-queue-latency/src/queues.cpp:111-112 | `max_observed_depth` is the maximum of the sizes after each push and at most the capacity |
| GlobalLockQueue.PopFailsExactlyWhenDrained | custom-queue-latency/src/queues.cpp:118-142 | a pop fails if and only if everything pushed has been popped and the queue is closed or the caller stopped |
| GlobalLockQueue.PushesAfterClose | custom-queue-latency/src/queues.cpp:89-100 | a push takes effect on a closed queue if and only if it is a spinning call that has waited and now finds room |
| GlobalLockQueue.SpinningPushOutlivesClose | custom-queue-latency/src/queues.cpp:89-100 | a run in which that happens |
| PipelineEvents.IdsTellTheIngress | custom-queue-latency/src/pipeline.cpp:262 | the id gives the thread number modulo 2^16, so it tells the thread if and only if that is below 2^16 |
| PipelineEvents.IdsCollideExactlyWhen | custom-queue-latency/src/pipeline.cpp:262 | two ids are equal if and only if the sequence numbers are and the threads agree modulo 2^16, as threads 0 and 2^16 do |
| IngressThreads.PushCounted | custom-queue-latency/src/pipeline.cpp:267-279 | a push keeps generated, accepted and dropped_ingress in step with the events made, pushed and refused and the threads still to count |
| IngressThreads.JoinedCounters | custom-queue-latency/src/pipeline.cpp:267-279 | once all ingress threads have ended, of the measured events generated counts those made, accepted those pushed, dropped_ingress those refused under `Drop`, and under either policy generated is accepted plus those refused |
| IngressThreads.PushNumbered | custom-queue-latency/src/pipeline.cpp:261-272 | events are pushed in the sequence order of each ingress thread |
| IngressThreads.GenerateMade | custom-queue-latency/src/pipeline.cpp:260-265 | the events that a thread has made are exactly its numbers 0, 1, 2 and so on, in this order, for any number of threads |
| SharedPipeline.AcceptedAreCompleted | custom-queue-latency/src/pipeline.cpp:209-298 | once main is done every event pushed has been popped and accepted == completed; generated is the number of measured events made, and accepted plus the number refused; dropped_ingress is that number under `Drop` |
| SharedPipeline.NoPushAfterClose | custom-queue-latency/src/pipeline.cpp:294-297 | once the queue is closed every ingress thread has ended |
| SharedPipeline.IngressMakesAll | custom-queue-latency/src/pipeline.cpp:238-279 | each ingress thread has made exactly its events 0, 1, 2 and so on; nothing else is pushed or refused; under `Block` nothing is refused before main raises the stop flag |
| SharedPipeline.PushEndsExactlyWhen | custom-queue-latency/src/pipeline.cpp:272-279 | a section of the queue lets an ingress thread wait exactly under `Block` on a full queue with the stop flag not seen; with room and the flag not seen the push succeeds |
| SharedPipeline.WorkerGoesOn | custom-queue-latency/src/pipeline.cpp:218-228 | a worker takes the oldest event if there is one, and ends exactly when it finds the queue empty and closed |
| SharedPipeline.NobodyIsStuck | custom-queue-latency/src/pipeline.cpp:209-298 | in every run every thread that has not ended can take its next step, apart from the joins of main |
| SharedPipeline.NoDeadlock | custom-queue-latency/src/pipeline.cpp:209-298 | until main is done some thread can take a step |
| DispatchPipeline.RunKeepsInv | custom-queue-latency/src/pipeline.cpp:339-452 | in every run each event is in one place, the rings keep their own invariants, and the counters agree with the histories up to the threads still to count |
| DispatchPipeline.EveryEventInOnePlace | custom-queue-latency/src/pipeline.cpp:339-387 | each event pushed is in exactly one place: dispatch queue, dispatcher's hand, the ring or hand of worker `id % workers`, completed there, or dropped at dispatch; all in order, and with at most 2^16 ingress threads none twice |
| DispatchPipeline.AcceptedAreAccountedFor | custom-queue-latency/src/pipeline.cpp:413-452 | after all joins accepted == completed + dropped_dispatch + leftover over measured events, and generated == accepted + refused under either policy; every worker ring is closed, and what it still holds was published after the tail load of the pop that ended its worker |
| DispatchPipeline.BlockLosesNothing | custom-queue-latency/src/pipeline.cpp:369-380 | under `Block` nothing is lost at dispatch at any time and both drop counters stay 0 |
| DispatchPipeline.WorkersSeeEachIngressInOrder | custom-queue-latency/src/pipeline.cpp:369-431 | with at most 2^16 ingress threads, what a worker pops of one of them comes in sequence order |
| DispatchPipeline.OneProducerOneConsumer | custom-queue-latency/src/pipeline.cpp:342-387 | only the dispatcher acts as producer of a ring, only its worker as consumer |
| RingThreads.WorkerEndsExactlyWhen | custom-queue-latency/src/pipeline.cpp:349-361 | a worker ends if and only if its pop finds the ring empty and then reads `closed` or the stop flag as true; the store of a pop gives it the oldest event |
| DispatchPipeline.IngressMakesAll | custom-queue-latency/src/pipeline.cpp:391-432 | each ingress thread has made exactly its events 0, 1, 2 and so on; nothing else is pushed or refused; under `Block` nothing is refused before main raises the stop flag |
| DispatchPipeline.DispatcherGoesOn | custom-queue-latency/src/pipeline.cpp:369-387 | the dispatcher takes the oldest event, pushes it to its ring, drops and counts it exactly under `Drop` on a full ring, and takes the next; it ends only once the dispatch queue is closed, and has then closed every ring |
| DispatchPipeline.NobodyIsStuck | custom-queue-latency/src/pipeline.cpp:339-452 | in every run every thread that has not ended can take its next step, apart from the joins of main and a dispatcher that waits for an event |
| DispatchPipeline.NoDeadlock | custom-queue-latency/src/pipeline.cpp:339-452 | until main is done some thread can take a step |
| Topology.OneProducer | custom-queue-latency/src/pipeline.cpp:91-117 | in an accepted configuration no worker ring has two producers |
| Topology.DirectNeedsEnoughWorkers | custom-queue-latency/src/pipeline.cpp:114-116 | the ingress threads are bound for different workers if and only if ingress_threads <= worker_threads |
| Topology.AcceptedExactlyWhen | custom-queue-latency/src/pipeline.cpp:91-117 | which configurations are accepted, for each of the three topologies |
| Topology.FirstFailureIsReported | custom-queue-latency/src/pipeline.cpp:91-117 | the exception is that of the first check, in the order of the source, that the configuration fails |
| DirectPipeline.BuiltExactlyWhen | custom-queue-latency/src/pipeline.cpp:109-116 | of the configurations that pass the other checks, exactly the accepted ones set the pipeline up in an initial state: a ring of the given capacity for each worker, and no two ingress threads bound for one |
| DirectPipeline.RunKeepsInv | custom-queue-latency/src/pipeline.cpp:488-592 | every ring keeps the ring invariant and holds only events of its own ingress thread, in sequence order, and the counters agree with the histories up to the threads still to count |
| DirectPipeline.WorkersSeeTheirIngressInOrder | custom-queue-latency/src/pipeline.cpp:535-573 | a worker gets the events of its own ingress thread only, each at most once, in sequence order |
| DirectPipeline.AcceptedAreAccountedFor | custom-queue-latency/src/pipeline.cpp:555-598 | after all joins accepted == completed + leftover over measured events, and generated == accepted + refused under either policy; every worker ring is closed, and what it still holds was published after the tail load of the pop that ended its worker |
| DirectPipeline.OneProducerOneConsumer | custom-queue-latency/src/pipeline.cpp:495-561 | in every run only the ingress thread bound for a ring acts as its producer, only its worker as its consumer |
| DirectPipeline.RingsStayFifo | custom-queue-latency/src/pipeline.cpp:535-573 | each ring stays first in, first out and within its capacity whatever the other threads do |
| DirectPipeline.IngressMakesAll | custom-queue-latency/src/pipeline.cpp:525-573 | each ingress thread has made exactly its events 0, 1, 2 and so on; nothing else is pushed or refused; under `Block` nothing is refused before main raises the stop flag |
| DirectPipeline.PushEndsExactlyWhen | custom-queue-latency/src/pipeline.cpp:560-567 | a push to a ring returns true once its event is published and reported, and false if and only if it reads `closed` or the stop flag as true or, under `Drop`, finds the ring full |
| DirectPipeline.NobodyIsStuck | custom-queue-latency/src/pipeline.cpp:488-592 | in every run every thread that has not ended can take its next step, apart from the joins of main; main's stop flag is that of all pushes, and the rings it has closed are closed |
| DirectPipeline.NoDeadlock | custom-queue-latency/src/pipeline.cpp:488-592 | until main is done some thread can take a step |

## Left out

- Key 0 and values or block ids outside 32 bits: key 0 marks an empty slot, so entries must have a non-zero key, and the file must have fewer than 2^31 blocks; both are preconditions.
- TreeIndex.SearchAfterRun: a stored value of -1 looks like a miss, in the source as in the model.
- BPlusTreeFile.BPlusTree.GetMetadata: the file must hold at least its header; what a stream gives for shorter files, failed opens and failed reads is not modelled.
- IndexFile.RangeSearchEntries: at an odd capacity, after a run that repeats a key more than (capacity + 1) / 2 times, the chain need not be in key order. What the walk reads is stated and that it ends, but the answer may be out of order and incomplete, and which entries are missing is not said in terms of the run.
- IndexFile.InsertEntries: a session that goes on inserting after a leaf has split with a count that is too low. The right half has then overwritten a block of the tree (`BPlusTreeFile.BPlusTree.InsertLeaf`), and what the session makes of such a file is not modelled; nor are trees that would need more than 2^31 - 1 - 2 * depth blocks there.
- Entries.SortEntries: an insertion sort stands for `std::sort`; its contract determines the result.
- Byte order and width of int: little-endian, four bytes.
- The printing of the tree, the command line, and the text of input and output lines.
- SpscRing, MpmcRing, LinkedQueue: values and steps instead of objects, because calls of several threads interleave; `SpscQueue` and `GlobalLockQueue` have the objects. Steps are sequentially consistent; weaker memory orders are not modelled.
- A raised stop flag may still read as down on the ingress side of SharedPipeline, and a `try_acquire` may fail without a reason; both only add runs. All pushes of a queue share one stop flag and all its pops another, as in the pipelines.
- The update of the maximum depth is one step, since a queue has only one thread at a time that writes it. The counters of attempts, spins, yields, parks, full and empty hits are not modelled.
- Liveness: that a blocked call ends, wake-ups of condition variables, and thread scheduling.
- Draining: for SpscRing, MpmcRing and LinkedQueue a pop reads "empty" before it reads "closed", so events may be left over, as `SpscCalls.FailedPopMayLeaveOne` shows; DispatchPipeline.AcceptedAreAccountedFor and DirectPipeline.AcceptedAreAccountedFor count them and say when they were published.
- SharedPipeline.AcceptedAreCompleted: for the queue behind one mutex only; nothing is claimed for the other shared queues, whose pops look for an event before they look for `close`.
- DispatchPipeline.EveryEventInOnePlace: the dispatch queue makes its moves as single steps; that the three queues make no others is proved for each queue on its own, and their steps are not interleaved with those of the pipeline.
- Event numbers stop at 2^48 for each ingress thread, beyond which ids would overlap. Beyond 2^16 ingress threads ids repeat, in the source as in the model; what does not depend on them is proved for any number of threads.
- Exceptions inside threads, clocks and rates, latencies, means and percentiles; when an event is measured is a fixed property of the event.
- The names and aliases of queues, strategies and topologies; the benchmark tools, the SQL experiments and the string-pool experiment.
