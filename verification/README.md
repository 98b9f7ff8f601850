# A Dafny model of OrioleDB's core algorithms

OrioleDB is a B-tree storage engine for PostgreSQL. This project models its most intricate
algorithms and protocols and proves what they are for.

- **Adaptive radix tree** (`RadixNode`, `RadixInsert`, `RadixRemove`, `RadixKey`, `RadixGraph`,
  `RadixSteps`, `RadixMemory`, `RadixUpdate`, `RadixTree`, `RadixIter`, `RadixRun`). Four node
  representations that grow and shrink, a height that adapts to the keys, deletion that frees chains of
  nodes, and an iterator with one cursor per level. Nodes live in an explicit store indexed by address.
  Every run refines a map, and an iteration after it lists that map in key order.
- **Search inside a page** (`PageSearch`). Binary search over chunk high keys, then over the items of one
  chunk, equals one flat search. Stepping back gives the downlink that covers the key.
- **Fast downlink search** (`FastPath`, `FastFind`, `FastKeys`, `FastAgree`). Column-by-column narrowing
  over arrays with ascending and descending columns, NULLs and infinities. The project states exactly which
  search keys it decides like the comparator of the slow path, for every page.
- **Lock-free reads** (`Seqlock`, `StateWord`). Writers that block reads, and a reader that validates the
  change count afterwards. A successful read is consistent exactly when the count did not come round. The
  64-bit state word is proved to stand for the page at every step, and its 32 count bits to come round after
  exactly 2^32 changes.
- **Page merge** (`Merge`, `MergeReads`, `MergeRouting`, `MergeLocks`). What every snapshot reads and how
  every key is routed stays the same. The locks are balanced, merges never wait for each other in a circle, and
  the loop that climbs the tree ends.
- **Descent under concurrent change** (`Descent`, `DescentEffects`, `DescentSearch`). A search carries page identities (block
  and change count) while other processes split, merge, evict and reload pages between any two of its steps,
  and accepts only a page of the right level that covers its target. In a tree at rest it always gets there.
- **Bottom-up index build** (`Build`, `BuildTree`, `BuildPages`, `BuildIndex`). A stack of open pages turns a
  sorted stream into a search tree, and every page of the tree is written as it is linked.
- **Extent check, row identifiers and cleanup** (`Extents`, `Ctid`, `Cleanup`). A tiling decision procedure,
  a shared counter with fetch-and-add and compare-and-swap, and the two-phase freeing of a tree.

`Common` holds what several of them share. `dafny verify dfyconfig.toml` checks the whole project.

## Where the code falls short of a property

**The build can lose its last pages.** The final flush takes its bound from the root level before it starts
(src/btree/build.c:345-346). If a downlink pushed by the flush splits the page of that level, the rest of the
page stays open and is never written. `BuildTree.FinishedHoldsInput` shows that the tree holds the input if and
only if every downlink the flush pushes finds room: `Build.NoRoom` is the test of src/btree/build.c:150-172, followed
from level to level up to the root level, and `BuildTree.FlushHasRoom` asks it of each push.
Under the same condition, and only then, the pages written are exactly the pages of the tree
(`BuildPages.FinishedLinked`). `BuildIndex.FiveTuplesLost` is a concrete input that fails: pages of two items and
five tuples.

**The fast downlink search and the slow comparator disagree on some bounds.** `FastAgree.PagesAgreeIff` gives the
exact condition. The two differ in these cases:

- an exclusive value whose following columns are not fenced to the same side
  (src/tableam/tree.c:619-620 decides at that column, src/btree/fastpath.c:266-270 goes on);
- an unbounded descending column (src/tableam/tree.c:759-760 ignores the direction, src/btree/fastpath.c:246-249
  mirrors it);
- columns beyond the `nUniqueFields` the fast search compares, which a unique secondary index has;
- columns the bound does not set, where the fast search fences off the whole run of rows
  (src/btree/fastpath.c:273-301) and the slow comparator reads whatever these columns hold (src/tableam/tree.c:752-763);
- a unique lower bound, which the slow comparator never reports as equal.

A bound whose first column is a fence after everything is harmless, because the fast search then never answers.
`FastAgree.ExclusiveUpperDisagrees` and `FastAgree.ShortKeyDisagrees` are concrete pages on which the two searches
choose different children.

**The change count of a page is 32 bits wide.** `Seqlock.ConsistentIff` shows that successful reads are consistent
in every run if and only if no read lasts for 2^32 changes of its page. `Seqlock.TornRead` is a run with exactly
2^32 changes in which a reader succeeds with values of two versions.

## Model

| member | source | states |
|---|---|---|
| `RadixNode.StoreSlot` | include/lib/o_radixtree.h:1842-1897 | writing a used child slot changes that chunk's entry of the map the node stands for and no other, in all four representations |
| `RadixInsert.Search` | include/lib/o_radixtree.h:1059-1167 | the slot found for a chunk is the one holding its entry, and none is found exactly when the chunk has no entry |
| `RadixInsert.InsertPos4` | include/lib/o_radixtree.h:1236-1250 | all chunks before the position are smaller and all from it on are not |
| `RadixInsert.InsertPos16` | include/lib/o_radixtree.h:1254-1324 | the same for node16, after first trying the end |
| `RadixInsert.ShiftForInsert` | include/lib/o_radixtree.h:1326-1343 | the array holds the old elements in order with the new one at its place |
| `RadixInsert.CopyForInsert` | include/lib/o_radixtree.h:1345-1364 | the copy holds the source's elements in order with the new one at its place |
| `RadixInsert.AddChild4` | include/lib/o_radixtree.h:1607-1625 | the node stands for its map with the new chunk added, and the returned slot is that chunk's |
| `RadixInsert.AddChild16` | include/lib/o_radixtree.h:1554-1571 | the same for node16 |
| `RadixInsert.AddChild48` | include/lib/o_radixtree.h:1429-1465 | the same for node48: the slot index is new and the bit is set |
| `RadixInsert.AddChild256` | include/lib/o_radixtree.h:1366-1380 | the same for node256, with a count that wraps at 256 |
| `RadixInsert.GrowNode4` | include/lib/o_radixtree.h:1573-1605 | a full node4 becomes a node16 for the same map with the new chunk |
| `RadixInsert.GrowNode16Lo` | include/lib/o_radixtree.h:1467-1504 | a full small node16 becomes a large one for the same map with the new chunk |
| `RadixInsert.GrowNode16Hi` | include/lib/o_radixtree.h:1505-1552 | a full large node16 becomes a node48 for the same map with the new chunk |
| `RadixInsert.GrowNode48` | include/lib/o_radixtree.h:1382-1427 | a full node48 becomes a node256 for the same map with the new chunk |
| `RadixInsert.NodeInsert` | include/lib/o_radixtree.h:1635-1669 | whichever representation results stands for the map with the new chunk, and the size class changes exactly when the node was full |
| `RadixRemove.ShiftAndDelete` | include/lib/o_radixtree.h:2382-2399 | the array holds the other elements in order |
| `RadixRemove.CopyAndDelete` | include/lib/o_radixtree.h:2401-2422 | the copy holds the other elements in order |
| `RadixRemove.RemoveChild4` | include/lib/o_radixtree.h:2627-2680 | a node4 with at least two entries stands for its map without the chunk |
| `RadixRemove.RemoveChild16` | include/lib/o_radixtree.h:2602-2625 | node16 without the chunk, shrunk to node4 exactly when at most four entries were left |
| `RadixRemove.RemoveChild48` | include/lib/o_radixtree.h:2544-2570 | node48 without the chunk, shrunk to node16 exactly at the threshold |
| `RadixRemove.RemoveChild256` | include/lib/o_radixtree.h:2477-2502 | node256 without the chunk, shrunk to node48 exactly at the threshold, although the stored count wraps |
| `RadixRemove.ShrinkNode16` | include/lib/o_radixtree.h:2577-2600 | the node4 stands for the map without the chunk |
| `RadixRemove.ShrinkNode48` | include/lib/o_radixtree.h:2508-2542 | the node16 stands for the same map, its chunks in order |
| `RadixRemove.ShrinkNode256` | include/lib/o_radixtree.h:2440-2475 | the node48 stands for the same map |
| `RadixRemove.NodeDelete` | include/lib/o_radixtree.h:2685-2713 | the resulting node stands for the map without the chunk and keeps every representation invariant |
| `RadixKey.FitsIff` | include/lib/o_radixtree.h:904-911 | a key fits under a level exactly when nothing of it is left above that level |
| `RadixKey.KeyLevelLeast` | include/lib/o_radixtree.h:887-899 | the level computed for a key is the least one it fits under |
| `RadixSteps.ExtendDownWf` | include/lib/o_radixtree.h:1710-1748 | hanging a one-chunk node in the reserved slot keeps the tree well formed, with the reserved slot one level lower |
| `RadixSteps.ExtendUpWf` | include/lib/o_radixtree.h:1675-1703 | a new root above a non-empty tree keeps it well formed |
| `RadixSteps.ExtendUpView` | include/lib/o_radixtree.h:1675-1703 | and changes no binding |
| `RadixSteps.FreeNodeWf` | include/lib/o_radixtree.h:2627-2680 | freeing a node with one entry clears its parent's slot and leaves a well-formed tree with that one hole |
| `RadixSteps.FreeNodeView` | include/lib/o_radixtree.h:2627-2680 | and loses exactly the bindings below that entry |
| `RadixMemory.ReplaceKeeps` | include/lib/o_radixtree.h:1382-1427 | replacing a node by another one at a new address and redirecting its parent's slot keeps store and tree in step, with nothing leaked |
| `RadixTree.FindIn` | include/lib/o_radixtree.h:1176-1225 | the value bound to the key in the map the tree stands for, or none |
| `RadixTree.GetSlot` | include/lib/o_radixtree.h:1757-1791 | the key's slot at level 0, found or newly reserved, with no binding changed |
| `RadixTree.ExtendUpTo` | include/lib/o_radixtree.h:1675-1703 | new roots until the key fits, with no binding changed |
| `RadixTree.SetIn` | include/lib/o_radixtree.h:1799-1903 | the map with the binding set; the result says whether the key was bound before |
| `RadixTree.RemoveChunk` | include/lib/o_radixtree.h:2602-2713 | removes a chunk of a node: in place, by shrinking, by emptying the root or by freeing the node |
| `RadixTree.DeleteRecursive` | include/lib/o_radixtree.h:2716-2753 | the map without the key, and either the slot still leads to the node or the node is gone and the slot is the one hole |
| `RadixTree.DeleteIn` | include/lib/o_radixtree.h:2761-2785 | the map without the key; the result says whether it was bound |
| `RadixTree.RadixTree.constructor` | include/lib/o_radixtree.h:1915-1996 | a new tree is valid and empty |
| `RadixTree.RadixTree.Find` | include/lib/o_radixtree.h:1176-1225 | exactly the map's value |
| `RadixTree.RadixTree.Set` | include/lib/o_radixtree.h:1799-1903 | updates the map, reports prior presence, and keeps the key count equal to the map's size |
| `RadixTree.RadixTree.Delete` | include/lib/o_radixtree.h:2761-2785 | removes from the map, reports prior presence, and keeps the key count equal to the map's size |
| `RadixRun.Run` | include/lib/o_radixtree.h:1176-2785 | any sequence of operations on a new tree gives the replies of a map and the map's size as key count |
| `RadixRun.RunAndScan` | include/lib/o_radixtree.h:2194-2367 | after any sequence of operations on a new tree an iteration lists the map's bindings, each once, keys strictly ascending |
| `RadixRun.EveryNodeOk` | include/lib/o_radixtree.h:1366-2680 | in every reachable tree each allocated node has sorted chunks, injective slot indexes matching the bits, a count matching the set bits modulo 256, and at least 4, 13 or 49 entries |
| `RadixRun.EmptyIff` | include/lib/o_radixtree.h:2627-2680 | a reachable tree has no keys exactly when its root is an empty node4 and its height is 0 |
| `RadixIter.NodeNext` | include/lib/o_radixtree.h:2222-2316 | the least used chunk the cursor has not passed, or none |
| `RadixIter.BeginIterate` | include/lib/o_radixtree.h:2194-2216 | a fresh iterator has passed no key |
| `RadixIter.IterateNext` | include/lib/o_radixtree.h:2322-2367 | the least binding not yet passed, which is then passed and no other; none exactly when all are passed; the cursors give the termination measure |
| `RadixIter.Scan` | include/lib/o_radixtree.h:2194-2367 | a whole iteration lists every binding once, keys strictly ascending |
| `PageSearch.SearchChunks` | src/btree/find.c:2024-2075 | the first chunk whose high key the key does not pass, or the last chunk |
| `PageSearch.SearchItems` | src/btree/find.c:2077-2151 | the items of the chunk before the position are exactly those the key is above, or on a non-leaf page not below; the keyless first item counts as passed |
| `PageSearch.TwoLevelsAreFlat` | src/btree/find.c:1987-2151 | chunk search and item search together split the whole page: everything before the flat offset is passed, nothing from it on |
| `PageSearch.SplitUnique` | src/btree/find.c:1987-2151 | only one flat offset does that |
| `PageSearch.Search` | src/btree/find.c:1987-2019 | on a leaf the first item the key is not above; on a non-leaf page the first one the key is below (not above, for a high key) after the keyless one; the last item for a high-key search on a leaf |
| `PageSearch.FillBackwards` | src/btree/page_chunks.c:385-401 | the locator found from the right stands for the given flat position |
| `PageSearch.Prev` | src/btree/page_chunks.c:428-447 | exactly one flat position back, over empty chunks, and failure exactly at the first item |
| `PageSearch.FindDownlink` | src/btree/find.c:152-174 | the first, the last, or the last passed item of a non-leaf page, for each kind of key |
| `PageSearch.ChosenUnique` | src/btree/find.c:152-174 | that choice is determined by page and key |
| `FastPath.CellOrder` | src/btree/fastpath.c:749-768 | numbers compare as numbers and item pointers by block, then offset, in the column's direction; NULLs come first or last as the column says |
| `FastPath.RowOrder` | src/tableam/tree.c:715-777 | a row comes before another exactly when it does in the first column in which they differ |
| `FastPath.ArraySearch` | src/btree/fastpath.c:582-613 | a sorted column range is split into the rows below, equal to and above the value, in storage order; with `DatumCmp` also for item pointers |
| `FastPath.NarrowColumn` | src/btree/fastpath.c:406-416 | one column narrows the range to the rows that match one column more |
| `FastPath.Narrow` | src/btree/fastpath.c:549-561 | the two results are the numbers of rows below the key and not above it, lexicographically over mixed ascending and descending columns with fences |
| `FastFind.FindChunk` | src/btree/fastpath.c:516-576 | the first high key not passed; no answer exactly when the format is not fixed or all are passed |
| `FastFind.FindItem` | src/btree/fastpath.c:371-418 | exactly the keyed items before the position are passed, without the keyless first item of chunk 0 |
| `FastFind.TakeDownlink` | src/btree/fastpath.c:428-503 | the downlink of the item before the position, in the previous chunk when there is none in this one |
| `FastFind.FindDownlinkFast` | src/btree/fastpath.c:341-514 | answers exactly when the formats allow it, with the located item's own downlink |
| `FastFind.FastIsSlow` | src/btree/fastpath.c:341-514 | on every page, an answer is the item the slow search stops at, if both comparisons agree on rows |
| `FastKeys.GetKeys` | src/btree/fastpath.c:223-303 | the decomposition of a bound into values and fences, with a fence for each column it does not set; refused exactly when a type differs; a bound that sets nothing leaves the columns as they were |
| `FastKeys.PrefixFence` | src/btree/fastpath.c:273-301 | columns a bound leaves out fence off the whole run of rows that share its prefix |
| `FastKeys.SlowMonotone` | src/tableam/tree.c:715-777 | the slow comparison of any bound respects the order of rows, NULLs included |
| `FastKeys.SlowKeyMonotone` | src/tableam/tree.c:715-777 | so every bound is a search key for which the slow search is right |
| `FastAgree.AgreesIff` | src/btree/fastpath.c:223-303 | fast and slow put every row on the same side if and only if a condition on the bound's columns holds, also for bounds that set fewer columns than either compares |
| `FastAgree.PagesAgreeIff` | src/btree/fastpath.c:341-514 | the fast search agrees with the slow one on every page if and only if that condition holds or the fast search can never answer |
| `FastAgree.TupleAgrees` | src/btree/fastpath.c:305-338 | tuple keys compared on all key columns always agree |
| `FastAgree.ExclusiveUpperDisagrees` | src/tableam/tree.c:619-620 | an exclusive upper bound on one ascending column makes them choose different children |
| `FastAgree.ShortKeyDisagrees` | src/btree/fastpath.c:106-119 | so does comparing fewer columns than the index orders by |
| `FastAgree.KeyColumns` | src/btree/fastpath.c:206-221 | no key and rightmost become fences in every column |
| `FastAgree.FindChild` | src/btree/find.c:100-174 | fast search with fall-back chooses the slow search's child, under the exact condition |
| `StateWord.FieldsFill` | include/btree/page_state.h:21-29 | the fields do not overlap and fill the lowest 56 bits |
| `StateWord.LockKeepsTheRest` | include/btree/page_state.h:35-37 | locking and blocking reads set their flags and leave count, waiters and usage count alone |
| `StateWord.UnlockCounts` | src/btree/page_state.c:1042-1061 | the stored count is one higher in its 32 bits exactly when reads had been blocked, else the same |
| `StateWord.UnlockFreesTheWord` | src/btree/page_state.c:1042-1061 | both flags are cleared, the waiter list is replaced and the usage count survives |
| `StateWord.EncodeSame` | include/btree/page_state.h:23-24 | two numbers of changes store the same count if and only if they agree modulo 2^32 |
| `StateWord.CountAfter` | src/btree/page_state.c:1050-1059 | after `k` changes the stored count is the first one plus `k`, the same again exactly when `k` is a multiple of 2^32 |
| `StateWord.WordKeeps` | src/btree/page_state.c:734-775 | each step of a writer on the word is its step on the page |
| `StateWord.WordRuns` | src/btree/page_state.c:734-1070 | after any steps of any writers the word has the page's flags and count |
| `StateWord.WordCheck` | src/btree/page_contents.c:149-150 | the reader's check on two words is the check of `Seqlock` on the page |
| `Seqlock.WriteKeeps` | src/btree/page_state.c:734-775 | while reads are allowed, the page holds the contents of its present count |
| `Seqlock.ReadKeeps` | src/btree/page_contents.c:89-185 | loads are from the noted version unless the page changed since or is being changed |
| `Seqlock.SuccessfulReadIsConsistent` | src/btree/fastpath.c:359-513 | in every run with any writers and fewer than 2^32 changes during the read, a read that succeeds loaded everything from the one version it first noted |
| `Seqlock.ValidatesIff` | include/btree/page_state.h:23-25 | the check passes exactly when reads are not blocked and the changes since the count was noted are a multiple of 2^32 |
| `Seqlock.TornRead` | src/btree/page_contents.c:89-185 | a run with 2^32 changes during a read that succeeds with loads from two versions |
| `Seqlock.ConsistentIff` | src/btree/fastpath.c:359-513 | successful reads are consistent in every run if and only if fewer than 2^32 changes happen during a read |
| `Merge.TakeItems` | src/btree/merge.c:648-705 | the tuples kept are exactly those that are not at once finished, deleted and older than the merge, in order |
| `Merge.DropsTuple` | src/btree/undo.c:1506-1527 | whether the merge would drop a tuple |
| `Merge.MergeLeaves` | src/btree/merge.c:154-212 | contents, high key, csn and undo location of the merged page, and which undo record is written or omitted |
| `MergeReads.WalkFindsFirstOlder` | src/btree/undo.c:1397-1405 | over the pages as they were written, the walk ends with the first one older than the snapshot, whole |
| `MergeReads.WalkVisits` | src/btree/page_contents.c:43-84 | every walk visits pages each of which is what its record says of the newer one, and stops at the first that is old enough or leads nowhere |
| `MergeReads.HalfRestored` | src/btree/undo.c:1151-1264 | either kind of merge record gives back the exact page before the merge, header and all |
| `MergeReads.WalkSame` | src/btree/page_contents.c:43-84 | a new record changes no older undo chain |
| `MergeReads.OldSnapshotsReadTheSamePage` | src/btree/page_contents.c:209-290 | snapshots not newer than the merge read exactly the page image they read before, for every kind of search |
| `MergeReads.ReadsPreserved` | src/btree/merge.c:135-212 | for every snapshot and key, the row read after the merge is the row read before it, with or without an undo image |
| `MergeReads.ScanPreserved` | src/btree/merge.c:648-705 | a snapshot that reads the merged page sees the rows of the left page, then those of the right |
| `MergeReads.MergeAndKeepReads` | src/btree/merge.c:52-253 | the merge as it runs keeps every row that a snapshot with retained history reads |
| `MergeRouting.MergeNodes` | src/btree/merge.c:672-742 | both pages' downlinks in order, the right page's first one keyed with the left high key; rightmost exactly when the right page was |
| `MergeRouting.PickWithout` | src/btree/merge.c:108-112 | without a downlink, its targets go to the left neighbour and nothing else changes |
| `MergeRouting.RoutingPreserved` | src/btree/merge.c:108-112 | for every target, the child reached through parent and page is the same before and after a non-leaf merge |
| `MergeRouting.MergeAndKeepRouting` | src/btree/merge.c:108-112 | the non-leaf merge as it runs routes every target to the child it had before |
| `MergeLocks.MergeRight` | src/btree/merge.c:405-466 | merges exactly when the right neighbour fits; all locks are given back, or parent and target are still held; a right neighbour in memory is locked together with both before anything is decided |
| `MergeLocks.MergeLeft` | src/btree/merge.c:467-539 | the same to the left, where the lock is only tried; repeats exactly when an input or output is to be awaited, gives up exactly when the lock is not free; otherwise all three pages are held together |
| `MergeLocks.Turn` | src/btree/merge.c:333-550 | one turn of the loop ends with nothing held, and merges or is repeated exactly under the stated conditions; a merge has a moment with parent, target and neighbour held |
| `MergeLocks.TryMergeAndUnlock` | src/btree/merge.c:258-572 | every path ends with no page locked and the undo reservation released; every blocking lock is below or right of all held pages; the turns taken are those up to the first that neither waits nor climbs, success means exactly that one of them merged, and each that merged held its parent and both pages at once |
| `MergeLocks.ClimbsBelowRoot` | src/btree/merge.c:404-404 | the merge never climbs to the root |
| `MergeLocks.LoopEnds` | src/btree/merge.c:333-565 | the loop takes at most one turn per level below the root and one per wait |
| `MergeLocks.WaiterHoldsEarlier` | src/btree/merge.c:312-331 | a merge that waits holds only pages before the one it wants |
| `MergeLocks.NoWaitingCycle` | src/btree/merge.c:490-506 | any number of merges, wherever each has got to, never wait in a circle |
| `Descent.NewTreeOk` | src/btree/btree.c:53-68 | a new tree, one root page and free blocks, is a world to start from |
| `Descent.SplitKeeps` | src/btree/split.c:436-512 | after a split both pages have their downlinks in key order between low key and high key, and rightlink and downlinks lead to pages of the right level with the low keys they stand for |
| `Descent.AddLinkKeeps` | src/btree/insert.c:130-185 | so after a finished split's downlink is added at its place among the others |
| `Descent.ClearRightKeeps` | src/btree/page_state.c:1256-1270 | and after its rightlink is cleared |
| `Descent.DropLinkKeeps` | src/btree/merge.c:108-112 | and after a merge drops a downlink |
| `Descent.AbsorbKeeps` | src/btree/merge.c:577-743 | and after the left page takes over the right one |
| `Descent.RetireKeeps` | src/btree/merge.c:225-239 | and after a page is retired by raising its change count |
| `Descent.GrowRootKeeps` | src/btree/insert.c:186-260 | and after the root is split |
| `Descent.StepKeeps` | src/btree/merge.c:52-253 | every step keeps the world in order: levels, key order, links; low keys and levels of page identities and retirements are for ever, and the tree never gets lower |
| `DescentEffects.SplitDoes` | src/btree/split.c:436-512 | the two pages of a split have the downlinks of the one before, the key between them and the rightlink; nothing else changes |
| `DescentEffects.AbsorbUndoesSplit` | src/btree/merge.c:577-743 | absorbing the new page of a split gives back the page before |
| `DescentEffects.DropLinkUndoesAddLink` | src/btree/merge.c:108-112 | dropping a downlink that was added gives back the world before |
| `DescentEffects.RetireDoes` | src/btree/merge.c:225-239 | a retired page is not live, its change count is higher and its block is free |
| `DescentEffects.GrowRootDoes` | src/btree/insert.c:186-260 | the root's contents move to a new page; the root, one level higher, leads to it and to the page it was split from |
| `DescentEffects.SplitCanFinish` | src/btree/insert.c:130-185 | after any split of a child its parent can take the new downlink right behind the child's, and both are then children that cover the old range |
| `DescentEffects.NeighboursCanMerge` | src/btree/merge.c:52-253 | any two neighbours can be merged: the left one then reaches to the right one's end, and the right block is free |
| `DescentEffects.LeafCanComeBack` | src/btree/io.c:1503-1722 | a leaf can be evicted and loaded again, unchanged, under a new identity |
| `DescentSearch.PickCovers` | src/btree/find.c:152-174 | on a page that covers the target, the downlink chosen is the one and only one whose range covers it |
| `DescentSearch.NextKeeps` | src/btree/find.c:1108-1234 | a search step keeps what the search carries: pages created with a fitting low key on a high enough level |
| `DescentSearch.OthersKeep` | src/btree/find.c:765-813 | so do the steps of other processes, also for an image already read |
| `DescentSearch.AcceptedPageCovers` | src/btree/find.c:1108-1234 | in every interleaving an accepted page has low key <= key < high key (low key < key <= high key for a high-key search, rightmost or leftmost as asked), and is on the level asked for if the tree was that high when the search began |
| `DescentSearch.ValidatedPageIsLive` | src/btree/find.c:765-813 | in every interleaving a page whose change count matches is the live page expected |
| `DescentSearch.RetiredNeverRead` | src/btree/merge.c:225-239 | in every interleaving, once a step has retired a page it is not live and never accepted through a stale downlink or rightlink |
| `DescentSearch.QuietSearchEnds` | src/btree/find.c:545-1105 | in a tree at rest the search for any target and level ends on a live page that covers it, on the level asked for if the tree is that high |
| `Build.Put` | src/btree/build.c:138-259 | putting an item on a level leaves all lower levels alone |
| `Build.PutHeight` | src/btree/build.c:138-259 | the root level rises by one exactly when the item, and each downlink pushed for it, finds no room up to the root level |
| `Build.PutSpells` | src/btree/build.c:64-259 | putting an item appends its tuples to what the open pages spell, whatever is split on the way |
| `Build.LeftOk` | src/btree/build.c:117-132 | the part kept on the left is in bounds, and its high key is the first key on the right |
| `Build.RightOk` | src/btree/build.c:86-115 | the part that stays open is in bounds, its first key cut off above the leaves |
| `Build.SplitKeeps` | src/btree/build.c:174-256 | the pushed downlink carries its page's low key and continues the level above |
| `Build.PutKeeps` | src/btree/build.c:138-259 | every open and written page stays in bounds: each high key is the next page's low key on that level |
| `BuildTree.FeedSpells` | src/btree/build.c:334-340 | after every tuple the open pages, from the root level down, spell exactly the input so far |
| `BuildTree.FeedKeeps` | src/btree/build.c:334-340 | for sorted input all open pages are in bounds after every tuple |
| `BuildTree.FlushSpells` | src/btree/build.c:345-364 | while flushing, the levels from the next one up still spell everything |
| `BuildTree.FlushKeeps` | src/btree/build.c:345-364 | and stay in bounds, the flushed level ending the tree |
| `BuildTree.RootKeptIff` | src/btree/build.c:345-364 | the flush leaves the root level alone if and only if each downlink it pushes finds room |
| `BuildTree.LostPage` | src/btree/build.c:345-366 | when the flush raises the root, the page left open on the old root level holds something |
| `BuildTree.FinishedHoldsInput` | src/btree/build.c:334-366 | the tree holds exactly the sorted input if and only if each downlink the flush pushes finds room |
| `BuildTree.TreeInBounds` | src/btree/build.c:345-392 | with the root kept the whole tree is a search tree |
| `BuildTree.RoutedToItsLeaf` | src/btree/build.c:345-392 | in such a tree every key is routed to the leaf that holds it |
| `BuildTree.PutCounts` | src/btree/build.c:233-235 | the leaf counter is the number of leaf pages written and of those linked from the open pages |
| `BuildTree.FinishedCounts` | src/btree/build.c:357-392 | with the root kept it is the number of leaf pages in the tree |
| `BuildPages.PutPages` | src/btree/build.c:138-259 | putting an item writes exactly the pages that become linked by it |
| `BuildPages.FeedLinked` | src/btree/build.c:334-340 | after every tuple exactly the pages linked from the open pages have been written |
| `BuildPages.FlushLinked` | src/btree/build.c:345-364 | so while flushing, from the next level up |
| `BuildPages.FinishedLinked` | src/btree/build.c:345-392 | every page of the finished tree was written as it is linked, and no other, the latter if and only if the flush left the root level alone |
| `BuildIndex.Builder.WritePage` | src/btree/build.c:233-235 | writing a page appends it and counts leaf pages |
| `BuildIndex.Builder.PutItem` | src/btree/build.c:138-259 | the recursive insertion into the stack computes `Build.Put` |
| `BuildIndex.Builder.FeedAll` | src/btree/build.c:334-340 | the loop over the sorted tuples |
| `BuildIndex.Builder.FlushAll` | src/btree/build.c:345-364 | the flush, with its bound fixed at the start |
| `BuildIndex.Builder.WriteIndex` | src/btree/build.c:293-392 | the whole build |
| `BuildIndex.BuildSorted` | src/btree/build.c:293-408 | the result over sorted input: contents, and the pages written being those of the tree, if and only if each downlink the flush pushes finds room, and then routing and leaf count |
| `BuildIndex.FiveTuplesLost` | src/btree/build.c:345-366 | with pages of two items, for any five ascending tuples a downlink of the flush finds no room, and not all of them are in the tree |
| `Extents.SortKeeps` | src/btree/check.c:472-473 | the sort permutes the extents into (offset, length) order |
| `Extents.GapBefore` | src/btree/check.c:504-525 | if the next extent begins beyond the tiling there is no tiling |
| `Extents.OverlapBusy` | src/btree/check.c:483-490 | if an extent begins inside it there is none either |
| `Extents.CheckSorted` | src/btree/check.c:475-528 | the walk over both sorted arrays decides the tiling |
| `Extents.CheckExtents` | src/btree/check.c:460-529 | true if and only if busy and free extents tile an interval from 0, each block exactly once |
| `Extents.CheckFile` | src/btree/check.c:157-176 | with the block counts compared, passes if and only if every block of the file lies in exactly one extent and nothing lies outside |
| `Ctid.LessMeans` | src/btree/btree.c:282-301 | identifiers that allocation uses are ordered like the counter values behind them |
| `Ctid.DecodeAscends` | src/btree/btree.c:266-280 | counter values decode to strictly ascending identifiers |
| `Ctid.AfterIsAbove` | src/btree/btree.c:282-301 | from the counter value an update asks for on, all identifiers are above the one it was given, whatever its offset |
| `Ctid.AfterIsLeast` | src/btree/btree.c:282-301 | and no smaller value would do |
| `Ctid.NextKeeps` | src/btree/btree.c:282-301 | each atomic step keeps the counter above all identifiers handed out and above every finished update |
| `Ctid.AllocatedAscend` | src/btree/btree.c:266-280 | in every interleaving identifiers are handed out in ascending order, so none twice |
| `Ctid.UpdatedStaysAbove` | src/btree/btree.c:282-301 | in every interleaving nothing handed out after an update for `c` returned is at or below `c` |
| `Ctid.CanAllocate` | src/btree/btree.c:266-280 | any number of identifiers can be handed out, one for each counter value from the first on |
| `Ctid.EveryCallCounted` | src/btree/btree.c:266-301 | every allocation hands out one identifier; every read of an update finishes it, waits for its swap, or led to a swap that failed because the counter had moved |
| `Ctid.CounterTight` | src/btree/btree.c:266-301 | in every interleaving the counter is where it began, right behind the last identifier, or where an update asked for |
| `Ctid.BridgeDistinct` | src/btree/btree.c:303-323 | bridge identifiers without overflow are pairwise distinct |
| `Ctid.BridgeWraps` | src/btree/btree.c:303-323 | the first identifier with the overflow flag is the first one that repeats |
| `Cleanup.MarkPage` | src/btree/btree.c:128-159 | the first walk marks exactly the pages reached through links that are not stale |
| `Cleanup.FreePage` | src/btree/btree.c:161-193 | the second walk frees exactly these, each once and children first, every one of them marked and with the expected change count |
| `Cleanup.TreePages.CleanupPages` | src/btree/btree.c:238-251 | marking comes before all freeing |
| `Cleanup.MarkedIs` | src/btree/btree.c:148-151 | marking changes nothing but marks |
| `Cleanup.FreedIs` | src/btree/btree.c:186-192 | freeing raises the count of each listed block once and leaves all others alone |
| `Cleanup.UnfreedPathStays` | src/btree/btree.c:225-236 | at every moment of the second walk, a page not yet freed still has its whole path from the root |

## Left out

- Byte layout of pages, item alignment, partial loading of chunks and compression: a page is a sequence of chunks or of items. That a chunk's size differs from the fixed layout is part of `keysFixed` and `hikeysFixed` being false.
- Update in place of radix nodes: a node is a value with fixed-length sequences for its arrays and bitmaps, held in an explicit store from addresses to nodes. Allocation, freeing and redirection of parent slots are visible; aliasing of C pointers is not.
- Radix tree details: SIMD branches, shared memory and DSA, variable-length and embedded values, memory contexts and debug output. The nested word and bit loop over a bitmap is one loop. A reserved slot holds nothing until its value is stored.
- Float columns of the fast search, whose comparisons are not a total order with NaN; INCLUDE columns, exclusion operators and type coercion of bounds.
- FastAgree.PagesAgreeIff: does not cover a bound that sets no column on an index with compared columns, because the source then searches with key columns nobody has set. Columns a bound does not set are read by the slow comparator all the same, so what they hold is an input.
- Use of the chunk search on leaf pages, which adds no new reasoning.
- Memory ordering weaker than sequential consistency: barriers are taken to order the loads and stores as written.
- Seqlock.SuccessfulReadIsConsistent: assumes fewer than 2^32 changes of the page during one read, because the stored count wraps; `Seqlock.ConsistentIff` shows that this is needed.
- Visibility of a single tuple: `vis` is any function that hides a deletion finished for everybody from newer snapshots. Row-level undo, transaction status and checkpointing are not modelled. That history an active snapshot needs is retained is an assumption, `MergeReads.RetainsNeeded`.
- Changes of tuples after a merge: the reads are compared right after it.
- Merges that need no undo, whether two pages fit into one, and when a page is too sparse.
- MergeLocks.TryMergeAndUnlock: does not show that each I/O waited for comes to an end; what each turn meets is an input, and `MergeLocks.LoopEnds` bounds the turns that do not wait.
- DescentSearch.NextKeeps: does not model giving up after a failed try-lock, nor a root page that is evicted and loaded again.
- `lock_page_with_tuple`, group inserts and fixing of broken splits: they are steps of other processes.
- BuildIndex.BuildSorted: input keys are strictly ascending, because primary keys are unique and every other index appends the primary key to its columns (src/catalog/o_indices.c:586).
- Build.Put: assumes that an empty page takes any item and that a split leaves something left and puts the new item right. With a fillfactor so low that one tuple exceeds it, the source would split an empty page. The depth limit of the stack is not modelled, and pages on disk are values.
- Extents.CheckExtents: assumes positive lengths; the sort routine is an insertion sort on values, and growing the arrays is not modelled.
- 64-bit wrap-around of the identifier counters.
- Cleanup.FreePage: does not model concurrent eviction during the walks or waiting for I/O; blocks are in a tree, so no block is reached twice.
- GUC registration, shared-memory setup, catalog caches, WAL, recovery, rewind, S3 and the tooling around the engine.
