# BaudStorage, verified core

BaudStorage is a replicated file store. Clients find the meta partition of an inode by its id range,
meta nodes keep inodes and dentries in copy-on-write B-trees driven by a raft log, data nodes keep
extents and packed tiny objects, and the master hands out id ranges and picks nodes. This project
models the parts where correctness rests on an argument rather than on a single function, and proves
that argument for all inputs, all runs and all interleavings.

What is proved, component by component:

* **Copy-on-write B-tree** (`Orders`, `BTreeModel`, `BTreeRemoval`, `BTreeMap`, `BTreeIteration`,
  `BTreeHeap`, `BTreeHeapRemoval`, `BTreeHeapReset`, `BTreeHeapTree`, `BTreeClones`). The algorithm is
  given on values and shown to be an ordered map for every degree of at least 2; the code that
  rewrites nodes in place, with ownership contexts and free lists, is shown to compute it. From that
  follow clone isolation under every schedule, persistence for readers across insertions, exactly when
  a deletion disturbs them, and that no node on a free list is reachable.
* **Meta partition** (`StreamKeys`, `MetaFsm`, `MetaRecovery`, `MetaReplay`, `MetaCheckpoint`,
  `MetaCodec`, `MetaSnapshot`). `Apply` as a fold over the log, recovery from a checkpoint whose keys
  are of different moments, the checkpoint scheduler with failures, crashes and replay as separate
  steps, the codecs, and the snapshot transfer.
* **Tiny objects** (`BigEndian`, `TinyIndex`, `TinyCompaction`, `TinyStore`, `TinyRuns`). Index log
  against tree, compaction in batches with deletes at any point, and whole runs of writes, deletes and
  repeated compactions.
* **Extents** (`ExtentBlocks`, `ExtentRepair`, `ExtentRounds`). Stored block checksums against
  recomputation, what a write leaves to be read, and repair by all members at the same time.
* **Inode ranges** (`InodeRanges`, `RangeLookup`). Master, meta node and client together: who owns an
  inode id, and that the client finds the owner.
* **Chain replication** (`ChainAck`). Routing, one answer per request in order, what an OK at the
  head means, and that a run without failures ends with one for every request.
* **Two allocators** (`FuseTable`, `CarryScheduler`). FUSE node and handle ids, and the carry-based
  choice of meta nodes.

How it is modelled: objects that the Go code updates in place are classes whose methods are proved
against a function of the old state; protocols are state machines whose events include every failure
the code handles; clocks, random picks, checksums and the outcome of I/O are parameters.

Where the code does not do what one would expect, the model follows the code. Such places have a
lemma with the failing family and the exact condition for all inputs:

* One failed dump after entries were replayed before the scheduler started truncates the raft log past
  the durable index, and a crash then loses entries (`RashLosesEntry`, `CoveredExactly`,
  `RestartExactly`).
* The checkpoint scheduler stalls until the next restart when a ready event finds only stale
  messages (`WedgesExactly`, `WedgedForever`, `WedgeReachable`).
* Recovery is wrong exactly for an append before the create, or an open before it with none after;
  replayed appends are counted again in Generation (`RecoversExactlyWhenSafe`, `InodeRecovers`).
* Once a deleted id is written again, some later compaction can bring a deleted object back, unless
  the file is full (`WriteSafeExactly`, `SafeExactly`, `BuriedGoesWrong`).
* A deletion empties a node that a reader of the old root still reaches exactly when it merges a
  sibling that the tree owns (`HeapTree.DeleteItem`, `DeleteUnderReader`).
* The inode codec drops an extent list whose sizes add up to zero (`InodeRoundTripExactly`).
* A short rewrite from a block start, or a hole from the middle of a block up to another one, leaves a
  wrong checksum (`WriteKeepsExactly`, `WrongSlot`).
* Repair tasks for missing extents name the leader by an address without a port, so that one round
  leaves them empty and the second fills them (`OneRoundIsEnoughExactly`, `TwoRoundsInAnyOrder`).
* A split disowns ids when its end is below the cursor: on a report when more than 2^24 were handed out
  since (`SplitOwnsExactly`), by hand without any margin (`SplitDisownsExactly`,
  `ManualSplitDisowns`). A manual split to an end before the start breaks the tiling
  (`UpdateEndTiles`, `ManualSplitBreaksTiling`).
* Two overlapping releases of one handle can take the handle of a newer file
  (`HandlesKeptExactly`, `RaceLosesHandle`).
* With a threshold above 1 the top-up loop of the node choice can run forever (`LoopEndsExactly`,
  `LoopCanRunForever`).
* A packet for 256 or more replicas skips some (`RouteVisitsAll`).
* readDir of parent 2^64-1 lists nothing (`ReadDirListsOneDirectory`).

## Model

| member | source | states |
|---|---|---|
| `Orders.FindIsSlot` | util/btree/btree.go:187-197 | the slot that the binary search returns has everything before it below the key and everything after it above, and says "found" exactly for an equal item |
| `Orders.SlotUnique` | util/btree/btree.go:187-197 | in a sorted list that slot is the only one with this property |
| `Orders.FlatInsertSorted` | util/btree/btree.go:671-696 | the reference list stays strictly sorted, hands back what a lookup would have found, and grows exactly when nothing was found |
| `Orders.FlatRemoveSorted` | util/btree/btree.go:700-734 | the reference list stays strictly sorted and shrinks exactly when an item is handed back |
| `Orders.RemovedIs` | util/btree/btree.go:700-734 | what a removal takes out is the item found under the key, the least or the greatest, and nothing only where there is none |
| `Orders.GetAfterInsert` | util/btree/btree.go:671-696 | map law: after an insert its own key finds the new item, every other key what it found before |
| `Orders.GetAfterRemove` | util/btree/btree.go:700-734 | map law: after a removal the removed key finds nothing, every other key what it found before |
| `Orders.GetByMember` | util/btree/btree.go:333-341 | a stored item is found under its key, at its own position |
| `Orders.GetNone` | util/btree/btree.go:333-341 | nothing is found if and only if no stored item is equal |
| `BTreeModel.GetRefines` | util/btree/btree.go:333-341 | descending through a sorted balanced tree of any degree finds what a search of the in-order sequence finds |
| `BTreeModel.SplitFlatten` | util/btree/btree.go:277-288 | left half, middle item, right half spell the old in-order sequence |
| `BTreeModel.SplitBalanced` | util/btree/btree.go:277-288 | splitting a full node gives two legal nodes of degree-1 items at the same height |
| `BTreeModel.SplitChildFlatten` | util/btree/btree.go:291-301 | splitting a child moves nothing in the in-order sequence |
| `BTreeModel.SplitChildBalanced` | util/btree/btree.go:291-301 | splitting a full child keeps equal leaf depth and all size bounds, and both halves then have room |
| `BTreeModel.InsertBalanced` | util/btree/btree.go:305-330 | inserting into a node with room keeps leaf depth and the bounds degree-1 to 2*degree-1 everywhere below |
| `BTreeModel.InsertRefines` | util/btree/btree.go:305-330 | tree insertion is insertion into the in-order sequence, with the same replaced item |
| `BTreeRemoval.GrowFlatten` | util/btree/btree.go:448-483 | stealing left, stealing right and merging each keep the in-order sequence |
| `BTreeRemoval.GrowBalanced` | util/btree/btree.go:448-483 | each of the three keeps equal leaf depth and the bounds of every node |
| `BTreeRemoval.GrowTarget` | util/btree/btree.go:448-483 | after growing, the retried removal has the same target (one less when the last child was merged away) and that child now has room: the retry cannot repeat |
| `BTreeRemoval.Remove` | util/btree/btree.go:381-446 | the grow-then-retry recursion terminates, and removing a minimum or maximum always hands back an item |
| `BTreeRemoval.RemoveBalanced` | util/btree/btree.go:381-483 | removal keeps leaf depth and all bounds; a node loses an item of its own only through one merge |
| `BTreeRemoval.RemoveRefines` | util/btree/btree.go:381-483 | tree removal (item, minimum, maximum) is removal from the in-order sequence, with the same removed item |
| `BTreeMap.RoomyRootOk` | util/btree/btree.go:682-688 | splitting a full root under a new one gives a legal root with room and the same sequence |
| `BTreeMap.ReplaceOrInsertRefines` | util/btree/btree.go:671-696 | the whole tree stays valid (sorted, balanced, counted) and its contents and result are those of the flat insert |
| `BTreeMap.DeleteItemRefines` | util/btree/btree.go:716-734 | the same for Delete, DeleteMin and DeleteMax, with the empty tree and the shrinking root |
| `BTreeMap.RunRefines` | util/btree/btree.go:671-734 | every run of operations from every valid tree gives the contents and results of the flat list |
| `BTreeMap.EveryRunIsAnOrderedMap` | util/btree/btree.go:127-138 | for every degree of at least 2 and every run from New: items strictly sorted, leaves at one depth, nodes within bounds, length equal to the item count, all results those of the map |
| `BTreeMap.LookupIsMapLookup` | util/btree/btree.go:810-835 | Get on any valid tree, empty or not, is lookup in its contents |
| `BTreeIteration.IterateAscend` | util/btree/btree.go:499-528 | the recursive ascending walk with its start, stop, includeStart, hit flag and early stop does to the callback what a walk of the flat sequence does |
| `BTreeIteration.IterateDescend` | util/btree/btree.go:529-556 | the same for the descending walk |
| `BTreeIteration.AscendIsFilter` | util/btree/btree.go:738-770 | the callback is given exactly the items in [start, stop), in order, up to its first no |
| `BTreeIteration.DescendIsFilter` | util/btree/btree.go:774-806 | the callback is given exactly the items in (stop, start], in falling order, up to its first no |
| `BTreeIteration.DeliverPrefix` | util/btree/btree.go:499-556 | "up to its first no" means the longest prefix on which it said yes, plus the item it refused |
| `BTreeIteration.FloorOf` | util/btree/btree.go:783-788 | DescendLessOrEqual stopped at once delivers the greatest item not above the pivot, and nothing exactly when all are above |
| `BTreeHeap.NewNode` | util/btree/btree.go:633-638 | the last listed node, or a new one exactly when the list is empty; blank, owned by the context, off the list, and every other listed node is untouched |
| `BTreeHeap.FreeNode` | util/btree/btree.go:650-664 | only a node owned by the context is blanked and listed; a foreign node and its list stay as they are |
| `BTreeHeap.MutableFor` | util/btree/btree.go:250-266 | the copy is a different node, always, and nothing but the free list and the copy is written |
| `BTreeHeap.MutableChild` | util/btree/btree.go:268-272 | the parent gets the copy in place of the child; the child itself is not written |
| `BTreeHeap.Split` | util/btree/btree.go:277-288 | both halves are private nodes holding the two halves of the old subtree |
| `BTreeHeap.SplitChildAt` | util/btree/btree.go:291-301 | a child that may be shared is copied before it is split, and the result is the split of the abstract tree |
| `BTreeHeap.FindSlot` | util/btree/btree.go:187-197 | the binary search loop computes the slot |
| `BTreeHeap.InsertNode` | util/btree/btree.go:305-330 | node.insert in place computes the tree insertion, writing only the node, listed nodes and new nodes |
| `BTreeHeapRemoval.RotateRight` | util/btree/btree.go:453-458 | the three writes of a steal from the left leave donor and taker as private nodes with the moved item and subtree |
| `BTreeHeapRemoval.RotateLeft` | util/btree/btree.go:463-468 | the same for a steal from the right |
| `BTreeHeapRemoval.StealLeftAt` | util/btree/btree.go:449-458 | stealing from the left on the heap is stealing on the abstract tree; siblings and all live nodes stay as they were |
| `BTreeHeapRemoval.StealRightAt` | util/btree/btree.go:459-468 | stealing from the right on the heap is stealing on the abstract tree; siblings and all live nodes stay as they were |
| `BTreeHeapRemoval.MergeAt` | util/btree/btree.go:469-481 | the merged tree is right and no longer contains the node that is given back, even though its subtrees are kept |
| `BTreeHeapRemoval.Avoids` | util/btree/btree.go:469-481 | in a sorted tree a node whose item occurs elsewhere cannot be part of a subtree: freeing it is safe |
| `BTreeHeapRemoval.RemoveNode` | util/btree/btree.go:381-446 | node.remove in place computes the tree removal; of the live nodes it writes only merged ones owned by the same context |
| `BTreeHeapRemoval.GrowChildAndRemove` | util/btree/btree.go:448-483 | growing the child and retrying computes the same removal as growing and retrying on values |
| `BTreeHeapReset.Reset` | util/btree/btree.go:867-874 | reset writes only owned nodes of its own subtree, each once, and ends with the list full or with every owned node on it |
| `BTreeHeapTree.HeapTree.constructor` | util/btree/btree.go:127-138 | a new tree is empty and valid |
| `BTreeHeapTree.HeapTree.ReplaceOrInsert` | util/btree/btree.go:671-696 | the heap tree steps as the map does, and no node that was live before is written |
| `BTreeHeapTree.HeapTree.InsertAll` | util/btree/btree.go:250-330 | a reader that took the root before any number of insertions still reaches unchanged nodes that stand for the tree it took |
| `BTreeHeapTree.HeapTree.DeleteItem` | util/btree/btree.go:716-734 | the heap tree steps as the map does; of the live nodes exactly the merged siblings that the tree owns are emptied, each once, and are blank afterwards unless this call has put them to use again; all others keep items, children and owner; with a free list of capacity 0 whoever took the root before finds every node as it was if and only if there is no such sibling |
| `BTreeHeapTree.HeapTree.MergedReachable` | util/btree/btree.go:448-484 | the merged siblings are among the nodes that a reader of the root reaches |
| `BTreeHeapRemoval.MergedHeld` | util/btree/btree.go:448-484 | the nodes that a removal merges, computed from the tree before it, are nodes of that tree |
| `BTreeHeapTree.DeleteUnderReader` | util/btree/btree.go:448-484 | a concrete deletion after which the root taken before leads to a leaf without items |
| `BTreeHeapTree.HeapTree.Clone` | util/btree/btree.go:609-620 | both trees have the old contents and new contexts that own no node |
| `BTreeHeapTree.HeapTree.Clear` | util/btree/btree.go:857-862 | the tree is empty; with addNodes the free list is full or holds every node the tree owned |
| `BTreeHeapTree.InsertAtRoot` | util/btree/btree.go:671-696 | a full root is split under a new one before the insertion, all on copies |
| `BTreeHeapTree.RemoveAtRoot` | util/btree/btree.go:716-734 | a root left without items gives way to its child and is freed |
| `BTreeClones.Recontext` | util/btree/btree.go:609-620 | after a new context, no tree of the world owns a node it shares |
| `BTreeClones.WorldStep` | util/btree/btree.go:650-663 | a step of one tree leaves all other trees with their contents, and no listed node is reachable from any tree |
| `BTreeClones.ForkTree` | util/btree/btree.go:609-620 | cloning adds a tree with the same contents and keeps the world sound |
| `BTreeClones.DoAct` | util/btree/btree.go:609-734 | any one call on any tree does to the contents of all trees what it does to separate lists |
| `BTreeClones.RunActs` | util/btree/btree.go:609-874 | clone isolation: after every schedule of Clone, insert, delete, Clear and New on shared free lists, every tree has the contents its own separate list would have, every result included, and no listed node is reachable |
| `StreamKeys.StreamKey.Put` | proto/stream_key.go:44-73 | the loop with its last-key shortcut computes the merge |
| `StreamKeys.PutAllIsMaxMerge` | proto/stream_key.go:44-73 | after any puts: pairs distinct, in order of first appearance, each size the largest ever put for its pair |
| `StreamKeys.FirstCrcKept` | proto/stream_key.go:44-73 | after any puts the checksum of a pair is the one of its first key |
| `StreamKeys.PutAllGrows` | proto/stream_key.go:44-83 | the total size never decreases, from any list |
| `StreamKeys.StreamKey.Size` | proto/stream_key.go:76-83 | the 64-bit sum of the sizes, wrap-around included |
| `StreamKeys.SizeDoesNotWrap` | proto/stream_key.go:76-83 | with 32-bit sizes and at most 2^32 extents the 64-bit sum is the true sum |
| `StreamKeys.SumConcat` | proto/stream_key.go:76-83 | the true size of a list is the sum over its parts, down to single extents |
| `StreamKeys.PutAgain` | metanode/kernel_inode.go:217-221 | putting anything already seen, in any order and number, changes nothing |
| `MetaFsm.MetaPartition.Apply` | metanode/partition_fsm.go:18-84 | every command moves the whole state, and answers, as the step function says; the apply index is taken over also on failure |
| `MetaFsm.InodeAnswers` | metanode/partition_fsmop_inode.go:20-90 | a create is answered ok exactly if the id was free and leaves the new inode or the old one; delete, open and append exactly if it was there; nothing but this inode changes, and the cursor only by a create |
| `MetaFsm.DentryAnswers` | metanode/partition_fsmop_dentry.go:20-57 | the same for create and delete of a dentry |
| `MetaFsm.OneWins` | metanode/partition_fsmop_dentry.go:20-57 | in every log two creates of one name are both answered ok only with a delete answered ok between them |
| `MetaFsm.EndIsLastStored` | metanode/partition_fsmop.go:59-71 | over every log the end is that of the last update that was stored, and an update is answered ok exactly if it was |
| `MetaFsm.MetaPartition.Append` | metanode/partition_fsmop_inode.go:73-90 | the loop over the extents appends each through the merge and touches no other inode |
| `MetaFsm.MetaPartition.LoadInodes` | metanode/partition_store.go:62-105 | loading a file is running its creates, cursor included |
| `MetaFsm.FramesRebuild` | metanode/partition_store.go:62-105 | the frames of a stored table rebuild that table and put the cursor at its largest id |
| `MetaFsm.CursorStaysAhead` | metanode/partition_fsm.go:18-84 | over every log the cursor stays at or above every inode id and never goes back |
| `MetaFsm.InodeRunsAlone` | metanode/partition_fsmop_inode.go:20-90 | each inode evolves by its own log entries only |
| `MetaFsm.DentryRunsAlone` | metanode/partition_fsmop_dentry.go:20-57 | each dentry evolves by its own log entries only |
| `MetaRecovery.DentryRecovers` | metanode/partition_fsmop_dentry.go:20-57 | replaying all entries over any intermediate version gives the final dentry, unconditionally |
| `MetaRecovery.InodeRecovers` | metanode/partition_fsmop_inode.go:20-90 | replay over any intermediate version gives the final inode in every field but Generation, and says by how much Generation is too high |
| `MetaRecovery.CreatedRecovers` | metanode/partition_fsmop_inode.go:20-90 | the case of an inode created after the stored index and already in the file |
| `MetaRecovery.UnsafeFails` | metanode/partition_fsmop.go:44-53 | every pattern with an append before the create, or an open before it and none after, goes wrong for some values |
| `MetaRecovery.RecoversExactlyWhenSafe` | metanode/partition_fsmop_inode.go:20-90 | replay is right for all values and versions if and only if the pattern of later entries is safe |
| `MetaRecovery.PartitionRecovers` | metanode/partition.go:329-354 | crash recovery of a partition from a fuzzy checkpoint, every key as of its own moment: all dentries right, all inodes right but for Generation when the log is safe |
| `MetaRecovery.NoStrayIsSafe` | metanode/partition_fsm.go:18-84 | a log in which no open or append was answered not-exist is safe |
| `MetaCheckpoint.OrderedStep` | metanode/partition_store_ticket.go:19-96 | every event keeps durable index <= scheduler index <= applied index <= log end, the durable and the truncated index never go back, and a dump starts only when none runs |
| `MetaCheckpoint.DumpStores` | metanode/partition_store_ticket.go:40-96 | with messages pending, the last one newer than the scheduler index can be dumped; it becomes the durable index, the other messages are dropped, and the raft log is cut there |
| `MetaCheckpoint.TickStoresAll` | metanode/partition_store_ticket.go:19-96 | from an idle scheduler one tick is enough to make the whole log durable, with the state in memory in the files |
| `MetaCheckpoint.FailRequeues` | metanode/partition_store_ticket.go:27-39 | a failed dump puts its message back into the queue and loses none |
| `MetaCheckpoint.AheadExactly` | metanode/partition.go:207-221 | the scheduler index is ahead of the durable one exactly from a start after replayed entries until the first dump that succeeds |
| `MetaCheckpoint.TruncatesExactly` | metanode/partition_store_ticket.go:27-39 | truncation passes the durable index exactly when a dump fails while the scheduler index is ahead of it |
| `MetaCheckpoint.CoveredExactly` | metanode/partition_store_ticket.go:19-96 | for every run, truncation never outruns durability if and only if no dump fails between a late start and the next dump that succeeds |
| `MetaCheckpoint.PromptIsNotRash` | metanode/partition.go:207-221 | a scheduler that starts before any entry is replayed is safe whatever fails |
| `MetaCheckpoint.NoFailIsNotRash` | metanode/partition_store_ticket.go:19-96 | and so is a run in which no dump fails |
| `MetaCheckpoint.RashLosesEntry` | metanode/partition_store_ticket.go:27-39 | the failing run: an entry replayed before the scheduler starts, one failed dump, a crash, and a committed dentry can never be replayed again |
| `MetaCheckpoint.LostNeverCatchesUp` | metanode/partition.go:207-221 | once the log is cut above the applied index, no run catches up |
| `MetaCheckpoint.RestartExactly` | metanode/partition.go:207-221 | after a crash at any moment of any run the partition can catch up if and only if truncation has not outrun durability |
| `MetaCheckpoint.HistStep` | metanode/partition_store.go:243-306 | every event keeps the record of what memory held since the load, entry by entry |
| `MetaCheckpoint.SavedInodes` | metanode/partition_store.go:243-306 | whatever moments an inode dump takes its keys from, it recovers from every index between the load and its message, on a clean log |
| `MetaCheckpoint.SavedDentries` | metanode/partition_store.go:243-306 | the same for a dentry dump, on any log |
| `MetaReplay.RecoveringAgain` | metanode/partition_fsmop_inode.go:20-90 | a value saved in the middle of a replay is as good for the next replay as the one the replay started from |
| `MetaReplay.SavedWhileReplaying` | metanode/partition_fsmop_dentry.go:20-57 | a dump during replay can save a dentry that no prefix of the log has, and the next replay is still right |
| `MetaReplay.CaughtUp` | metanode/partition.go:329-341 | files that recover give the committed state once everything is replayed |
| `MetaCheckpoint.EveryRunIsDurable` | metanode/partition_store_ticket.go:19-96 | over every run with store failures, retries, crashes at any point and dumps also while the log is replayed: each file, with keys taken at different moments from memory, recovers from the durable index, and no index goes back |
| `MetaCheckpoint.MemoryIsCommitted` | metanode/partition.go:329-341 | once caught up, memory is the committed state: dentries always, inodes but for Generation on a clean log |
| `MetaCheckpoint.RestartRecovers` | metanode/partition.go:207-221 | from the start, in every run without such a failure, a crash at any moment is survived: the partition can catch up, and every way to do so ends in the committed state |
| `MetaCheckpoint.CursorAlwaysCovers` | metanode/partition.go:329-354 | in every run with crashes the cursor stays at or above every inode id in memory |
| `MetaCheckpoint.WedgesExactly` | metanode/partition_store_ticket.go:19-96 | the scheduler stalls for good exactly when a ready event finds only stale messages |
| `MetaCheckpoint.WedgedForever` | metanode/partition_store_ticket.go:19-96 | once stalled no event but a restart writes a checkpoint or truncates the log |
| `MetaCheckpoint.WedgeReachable` | metanode/partition_store_ticket.go:19-96 | a run from the start that stalls: a failed dump, a newer one that succeeds, the old message alone |
| `MetaCheckpoint.NoStrayIsClean` | metanode/partition_fsm.go:18-84 | without not-exist answers every checkpoint of the run can be recovered from |
| `MetaCodec.ReadExtentsOf` | proto/stream_key.go:103-134 | extent lists of any length survive encoding and decoding |
| `MetaCodec.ExtentLayout` | proto/stream_key.go:103-134 | which bytes of an encoded extent hold which field, most significant byte first |
| `MetaCodec.ReadInodeOf` | metanode/kernel_inode.go:144-215 | decoding an encoded inode gives it with its extents, or without them when their sizes add up to zero |
| `MetaCodec.InodeRoundTripExactly` | metanode/kernel_inode.go:144-215 | the codec is the identity if and only if there are no extents or their 64-bit total is not zero |
| `MetaCodec.InodeLayout` | metanode/kernel_inode.go:144-215 | which bytes of an encoded inode hold which field, the times in two's complement, and the extents behind them if their total is not zero |
| `MetaCodec.DentryRoundTrip` | metanode/kernel_dentry.go:97-140 | dentry key and value survive encoding and decoding, for every name |
| `MetaCodec.DentryLayout` | metanode/kernel_dentry.go:97-140 | parent and name make the key, inode and mode the value, at these bytes |
| `MetaCodec.ItemRoundTrip` | metanode/partition_item.go:30-88 | the framed item survives encoding and decoding |
| `MetaCodec.ItemLayout` | metanode/partition_item.go:30-88 | operation, key and value, the latter two behind their lengths, at these bytes |
| `MetaSnapshot.OrdersAreStrictWeak` | metanode/kernel_dentry.go:90-95 | inode ids and (parent, name) pairs are strict orders, so the tree results apply to both trees |
| `MetaSnapshot.AscentFindsNext` | metanode/partition_item.go:130-179 | the ascent that Next starts delivers the current item and its successor |
| `MetaSnapshot.ItemIterator.Next` | metanode/partition_item.go:130-179 | apply id, then every inode, then every dentry, each once and in order, then the end |
| `MetaSnapshot.Follower.ApplySnapshot` | metanode/partition_fsm.go:129-193 | trees, apply id and cursor are replaced by what the frames stand for if and only if the iterator ended and every frame could be read; otherwise the partition is untouched |
| `MetaSnapshot.SnapshotTransfers` | metanode/partition_fsm.go:121-193 | sender and receiver together: same apply id, same dentries, inodes as their codec keeps them, cursor at the last inode |
| `MetaSnapshot.TransferExact` | metanode/kernel_inode.go:144-215 | the transfer is exact if and only if no inode has extents of total size zero |
| `MetaSnapshot.ReadDirListsOneDirectory` | metanode/partition_fsmop_dentry.go:63-81 | readDir lists exactly the entries of its parent, in name order; for parent 2^64-1 the bound wraps and nothing is listed |
| `BigEndian.ValOfBe` | storage/object_tree.go:32-45 | reading a big-endian number of any width back gives the number |
| `BigEndian.BeOfVal` | storage/object_tree.go:32-45 | writing the number that some bytes stand for gives those bytes |
| `BigEndian.ValConcat` | storage/object_tree.go:32-45 | the bytes in front weigh more: the number of two strings of bytes is the first, shifted, plus the second |
| `TinyIndex.RecordRoundTrip` | storage/object_tree.go:32-45 | an index record survives the 20-byte layout |
| `TinyIndex.RecordBytesRoundTrip` | storage/object_tree.go:32-45 | every 20 bytes are the layout of the record they decode to |
| `TinyIndex.RecordLayout` | storage/object_tree.go:32-45 | id, offset, size and checksum stand at bytes 0, 8, 12 and 16 |
| `TinyIndex.TornTailIgnored` | storage/object_tree.go:108-141 | a log followed by a torn record reads back as its whole records |
| `TinyIndex.WalkIndexFile` | storage/object_tree.go:108-141 | the batched walk visits every whole record once, in order, and returns the largest id, for a file of any length |
| `TinyIndex.ObjectTree.Put` | storage/object_tree.go:143-163 | exactly this id changes, offset and size of the replaced object are handed back, the new one is counted in, and live bytes and live objects stay the difference of the counters |
| `TinyIndex.ObjectTree.Set` | storage/object_tree.go:143-163 | tree and log change together by exactly this record, the log still replays to the tree, counters as in Put |
| `TinyIndex.ObjectTree.Delete` | storage/object_tree.go:180-193 | a tombstone is logged only for a live object; log and tree still agree, counters balanced |
| `TinyIndex.ObjectTree.Load` | storage/object_tree.go:75-101 | loading the file rebuilds the tree that its records describe, with balanced counters and the largest id |
| `TinyIndex.ReplayKeys` | storage/object_tree.go:75-101 | a replayed tree holds no id 0 and no tombstone |
| `TinyIndex.SetRemembered` | storage/object_tree.go:75-101 | a set is remembered by the log if and only if its id is positive and its size is not the tombstone size |
| `TinyCompaction.DeleteKeeps` | storage/store_tiny.go:292-300 | a delete at any point of the walk keeps the compaction invariant |
| `TinyCompaction.WalkKeeps` | storage/chunk.go:150-205 | walking any record, copied, skipped or a tombstone, keeps the compaction invariant; a copied object can always be read |
| `TinyCompaction.WalkExactly` | storage/chunk.go:150-205 | for each record: passed on if it is the first tombstone of its id; otherwise, if it describes the live object, that object moves with its bytes to the end of the new file; nothing otherwise |
| `TinyCompaction.ReadKeeps` | storage/object_tree.go:107-141 | reading the next 1024 records, or the short rest that ends the walk, keeps the compaction invariant |
| `TinyCompaction.ReadExactly` | storage/object_tree.go:107-141 | a read gets 1024 records or what is left, and the walk is over exactly at the first that gets fewer |
| `TinyCompaction.DoKeeps` | storage/chunk.go:121-205 | every step of a compaction keeps it, and the walk can always go on until it is over |
| `TinyCompaction.CatchupDeleteIndex` | storage/chunk.go:234-296 | the backward loop appends exactly the tail after the last record that is no tombstone or ends the new index |
| `TinyCompaction.CommitAgrees` | storage/chunk.go:207-296 | once the walk has passed the old log, the committed index replays to the tree in memory, also for a chunk compacted before |
| `TinyCompaction.CommitMaxOid` | storage/chunk.go:207-296 | the committed index has the same largest object id as the old log |
| `TinyCompaction.Compactor.Step` | storage/chunk.go:150-205 | the callback for one record computes the step, and fails exactly when the bytes cannot be read |
| `TinyCompaction.Compactor.ReadBatch` | storage/object_tree.go:107-141 | the batched read computes the step |
| `TinyCompaction.Compactor.Delete` | storage/store_tiny.go:292-300 | a delete in the middle of a compaction computes the step |
| `TinyCompaction.Compactor.Commit` | storage/chunk.go:207-232 | commit fails exactly on an empty new index and otherwise gives an index that agrees with the tree |
| `TinyStore.TinyChunk.Write` | storage/store_tiny.go:120-157 | refused, with nothing changed, exactly for an id below the last one; otherwise data and index grow by exactly these bytes and this record; the object reads back its bytes, no other changes, and afterwards no live object has an old tombstone if and only if this id had none |
| `TinyStore.TinyChunk.Read` | storage/store_tiny.go:159-195 | succeeds exactly for a live object and its exact size, with the bytes and checksum written; which of the three errors is returned, exactly |
| `TinyStore.TinyChunk.MarkDelete` | storage/store_tiny.go:292-300 | exactly this object goes; the data and the last id stay |
| `TinyRuns.CommitUnburied` | storage/chunk.go:207-296 | in the index that a commit writes no live object has an older tombstone |
| `TinyRuns.CommitFile` | storage/chunk.go:121-296 | the committed index and data file hold the live objects with the size, checksum and bytes they had |
| `TinyRuns.CommitKeeps` | storage/chunk.go:207-232 | a commit leaves a chunk that can be written, deleted from and compacted again |
| `TinyRuns.NextKeeps` | storage/store_tiny.go:120-300 | every write under an id not deleted before, delete, compaction step, commit or failed commit keeps the chunk right |
| `TinyRuns.EveryRunIsRight` | storage/store_tiny.go:120-300 | over every run of writes, deletes and repeated compactions, with deletes at any point of them: readers see exactly what was written and not deleted, as long as no deleted id is written again |
| `TinyRuns.NoAbort` | storage/chunk.go:150-205 | in such a run the walk never meets an object it cannot read |
| `TinyRuns.Resurrected` | storage/chunk.go:150-296 | the failing step: after the last full batch, delete an object with an old tombstone, then one without; the first is back after the commit |
| `TinyRuns.BuriedGoesWrong` | storage/object_tree.go:107-141 | from any sound chunk with such an object, and room below 4 GiB for the rest of an index batch, there is a run of writes under new ids, deletes and one compaction that brings a deleted object back |
| `TinyRuns.SafeExactly` | storage/chunk.go:121-296 | every run from here shows the right objects if, and with that room only if, no live object has an older tombstone in the index |
| `TinyRuns.WriteSafeExactly` | storage/store_tiny.go:120-157 | a write is harmless for good if, and with that room only if, it does not take an id that was deleted |
| `ExtentBlocks.WrittenHolds` | storage/extent.go:263-309 | a write stores the bytes at the offset, zeros in a gap before it, and leaves every other byte |
| `ExtentBlocks.HoldsOnce` | storage/extent.go:263-309 | only one content satisfies this: nothing is left open |
| `ExtentBlocks.AcceptedExactly` | storage/extent.go:350-363 | a request is accepted exactly if it is not empty, not larger than 256 KiB and ends within 256 MiB |
| `ExtentBlocks.BlocksSpell` | storage/extent.go:263-309 | the blocks cut the data into pieces of full size and a rest, and leave nothing out |
| `ExtentBlocks.UpdatedSlots` | storage/extent.go:263-309 | which of the header slots a write changes and to what, for every slot |
| `ExtentBlocks.WriteKeepsExactly` | storage/extent.go:263-309 | for every write, slots stay the checksums of their blocks, for every checksum function and every header right so far, if and only if a guard on offset and sizes holds: no short rewrite from a block start, and no hole from the middle of a block up to another one |
| `ExtentBlocks.SlotsKept` | storage/extent.go:263-309 | under the guard all slots stay right |
| `ExtentBlocks.UnusedKept` | storage/extent.go:182-187 | whatever is written, the slots beyond the data stay the checksum of a zero block, so a hole of whole blocks is right |
| `ExtentBlocks.WrongSlot` | storage/extent.go:263-309 | outside the guard a checksum by length shows a wrong slot, for every such write, from a header with all slots right |
| `ExtentBlocks.ShortRewriteFails` | storage/extent.go:283-306 | one byte written over the first of two is such a write |
| `ExtentBlocks.Extent.constructor` | storage/extent.go:150-196 | a new extent is sound, every slot the checksum of a zero block |
| `ExtentBlocks.Extent.Write` | storage/extent.go:263-309 | refused exactly outside the limits, and then nothing changes; otherwise the range holds the bytes given, a gap before it holds zeros, every other byte is as it was, the header is as specified, in memory and in the file, and the extent stays sound under the guard |
| `ExtentBlocks.Extent.WriteThenRead` | storage/extent.go:263-330 | every accepted write is read back byte for byte, a whole block with the checksum it was written with, anything else with that of its bytes |
| `ExtentBlocks.Extent.Recompute` | storage/extent.go:283-306 | the loop rehashes the one or two blocks touched and no other slot |
| `ExtentBlocks.Extent.Read` | storage/extent.go:311-330 | fails exactly outside the limits or the data; otherwise the bytes of the range, with the stored checksum for a whole block and the computed one for anything else; in a sound extent both are the checksum of the bytes read |
| `ExtentBlocks.Extent.Restore` | storage/extent.go:199-226 | reopening brings back a sound header and the size |
| `InodeRanges.CreateTiles` | master/cluster.go:566-594 | creating the next partition keeps the ranges contiguous from 0 whatever step fails |
| `InodeRanges.FirstCovers` | master/cluster.go:566-594 | a new volume gets one partition for all ids if every step succeeds, and none otherwise |
| `InodeRanges.UpdateEndTiles` | master/meta_partition.go:117-151 | UpdateEnd keeps the tiling if and only if it does not go through or the end is not before the start |
| `InodeRanges.ManualSplitBreaksTiling` | master/cluster.go:538-564 | the manual split of a partition that has not reported yet accepts an end before its start |
| `InodeRanges.StepKeepsExactly` | master/cluster.go:538-594 | any event keeps the ranges tiled and every id handed out within its own range if and only if it is neither a split below the cursor nor an allocation past an end that is on its way |
| `InodeRanges.RangeFor` | master/vol.go:35-68 | every id up to the last end lies in some range |
| `InodeRanges.EveryRunOwns` | master/cluster_task.go:534-573 | over all runs of creation, reports, splits on a report or by hand, checkEnd, allocation and delayed end updates, any step failing: all along, ranges tile and every id handed out is in its own range, if and only if no such event occurs |
| `InodeRanges.OneOwner` | metanode/partition.go:368-380 | an id handed out by one partition is in no other range and was handed out by no other |
| `InodeRanges.SplitOwnsExactly` | master/cluster_task.go:558-573 | a split on a report disowns an id if and only if more than 2^24 were handed out since the reported cursor |
| `InodeRanges.ReportSplits` | master/cluster_task.go:534-573 | a report closes the last partition at 2^24 past the reported id (or past its start) exactly while its end is open, enough ids are used, the end leaves room and leader and submit are there; if all goes well exactly one partition follows, from the next id to the end, under a new id and with its cursor at its start, and every id stays covered |
| `InodeRanges.ManualSplits` | master/cluster.go:538-564 | a split by hand does the same at the given end, exactly for an end not below what the master knows |
| `InodeRanges.SplitDisownsExactly` | master/meta_partition.go:117-151 | any split at or after the start, by hand too, disowns an id if and only if the cursor is above the new end |
| `InodeRanges.ManualSplitDisowns` | master/cluster.go:553-556 | the manual split of a partition that last reported 100 and has handed out 200 puts id 150 into the range of the next one |
| `InodeRanges.AllocOwns` | metanode/partition.go:368-380 | an allocation does so only while a new end is on its way and the ids up to it are used up |
| `InodeRanges.AllocHandsOut` | metanode/partition.go:368-380 | a meta node hands out the id after its cursor, which nobody had, exactly while the cursor is below the end it knows; nothing else changes |
| `InodeRanges.AppliesInOrder` | metanode/partition_fsmop.go:59-71 | new ends take effect in the order they were sent, the last one counts, and nothing else changes |
| `InodeRanges.CheckEndCloses` | master/meta_partition.go:153-179 | checkEnd closes the gap a failed creation leaves: afterwards every id is covered |
| `InodeRanges.Volume.MaxPartitionId` | master/vol.go:59-68 | the loop over the partitions finds the id of the last range |
| `InodeRanges.Volume.CreateMetaPartition` | master/cluster.go:566-594 | each failing step leaves the volume as specified |
| `InodeRanges.Volume.UpdateEnd` | master/meta_partition.go:117-151 | the roll-backs restore the end exactly when leader or submit is missing |
| `InodeRanges.Volume.OnReport` | master/cluster_task.go:534-573 | the method computes the split on a report for the last partition, with every outcome of its steps, and leaves the volume as it is for every other; what the split does is stated by ReportSplits |
| `InodeRanges.Volume.SplitManually` | master/cluster.go:538-564 | the manual split computes the step, and keeps ranges and ownership if and only if it is turned down or the end is not below the cursor |
| `InodeRanges.Volume.CheckEnd` | master/meta_partition.go:153-179 | only the last partition is repaired, and rolled back if the submit fails |
| `RangeLookup.RangeTable.ReplaceOrInsert` | sdk/meta/partition.go:42-53 | map and tree go on holding the same partitions if and only if no other partition has the same Start |
| `RangeLookup.RangeTable.Add` | sdk/meta/partition.go:32-35 | the tree drops a partition with the same Start, which the map keeps, and no other |
| `RangeLookup.RangeTable.Drop` | sdk/meta/partition.go:37-40 | exactly this partition leaves both |
| `RangeLookup.ByInodeIsDescent` | sdk/meta/partition.go:65-81 | the lookup is what the descending walk of the tree delivers to its callback |
| `RangeLookup.NextIsAscent` | sdk/meta/partition.go:97-109 | the same for the next partition and the ascending walk, which for the largest 64-bit id wraps and delivers the first partition |
| `RangeLookup.RoutesExactly` | sdk/meta/partition.go:65-81 | on tiled ranges the lookup finds a partition if and only if the inode is in its range |
| `RangeLookup.RoutesHome` | sdk/meta/partition.go:65-81 | every id a partition handed out is routed back to it |
| `RangeLookup.TableIsVolume` | sdk/meta/partition.go:32-53 | a client that knows the volume has its partitions in the volume's order |
| `ChainAck.NextAddrExact` | datanode/packet.go:84-96 | with the 8-bit wrap-around GetNextAddr refuses exactly the packets with more hops left than addresses |
| `ChainAck.RouteVisits` | datanode/packet.go:84-96 | with fewer hops left than addresses it visits the last ones in order and stops; with more it goes nowhere |
| `ChainAck.RouteVisitsAll` | datanode/packet.go:51-101 | for a list of any length the packet visits as many replicas as the eight-bit count says, once each and in order: all of them if and only if the list is shorter than 256 |
| `ChainAck.BeginOk` | datanode/server_pkg_process.go:81-104 | queueing a request and sending it on keeps the handler invariant |
| `ChainAck.OperateOk` | datanode/server_pkg_process.go:65-104 | working on a request, with any outcome, keeps the handler invariant, and counts it as executed exactly if the operation succeeded and the request went out or is a delete |
| `ChainAck.ReceiveOk` | datanode/server_pkg_process.go:142-206 | a token always finds a request in the list, and the oldest one has been worked on: the reply goes to it |
| `ChainAck.ReceiveExactly` | datanode/server_pkg_process.go:142-206 | one receive answers the oldest request, and with OK if and only if it went out, was executed here, and the reply read for it has its key and is OK |
| `ChainAck.FinishOk` | datanode/server_pkg_process.go:81-104 | answering at the last node of the chain keeps the handler invariant |
| `ChainAck.OneReplyEach` | datanode/server_pkg_process.go:106-126 | answers are in the order of the requests, one each, none missing when the list is empty |
| `ChainAck.EveryRunIsSafe` | datanode/server_pkg_process.go:65-229 | the invariant over every run of a chain of any length with failures, mismatched replies and lost connections anywhere |
| `ChainAck.HeadOkMeansEveryReplica` | datanode/server_pkg_process.go:142-229 | an OK answer at the head means every replica on the chain executed a request with this key; the converse is HeadAnswersAll |
| `ChainAck.SmoothRunAnswersOk` | datanode/server_pkg_process.go:65-229 | in every run in which nothing goes wrong, on a chain of any length, every answer of every node is OK and the head takes the requests in their order |
| `ChainAck.SmoothGoesOn` | datanode/server_pkg_process.go:65-229 | unless nothing is left to do, some node can go on without anything going wrong: no request is stuck |
| `ChainAck.SmoothStepCounts` | datanode/server_pkg_process.go:65-229 | every such step brings the end nearer by exactly one |
| `ChainAck.SmoothEnds` | datanode/server_pkg_process.go:65-229 | so all requests under way are answered, after exactly that many steps |
| `ChainAck.HeadAnswersAll` | datanode/server_pkg_process.go:65-229 | on a chain of any length, a run in which nothing goes wrong, carried to its end, has the head answer every request with OK, once each and in order |
| `ChainAck.MessageHandler.PushListElement` | datanode/message_handler.go:123-127 | the new request is behind all others: answers and waiting requests are in order of arrival afterwards exactly if they were before, none is lost, and a node of the chain steps as Begin says |
| `ChainAck.MessageHandler.DelListElement` | datanode/message_handler.go:160-184 | the loop removes and answers the oldest matching request, or changes nothing; no request is lost or answered twice, the order is kept exactly if no other request was ahead, and for the oldest a node of the chain steps as Receive says |
| `ExtentRepair.Longest` | datanode/partition_repair.go:201-220 | the first member with the largest size, the leader if all are empty |
| `ExtentRepair.StreamRead` | datanode/server_pkg_op.go:335-380 | the loop sends blocks of 64k and a rest, up to the first that cannot be read, and fails if and only if the range leaves the extent |
| `ExtentRepair.BlocksDeliver` | datanode/server_pkg_op.go:335-380 | a range within the extent arrives whole and in order, in as many blocks of 64k and a rest as it takes |
| `ExtentRepair.StreamRepair` | datanode/partition_repair_extent.go:31-104 | the loop ends with exactly the missing tail appended, or fails if and only if something is missing that the source does not have, and then has only appended source bytes |
| `ExtentRepair.RoundExtends` | datanode/partition_repair.go:223-265 | a round only extends replicas along the stream, creates the missing ones, and leaves the longest as it is |
| `ExtentRepair.TwoRoundsConverge` | datanode/partition_repair.go:201-265 | after two rounds all replicas are the longest one, whatever the transfers to created replicas delivered |
| `ExtentRepair.ConvergedStays` | datanode/partition_repair.go:201-265 | a further round changes nothing |
| `ExtentRepair.OneRoundExactly` | datanode/partition_repair.go:223-239 | one round is enough exactly if no replica was missing or the missing ones got everything |
| `ExtentRounds.MapMaxSize` | datanode/partition_repair.go:201-220 | the nested loops find the first longest member of every extent of the leader |
| `ExtentRounds.GenerateAdd` | datanode/partition_repair.go:223-239 | every follower is told to add exactly the extents it misses, each once, from the bare address of the leader, and nobody's other list changes |
| `ExtentRounds.GenerateFix` | datanode/partition_repair.go:242-265 | every member is told to fix exactly the extents where it is behind, each once, from the longest |
| `ExtentRounds.GoalIs` | datanode/partition_repair.go:201-265 | what a member is told to reach: the size of the leader for an extent it misses, the largest of all, from a member that has it, where it is behind, and nothing otherwise |
| `ExtentRounds.OpenMissing` | datanode/partition.go:442-466 | missing extents are created empty and every file that needs it has exactly one stream repair |
| `ExtentRounds.EveryScheduleExtends` | datanode/partition.go:468-489 | however the members' blocks interleave, with sources being repaired themselves, replicas only grow along their streams and never past their targets |
| `ExtentRounds.RoundGoesOn` | datanode/partition_repair_extent.go:31-104 | no task waits for another: an unfinished round can create an extent or send a block of 64k or the rest |
| `ExtentRounds.EveryScheduleEnds` | datanode/partition_repair_extent.go:58-104 | no schedule has more steps than there were missing bytes and extents |
| `ExtentRounds.FinishedIsRound` | datanode/partition.go:442-489 | every finished schedule leaves what a round is meant to leave: existing replicas at the longest, missing ones created, and empty when the leader cannot be dialled |
| `ExtentRounds.TwoRoundsInAnyOrder` | datanode/partition_repair.go:37-63 | two rounds, each in any order, whatever happens to transfers to created extents, leave every member with every extent of the leader, equal to the longest replica there was |
| `ExtentRounds.OneRoundIsEnoughExactly` | datanode/partition_repair.go:223-239 | with an address that cannot be dialled, one round is enough for an extent if and only if no follower misses it or it is empty everywhere |
| `FuseTable.SaveOk` | fuse/fs/serve.go:482-505 | saveNode leaves the node in use under the pair it answers, with exactly one reference more than its id had; every other id is as it was, no pair ever issued changes its node, the slice grows only when all its ids are in use, and nodeRef, slice and free ids still agree |
| `FuseTable.DropOk` | fuse/fs/serve.go:532-562 | dropNode takes off the count, clamped to what is there, for any id of the slice; every other id is as it was, no pair is issued, and nodeRef, slice and free ids still agree |
| `FuseTable.Server.constructor` | fuse/fs/serve.go:398-411 | the initial table has exactly the root, under id 1 with one reference, and no handle, and is sound |
| `FuseTable.Server.SaveNode` | fuse/fs/serve.go:482-505 | the method computes the step, answers the pair recorded for the node, adds one reference to its id and leaves every other id |
| `FuseTable.Server.DropNode` | fuse/fs/serve.go:532-562 | the method computes the step, takes the clamped count off the references of this id alone, and says "forget" exactly when the id is empty afterwards |
| `FuseTable.LookupAnswers` | fuse/fs/serve.go:482-505 | in every run every lookup is answered |
| `FuseTable.RefsAreCounted` | fuse/fs/serve.go:482-562 | in every run the references of every id are what the calls themselves add up to: lookups answered with it, less the clamped counts of its forgets; an id is given up exactly when none is left |
| `FuseTable.PairNamesOneNode` | fuse/fs/serve.go:482-562 | in every run of lookups and forgets no (NodeID, generation) pair is answered for two different nodes |
| `FuseTable.StoredOk` | fuse/fs/serve.go:507-520 | a new handle gets an id that was not in use, a new one only when all are; all others stay |
| `FuseTable.ReleaseExactly` | fuse/fs/serve.go:564-569 | emptying a slot keeps the handle table sound if and only if the handle is in use |
| `FuseTable.EveryRunKeepsHandles` | fuse/fs/serve.go:1291-1314 | in every run without overlapping releases of one id every open file keeps its handle, however ids are reused |
| `FuseTable.RaceLosesHandle` | fuse/fs/serve.go:1291-1314 | two releases that have both found one handle: the first drops it, a new file gets the id, the second takes that file's handle |
| `FuseTable.OverlapReachable` | fuse/fs/serve.go:1291-1299 | two releases of one id are under way after one open and two looks |
| `FuseTable.HandlesKeptExactly` | fuse/fs/serve.go:1291-1314 | every open file keeps its handle in every run if and only if no two releases of one id are under way |
| `FuseTable.SecondReleaseRefused` | fuse/fs/serve.go:1291-1299 | a release that looks after another one has dropped the handle is refused |
| `FuseTable.Server.SaveHandle` | fuse/fs/serve.go:507-520 | the method keeps the handle table sound and the id given out was free |
| `FuseTable.Server.DropHandle` | fuse/fs/serve.go:564-569 | the id is empty afterwards, every other handle is where it was, and a sound table stays sound if and only if the id was in use |
| `FuseTable.Server.Release` | fuse/fs/serve.go:1291-1314 | refused exactly for an id not in use; otherwise exactly this handle goes and the table stays sound |
| `CarryScheduler.WeightIs` | master/node_select.go:116-122 | the weight times the largest memory is what the node leaves of it, as a 64-bit unsigned difference |
| `CarryScheduler.WeightFalls` | master/node_select.go:116-122 | less used memory means strictly more weight |
| `CarryScheduler.WriteAbleExactly` | master/meta_node.go:58-98 | a node can be written to exactly if it is active, has fewer than 100 partitions, more than 4 GiB free and its use within the threshold, by default three quarters |
| `CarryScheduler.WriteAbleHasWeight` | master/meta_node.go:58-98 | with a threshold of at most 1 a writable node uses less than it has, its unsigned difference does not wrap, and its weight lies in (0, 1] |
| `CarryScheduler.WeightZeroExactly` | master/node_select.go:116-122 | for any threshold and with the wrap-around, a weight is never negative, and zero exactly for a node that uses as much as the largest node has |
| `CarryScheduler.LoopEndsExactly` | master/node_select.go:38-56 | the top-up loop ends if and only if enough entries can pay now, or have carry above 1 or a non-zero weight |
| `CarryScheduler.LoopCanRunForever` | master/handle_admin.go:797-803 | with threshold 2.0 a node that uses 16 GiB of 8 is writable with weight zero beside one of 16 GiB, and the loop never ends |
| `CarryScheduler.SmallThresholdsEnd` | master/node_select.go:38-56 | with thresholds of at most 1 every call ends |
| `CarryScheduler.RichIsLively` | master/node_select.go:38-56 | after enough passes exactly the entries with a weight or carry above 1 count, and no others ever do |
| `CarryScheduler.EnoughPasses` | master/node_select.go:38-56 | a number of passes after which every entry with a positive weight is above 1 |
| `CarryScheduler.Cluster.TopUpOnce` | master/node_select.go:42-54 | one pass tops up each listed node once, caps at 10, and counts those above 1 |
| `CarryScheduler.Cluster.SetNodeTabCarry` | master/node_select.go:38-56 | the loop makes k passes, the fewest that leave enough entries to choose from; each node of the table has gained k times its weight, capped at 10, and nothing else changed |
| `CarryScheduler.Cluster.MaxTotal` | master/node_select.go:58-67 | the largest memory of all nodes |
| `CarryScheduler.Cluster.Eligible` | master/node_select.go:103-130 | exactly the writable nodes that are not excluded, each once |
| `CarryScheduler.SortByCarry` | master/node_select.go:26-36 | a permutation of the table in falling order of carry |
| `CarryScheduler.FirstHaveCarry` | master/node_select.go:84-93 | if m nodes can pay, the first m of that order can |
| `CarryScheduler.Cluster.Select` | master/node_select.go:87-93 | exactly the first replicaNum hosts of the order are returned, each selected once more and with exactly 1 less carry; nothing else changed |
| `CarryScheduler.DisOrder` | master/node_select.go:132-160 | the two loops compute the shuffle of the picks, a permutation whatever they are |
| `CarryScheduler.ShuffledPermutes` | master/node_select.go:132-160 | every sequence of picks gives a permutation |
| `CarryScheduler.EveryOrderPossible` | master/node_select.go:132-160 | and every order of the hosts comes out for some picks |
| `CarryScheduler.Cluster.AvailHosts` | master/node_select.go:69-101 | fails exactly when fewer nodes are eligible than asked for, and then changes nothing; otherwise that many different hosts, all writable, none excluded: those with the most carry after the fewest passes that let enough pay, where every pass adds the free share of the largest memory, up to 10, and each host chosen pays 1 |
| `CarryScheduler.CallMeans` | master/node_select.go:38-101 | what a call does to every node in terms of its memory: the gain, who is chosen, who pays |
| `CarryScheduler.FewestPasses` | master/node_select.go:38-56 | with one pass less too few nodes would have been able to pay |
| `CarryScheduler.StepBound` | master/node_select.go:38-101 | each call or heartbeat changes carry and count of a node as its weight and selection say, exactly so below the ceiling |
| `CarryScheduler.EverySelectionIsPaid` | master/node_select.go:38-101 | over every run of calls and heartbeats a node is selected at most as often as its initial carry and the weight it accrued pay for, exactly so if its carry never meets the ceiling, and carries stay in [0, 10] |

## Left out

- BTreeHeapTree.HeapTree.InsertAll: a run with deletions in it is not covered; one deletion is, with its exact condition, by DeleteItem.
- BTreeHeapTree.HeapTree.DeleteItem: when the free list has room, an emptied node may be used again within the same call; that it was emptied is then recorded by the list only, and what it holds at the end is not compared with what it held before.
- BTreeHeap.FreeNode: the list is a sequence with a capacity; Go's slice growth and the list's lock are not modelled.
- MetaRecovery.PartitionRecovers: Generation is excluded, since replayed appends count again; by how much is stated by InodeRecovers.
- MetaCheckpoint.EveryRunIsDurable: a snapshot received in the middle of a run, which swaps the trees, is not among the events, and the walk of a dump over the tree is assumed not to meet a node that a deletion empties.
- MetaCheckpoint.RestartExactly: "can catch up" is by the partition's own raft log; a snapshot from another replica, which could bring lost entries back, is not modelled.
- MetaCheckpoint.LostNeverCatchesUp: holds as long as no snapshot comes from another replica.
- MetaCheckpoint.RashLosesEntry: the entry is lost to this replica; a snapshot from another one could bring it back.
- MetaFsm.MetaPartition.Apply: Generation is an unbounded number here; partition-level commands other than the update of End are not modelled.
- MetaFsm.FramesRebuild: an empty partition is reloaded with its cursor at 0 rather than at its start, and is outside the ownership result.
- MetaSnapshot.Follower.ApplySnapshot: the code ignores errors in decoding the fields of an item; here such a frame fails the transfer.
- TinyIndex.ObjectTree.Put: the counters are unbounded numbers.
- TinyRuns.EveryRunIsRight: during a walk the tree in memory already has new offsets, so what readers see is stated for a chunk that is not being compacted; writes during a compaction are excluded, as its lock excludes them; the data file stays below 4 GiB, and objects of size 0, of the tombstone size or with id 0 are not written.
- TinyCompaction.CatchupDeleteIndex: index files are whole records; a torn tail, which would shift the backward reading, is not modelled.
- TinyStore.TinyChunk.Write: states data and index, but not what readers see, when the data file has reached 4 GiB, where the offset is cut to 32 bits, nor for empty objects, object id 0 and the tombstone size.
- ExtentBlocks.Extent.constructor: the inode number in the header is not modelled, nor is MarkDelete.
- InodeRanges.EveryRunOwns: the report's Start is taken to be the partition's; tasks to meta nodes arrive in order or fail; the manual split is one atomic step, although the code reads MaxNodeID before it takes the lock.
- ChainAck.EveryRunIsSafe: two neighbours share one connection that delivers replies in order; the code takes a pooled connection per request.
- ChainAck.HeadOkMeansEveryReplica: execution is recorded per key; when a client sends the same key twice, an answer to the first request that was left unread may be taken for the second.
- ExtentRounds.TwoRoundsInAnyOrder: no writes or deletes during the rounds, and transfers between existing replicas succeed; a member reports all its extents, not only those that have been stable for a while.
- FuseTable.PairNamesOneNode: the generation is an unbounded number, so that its 64-bit wrap is not modelled.
- CarryScheduler.Cluster.AvailHosts: stated for calls whose top-up loop ends, which LoopEndsExactly decides.
- CarryScheduler.SortByCarry: stands for the library sort, by insertion; floats are real numbers.
- Tiny-object repair between data nodes, whose loop compares object ids with file ids.
- The raft library, RocksDB store and the master's id allocator; the committed log is taken as given.
- HTTP handlers, admin tasks, heartbeats, status checks, topology and the choice of data nodes.
- FUSE request decoding and dispatch, mounting, and the client's file operations.
- Locks, goroutine scheduling below the steps named here, timers, logging and JSON.
