# A verified model of Fxfs

Fxfs is a log-structured filesystem built on LSM trees. This project models its hardest parts in
Dafny and proves what they promise: the LSM engine (the lock-free skip list, the merger, persistent
layers, the tree), the space allocator (search for space, reservations, crash recovery, coalescing),
the object store (encrypted mutations, object ids, tombstoning), the page cache, and the allocation
cross-check of fsck. `dafny verify dfyconfig.toml` checks the whole project.

| module | what it models |
|---|---|
| `LsmTypes`, `Codecs`, `Arith` | items, bounds and sorted layers; an arbitrary prefix-decodable encoding; division facts |
| `SkipListEpochs` | readers and writers of the skip list as interleaved atomic steps, with the epochs that decide when memory is freed |
| `SkipListLevels`, `SkipListLayer` | the levels of the skip list, and the layer and its mutable iterator as objects |
| `Merge`, `MergeInto`, `MergeMap` | the k-way merger over any merge function, its in-place twin, and its independence of values |
| `LazyMerge` | lazy merging of point keys |
| `RangeLayers`, `LazyRanges` | layers of extents and what they say about each byte; lazy merging of range keys, with and without a next key |
| `ExtentMerge`, `ExtentOverlap` | the merge function of the object store for the extents of a file, and what a reader of the file sees |
| `PersistentLayer` | writer, iterator and binary search of layer files |
| `LsmTree` | sealing, lookup, compaction and the choice of layers to compact |
| `AllocatorMerge`, `Coalescing` | the allocator's merge function as newest-wins per byte; normal forms of allocation records |
| `AllocatorSpace` | allocate, commit, drop, deallocate and device flush as interleaved steps, with a search that goes on while they run |
| `Reservations`, `AllocatorCounters`, `ReservationObjects` | reservations, holds and the per-owner counters as a system of steps, what the counters mean over a run, and the objects that simulate the system |
| `JournalCheckpoints`, `AllocatorRecovery` | journal replay and opening of the allocator after a crash |
| `EncryptedMutations`, `EncryptedStore` | encrypted mutations: capture, replay, decryption, and the life of an encrypted store |
| `Ff1Cipher`, `ObjectIds` | the Feistel cipher and the object ids made with it |
| `Trim` | tombstoning a file over many transactions |
| `PageCache` | the pages of `MemDataBuffer`, read plans, fills, writes, truncation |
| `Fsck` | the cross-check of allocations |

Concurrency is modelled as a system of steps: each atomic pointer store and each section under a
mutex is one step, and steps of different threads interleave freely. A run is a sequence of states
connected by steps that the code allows; the main theorems are about every state of every run.
Objects that the code updates in place are classes here, with an invariant that every method keeps.

Some results show where the code does not do what one might expect:

- `SkipListLayer.IterMut.Erase`: erasing at the end of the list changes only the item count
  (src/lsm_tree/skip_list_layer.rs:603-627).
- `ExtentOverlap.OverlapsExactly`: lazily merged extents may overlap. A deleted extent that was already
  returned is put back when another layer is consulted, and may be joined with a deleted extent of that
  layer (src/lsm_tree/merge.rs:531-556, src/object_store/merge.rs:126-151). The lemma says exactly when;
  `ExtentOverlap.Overlapping` is an input. A reader that goes on from the end of the last extent is not
  misled (`ExtentMerge.ReadsNewest`), and a full merge has no overlaps (`LazyRanges.FullIsDisjoint`).
- `PageCache.Cache.BeginWrite`: a write that starts on a page boundary and ends inside the same page does
  not wait for that page (src/data_buffer.rs:551), although the whole page counts as present afterwards;
  `PageCache.WriteUnread` is an input. Growing a file likewise makes the page that holds its old end
  present without reading it (src/data_buffer.rs:240); `PageCache.GrowUnread` is an input.
- `AllocatorCounters.LimitKept`: an owner may be taken over its limit by bytes of another owner that
  return to one of its reservations.
- `AllocatorSpace.WalkAllocated`: deallocating a range whose tail lies beyond everything allocated is
  not an error; the tail is left out silently (src/object_store/allocator.rs:1096-1139).
- `Fsck.CrossCheck`: when a missing allocation is reported, the current record of the allocator is
  added to the totals once more. The totals are right exactly if no expected record without an equal
  scanned record ends before a scanned record starts (`Fsck.Skipped`); `Fsck.WrongTotals` is an input
  on which they are wrong (src/fsck.rs:513-563).
- `Fsck.FalseAlarm`: an owner whose bytes are all gone but whose counter is still there makes the
  comparison of totals fail although all totals agree (src/fsck.rs:582-593).
- `Reservations.ConservationExactly`: `mark_allocated` with a transaction reservation forgets the bytes
  it holds without taking them out of the reserved bytes of the owner
  (src/object_store/allocator.rs:1037-1041). Each such call leaves its length behind for good, so the
  conservation law, and the zero assertion when the allocator is dropped, hold exactly if no non-empty
  range was marked this way. `Reservations.MarkingLeaks` is a run that ends with such a surplus.

## Model

| member | source | states |
|---|---|---|
| SkipListEpochs.FreeWalkRun | src/lsm_tree/skip_list_layer.rs:147-157 | freeing along level 0 from the start to the end of the erase list frees exactly the nodes of that run, each once, and touches no unallocated node |
| SkipListEpochs.OldReadersDrop | src/lsm_tree/skip_list_layer.rs:342-354 | a read count reaches zero exactly when the last reader of the earlier epoch leaves |
| SkipListEpochs.ReaderDropOk | src/lsm_tree/skip_list_layer.rs:342-354 | a reader leaving, with the freeing it may trigger, keeps the invariant of the system |
| SkipListEpochs.ReaderLoadOk | src/lsm_tree/skip_list_layer.rs:357-369 | following any pointer keeps a reader inside memory that is still allocated |
| SkipListEpochs.WriterSpliceOk | src/lsm_tree/skip_list_layer.rs:477-489 | the one store that publishes an edit keeps the invariant: readers see the list before or after it |
| SkipListEpochs.WriterCommitOk | src/lsm_tree/skip_list_layer.rs:490-524 | the locked part of commit (free at once, bump the epoch, or nothing to erase) keeps the invariant |
| SkipListEpochs.WriterBeginOk | src/lsm_tree/skip_list_layer.rs:412-422 | when a writer passes its wait, no unlinked node is left unfreed |
| SkipListEpochs.StepOk | src/lsm_tree/skip_list_layer.rs:302-526 | every step of readers and the writer keeps the invariant |
| SkipListEpochs.MemorySafety | src/lsm_tree/skip_list_layer.rs:113-157 | in every run: no access to or free of unallocated memory, at most two live epochs, everything reachable from an active reader allocated, and everything unlinked freed before the next writer starts |
| SkipListEpochs.ScanIsAtomic | src/lsm_tree/skip_list_layer.rs:629-642 | in every run where commits wait: at most one splice happens during a reader's life and a finished scan has seen exactly the list before it or exactly the list after it |
| SkipListEpochs.BarrierHolds | src/lsm_tree/skip_list_layer.rs:629-642 | in every run where commits ask for an epoch change: when `commit_and_wait` returns, every reader registered after the edit was published and sees the new list |
| SkipListLevels.InsertStep | src/lsm_tree/skip_list_layer.rs:570-601 | the stores of insert on one level extend the insertion chain of that level and nothing else |
| SkipListLevels.EraseStep | src/lsm_tree/skip_list_layer.rs:603-627 | the stores of erase on one level unlink the node there and leave the published list alone |
| SkipListLevels.SpliceStep | src/lsm_tree/skip_list_layer.rs:477-489 | the store of commit on one level makes that level the ordered chain of the new list |
| SkipListLevels.LinkedIsClosed | src/lsm_tree/skip_list_layer.rs:39-86 | if every level is a chain of listed nodes, no pointer leads to an unlisted node |
| SkipListLayer.Layer.Seek | src/lsm_tree/skip_list_layer.rs:302-340 | the descent through the levels finds the first item not before the bound |
| SkipListLayer.Layer.SearchLevel | src/lsm_tree/skip_list_layer.rs:311-332 | one level of the descent stops at the last node of that level before the bound |
| SkipListLayer.Layer.FreeEraseList | src/lsm_tree/skip_list_layer.rs:147-157 | the loop frees exactly the erased nodes and leaves every level as it was |
| SkipListLayer.IterMut.constructor | src/lsm_tree/skip_list_layer.rs:405-470 | an edit starts between the items before the bound and the others |
| SkipListLayer.IterMut.Insert | src/lsm_tree/skip_list_layer.rs:570-601 | inserting adds the item before the cursor of the plain sequence; the published list is unchanged |
| SkipListLayer.IterMut.Erase | src/lsm_tree/skip_list_layer.rs:603-627 | erasing removes the item at the cursor of the plain sequence; at the end of the list only the item count changes |
| SkipListLayer.IterMut.Advance | src/lsm_tree/skip_list_layer.rs:536-560 | advancing moves the cursor of the plain sequence past one item, before and during an edit |
| SkipListLayer.IterMut.Publish | src/lsm_tree/skip_list_layer.rs:477-489 | the stores of commit, level 0 first, make every level the ordered chain of the new list |
| SkipListLayer.IterMut.CommitLocked | src/lsm_tree/skip_list_layer.rs:490-526 | the locked part of commit sets epoch, erase list and item count as the step system says, and frees only unlisted nodes |
| SkipListLayer.IterMut.Commit | src/lsm_tree/skip_list_layer.rs:477-526 | the list equals the edited plain sequence, every level is an ordered sub-chain of it, no erased node is reachable, and the item count is its length (less the erasures past the end) |
| SkipListLayer.IterMut.CommitAndWait | src/lsm_tree/skip_list_layer.rs:629-642 | the list equals the edited plain sequence; with an edit to publish the epoch changes exactly if there are readers, and these are the ones waited for |
| SkipListLayer.InsertItem | src/lsm_tree/skip_list_layer.rs:250-262 | fails exactly if the key is there, and then changes nothing; otherwise the map gains the item and stays sorted, and the readers on the list, if any, get a new epoch and are waited for |
| SkipListLayer.ReplaceOrInsert | src/lsm_tree/skip_list_layer.rs:263-273 | the map maps the key to the item and is otherwise unchanged; the readers on the list, if any, get a new epoch and are waited for |
| SkipListLayer.EraseItem | src/lsm_tree/skip_list_layer.rs:185-198 | the map loses the key and is otherwise unchanged; if the key was there, readers get a new epoch and are waited for, otherwise nothing changes |
| Merge.MergerYieldsAll | src/lsm_tree/merge.rs:346-481 | for every merge function that lets the loops end, seeking and advancing over all layers yields exactly what merging pass by pass yields |
| Merge.MergerIterator.MergeOnce | src/lsm_tree/merge.rs:362-441 | one pass over heap and merge function does what the specification of a pass says |
| Merge.MergerIterator.SkipTo | src/lsm_tree/merge.rs:362-441 | `advance_impl` finds the first merged item not before the bound |
| Merge.MergerIterator.PushIterators | src/lsm_tree/merge.rs:444-481 | layers are consulted until no older one can matter for the key searched for |
| Merge.MergerIterator.SeekTo | src/lsm_tree/merge.rs:346-355 | the iterator object refines the specified seek |
| Merge.MergerIterator.Next | src/lsm_tree/merge.rs:506-562 | the iterator object refines the specified advance |
| MergeInto.ListFirst | src/lsm_tree/merge.rs:570-677 | one pass with the layer's item on the left does to both sides what a two-layer merger does |
| MergeInto.ItemFirst | src/lsm_tree/merge.rs:570-677 | one pass with the new item on the left does to both sides what a two-layer merger does |
| MergeInto.ApplyToList | src/lsm_tree/merge.rs:485-500 | Keep, Discard and Replace on the layer's side, in place, equal the merger's cases |
| MergeInto.Run | src/lsm_tree/merge.rs:570-677 | afterwards the list is the untouched prefix followed by exactly what a merger over the item as layer 0 and the suffix as layer 1 yields, for every merge function under which that merger ends |
| LazyMerge.InnerFinds | src/lsm_tree/merge.rs:362-441 | under newest-wins the inner loop discards the older items of the lowest key and stops at the newest |
| LazyMerge.SeekFinds | src/lsm_tree/merge.rs:346-355 | a seek lands on the first key not before the bound, with its newest item |
| LazyMerge.SeekConsults | src/lsm_tree/merge.rs:444-481 | a seek to a key consults exactly the layers down to the newest one that has the key, all of them if none has it |
| LazyMerge.AdvanceFinds | src/lsm_tree/merge.rs:506-562 | an advance lands on the next key, with its newest item, although layers may still be pending |
| LazyMerge.LazyMergeIsFullMerge | src/lsm_tree/merge.rs:305-317 | seeking and advancing to the end ends, and yields in order exactly the newest item of every key from the bound on, over all layers |
| LazyMerge.FindIsNewest | src/lsm_tree.rs:256-269 | `find` returns the item of the newest layer that has the key |
| LazyRanges.Finds | src/lsm_tree/merge.rs:362-441 | for range keys and any merge function whose passes are sound, `advance_impl` returns the first item that ends after the bound; it and what is left say about every later byte what the layers said |
| LazyRanges.SeekSettles | src/lsm_tree/merge.rs:346-355 | a seek consults layers until one has the first byte searched for; the item it returns says what all layers say up to its end |
| LazyRanges.AdvancePrepares | src/lsm_tree/merge.rs:506-556 | whichever way `advance` takes (no other layer, the next item of the same layer, or further layers with the current item put back), no pending layer can have anything between the current item and the next |
| LazyRanges.AdvanceSettles | src/lsm_tree/merge.rs:506-562 | the next item says what all layers say from the end of the current one to its own end, with and without a next key |
| LazyRanges.LazyIsFull | src/lsm_tree/types.rs:161-186 | seeking and advancing to the end ends, with increasing ends, and read in order gives every byte from the bound on the value of the newest layer that mentions it |
| LazyRanges.FullIsDisjoint | src/lsm_tree/merge.rs:305-317 | if the seek consults all layers, as without a bound, the items do not overlap |
| MergeMap.CollectMapped | src/lsm_tree/merge.rs:346-562 | a map of items that keeps keys and commutes with the merge function commutes with seeking, advancing and collecting |
| ExtentMerge.MergePlaced | src/object_store/extent_record.rs:163-184 | the merge function moves device offsets with the extents it cuts: it commutes with expressing them relative to the file |
| ExtentMerge.PassOk | src/object_store/merge.rs:17-151 | every case of the merge function, the joining of deleted extents of neighbouring layers included, keeps for every byte what the newest layer says |
| ExtentMerge.ReadsNewest | src/object_store/object_record.rs:167-186 | lazily merging the layers of the object store from any search key, with `end..end + 1` as next key, ends and places every byte of the file from there on where the newest layer that mentions it has it, or says that it is deleted |
| ExtentOverlap.OverlapsExactly | src/lsm_tree/merge.rs:531-556 | after any number of advances, the next extent starts before the end of the current one exactly if that is deleted, from the last layer consulted, followed by nothing there, and met by a deleted extent of the next layer |
| ExtentOverlap.Overlapping | src/lsm_tree/merge.rs:531-556 | an input on which that happens: after 0..5 and 5..10 the next extent starts before 10 |
| PersistentLayer.Writer.constructor | src/lsm_tree/simple_persistent_layer.rs:298-318 | a new file has its header block and no items |
| PersistentLayer.Writer.WriteSome | src/lsm_tree/simple_persistent_layer.rs:320-332 | the buffered items become one block with their count, padded with zeros; what follows stays in the buffer |
| PersistentLayer.Writer.Write | src/lsm_tree/simple_persistent_layer.rs:338-353 | an item that fits a block is added; blocks never exceed the block size or 65535 items |
| PersistentLayer.Writer.Flush | src/lsm_tree/simple_persistent_layer.rs:355-358 | all items are in blocks |
| PersistentLayer.WriterLayout | src/lsm_tree/simple_persistent_layer.rs:320-358 | the written file, with any part of the last padding, is one that the reader understands |
| PersistentLayer.LayerIterator.NextBlock | src/lsm_tree/simple_persistent_layer.rs:110-135 | opens the next block or finds the end of the layer, and never fails on a written file |
| PersistentLayer.LayerIterator.Advance | src/lsm_tree/simple_persistent_layer.rs:110-150 | delivers the next item of the layer, across blocks |
| PersistentLayer.ReadLayer | src/lsm_tree/simple_persistent_layer.rs:110-150 | reading a file from the start returns the items of its blocks, in order |
| PersistentLayer.RoundTrip | src/lsm_tree/simple_persistent_layer.rs:298-358 | writing any items that each fit a block and reading the file back returns exactly these items |
| PersistentLayer.SearchBlocks | src/lsm_tree/simple_persistent_layer.rs:224-246 | the binary search over blocks ends at an item with the key or at one below it, and always opens a block that exists |
| PersistentLayer.Seek | src/lsm_tree/simple_persistent_layer.rs:195-265 | seeking lands where a linear scan of the layer lands, for all three kinds of bound |
| LsmTree.MergedIs | src/lsm_tree.rs:157-180 | what a compaction writes is sorted and has the newest item of every key |
| LsmTree.DropLookup | src/object_store/flush.rs:159-174 | dropping tombstones from a layer changes no lookup, with tombstones read as absent |
| LsmTree.CompactionKeeps | src/object_store/tree.rs:43-92 | replacing the newest layers by their merge changes nothing; without tombstones it changes nothing if no layer is kept |
| LsmTree.TombstonesAreNeeded | src/object_store/tree.rs:82-88 | dropping tombstones although a layer is kept would bring deleted keys back |
| LsmTree.ChooseSplit | src/object_store/tree.rs:43-80 | compaction takes the layers before the first one that is more than 4/3 of all before it, less the last of these exactly if it is big and the only one in a file; every layer kept is in a file |
| LsmTree.Tree.Find | src/lsm_tree.rs:256-269 | agrees with a plain map |
| LsmTree.Tree.Insert | src/lsm_tree.rs:220-230 | fails exactly if the mutable layer has the key; otherwise updates the plain map |
| LsmTree.Tree.ReplaceOrInsert | src/lsm_tree.rs:232-242 | updates the plain map |
| LsmTree.Tree.Seal | src/lsm_tree.rs:133-146 | the plain map is unchanged |
| LsmTree.Tree.Flush | src/object_store/tree.rs:36-92 | the plain map is unchanged, with exactly the layers replaced that the size rule picks; all layers are in files afterwards |
| LsmTree.Tree.AppendLayers | src/lsm_tree.rs:117-124 | every key that a layer of the tree mentions keeps its value; any other key has the value of the newest base layer that has it |
| AllocatorMerge.PassOk | src/object_store/allocator/merge.rs:20-139 | every case of the merge function keeps what the layers together say about each byte, and makes progress |
| AllocatorMerge.MergedView | src/object_store/allocator/merge.rs:20-139 | merging any number of layers ends, with ordered non-overlapping extents that give each byte the value of the newest layer that mentions it |
| AllocatorMerge.FilterView | src/object_store/allocator/merge.rs:141-145 | filtering tombstones turns deallocated bytes into free ones and changes nothing else |
| AllocatorMerge.MergedWhole | src/object_store/allocator/merge.rs:20-139 | merging layers of whole blocks yields whole blocks: every split, cut and join falls on a block boundary |
| AllocatorMerge.RecordsShow | src/object_store/allocator/merge.rs:141-145 | the filtered merge of layers of whole blocks ends with disjoint whole-block records that give each byte what the newest layer says, tombstones read as free |
| AllocatorMerge.IterReads | src/object_store/allocator.rs:628-640 | iterating over the tree of the allocator from any search key on, although it consults all other layers only when it advances, read in order and before tombstones are filtered, gives every byte what the newest layer says |
| AllocatorMerge.DeallocateConsultsAll | src/object_store/allocator.rs:1082-1094 | the search key of `deallocate` makes the merger consult all layers, whatever is in them |
| AllocatorMerge.DeallocateSees | src/object_store/allocator.rs:1082-1096 | so `deallocate` walks over records that do not overlap and show every byte from the start of the range on as the tree does |
| AllocatorMerge.MergeIntoOverwrites | src/object_store/allocator.rs:315-320 | merging an extent into the mutable layer from its lower bound overwrites exactly its bytes |
| AllocatorSpace.FirstGap | src/object_store/allocator.rs:940-979 | returns the first gap, cut to the requested length and aligned; no space exactly if every byte is taken; inconsistent only for an implausible record |
| AllocatorSpace.WalkAllocated | src/object_store/allocator.rs:1069-1139 | the deallocation covers allocated bytes only and all of the range, unless nothing is allocated beyond; it fails exactly if a record it reaches is misaligned, or a byte of the range is not allocated and a later one is |
| AllocatorSpace.TakeFlushed | src/object_store/allocator.rs:1161-1178 | takes exactly the deallocations whose log offset is below the flushed one, in order |
| AllocatorSpace.CoverBound | src/object_store/allocator.rs:543-546 | in every reachable state, also inside a device flush and during a scan, the bytes a search sees as taken are at most the unavailable bytes plus those of dropped allocations |
| AllocatorSpace.SearchFindsSpace | src/object_store/allocator.rs:774-780 | once dropped allocations are drained after a false `needs_sync`, a byte exists that an open scan does not see as taken, before or after the splices that wait for it |
| AllocatorSpace.OpSeen | src/object_store/allocator.rs:905-979 | a scan that opened the reserved allocations before the tree sees every range still held, although inserts and erases go on and a commit moves a range from one list to the other in between |
| AllocatorSpace.SearchCore | src/object_store/allocator.rs:940-979 | what such a scan finds free is disjoint from everything held at the moment it is taken |
| AllocatorSpace.StepOk | src/object_store/allocator.rs:905-1015 | every step keeps counters, tree, reserved allocations and operations in agreement |
| AllocatorSpace.AllocationsAreExclusive | src/object_store/allocator.rs:940-1015 | in every run, with commits, drops, deallocations and flushes interleaved with the scan, an allocated range is non-empty, made of whole blocks, inside the device and disjoint from everything committed, uncommitted, or deallocated and not yet flushed |
| AllocatorSpace.SearchSucceeds | src/object_store/allocator.rs:905-979 | after every run, a search that follows a false `needs_sync` merges and filters the layers it opened, and returns a non-empty whole-block range inside the device: neither out of space nor inconsistent |
| Reservations.Covered | src/object_store/allocator.rs:983-1003 | pending allocations charged to the reservations of an account are covered by their amounts |
| Reservations.UnborrowedIsFree | src/object_store/allocator.rs:277-288 | a reservation without holds and transactions has nothing set aside, so the assertion in its drop holds |
| Reservations.StepOk | src/object_store/allocator.rs:174-300 | no assertion of the reservation code fails and no subtraction underflows, and every step keeps the law |
| Reservations.Conservation | src/object_store/allocator.rs:555-584 | in every run, per owner, reserved bytes are the top-level amounts less the pending allocations charged to them plus what `mark_allocated` left behind; uncommitted bytes are those of pending allocations; used bytes never exceed the device |
| Reservations.ConservationExactly | src/object_store/allocator.rs:1037-1041 | after every run, the law without that surplus holds exactly if no non-empty range was marked against a transaction reservation |
| Reservations.MarkingLeaks | src/object_store/allocator.rs:1037-1041 | for every owner and length, a run of four steps after which all reservations and transactions are gone and the length is still reserved |
| Reservations.NothingFails | src/object_store/allocator.rs:562-584 | after every run, every possible step is free of failing assertions and underflow |
| Reservations.NothingLeaks | src/object_store/allocator.rs:848-856 | once reservations and transactions are gone, uncommitted bytes are zero and reserved bytes are what `mark_allocated` left behind; the zero assertions of the drop of the allocator hold exactly if no non-empty range was marked against a transaction reservation |
| AllocatorCounters.AllocatedIsCommitted | src/object_store/allocator.rs:1307-1382 | in every run, per owner, allocated bytes are all allocations committed less all deallocations committed, and the latter are counted as deallocated |
| AllocatorCounters.UsedMoves | src/object_store/allocator.rs:555-584 | every step changes the used bytes by exactly what it takes from the free space or gives back; committing an allocation does not change them |
| AllocatorCounters.LimitChecked | src/object_store/allocator.rs:526-538 | after a reservation or `mark_allocated` for an owner, its used bytes are within its limit |
| AllocatorCounters.LimitKept | src/object_store/allocator.rs:526-538 | an owner within its limit stays there, exactly unless its limit is lowered, it allocates from a reservation without owner, or bytes of another owner return to one of its reservations, beyond the limit |
| AllocatorCounters.RoomExactly | src/object_store/allocator.rs:1210-1247 | there is room for an amount exactly if it fits the device and the limit of the owner |
| ReservationObjects.Allocator.UsedBytes | src/object_store/allocator.rs:550-553 | the loop sums what all owners use and what is unattributed |
| ReservationObjects.Allocator.Reserve | src/object_store/allocator.rs:1210-1227 | succeeds exactly if owner limit and device have room, and then is the step Reserve and leaves the owner within its limit; otherwise nothing changes |
| ReservationObjects.Allocator.ReserveAtMost | src/object_store/allocator.rs:1229-1247 | the step Reserve with the smaller of the amount and the room; the owner is within its limit |
| ReservationObjects.Allocator.ReserveBlocks | src/object_store/allocator.rs:889-902 | without a transaction reservation, `allocate` reserves the most whole blocks that fit |
| ReservationObjects.Allocator.AllocateCharged | src/object_store/allocator.rs:880-1003 | with a transaction reservation: holding, counting what was found, forgetting and dropping the hold set exactly the found bytes aside, and used bytes stay the same |
| ReservationObjects.Allocator.AllocateLoose | src/object_store/allocator.rs:889-1003 | without one: what was reserved and not found goes back; used bytes grow by exactly the found bytes |
| ReservationObjects.Allocator.MarkAllocated | src/object_store/allocator.rs:1017-1052 | fails exactly if device, owner limit or reservation have no room, and then changes nothing; otherwise is the step of marking with or without a reservation |
| ReservationObjects.Allocator.CommitAllocation | src/object_store/allocator.rs:1307-1330 | the pending bytes become allocated bytes of the owner and used bytes stay the same; no subtraction underflows and the conservation law is kept |
| ReservationObjects.Allocator.DropAllocation | src/object_store/allocator.rs:1428-1447 | the pending bytes go back to the reservation, no subtraction underflows and the conservation law is kept |
| ReservationObjects.Allocator.CommitDeallocation | src/object_store/allocator.rs:1332-1382 | freed bytes leave the allocated bytes of the owner for the deallocated ones, and go to the reservation or else to the free space; the conservation law is kept |
| ReservationObjects.Allocator.DropSums | src/object_store/allocator.rs:848-856 | the loops of the drop find no uncommitted bytes, and no reserved ones exactly if nothing was left behind by marking |
| ReservationObjects.Reservation.ReserveAtMost | src/object_store/allocator.rs:224-229 | the step Hold with the smaller of the amount and what is available |
| ReservationObjects.Reservation.Reserve | src/object_store/allocator.rs:232-240 | the step Hold with exactly the amount if that is available, and otherwise nothing |
| ReservationObjects.Reservation.Commit | src/object_store/allocator.rs:244-248 | simulates the step Commit: neither subtraction underflows and the conservation law is kept |
| ReservationObjects.Reservation.MoveTo | src/object_store/allocator.rs:266-274 | simulates Forget on one and Add on the other reservation: what one loses the other gains, and the conservation law is kept |
| ReservationObjects.Reservation.GiveBack | src/object_store/allocator.rs:258-263 | simulates GiveBack: amount and reserved bytes of the owner shrink together and the conservation law is kept |
| ReservationObjects.Reservation.Drop | src/object_store/allocator.rs:277-300 | simulates DropReservation: the assertion in the code holds, and what is left returns to the allocator or to the reservation the hold was taken from |
| AllocatorRecovery.ReplayJournal | src/object_store/journal.rs:976-984 | applies exactly the records whose transaction is not before the recorded offset |
| AllocatorRecovery.OpenCounters | src/object_store/allocator.rs:683-728 | fails exactly if the entries together exceed the device or some owner's bytes do not fit; otherwise adds the file's counters to the replayed ones |
| AllocatorRecovery.EntriesFit | src/object_store/allocator.rs:683-728 | whenever opening is said to succeed, every test on the entries of the info file passes, the running total against the device included |
| AllocatorRecovery.CountersOp | src/object_store/allocator.rs:1307-1382 | applying an allocation or deallocation keeps each owner's counter equal to the number of its bytes |
| AllocatorRecovery.SealLive | src/object_store/allocator.rs:1390-1407 | BeginFlush changes nothing that is shown, and its snapshot is the map and the counters at that moment |
| AllocatorRecovery.FollowsEnd | src/object_store/allocator.rs:1408-1421 | replaying EndFlush leaves exactly what came after BeginFlush, so that with the new info file the whole map and the counters result |
| AllocatorRecovery.StepOk | src/object_store/allocator.rs:1277-1426 | every mutation, super-block, crash and abandoned flush keeps replay and the running allocator in agreement |
| AllocatorRecovery.RecoveryIsExact | src/object_store/allocator.rs:664-752 | in every run, crashing now, replaying from the recorded checkpoint and opening succeeds, the total of the info file against the device included, and gives the same owner of every byte and the same counters, across interrupted and repeated flushes and earlier crashes |
| AllocatorRecovery.Recover | src/object_store/allocator.rs:664-752 | the two loops run one after the other on the journal and the info file of any run succeed and return exactly the counters of the running allocator |
| EncryptedMutations.ApplyTwice | src/crypt.rs:233-254 | applying the key stream twice gives the data back |
| EncryptedMutations.RecordsPush | src/object_store.rs:220-231 | pushing a mutation records it under its own transaction, whether or not the count of the last one is raised |
| EncryptedMutations.RecordsExtend | src/object_store.rs:207-218 | appending a log shifts its key rolls so that it records the two in sequence |
| EncryptedMutations.Decrypt | src/object_store.rs:1455-1472 | the loop over key rolls fails exactly if their positions are out of order or beyond the data, and otherwise decrypts each part with its key |
| EncryptedMutations.DecryptsRecorded | src/object_store.rs:1455-1472 | decrypting what was recorded gives the mutations in order, through any number of key rolls |
| EncryptedMutations.Decode | src/object_store.rs:1478-1491 | decodes every mutation under the transaction it belongs to |
| EncryptedMutations.Unlock | src/object_store.rs:1404-1491 | file and journaled mutations together give all mutations in order, each with its transaction |
| EncryptedStore.ReplayAndOpen | src/object_store.rs:1250-1262 | replay with its deque of logs, merged oldest first, records exactly the mutations that count |
| EncryptedStore.WriteDecodes | src/object_store.rs:1852-1882 | what a write adds to the journal reads back as what was written, with the key announced when first used |
| EncryptedStore.BeginFollows | src/object_store/flush.rs:96-134 | the snapshot taken at BeginFlush is where reading must start once the flush has ended |
| EncryptedStore.RelEnd | src/object_store/flush.rs:276-340 | after EndFlush, replay and the new info and file give exactly the mutations the flush did not cover, unlocked or locked |
| EncryptedStore.StepOk | src/object_store.rs:1740-1831 | every write, key roll, flush step, super-block, crash, lock and unlock keeps journal, file and memory in agreement |
| EncryptedStore.NothingIsLost | src/object_store.rs:302-326 | in every run, what replay and the file hold reads back as exactly the mutations since the last completed flush of the unlocked store |
| EncryptedStore.UnlockAfterRun | src/object_store.rs:1384-1491 | unlocking in any reachable locked state returns exactly those mutations, in order, each under its own transaction |
| Ff1Cipher.RoundInverse | src/ff1.rs:34-49 | one round of decryption undoes one round of encryption and the other way round |
| Ff1Cipher.CipherInverse | src/ff1.rs:29-76 | decryption and encryption are inverse to each other on all 32-bit numbers, for every block cipher |
| Ff1Cipher.RoundIsStandard | src/ff1.rs:17-46 | the round value is what steps 5 and 6 of FF1 prescribe for radix 2 and 32 digits without tweak, modulo 2^16 |
| Ff1Cipher.Encrypt | src/ff1.rs:29-51 | the loop computes the ten rounds |
| Ff1Cipher.Decrypt | src/ff1.rs:56-76 | the loop undoes the ten rounds from the last |
| ObjectIds.LastObjectId.MaybeGetNext | src/object_store.rs:405-422 | moves on by one and hands out its encryption, an id never seen before and not the invalid one; none exactly if the low half is used up |
| ObjectIds.LastObjectId.Roll | src/object_store.rs:1614-1657 | under a new cipher the first id is again one never seen |
| ObjectIds.LastObjectId.UpdateLastObjectId | src/object_store.rs:1689-1702 | the counter moves to the decrypted id if that is higher, and the id counts as seen whichever cipher made it |
| ObjectIds.FeedAndGet | src/object_store.rs:1580-1657 | after any ids have been fed, one with a high half, the next id is none of them; it fails only when all ids are used up |
| Trim.Scan | src/object_store.rs:1095-1132 | deallocates the live extents in order, stops when the transaction has 200 mutations, fails only on a malformed extent, and ends at the end of the last extent deallocated |
| Trim.DeletedPlace | src/object_store.rs:1140-1147 | a deleted extent up to some end leaves exactly the bytes from there on, where they were |
| Trim.TrimLive | src/object_store.rs:1095-1147 | a deleted extent up to the end of the last extent deallocated leaves live exactly the extents that were not deallocated |
| Trim.StoredFile.TrimSome | src/object_store.rs:1022-1164 | one transaction: what it deallocates and what stays live make up what was live; a step that is not the last lowers allocated_size by exactly the bytes it deallocated; it names the next attribute with data possible |
| Trim.StoredFile.Tombstone | src/object_store.rs:969-1019 | ends for any attributes and extents; deallocates the device ranges of all live extents once each; fails only on an inconsistent volume |
| PageCache.MarkPresent | src/data_buffer.rs:200-222 | exactly the pages of the range become present, readers of them are pre-empted, and the insert assertions hold |
| PageCache.NewRead | src/data_buffer.rs:763-776 | a vacant reader key, and every page of the range marked as read by it |
| PageCache.AlignRange | src/data_buffer.rs:256-272 | the range of the last read is aligned, covers the request, stays below the limit, and reads ahead by exactly as much as that allows |
| PageCache.PlanPages | src/data_buffer.rs:627-681 | the loop over existing pages plans the request up to the last of them, with reads only for pages that are not there |
| PageCache.PlanRead | src/data_buffer.rs:603-701 | the plan splits the request into consecutive segments, each copied, waited for or read; no page that is there is scheduled |
| PageCache.Cache.Resize | src/data_buffer.rs:224-251 | keeps the invariant; pages beyond the new size go, pages of a grown part are present, operations in flight are cut off |
| PageCache.Cache.Write | src/data_buffer.rs:557-566 | the data is in place and all other bytes are as they were, new ones zero; the size is the larger of the two; the pages written and grown are present for every reader in flight, all others are as they were |
| PageCache.Cache.BeginRead | src/data_buffer.rs:600-701 | keeps the invariant; existing pages and other operations stay as they are; every read planned has a new reader for its pages; the insert assertion holds |
| PageCache.Cache.BeginWrite | src/data_buffer.rs:525-556 | registers exactly the pages of the file that the write covers in part, except one that starts with the write; these are all of them exactly if the write is not inside one page from its start |
| PageCache.WriteUnread | src/data_buffer.rs:545-566 | on a file of one page that was not read, a write of the first byte makes the whole page present |
| PageCache.GrowUnread | src/data_buffer.rs:224-251 | growing a file of one byte that was not read makes its page present |
| PageCache.Cache.ReadPage | src/data_buffer.rs:446-521 | finds the operation cut off, the page ready, being read by a live reader, or schedules a read of this page only; lookups do not fail |
| PageCache.Cache.CompleteFill | src/data_buffer.rs:392-425 | fills exactly the pages that still wait for this reader; a page written since it was scheduled is not touched |
| PageCache.Cache.Drop | src/data_buffer.rs:811-829 | the readers of the operation and the pages still waiting for them go, and nothing else |
| PageCache.Cache.Quiet | src/data_buffer.rs:811-829 | with no operation in flight there is no reader and every page is present |
| Coalescing.CoalesceIsNormal | src/object_store/allocator.rs:1613-1640 | coalescing keeps the value of every byte and leaves no two records that could be joined |
| Coalescing.NormalIsUnique | src/object_store/allocator.rs:1613-1640 | two normal forms that say the same about every byte have the same ranges and values |
| Coalescing.CoalescingIterator.Advance | src/object_store/allocator.rs:1614-1640 | delivers the next record of the coalesced sequence; an error only for overlapping records |
| Fsck.ScannedNormal | src/fsck.rs:524-534 | leaving out owners that were not scanned keeps a normal form and restricts the map |
| Fsck.CrossCheck | src/fsck.rs:513-568 | missing are the expected records no scanned record equals, extra the scanned records no expected one overlaps, mismatched those that one overlaps and none equals; nothing is reported exactly if the scanned records are the expected ones; the totals are right exactly if no expected record without an equal scanned record ends before a scanned record starts |
| Fsck.WrongTotals | src/fsck.rs:536-563 | an expected byte that the allocator lacks, before a byte it has, makes the totals wrong |
| Fsck.VerifyAllocations | src/fsck.rs:496-578 | nothing is reported exactly if the allocator's map restricted to scanned owners equals the map rebuilt from extents; a clean report has the right totals |
| Fsck.TotalsMismatch | src/fsck.rs:582-593 | compares the sums, and the entries pairwise as far as both maps have any |
| Fsck.TotalsMeaning | src/fsck.rs:582-593 | for non-negative entries, no mismatch exactly if one of the two lists continues the other with zeros |
| Fsck.FalseAlarm | src/fsck.rs:582-593 | an entry of zero bytes in front makes the comparison fail although all totals agree |

## Left out

- Journal, transactions, locks, object manager and device I/O appear only through the steps they cause: transactions are atomic, journal offsets do not decrease, super-blocks and crashes fall between transactions.
- Keys of point layers are integers, standing for the rank of a key; only comparisons are used. Item counts, epochs and offsets are unbounded, except where truncation matters (the 65535 items of a block, the i64 and u64 casts of the allocator's counters, 16-bit halves of the cipher, 32-bit halves of object ids).
- Layers of the allocator in AllocatorRecovery are functions from bytes to values; AllocatorMerge proves that merging extents has that meaning.
- AllocatorSpace: counters are summed over owners; a search opens the reserved allocations and then the tree, each in one step, and takes its range in a third; a device flush takes a deallocation only once its merge into the tree is over; `mark_allocated` (which does not take the allocation lock) and MarkForDeletion are not modelled.
- AllocatorSpace.SearchSucceeds: the layers are any whole-block layers that show what the scan sees; that the layers of the tree are such layers is not derived from the steps that wrote them.
- Reservations: the deallocated bytes of an owner are not reduced by a device flush, which AllocatorSpace models for all owners together; give_back is one step, because the code asks callers not to reserve from a reservation at the same time; live counters of allocated bytes are non-negative (AllocatorRecovery proves it for the journal).
- AllocatorRecovery: SetLimit and MarkForDeletion mutations are not modelled.
- EncryptedStore: read-only unlock, key wrapping and the recovery of the object id counter are not modelled; keys are names of key streams.
- MergeInto.Run: works on a list with a cursor; that the mutable iterator of the skip list behaves like one is what SkipListLayer proves.
- LsmTree: items of point keys only; ExtentMerge has the extents of one attribute of a file, without checksums, and no other records of the object store.
- PersistentLayer: versions and the contents of the layer information block are not modelled; an item that does not fit a block is excluded, as the writer underflows on it.
- Trim: only tombstoning, not trimming to a size; the extents with data of an attribute are in order, as the merger returns them.
- PageCache: the bytes that reads return, waking of waiting readers and sources with blocks larger than a page are not modelled; completing a fill and dropping pages are stated on maps instead of a walk over the pages in order.
- Fsck: checks other than the allocation cross-check are not modelled.
- Fuchsia and FUSE bindings, metrics, tracing and the command line are not modelled.
