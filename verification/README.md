# Verified model of the lyr kernel's core

This project models the state-changing core of the lyr kernel in Dafny and proves what it promises. To check it, run
`dafny verify dfyconfig.toml`.

Imperative code is modelled as imperative code: classes whose fields are the kernel's variables, with the loops of the
source, proved against functions and relations on values. Main results are about every run and every reachable state.
Panics and error returns are outcomes, and which of them are reachable is part of the results. Words of memory, bytes of
disk blocks, 16-, 32- and 64-bit wrap-around and bitmaps are written out where the code depends on them.

| files | what they model | main results |
|---|---|---|
| `Machine`, `Pmm`, `PageTree`, `FrameCounts`, `Memory`, `Paging`, `Boot` | frames with their free list and counts; four-level page tables in memory; booting | tables refine a flat map; counts are exact; exactly which calls can panic |
| `Vad`, `Cow`, `Vmm`, `Runs`, `Calls` | address spaces as sorted area lists; fork by copy-on-write; the fault handler; any sequence of calls | copy-on-write refines eager copying over whole runs; isolation; conservation of frames; every mapping at the lowest place from its hint on; only exhausted memory can panic |
| `Ext2Disk`, `Ext2Map`, `Ext2`, `Ext2File`, `Ext2Dir` | bitmaps, indirect block maps, regular files, directory records | the layout on disk; growing one file changes no other index of any file; files are byte arrays; directories are finite maps |
| `Block` | devices, partitions and byte access | both paths act as a slice of a window of the disk |
| `Pipe` | pipes and wait queues as interleaved steps | no lost wake-up; stream order; end of file after the last close |
| `Sched`, `Ids` | run queues, load counters, exits, reaping, ids | each live thread in one place; exact load; bounded waiting; a dying process is not dispatched again |
| `TmpfsTree`, `TmpfsFile` | directory trees under rename; page-backed files | rooted trees in every run; exactly when a rename goes through; subtrees move whole; files are byte sequences |
| `Slab` | free lists threaded through pages, partial and full lists | live objects disjoint and in their pages; a page goes back with its last object |
| `Cpio` | the archive writer and the kernel's reader | extraction of a written archive makes each entry's file or directory, with its contents |
| `Bytes`, `Lists`, `Sizes` | shared facts about bytes, offsets and lists | |

Where the code does not keep a property for all inputs, the code is kept as it is, a lemma gives inputs that show it, and
another states exactly when the property holds:

- an unmapping whose 64-bit end wraps inside an area (`Areas.UnmapCanOverlap`, `Areas.RemoveRangeKeepsOrderIff`);
- an unmapping or a check of a range whose rounded length misses its last page or rounds up to 0
  (`Areas.StraddlingUnmapLeavesAPage`, `Areas.UnmapIff`; `Areas.StraddlingRangeLooksMapped`, `Areas.HugeRangeLooksMapped`,
  `Areas.RangeMappedIff`);
- a search hint of 0 or in the last page (`Areas.ZeroHintLooksFull`, `Areas.WrappedHintGoesLow`, `Areas.FirstFitIff`);
- a mapping whose length rounds up to 0 (`VirtualMemory.HugeMapListsAnEmptyArea`, `VirtualMemory.AnonListOKIff`);
- mapping a frame over its own last reference (`VirtualMemory.FreshPageCannotBeRemapped`, `Paging.LastReference`);
- ext2 offsets of 2^32 blocks and more (`Ext2Files.FarWriteHitsTheStart`, `Ext2Files.IndexIsExact`);
- removing a directory record that has, with the one before it, 65536 bytes or more: the directory may become unreadable, or an
  old name may come back (`Ext2Dirs.LongRemovalLosesAll`, `Ext2Dirs.StaleNameReturns`, `Ext2Dirs.RemoveIff`);
- aligned transfers of 2^32 blocks and more (`BlockLayer.HugeReadMovesNothing`, `BlockLayer.HugeWriteMovesNothing`, `BlockLayer.MovesAll`);
- a tmpfs write that cannot get its pages (`TmpfsFiles.ShortWriteShows`, `TmpfsFiles.Inode.Write`, `TmpfsFiles.CleanWithoutGrowth`);
- tmpfs sizes within a page of 2^64 (`TmpfsFiles.HugeTruncateWipes`, `TmpfsFiles.Inode.Truncate`);
- 2^32 wake-ups while a reader is on its way to sleep (`Pipes.WrappedTicketLosesWakeup`, `Pipes.SleepLosesIff`);
- giving back an id that was never handed out (`Ids.ForeignIdComesTwice`, `Ids.IdPool.Free`).

Runs of the memory manager are stated twice. `MemoryRuns` is about sequences of operations, each as the methods of `Vmm`
guarantee it. `MemoryCalls.Processes.Execute` loops over any sequence of calls, makes them through those methods, and
proves that the result is such a run. Calls that would break an area list, by the two conditions above, are not made.

How the memory model reads the machine: a 64-bit word is the lossless pair of the frame number in bits 12 to 51 and the
other bits. `held` are the references that belong to no table and no mapping: handles of the running code. `dir`, `flat`
and the free list as a sequence are ghost views tied to the words in memory by the invariant. For ext2, `own` is the ghost
map from each block in use to the slot that names it. A consistent image has every referenced, metadata and padding block
marked, no block named twice and counts that agree with the bitmaps.

## Model

| member | source | states |
|---|---|---|
| `PhysicalMemory.Pmm.constructor` | kernel/src/mm/pfndb.c:98-136 | a frame is flagged free exactly if it is a whole frame of a usable region and not frame 0; every other is reserved; no references |
| `Boot.MaxPfn` | kernel/src/mm/pfndb.c:11-26 | the least number no usable region reaches beyond |
| `Boot.Reserve` | kernel/src/mm/pfndb.c:28-51 | the first usable region that is large enough loses its beginning to the database; a panic exactly if there is none |
| `Boot.DatabaseIsTaken` | kernel/src/mm/pfndb.c:28-51 | on a memory map as the boot protocol promises it, exactly the frames of the database stop being usable |
| `Boot.Start` | kernel/src/mm/pfndb.c:98-136 | booting ends in the invariant of the paging layer, with exactly the usable frames except frame 0 and the database on the free list, none of which holds a byte of a record; the one panic is a map without room for the database |
| `Boot.RecordsAreReserved` | kernel/src/mm/pfndb.c:28-51 | the 64-byte records of all frames lie in the frames reserved for them |
| `PhysicalMemory.Pmm.Init` | kernel/src/mm/pmm.c:140-172 | the list is acyclic and holds, in ascending order, exactly the frames flagged free and not reserved; nothing is scrubbed; `free_pages` is its length |
| `PhysicalMemory.Pmm.PushNoScrub` | kernel/src/mm/pmm.c:67-85 | the frame becomes the head of a list that stays linked in both directions, and no record outside the list changes |
| `PhysicalMemory.Pmm.PallocPage` | kernel/src/mm/pmm.c:113-205 | returns the head of the list with one reference and no mapping; it panics exactly when the list is empty, so no validator in between can fire |
| `PhysicalMemory.Pmm.PageRef` | kernel/src/mm/pmm.c:207-217 | one reference more; a panic exactly on a frame that does not look used |
| `PhysicalMemory.Pmm.ValidateUsed` | kernel/src/mm/pmm.c:53-64 | each of the three panics fires exactly on its own condition, poison first, and none on a frame that looks used |
| `PhysicalMemory.Pmm.PageUnref` | kernel/src/mm/pmm.c:219-265 | one reference fewer; the last one scrubs the frame and puts it at the head of the list; the panics are exactly an unused frame and a last reference with mappings left |
| `PhysicalMemory.Pmm.PageShare` | kernel/src/mm/pmm.c:267-282 | one mapping more and the shared flag set iff there are then more than one |
| `PhysicalMemory.Pmm.PageUnshare` | kernel/src/mm/pmm.c:284-309 | one mapping fewer, never below zero, and the shared flag kept equal to "more than one" |
| `PhysicalMemory.Pmm.PageSetCow` | kernel/src/mm/pmm.c:311-335 | only the copy-on-write mark of that frame changes |
| `PhysicalMemory.ListedOK` | kernel/src/mm/pmm.c:67-85 | pushing keeps the list distinct, doubly linked and counted |
| `PhysicalMemory.PushedOK` | kernel/src/mm/pmm.c:87-111 | the same for a freed frame, which is zeroed |
| `PhysicalMemory.PoppedOK` | kernel/src/mm/pmm.c:113-138 | popping keeps the list and leaves every other record alone |
| `PhysicalMemory.PopUndoesPush` | kernel/src/mm/pmm.c:87-138 | the frame freed last is the next one handed out, scrubbed, and the list is back where it was |
| `PageTree.IndicesAreDigits` | kernel/src/mm/paging.c:39-54 | the four indices are the base-512 digits of the page number of every 48-bit address |
| `PageTree.LinkTable` | kernel/src/mm/paging.c:77-93 | linking a fresh zeroed table into an absent entry keeps every table reached from exactly one entry and every translation |
| `PageTree.WriteLeaf` | kernel/src/mm/paging.c:160-195 | writing one leaf entry adds exactly one translation to the flat map |
| `PageTree.ForgetLeaf` | kernel/src/mm/paging.c:231-258 | forgetting a translation whose entry is still in memory leaves all others |
| `PageTree.ZeroDead` | kernel/src/mm/paging.c:231-258 | zeroing such an entry repairs the tree; only that table may have become empty |
| `PageTree.DropTable` | kernel/src/mm/paging.c:67-75 | freeing a table with no live entry removes no translation |
| `PageTree.PlantRoot` | kernel/src/mm/paging.c:286-306 | a new PML4 with an empty lower half is a tree of its own |
| `PageTree.WalkFindsFlat` | kernel/src/mm/paging.c:95-111 | the four-level walk finds an entry exactly for the pages of the flat map, and finds that entry |
| `PageTree.MappedHasPath` | kernel/src/mm/paging.c:95-111 | every mapped page has all four tables on its path |
| `FrameCounts.ShareUnique` | kernel/src/mm/pmm.c:267-282 | a frame with one mapping is named by one page |
| `FrameCounts.SharedIff` | kernel/src/mm/pmm.c:267-282 | a mapped frame has more than one mapping exactly when a second page names it |
| `FrameCounts.CountAlloc` | kernel/src/mm/pmm.c:191-205 | giving a popped frame its first owner keeps all counts exact |
| `FrameCounts.CountUnref` | kernel/src/mm/pmm.c:219-265 | dropping an owner that is not a mapping keeps them exact, whether or not the frame is freed |
| `FrameCounts.CountMap` | kernel/src/mm/paging.c:160-195 | a new mapping with `page_share` and `page_ref` keeps them exact |
| `FrameCounts.CountUnmap` | kernel/src/mm/paging.c:231-258 | a removed mapping with `page_unshare` keeps them exact |
| `Memory.LeafSetOK` | kernel/src/mm/paging.c:160-195 | the whole invariant (tables, translations, counts, free list) after an entry is written, with all data frames untouched |
| `Memory.EntryZeroedOK` | kernel/src/mm/paging.c:231-258 | the same after an entry is cleared |
| `Memory.TableDroppedOK` | kernel/src/mm/paging.c:67-75 | the same after an empty table is freed |
| `Memory.DataWriteOK` | kernel/src/mm/paging.c:160-195 | a store into a frame that holds data cannot change a page table, because no data frame is a table |
| `Paging.Mmu.constructor` | kernel/src/mm/paging.c:419-476 | no table, no mapping and no handle: the invariant holds |
| `Paging.Mmu.TableNext` | kernel/src/mm/paging.c:77-93 | the table behind an entry, created if absent; no translation changes and the one panic is an exhausted frame list |
| `Paging.Mmu.LeafEntry` | kernel/src/mm/paging.c:95-111 | the level-1 table on the path of a page; no translation changes; out of memory exactly if more tables are missing on the path than frames are free |
| `Paging.Mmu.MapPage` | kernel/src/mm/paging.c:160-195 | the flat map changes at exactly that page and the previous frame loses the mapping; out of memory exactly if more tables are missing on the path than frames are free, and otherwise a panic of `page_share` exactly on a frame that nothing but the replaced entry owned |
| `Paging.Mmu.WriteEntry` | kernel/src/mm/paging.c:179-191 | the flat map after the entry is written over whatever was there, or the panic of a frame left without owner |
| `Paging.Mmu.AddMapping` | kernel/src/mm/paging.c:188-191 | entry, mapping count and reference count move together; a panic exactly on a frame without owners |
| `Paging.LastReference` | kernel/src/mm/paging.c:160-195 | the condition of that panic as a caller can check it: the frame is mapped at this very page and has one reference |
| `Paging.Mmu.DropMapping` | kernel/src/mm/paging.c:179-186 | unshare and unref of the old frame cannot panic, whoever else owns it |
| `Paging.Mmu.UnmapPage` | kernel/src/mm/paging.c:231-258 | exactly that translation goes, emptied tables are pruned, nothing panics |
| `Paging.Mmu.ClearEntry` | kernel/src/mm/paging.c:246-254 | the entry and one mapping go; the only table that may now be empty is its own |
| `Paging.Mmu.TableEmpty` | kernel/src/mm/paging.c:150-156 | true exactly when no entry is present |
| `Paging.Mmu.FreeEmpty` | kernel/src/mm/paging.c:332-367 | afterwards no present table on the path is empty, and no translation and no data changed |
| `Paging.Mmu.PruneFrom` | kernel/src/mm/paging.c:351-366 | pruning stops at the first table that is still in use |
| `Paging.Mmu.Prune` | kernel/src/mm/paging.c:67-75 | an empty table goes back to the frame list and its entry is zeroed |
| `Paging.Mmu.AllocPage` | kernel/src/mm/pmm.c:191-205 | the caller holds the only reference to a frame that nobody owned, and no data frame changed |
| `Paging.Mmu.RefPage` | kernel/src/mm/pmm.c:207-217 | one more handle on an owned frame; it cannot panic |
| `Paging.Mmu.UnrefPage` | kernel/src/mm/pmm.c:219-265 | one handle fewer; it cannot panic |
| `Paging.Mmu.SetCow` | kernel/src/mm/pmm.c:311-335 | the mark of one owned frame |
| `Paging.Mmu.StoreFrame` | kernel/src/mm/vmm.c:485-487 | a store lands in one data frame and changes no table |
| `Paging.Mmu.GetPhys` | kernel/src/mm/paging.c:260-271 | agrees with the flat map for every address: frame plus offset, or 0 exactly when unmapped |
| `Paging.Mmu.GetMappingFlags` | kernel/src/mm/paging.c:273-284 | agrees with the flat map: the flag bits, or none exactly when unmapped |
| `Paging.Mmu.PtableCreate` | kernel/src/mm/paging.c:286-306 | a new root with no translations and the kernel's upper half; all others unchanged |
| `Paging.Mmu.FreeLevel` | kernel/src/mm/paging.c:113-148 | frees exactly the tables and translations below an entry, in any order of sharing |
| `Paging.Mmu.FreeLeaves` | kernel/src/mm/paging.c:118-130 | the loop over leaf entries drops exactly one mapping each |
| `Paging.Mmu.FreeTables` | kernel/src/mm/paging.c:136-145 | the loop over higher entries frees exactly what hangs below each |
| `Paging.Mmu.PtableDestroy` | kernel/src/mm/paging.c:308-330 | every lower-half translation and table of that root goes and nothing of any other root |
| `Paging.WalkMeansFlat` | kernel/src/mm/paging.c:260-271 | a walk in memory and the flat map give the same answer for every user page |
| `Areas.InsertOK` | kernel/src/mm/vmm.c:56-63 | insertion into a sorted, aligned, disjoint list keeps it so |
| `Areas.InsertContents` | kernel/src/mm/vmm.c:56-63 | exactly one area is added |
| `Areas.InsertAt` | kernel/src/mm/vmm.c:56-63 | addresses of the new area get its backing; every other address keeps its own |
| `Areas.RemoveRangeOK` | kernel/src/mm/vmm.c:65-92 | removal keeps the list sorted, aligned and disjoint, including a split into two |
| `Areas.RemoveRangeAt` | kernel/src/mm/vmm.c:65-92 | exactly the addresses in the range lose their backing; protection and file offset of every other address stay |
| `Areas.RemoveRangeKeepsOrderIff` | kernel/src/mm/vmm.c:65-92 | with a 64-bit end the list stays sorted and disjoint if and only if the end did not wrap below the start inside one area |
| `Areas.UnmapCanOverlap` | kernel/src/mm/vmm.c:324-351 | a concrete wrapping length that leaves two overlapping areas |
| `Areas.FirstFitIff` | kernel/src/mm/vmm.c:94-112 | for every hint: first fit, except for hint 0 if address 0 fits, and for hints in the last page if something fits above 0 and nothing at 0 |
| `Areas.LowestPlace` | kernel/src/mm/vmm.c:94-112 | for every hint: the answer is the lowest page-aligned place from the hint on that meets no area and ends in user space, and 0 means there is none, with the two exceptions written out |
| `Areas.ZeroHintLooksFull` | kernel/src/mm/vmm.c:94-112 | with hint 0 an empty space answers that nothing fits |
| `Areas.FindFreeFits` | kernel/src/mm/vmm.c:94-112 | whatever the hint, a nonzero result overlaps no area |
| `Areas.WrappedHintGoesLow` | kernel/src/mm/vmm.c:94-112 | a hint in the last page is answered from below it |
| `Areas.HugeRangeLooksMapped` | kernel/src/mm/vmm.c:405-428 | a length within a page of 2^64 counts as mapped in a space without areas |
| `Areas.StraddlingRangeLooksMapped` | kernel/src/mm/vmm.c:405-428 | two bytes across a page boundary count as mapped when only the first page is |
| `Areas.RangeMappedIff` | kernel/src/mm/vmm.c:405-428 | which starts and lengths get the right answer on every list of areas, and only those |
| `Areas.UnmapIff` | kernel/src/mm/vmm.c:324-351 | for which starts and lengths exactly the pages of the range go, on every list of areas, and only for those |
| `Areas.StraddlingUnmapLeavesAPage` | kernel/src/mm/vmm.c:324-351 | unmapping two bytes across a page boundary leaves the second page |
| `Areas.EmptyAreaBreaks` | kernel/src/mm/vmm.c:56-63 | an empty area breaks every list |
| `Areas.Vas.InsertArea` | kernel/src/mm/vmm.c:56-63 | the loop computes `Insert` |
| `Areas.Vas.RemoveAreas` | kernel/src/mm/vmm.c:65-92 | the in-place loop computes `RemoveRange`, also where a right part is visited again |
| `Areas.Vas.FindFreeBase` | kernel/src/mm/vmm.c:94-112 | the loop computes `FindFree` |
| `Areas.Vas.Overlaps` | kernel/src/mm/vmm.c:114-123 | true exactly when some area meets the range, although the loop stops early |
| `Areas.Vas.RangeMapped` | kernel/src/mm/vmm.c:405-428 | the scan is right about the rounded range, and about the range asked for exactly where `RangeMappedIff` says |
| `CopyOnWrite.EntryBits` | kernel/src/mm/vmm.c:125-138 | the bits of every mapped page are those of its area, with present set and at most the right to write taken away, which happens only to private memory |
| `CopyOnWrite.UnmappedOK` | kernel/src/mm/vmm.c:324-351 | unmapping keeps the sharing discipline of all spaces |
| `CopyOnWrite.DestroyedOK` | kernel/src/mm/vmm.c:181-196 | destroying a space keeps that of the others |
| `CopyOnWrite.CreatedOK` | kernel/src/mm/vmm.c:164-179 | a new space keeps it |
| `CopyOnWrite.MappedAnonOK` | kernel/src/mm/vmm.c:198-234 | fresh private pages keep it |
| `CopyOnWrite.ClonedOK` | kernel/src/mm/vmm.c:526-581 | cloning keeps it: every private writable page that is shared is read-only and marked in both spaces |
| `CopyOnWrite.FaultedOK` | kernel/src/mm/vmm.c:448-493 | breaking a share keeps it |
| `CopyOnWrite.StoredOK` | kernel/src/mm/vmm.c:448-493 | a store changes exactly the pages that are meant to see it |
| `VirtualMemory.Vmm.constructor` | kernel/src/mm/vmm.c:164-179 | no space yet |
| `VirtualMemory.Vmm.CommitAnon` | kernel/src/mm/vmm.c:125-138 | each page of the range gets a frame of its own; nothing else changes |
| `VirtualMemory.Vmm.CommitPage` | kernel/src/mm/vmm.c:129-136 | one such page |
| `VirtualMemory.Vmm.MapAnon` | kernel/src/mm/vmm.c:198-234 | fixed: at its own page, refused exactly if that place leaves user space or meets an area; otherwise at the lowest place from the hint on, or without one from `user_start`, and refused exactly if there is none; refusal changes nothing, success commits and lists the area and moves `user_start`; the system stays good exactly if the area is not empty |
| `VirtualMemory.PlacementIs` | kernel/src/mm/vmm.c:204-219 | where the place is, in terms of the areas, for fixed and other requests |
| `VirtualMemory.AnonListOKIff` | kernel/src/mm/vmm.c:198-234 | the list of areas stays well formed exactly for lengths up to 2^64 minus a page |
| `VirtualMemory.HugeMapListsAnEmptyArea` | kernel/src/mm/vmm.c:198-234 | a mapping of 2^64 - 1 bytes lists an empty area, and fixed mappings across it are refused from then on |
| `VirtualMemory.FreshPageCannotBeRemapped` | kernel/src/mm/vmm.c:125-138 | every page just committed is a last reference, on which mapping the frame again at the same page panics |
| `VirtualMemory.Vmm.UncommitRange` | kernel/src/mm/vmm.c:158-162 | exactly the translations in the range go |
| `VirtualMemory.Vmm.Unmap` | kernel/src/mm/vmm.c:324-351 | exactly the pages of the rounded range lose coverage and translation, which are the pages asked for where `UnmapIff` says; the system stays good exactly if the end did not wrap inside an area |
| `VirtualMemory.Vmm.FinishUnmap` | kernel/src/mm/vmm.c:349-350 | the area list loses the range whose pages are gone |
| `VirtualMemory.Vmm.Destroy` | kernel/src/mm/vmm.c:181-196 | the space with its tables goes; every page of every other space keeps frame and contents |
| `VirtualMemory.Vmm.Create` | kernel/src/mm/vmm.c:164-179 | a space without areas, a search start of 0x1000 and the kernel's upper half |
| `VirtualMemory.Vmm.ClonePage` | kernel/src/mm/vmm.c:551-573 | one page of the clone: both spaces name the frame, read-only and marked if it was private and writable |
| `VirtualMemory.Vmm.CloneArea` | kernel/src/mm/vmm.c:550-577 | the loop over the pages of one area |
| `VirtualMemory.Vmm.Clone` | kernel/src/mm/vmm.c:526-581 | the copy has the same areas and both read what the source read before; every root has the kernel's upper half |
| `VirtualMemory.Vmm.RemapMarked` | kernel/src/mm/vmm.c:563-567 | the entry becomes read-only for the same frame, which is marked |
| `VirtualMemory.Vmm.RemapCleared` | kernel/src/mm/vmm.c:473-477 | the mark is cleared and the entry regains full protection |
| `VirtualMemory.Vmm.Detach` | kernel/src/mm/vmm.c:563-564 | the frame survives the unmapping on a handle |
| `VirtualMemory.Vmm.Attach` | kernel/src/mm/vmm.c:565-566 | the handle becomes a mapping |
| `VirtualMemory.Vmm.HandleFault` | kernel/src/mm/vmm.c:448-493 | 0 exactly when the page may be written; it then has full protection and a frame of its own, and no other page of any space reads differently |
| `VirtualMemory.Vmm.BreakShare` | kernel/src/mm/vmm.c:463-492 | both endings of the handler: the last owner keeps the frame, any other gets a copy |
| `VirtualMemory.Vmm.CopyPage` | kernel/src/mm/vmm.c:481-491 | the copy has the old contents and the other owners keep theirs |
| `VirtualMemory.Vmm.FreshCopy` | kernel/src/mm/vmm.c:481-487 | a fresh frame with the contents |
| `VirtualMemory.Vmm.Store` | kernel/src/mm/vmm.c:448-493 | a user store, after at most one fault, writes that word of that page and of the pages meant to share it, and no other |
| `VirtualMemory.Vmm.StoreWord` | kernel/src/mm/vmm.c:448-493 | the store itself |
| `VirtualMemory.Vmm.Load` | kernel/src/mm/vmm.c:495-523 | a user load reads the contents of the page |
| `VirtualMemory.Vmm.TouchPage` | kernel/src/mm/vmm.c:509-520 | one page of the access check |
| `VirtualMemory.Vmm.UserAccessOk` | kernel/src/mm/vmm.c:495-523 | 0 exactly when the range lies in user space and every page is present and, for a write, can be written; what it does is a sequence of faults, invisible to readers |
| `VirtualMemory.WriteRights` | kernel/src/mm/vmm.c:448-493 | an entry that is not writable in a writable area is always one the handler can break |
| `MemoryRuns.StepSimulates` | kernel/src/mm/vmm.c:526-581 | every operation, as the methods guarantee it, keeps the sharing discipline and is, to the processes, the same operation on a machine that copies eagerly |
| `MemoryRuns.RunInvariant` | kernel/src/mm/vmm.c:526-581 | areas, translations and copy-on-write marks agree in every state of a run |
| `MemoryRuns.RunKeepsKernel` | kernel/src/mm/paging.c:286-306 | in every state of a run each address space has the kernel's upper half |
| `MemoryRuns.RunRefinesEager` | kernel/src/mm/vmm.c:448-581 | along every run over any number of spaces, reads evolve exactly as on the machine that copies at clone time |
| `MemoryRuns.PrivatePagesAreIsolated` | kernel/src/mm/vmm.c:448-581 | a private page keeps its contents until its own space stores to it, unmaps it or is destroyed, whatever the others do |
| `MemoryRuns.CloneIsASnapshot` | kernel/src/mm/vmm.c:526-581 | long after cloning a private page of the copy reads what the source had at that moment |
| `MemoryRuns.SharedPagesAgree` | kernel/src/mm/vmm.c:526-581 | after cloning, a shared page and its copy stay one cell and read the same at every later point, stores by either side included, until one of them is unmapped or its space destroyed |
| `MemoryRuns.NoSpacesNoFrames` | kernel/src/mm/vmm.c:181-196 | with no space left no table and no mapping exists |
| `MemoryRuns.FramesAreConserved` | kernel/src/mm/vmm.c:181-196 | a run that ends with every space destroyed and the initial handles gives back exactly the initial set of free frames, tables included |
| `MemoryRuns.CountsAreExact` | kernel/src/mm/pmm.c:207-309 | `sharecount` is the number of present entries over all tables, `refcount` that plus tables and handles, and the shared flag means more than one |
| `MemoryRuns.RefcountFitsIn32Bits` | kernel/src/mm/pmm.c:207-217 | the counts, modelled without bound, stay below 2^32 on machines up to 16 GiB if the rest of the kernel holds few handles |
| `MemoryCalls.Processes.constructor` | kernel/src/mm/vmm.c:164-179 | a booted machine without processes |
| `MemoryCalls.Processes.Do` | kernel/src/mm/vmm.c:162-581 | any call, by name of its process, makes the operations it amounts to, out of the methods above; the only panic is exhausted memory |
| `MemoryCalls.BootAndRun` | kernel/src/mm/pfndb.c:98-136 | from the memory map through any sequence of calls the kernel stops only for want of memory, and otherwise has made a run; with no process and no handle left the free frames are exactly the usable ones but frame 0 and the database, and none holds a byte of a record |
| `MemoryCalls.Processes.Execute` | kernel/src/mm/vmm.c:162-581 | any sequence of calls by any number of processes is a run from the initial to the final state, which is good; the only panic is exhausted memory; with no process left and the initial handles, the free frames are the initial ones |
| `Ext2Disk.PtrSetPtr` | kernel/src/fs/ext2.c:509-518 | storing one little-endian pointer in a block changes that pointer and no other |
| `Ext2Disk.SetBitOf` | kernel/src/fs/ext2.c:325-330 | setting a clear bit sets that bit and no other |
| `Ext2Disk.BitSetBit` | kernel/src/fs/ext2.c:325-330 | the same in a bitmap block, for every bit number |
| `Ext2Disk.BitWeight` | kernel/src/fs/ext2.c:325-330 | bit 8i + j of a bitmap is the bit of weight 2^j of byte i |
| `Ext2Disk.SetBitsGrows` | kernel/src/fs/ext2.c:314-340 | the number of set bits grows by exactly one |
| `Ext2Map.NoBlockIsShared` | kernel/src/fs/ext2.c:408-606 | on a consistent image no two live data or pointer slots name the same disk block |
| `Ext2Map.AllocatedOK` | kernel/src/fs/ext2.c:342-372 | a block taken by the allocator was nobody's, and no block in use changed |
| `Ext2Map.FileLocInjective` | kernel/src/fs/ext2.c:408-476 | every index of every file, through all four kinds of pointer, has a place of its own |
| `Ext2Map.FileBlocksDistinct` | kernel/src/fs/ext2.c:447-476 | two indices, of the same or of two files, never share a disk block |
| `Ext2Map.FileCalm` | kernel/src/fs/ext2.c:447-476 | changes outside pointer blocks change no file's map |
| `Ext2Map.LinkedOK` | kernel/src/fs/ext2.c:509-518 | linking a fresh block into an empty slot keeps the image consistent |
| `Ext2Map.WalkAfterLink` | kernel/src/fs/ext2.c:408-445 | linking a pointer block changes no walk; linking a data block changes the one walk that ends in its slot |
| `Ext2Map.FileAfterLink` | kernel/src/fs/ext2.c:447-476 | the same for files |
| `Ext2Map.GrowOK` | kernel/src/fs/ext2.c:478-606 | allocation and linking together: no reader sees a difference and at most one hole is filled |
| `Ext2.Volume.constructor` | kernel/src/fs/ext2.c:1706-1805 | mounting a consistent image |
| `Ext2.Volume.BitmapAlloc` | kernel/src/fs/ext2.c:314-340 | the lowest clear bit is set and nothing else; failure exactly when all are set |
| `Ext2.Volume.AllocBlock` | kernel/src/fs/ext2.c:342-372 | a free block is marked and zeroed; failure exactly when no block is free; the EINVAL exit is unreachable |
| `Ext2.CountedAfterAlloc` | kernel/src/fs/ext2.c:342-372 | in every group set bits plus free count stay the size of the group, and the superblock count stays their sum |
| `Ext2.Volume.IndexSpan` | kernel/src/fs/ext2.c:398-406 | the loop computes the span of one pointer |
| `Ext2.Volume.FileBlockIndirect` | kernel/src/fs/ext2.c:408-445 | the recursive walk of the map, with its error exactly for an index out of reach |
| `Ext2.Volume.FileBlockOf` | kernel/src/fs/ext2.c:447-476 | the layout on disk: the first twelve blocks from the inode, then one, two and three steps of little-endian pointers behind slots 12, 13 and 14; 0 where a pointer on the way is 0; ENOSYS exactly from the capacity of the map on |
| `Ext2Map.Layout` | kernel/src/fs/ext2.c:447-476 | the same equations of the map of any file, for every index |
| `Ext2.Volume.AllocInto` | kernel/src/fs/ext2.c:529-544 | a block allocated into an empty pointer entry: no reader sees a difference and only that pointer block changed |
| `Ext2.Volume.AllocTop` | kernel/src/fs/ext2.c:342-372 | the same for one of the inode's own slots |
| `Ext2.Volume.EnsureIndirect` | kernel/src/fs/ext2.c:478-550 | on success the index has a block and no other index of any file changed; on failure nothing a reader sees changed |
| `Ext2.Volume.EnsureBelow` | kernel/src/fs/ext2.c:499-550 | the part below an existing root |
| `Ext2.Volume.EnsureEntry` | kernel/src/fs/ext2.c:509-524 | the last level |
| `Ext2.Volume.EnsureThrough` | kernel/src/fs/ext2.c:568-603 | through each of the three indirect slots; a root that was never stored leaves every file as it was |
| `Ext2.Volume.EnsureDirect` | kernel/src/fs/ext2.c:559-566 | through a direct slot: exactly that slot of the inode gets the block |
| `Ext2.Volume.EnsureFileBlock` | kernel/src/fs/ext2.c:552-606 | afterwards `file_block` returns the block, every other index of every file maps as before, contents of all files are unchanged, and failure means a full disk or an index beyond the map |
| `Ext2.GrownIsKept` | kernel/src/fs/ext2.c:552-606 | the block went to that index and nowhere else |
| `Ext2.AbandonedIsKept` | kernel/src/fs/ext2.c:571-603 | a failed attempt changes no file, although the blocks it took stay marked |
| `Ext2Files.WriteChunk` | kernel/src/fs/ext2.c:734-755 | one round of the loop splices into one block of one file; failure changes no byte of any file |
| `Ext2Files.WriteLoop` | kernel/src/fs/ext2.c:710-772 | how much was stored, as a splice, and that it stops only on a full disk or at the capacity |
| `Ext2Files.Write` | kernel/src/fs/ext2.c:710-772 | a completed write splices the bytes, sets the size to the largest extent and changes no other byte of any file; one that stops early stores some prefix, reports 0 bytes and leaves the size, and the file stays tidy exactly if the prefix is zero past the end; unless the disk is full, the prefix is what the block map reaches |
| `Ext2Files.StoppedTidyIff` | kernel/src/fs/ext2.c:734-739 | the condition for a stopped write to leave nothing past the end |
| `Ext2Files.ReadFile` | kernel/src/fs/ext2.c:665-708 | returns exactly the bytes of the file, holes as zero, to its end |
| `Ext2Files.StoredByte` | kernel/src/fs/ext2.c:665-708 | byte k of block i of a file is byte k of the disk block the map names, or zero in a hole |
| `Ext2Files.IndexIsExact` | kernel/src/fs/ext2.c:728 | the 32-bit block index is right if and only if the offset is below 2^32 blocks |
| `Ext2Files.FarWriteHitsTheStart` | kernel/src/fs/ext2.c:728 | a write at 2^32 blocks replaces the first bytes of the file |
| `Ext2Files.WriteRefines` | kernel/src/fs/ext2.c:710-772 | a completed write is the write to a byte array: gaps past the old end are zero, and nothing is stored past the new end |
| `Ext2Files.WriteElsewhere` | kernel/src/fs/ext2.c:710-772 | other files keep their bytes |
| `Ext2Files.ReadRefines` | kernel/src/fs/ext2.c:665-708 | a read is the slice of that byte array |
| `Ext2Files.RunKeepsLastWrites` | kernel/src/fs/ext2.c:665-772 | after any run of completed writes each file is as long as the largest extent and holds at each position the byte written there last, else its first byte or zero |
| `Ext2Dirs.RecLenFor` | kernel/src/fs/ext2.c:195-198 | header and name rounded up to four bytes |
| `Ext2Dirs.ScanAt` | kernel/src/fs/ext2.c:1029-1074 | the scan meets the records one by one and ends exactly at the end of the directory |
| `Ext2Dirs.ScanRecords` | kernel/src/fs/ext2.c:1029-1074 | over a directory the scan never gives up, and finds exactly the record that binds the name |
| `Ext2Dirs.Directory.FindDirent` | kernel/src/fs/ext2.c:1029-1074 | the scan over any bytes; on a directory the record that binds the name, its offset and its predecessor, and not found exactly when the map has no such name |
| `Ext2Dirs.Directory.Lookup` | kernel/src/fs/ext2.c:931-965 | the map's answer; "." is the directory itself |
| `Ext2Dirs.Directory.AddDirent` | kernel/src/fs/ext2.c:967-1027 | binds an absent name, with its type in byte 7, and changes no other binding or type, in slack or in a new block, keeping the records tiled and the names unique |
| `Ext2Dirs.Directory.RemoveDirent` | kernel/src/fs/ext2.c:1076-1105 | which bytes change, on any bytes; on a directory the name is unbound and no other changes, if the two lengths fit 16 bits together |
| `Ext2Dirs.Directory.ReplaceIno` | kernel/src/fs/ext2.c:1107-1125 | rebinds the name, with the type in byte 7, and changes no other binding or type |
| `Ext2Dirs.Directory.IsEmpty` | kernel/src/fs/ext2.c:1127-1156 | true exactly when nothing but "." and ".." is bound |
| `Ext2Dirs.RemoveIff` | kernel/src/fs/ext2.c:1093-1097 | for record lengths a and b: in every directory with such neighbours removal leaves a directory without exactly that name, if and only if a + b is below 65536 |
| `Ext2Dirs.LongRemovalLosesAll` | kernel/src/fs/ext2.c:1093-1097 | two records of 32768 bytes: after removing the second name the first, still there, is not found, because the scan gives up |
| `Ext2Dirs.StaleNameReturns` | kernel/src/fs/ext2.c:1093-1097 | a removal after which a name that was not bound is found, from an old header inside the joined record |
| `Ext2Dirs.LongRemovalCanBeRight` | kernel/src/fs/ext2.c:1093-1097 | with an unused old header in that place the same lengths do no harm |
| `Ext2Dirs.SmallIsJoinable` | kernel/src/fs/ext2.c:1076-1105 | a directory below 65536 bytes has no such pair |
| `Ext2Dirs.SplitRecord` | kernel/src/fs/ext2.c:967-1027 | cutting a record in two adds one binding |
| `Ext2Dirs.MergeRecords` | kernel/src/fs/ext2.c:1076-1105 | joining two records removes one binding |
| `Ext2Dirs.ChangeRecord` | kernel/src/fs/ext2.c:1107-1125 | rewriting a record changes one binding |
| `BlockLayer.RegisterPartition` | kernel/src/dev/block.c:116-135 | registered exactly when it is numbered, not empty and inside its device |
| `BlockLayer.ReadBlocks` | kernel/src/dev/block.c:83-94 | through any nesting of partitions, the bytes of the disk at the window's place; EINVAL exactly out of range |
| `BlockLayer.WriteBlocks` | kernel/src/dev/block.c:96-107 | on a device that has the operation, through any nesting of partitions: those bytes of the disk and no other |
| `BlockLayer.BlockRead` | kernel/src/dev/block.c:277-313 | aligned and bounced path alike return the slice of the window; EINVAL exactly out of range |
| `BlockLayer.PartitionPlace` | kernel/src/dev/block.c:116-135 | a partition starts that many blocks into its parent and is that many blocks long |
| `BlockLayer.ReadBounced` | kernel/src/dev/block.c:292-312 | the bounce path returns the slice |
| `BlockLayer.BlockWrite` | kernel/src/dev/block.c:315-354 | aligned and read-modify-write path alike replace the slice and no byte of the disk outside it |
| `BlockLayer.WriteBounced` | kernel/src/dev/block.c:330-353 | the read-modify-write path replaces the slice |
| `BlockLayer.MovesAll` | kernel/src/dev/block.c:289-290 | everything is transferred if and only if the path is the bounced one or the length is below 2^32 blocks |
| `BlockLayer.HugeReadMovesNothing` | kernel/src/dev/block.c:289-290 | a read of 2^32 aligned blocks, on any device that has them, reports success and leaves the buffer alone |
| `BlockLayer.HugeWriteMovesNothing` | kernel/src/dev/block.c:327-328 | a write of 2^32 aligned blocks reports success and leaves the disk alone |
| `BlockLayer.WholeBlockWrite` | kernel/src/fs/ext2.c:225-235 | a block device as an array of blocks: writing one block at its byte offset replaces that block and no other |
| `Pipes.Shared.constructor` | kernel/src/fs/pipe.c:131-192 | an empty pipe with one reader and one writer |
| `Pipes.Shared.TakeLocked` | kernel/src/fs/pipe.c:235-251 | takes the next bytes of the stream, at most what there is |
| `Pipes.Shared.PutLocked` | kernel/src/fs/pipe.c:283-321 | overwrites the stream at the file's offset; EPIPE exactly without readers, ENOMEM exactly if a larger buffer is needed and not to be had; failure changes nothing |
| `Pipes.Shared.StoreBytes` | kernel/src/fs/pipe.c:309-319 | a gap before the file's offset is filled with zeros |
| `Pipes.Shared.Reserve` | kernel/src/fs/pipe.c:289-307 | the capacity doubles until the bytes fit, and the stream stays |
| `Pipes.Shared.CloseLocked` | kernel/src/fs/pipe.c:41-60 | one less on the count of that end, never below zero, and nothing else |
| `Pipes.Shared.WakeAll` | kernel/src/sched/sched.c:118-123 | the sequence number moves on |
| `Pipes.NextInv` | kernel/src/fs/pipe.c:219-329 | what every step of every thread keeps |
| `Pipes.NextPending` | kernel/src/fs/pipe.c:41-60 | only the announcement ends the time between an update and its announcement |
| `Pipes.RunInv` | kernel/src/fs/pipe.c:219-329 | so every state of every interleaving has it |
| `Pipes.NoLostWakeup` | kernel/src/sched/sched.c:146-164 | a thread asleep on the current sequence number, fewer than 2^32 wake-ups after taking it, has nothing to read and a writer left, unless an update is about to be announced |
| `Pipes.SleepLosesIff` | kernel/src/sched/sched.c:146-164 | with something to notice and nothing announced, going to sleep loses it exactly when a positive multiple of 2^32 wake-ups has passed since the ticket was taken |
| `Pipes.WrappedTicketLosesWakeup` | kernel/src/sched/sched.c:111-116 | a run from a new pipe, with 2^32 writes, that ends with the reader asleep, data in the pipe and nobody about to wake it |
| `Pipes.ReadsArePrefix` | kernel/src/fs/pipe.c:219-266 | in every interleaving the bytes read so far are a prefix of the bytes written so far |
| `Pipes.EndOfFileIsFinal` | kernel/src/fs/pipe.c:253-257 | a read of 0 bytes means the last writer has closed and everything was read, then and ever after |
| `Pipes.SleeperReturns` | kernel/src/sched/sched.c:146-164 | when there is data or no writer and nothing is unannounced, a sleeping reader returns by its own steps alone |
| `Pipes.LastWriterEndsTheStream` | kernel/src/fs/pipe.c:41-60 | in every run: once the last write end is closed and announced, a reader that slept with nothing left to read returns no bytes |
| `Pipes.LastReaderBreaksThePipe` | kernel/src/fs/pipe.c:41-60 | once the last read end is closed every write fails with EPIPE |
| `Scheduler.FinishedInv` | kernel/src/sched/sched.c:1039-1079 | finishing a thread keeps queues, load counters, reap lists and process thread lists in agreement |
| `Scheduler.RequeuedInv` | kernel/src/sched/sched.c:730-734 | so does requeueing the current thread |
| `Scheduler.PickedInv` | kernel/src/sched/sched.c:736-750 | the loop removes some first part of the queue, finishes all of it but the thread picked, and touches nothing else |
| `Scheduler.DispatchedInv` | kernel/src/sched/sched.c:752-767 | so does the switch |
| `Scheduler.ScheduledGood` | kernel/src/sched/sched.c:716-768 | keeps the invariant, touches no other CPU, and brings every waiting thread at least one place nearer |
| `Scheduler.SpawnedGood` | kernel/src/sched/sched.c:1220-1238 | a new process keeps the invariant |
| `Scheduler.AllocatedGood` | kernel/src/sched/sched.c:1108-1133 | a new thread that is in no queue yet keeps it |
| `Scheduler.LaunchedGood` | kernel/src/sched/sched.c:1266-1269 | putting it in the queue keeps it, whatever happened since it was allocated |
| `Scheduler.ExitedGood` | kernel/src/sched/sched.c:1081-1087 | an exit keeps it |
| `Scheduler.KilledGood` | kernel/src/sched/sched.c:620-627 | a kill keeps it |
| `Scheduler.ReapedGood` | kernel/src/sched/sched.c:1007-1037 | reaping keeps it: no CPU is left running and no queue holding a freed thread |
| `Scheduler.StepGood` | kernel/src/sched/sched.c:716-768 | every locked section on any CPU keeps it |
| `Scheduler.RunGood` | kernel/src/sched/sched.c:716-768 | so it holds throughout every run |
| `Scheduler.EachThreadOnce` | kernel/src/sched/sched.c:331-360 | each live thread, once launched, is READY in exactly one place of one queue and on no CPU, or RUNNING on exactly one CPU and in no queue |
| `Scheduler.LoadIsExact` | kernel/src/sched/sched.c:1251-1276 | `sched_load` is the number of live threads launched on that CPU |
| `Scheduler.WaitsAtMostItsPosition` | kernel/src/sched/sched.c:716-768 | a thread at position k is dispatched, or finished if its process is dying, within k + 1 calls on that CPU, whatever happens in between |
| `Scheduler.ScheduledIs` | kernel/src/sched/sched.c:716-768 | the whole call: of the queue, followed by the current thread if it may go on, the threads of dying processes in front are finished, the next one runs, the rest wait in order; with none the CPU is on its idle thread; other threads do not change |
| `Scheduler.NoneOfTheDying` | kernel/src/sched/sched.c:741-747 | after the call the current thread is none, idle, finished, or of a process that was not dying when it began |
| `Scheduler.TheDyingAreNotDispatched` | kernel/src/sched/sched.c:741-747 | over runs: a queued thread whose process is dying runs on no CPU until it is finished, and at position k that is within k + 1 calls on its CPU |
| `Scheduler.TheKilledAreNotDispatched` | kernel/src/sched/sched.c:741-747 | in particular from the signal on |
| `Scheduler.Kernel.constructor` | kernel/src/sched/sched.c:1154-1213 | the state after start-up satisfies the invariant |
| `Scheduler.Kernel.RunqPush` | kernel/src/sched/sched.c:331-347 | the thread goes to the end of that queue |
| `Scheduler.Kernel.RunqPop` | kernel/src/sched/sched.c:349-360 | the head, or none exactly from an empty queue |
| `Scheduler.Kernel.RemoveThread` | kernel/src/sched/sched.c:503-549 | exactly that thread leaves the list, and the last one leaves the process dying |
| `Scheduler.Kernel.ThreadFinish` | kernel/src/sched/sched.c:1039-1079 | a panic exactly for an idle thread; a zombie is left alone; any other becomes one, leaves its process and the load, and waits to be reaped; the process dies with its last thread |
| `Scheduler.Kernel.ScheduleLocked` | kernel/src/sched/sched.c:716-768 | the call as `ScheduledIs` has it; no thread of a dying process is dispatched; the panic is unreachable |
| `Scheduler.Kernel.PickNext` | kernel/src/sched/sched.c:736-750 | the thread taken is of a process that is not dying, and without one the queue is empty |
| `Scheduler.Kernel.Dispatch` | kernel/src/sched/sched.c:752-767 | the switch computes `Dispatched` |
| `Scheduler.Kernel.ExitCurrent` | kernel/src/sched/sched.c:1081-1087 | computes `Exited` |
| `Scheduler.Kernel.CreateProcess` | kernel/src/sched/sched.c:1220-1238 | a process without threads |
| `Scheduler.Kernel.AllocThread` | kernel/src/sched/sched.c:1108-1133 | refused exactly for a dying process; otherwise the thread is a member of its process and in no queue |
| `Scheduler.Kernel.LaunchThread` | kernel/src/sched/sched.c:1266-1269 | the thread is last in its queue and counts in its load; nothing else changes |
| `Scheduler.Kernel.ReapCurrentCpu` | kernel/src/sched/sched.c:1007-1037 | the two nested loops free every finished thread of the CPU but the current one, and no other |
| `Ids.IdPool.Alloc` | kernel/src/sched/sched.c:403-418 | returns the least positive id not in use |
| `Ids.IdPool.Free` | kernel/src/sched/sched.c:420-441 | a panic exactly on an id already in the list; the pool stays sound exactly if the id was handed out at some time |
| `Ids.ForeignIdComesTwice` | kernel/src/sched/sched.c:420-441 | an id that was not is handed out twice |
| `TmpfsTree.CreatedGood` | kernel/src/fs/tmpfs.c:99-106 | a new node keeps the trees: parents, child lists, unique names, link counts |
| `TmpfsTree.CreatedEntries` | kernel/src/fs/tmpfs.c:215-237 | exactly the new entry is added |
| `TmpfsTree.RemovedGood` | kernel/src/fs/tmpfs.c:108-122 | removing a leaf keeps them |
| `TmpfsTree.RemovedEntries` | kernel/src/fs/tmpfs.c:255-283 | exactly one entry is gone |
| `TmpfsTree.MovedGood` | kernel/src/fs/tmpfs.c:384-387 | moving a node with everything below it keeps them, if the new place is not below the node |
| `TmpfsTree.MovedEntries` | kernel/src/fs/tmpfs.c:384-387 | exactly the two entries concerned change |
| `TmpfsTree.RenameMovesSubtree` | kernel/src/fs/tmpfs.c:336-389 | every path below the old name leads, below the new name, where it led, whether or not a target was replaced |
| `TmpfsTree.RenamedEntries` | kernel/src/fs/tmpfs.c:336-389 | a rename that goes through rebinds two names and changes no other entry of any directory |
| `TmpfsTree.RenameErrors` | kernel/src/fs/tmpfs.c:336-382 | the condition of each outcome |
| `TmpfsTree.UnderIff` | kernel/src/fs/tmpfs.c:362-369 | the walk finds a node exactly if some walk up the parents reaches it |
| `TmpfsTree.RootIff` | kernel/src/fs/tmpfs.c:348-353 | two walks end at one root exactly if the nodes have a common ancestor |
| `TmpfsTree.StepGood` | kernel/src/fs/tmpfs.c:215-389 | every call, refused or carried out, leaves rooted trees |
| `TmpfsTree.RunGood` | kernel/src/fs/tmpfs.c:215-389 | so does every run |
| `TmpfsTree.Tmpfs.constructor` | kernel/src/fs/tmpfs.c:175-185 | one root per mounted tree |
| `TmpfsTree.Tmpfs.FindChild` | kernel/src/fs/tmpfs.c:73-81 | the entry of that name |
| `TmpfsTree.Tmpfs.UnlinkChild` | kernel/src/fs/tmpfs.c:108-122 | the scan takes out exactly that child and adjusts the link count |
| `TmpfsTree.Tmpfs.CreateChild` | kernel/src/fs/tmpfs.c:215-237 | its error in every case; the new node is of that kind, in front of the children, with link count 2 or 1, and no other node but the directory changes |
| `TmpfsTree.Tmpfs.Remove` | kernel/src/fs/tmpfs.c:255-283 | its error in every case, and the new tree |
| `TmpfsTree.Tmpfs.WalkUp` | kernel/src/fs/tmpfs.c:348-351 | ends at the root |
| `TmpfsTree.Tmpfs.IsBelow` | kernel/src/fs/tmpfs.c:362-369 | true exactly when the node is on the way to the root |
| `TmpfsTree.Tmpfs.Rename` | kernel/src/fs/tmpfs.c:336-389 | exactly when it goes through and exactly when it reports each error, in terms of names, walks up the tree and the kinds of the nodes; afterwards two names are rebound and no other; a refusal changes nothing |
| `TmpfsFiles.Inode.EnsurePages` | kernel/src/fs/tmpfs.c:124-141 | fails exactly without a slot and without memory; growing the array doubles it until it suffices and changes no stored byte |
| `TmpfsFiles.Inode.EnsurePage` | kernel/src/fs/tmpfs.c:143-159 | nor does adding a page |
| `TmpfsFiles.Inode.WritePage` | kernel/src/fs/tmpfs.c:437-454 | one page of a write |
| `TmpfsFiles.Inode.Write` | kernel/src/fs/tmpfs.c:430-464 | how many bytes are stored; a completed write is the write to a byte sequence, gaps zero; one that stops early leaves the size, and the file stays clean exactly if what a caller can compute beforehand to be stored past the end is zero |
| `TmpfsFiles.FittingSlots` | kernel/src/fs/tmpfs.c:124-141 | all bytes fit if memory can be had for every page, and exactly those in existing slots if for none |
| `TmpfsFiles.CleanWithoutGrowth` | kernel/src/fs/tmpfs.c:445-450 | without memory to grow: the write ends in existing slots, or it brings only zeros past the end |
| `TmpfsFiles.Inode.Read` | kernel/src/fs/tmpfs.c:391-428 | the slice of the byte sequence |
| `TmpfsFiles.Inode.FreePagesFrom` | kernel/src/fs/tmpfs.c:161-173 | exactly the bytes from that page on are gone |
| `TmpfsFiles.Inode.Truncate` | kernel/src/fs/tmpfs.c:493-517 | cuts or extends with zeros, and afterwards stores nothing past the end, whatever was there; sizes within a page of 2^64 wipe the file, which is right exactly if it held zeros |
| `TmpfsFiles.ShrinkThenGrow` | kernel/src/fs/tmpfs.c:493-517 | two truncations: what was cut off comes back as zeros, whatever was stored |
| `TmpfsFiles.HugeTruncateWipes` | kernel/src/fs/tmpfs.c:493-517 | growing a file of one byte to within a page of 2^64 loses the byte |
| `TmpfsFiles.ShortWriteShows` | kernel/src/fs/tmpfs.c:445-450 | a two-byte write across the end of the array stores one byte past the end of the file, and a truncation exposes it |
| `SlabHeap.CacheIdx` | kernel/src/mm/heap.c:52-63 | the smallest class that is large enough, or 9 if none is |
| `SlabHeap.ObjectInPage` | kernel/src/mm/heap.c:82-110 | every object lies in its page past the header |
| `SlabHeap.ObjectsDisjoint` | kernel/src/mm/heap.c:82-110 | different objects do not overlap |
| `SlabHeap.ChainFrom` | kernel/src/mm/heap.c:103-107 | the links written by `slab_create` form a list of all objects |
| `SlabHeap.AddedOK` | kernel/src/mm/heap.c:82-110 | a new slab keeps the invariant |
| `SlabHeap.TakenOK` | kernel/src/mm/heap.c:141-149 | taking an object keeps it: list length plus used equals total, and the slab is in the list its fullness dictates |
| `SlabHeap.GivenOK` | kernel/src/mm/heap.c:158-167 | giving one back keeps it |
| `SlabHeap.EmptiedOK` | kernel/src/mm/heap.c:169-176 | a slab goes exactly when no object of it is out |
| `SlabHeap.LiveInPage` | kernel/src/mm/heap.c:228-234 | a live object is at least as large as asked for and in its page past the header |
| `SlabHeap.LiveDisjoint` | kernel/src/mm/heap.c:228-234 | live objects are pairwise disjoint |
| `SlabHeap.UserWriteOK` | kernel/src/mm/heap.c:122-127 | whatever an owner stores in a live object, with stores of any width, the free lists stay sound |
| `SlabHeap.StepInv` | kernel/src/mm/heap.c:112-178 | every allocation, release and store keeps the invariant |
| `SlabHeap.RunInv` | kernel/src/mm/heap.c:112-178 | so it holds throughout every run |
| `SlabHeap.Kheap.constructor` | kernel/src/mm/heap.c:218-226 | an empty heap |
| `SlabHeap.Kheap.SlabCreate` | kernel/src/mm/heap.c:82-110 | the loop links each object to the next and writes only in its page |
| `SlabHeap.Kheap.CacheAlloc` | kernel/src/mm/heap.c:129-153 | returns the address of an object that was not live |
| `SlabHeap.Kheap.SlabUnlink` | kernel/src/mm/heap.c:70-80 | takes exactly that slab out of the list |
| `SlabHeap.Kheap.CacheFree` | kernel/src/mm/heap.c:155-178 | the object is no longer live; the page goes back exactly when it was the last one |
| `SlabHeap.Kheap.Kmalloc` | kernel/src/mm/heap.c:228-234 | an object of the smallest class that is large enough for every size from 1 to 2048, NULL exactly for 0 |
| `SlabHeap.Kheap.Kfree` | kernel/src/mm/heap.c:244-259 | the class found from the page header is the object's own |
| `Cpio.FieldRoundTrip` | utils/mkinitrd.py:16-17 | the reader's number for the writer's eight digits is the value, for every 32-bit value |
| `Cpio.Hex8` | kernel/src/fs/cpio.c:44-55 | accepts exactly eight hexadecimal digits of either case, and computes their value without overflow |
| `Cpio.Positional` | kernel/src/fs/cpio.c:44-55 | eight digits are a positional number to base 16, first digit highest |
| `Cpio.Pad4` | utils/mkinitrd.py:11-13 | the loop pads to the next multiple of four |
| `Cpio.WriteEntry` | utils/mkinitrd.py:20-44 | appends one entry |
| `Cpio.WriteArchive` | utils/mkinitrd.py:116-119 | the entries, then the trailer |
| `Cpio.Layout` | kernel/src/fs/cpio.c:189-198 | writer and reader agree on where name and data stand, at every offset |
| `Cpio.ParseWritten` | kernel/src/fs/cpio.c:165-200 | reading where an entry was written gives its name, mode, owner, group and data, and the offset of the next |
| `Cpio.RoundTrip` | kernel/src/fs/cpio.c:151-232 | extracting a written archive makes, for each entry in order, the directories above its path, outermost first, and then one directory or file with "/" and its name, the low twelve bits of its mode, its owner, group and data; and counts the entries |
| `Cpio.PackAndUnpack` | utils/mkinitrd.py:116-119 | the same of the two programs run one after the other |
| `Cpio.ItemMakes` | kernel/src/fs/cpio.c:210-221 | for every header, written by that program or not: what is made, by the kind in the mode |
| `Cpio.CleanMeans` | kernel/src/fs/cpio.c:57-64 | every leading "./" is dropped, then every leading slash, and nothing else |
| `Cpio.CStringMeans` | kernel/src/fs/cpio.c:193-200 | the name ends before its first NUL |
| `Cpio.Clean` | kernel/src/fs/cpio.c:57-64 | the two loops compute `CleanName` |
| `Cpio.CleanCarried` | kernel/src/fs/cpio.c:57-64 | a name without leading "/" or "./" is left alone |
| `Cpio.EnsureParentDirs` | kernel/src/fs/cpio.c:82-107 | one directory for each slash inside the path, outermost first, up to the first that cannot be made |
| `Cpio.ReadHeader` | kernel/src/fs/cpio.c:165-205 | the checks in their order |
| `Cpio.Extract` | kernel/src/fs/cpio.c:151-232 | for every input, malformed ones included, and every number of calls after which the file system fails: the effects of `Extracted` up to that call |

## Left out

- Virtual memory: file-backed and physical areas, `vas_protect`, `vas_adopt`, huge pages, `map_page_phys`, `map_mmio`, changes to the kernel's own upper half (`KERNEL` is one table, whatever is in it), and destroying the kernel's own table.
- Hardware: the TLB, `invlpg`, CR3, the USER bit in permission checks, interrupt flags and the switch between stacks are no-ops; each function that runs under one lock is one step.
- Allocation failure of small kernel objects is left out, except where a parameter of the model stands for it (pipes, tmpfs arrays, directory blocks); `palloc_page` panics instead of failing, as in the source.
- PhysicalMemory.Pmm.PageRef: counts are unbounded numbers; `MemoryRuns.RefcountFitsIn32Bits` says when they fit their 32 bits.
- VirtualMemory.Vmm.MapAnon: after a length that rounds up to 0 the list holds an empty area and nothing more is stated of the system; a fixed mapping at address 0 is mapped although its address reads as failure, as in the source.
- VirtualMemory.Vmm.Unmap: after an end that wraps inside one area the areas overlap and nothing more is stated of the system.
- Ext2.Volume.EnsureFileBlock: the superblock, group descriptors and inode table are in-core only; writing them back to their own blocks and the `blocks` sector count are not modelled, and I/O errors are not.
- Ext2Files.Write: does not model `off + len` beyond 2^64, nor the file types other than regular files, nor how far a write gets on a disk that fills up.
- Ext2Dirs.Directory.RemoveDirent: for two records that do not fit 16 bits together it states the bytes and not the names; in such a directory they depend on old headers inside the records, and `Ext2Dirs.RemoveIff` is about all directories with these lengths.
- Ext2Dirs.Directory.AddDirent: is about absent names, which its callers check; directory bytes are a byte array that reads as zeros past its end, so failed block reads inside a directory are not modelled.
- ext2 inode allocation, link counts, truncation, symbolic links, rename across directories and the inode cache.
- Block devices: probing of partition tables, the device list, flushing, and drivers, which are taken to be free of I/O errors.
- Pipes: seeks, polling and `vfs_pipe_ref`, which nothing calls; files are used only while they are open; each atomic operation and each locked section is one step, in a sequentially consistent order.
- Paging.Mmu.MapPage: does not cover a frame on the free list, which `_leaf_entry` might take for a table before the source looks at it, nor a page table as data.
- Scheduler: signals beyond marking a process dying, waiting for children, load averages, kernel stacks, and a process that starts dying in the middle of `schedule_locked`; head and tail pointers of queues are one sequence.
- TmpfsTree.Tmpfs.UnlinkChild: nodes that have left the tree are not modelled further, so calls on directories that were removed while open are not covered.
- tmpfs hard and symbolic links, mapped pages, and the release of nodes.
- Slab heap: requests above 2048 bytes, `krealloc`, and the classification of pointers by the word one page below them; slab lists are sequences instead of `next` pointers.
- Cpio.RoundTrip: is about names that do not start with "/" or "./", entries that are regular files or empty directories, and sizes below 2^32; the effects on the file system are a list of events, of which a failing one is left out as a whole.
- The archive builder's walk over the host's directories, and everything else of the repository: drivers, interrupts, ACPI, consoles, procfs, devfs, system calls and user programs.
