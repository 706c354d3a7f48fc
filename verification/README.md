# OurOS: a verified model of its kernel data structures

OurOS is a small MIPS32 kernel. This project models five of its parts in Dafny and proves what they are for.
`dafny verify dfyconfig.toml` checks all of it.

| part | files | source |
|---|---|---|
| red-black tree | `RbTreeModel`, `RbMemory`, `RbLookup`, `RbRoot`, `RbInsertResult`, `RbInsert`, `RbPropagate`, `RbEraseResult`, `RbEraseColor`, `RbErase`, `RbHeights`, `RbIteration` | `kernel/linux/rbtree.c`, `include/linux/rbtree_augmented.h` |
| physical memory | `PageMath`, `Buddy`, `Slab`, `Kmalloc` | `kernel/mm/buddy.c`, `kernel/mm/slab.c` |
| demand paging | `PageTable`, `PagingModel`, `PagePool`, `AddressSpace` | `arch/mips32/tlb.c`, `kernel/vm/vm.c`, `kernel/vm/pageswap.c` |
| open files | `BlockList`, `OpenFile` | `kernel/fs/read_write.c`, `kernel/fs/open.c` |
| FAT32 | `FatVolume`, `ShortNames` | `kernel/fs/fat/fat.c` |

`Powers`, `Division`, `Sequences`, `Words` and `Options` hold small shared definitions.

How the parts are modelled:

- **Red-black tree.** `RbRoot` holds the nodes as a heap of C records with the packed parent-and-colour word. A
  heap *represents* a mathematical tree (`Rep`), and the bottom-up loops are described by a zipper: the subtree of
  `node` and the path above it. `InsertInv` and `EraseInv` are the loop invariants of the two fixup loops ("node is
  red", "one black node short on this path"). The mirrored halves of the C code are one text with a `Side`
  parameter. Between two rotations of one iteration the memory represents no tree; `Loose` says exactly which
  words are stale then. `Fixed` and `Mended` are the trees the two loops leave, as functions of the tree they start
  from. `seen` collects the memory behind every single store of a child pointer; `StoreKid` and `StoreRoot` are the
  only places that write one into a tree.
- **Buddy, slab, kmalloc.** Page structs of pages that are not the head of a block hold stale data. The ghost tiling
  `lev` gives every page the level of its block, and `Inv` says why stale data is harmless. `limbo` is the block in
  the hands of a running operation. On top of that come the slab pages with the frontier invariant `SlabOk`, and the
  invariant `HeapOk` over the twelve caches and the zone.
- **Paging.** One address space with its page table, the 32-entry TLB, the FIFO of resident pages, the frames with
  their bytes, and the swap file. It takes its frames from the buddy allocator and gives them back to it; the
  invariant says that every resident frame is an allocated page there. `Content` is the flat memory that all of this
  stands for.
- **Files and FAT.** A file is a list of blocks with a (block, offset) cursor that refines a flat byte sequence with a
  position. A volume is the table with the chain of every live file.

Findings, each stated as an exact condition:

- The rotate callback of `RB_DECLARE_CALLBACKS` is right exactly for rules whose value does not change under a
  rotation (`RbMemory.RotateCallbackExact`); subtree sizes are such a rule (`RbMemory.SizeRuleSound`). For one
  insertion or one erase, and any rule, the stored values are right afterwards exactly when the rule meets the
  equations at the nodes that are rotated (`RbInsert.LinkAndInsert`, `RbErase.Erase`). With subtree heights as the
  augmented value both operations leave wrong values (`RbHeights.InsertBreaksHeights`,
  `RbHeights.EraseBreaksHeights`). Splicing a node out is right for every rule.
- A lookup between any two child-pointer stores of an insertion, an erase or a replacement sees only nodes of the tree
  and ends (`RbLookup.LookupEnds`); the order of the stores in a rotation matters (`RbLookup.OtherOrderLoops`).
- `alloc_pages` rounds in 32 bits: a request above 0xFFFFF000 bytes gets one page (`Buddies.OrderCovers`).
- The last link node of a slab page lies inside the page exactly when the page leaves 8 bytes over; it does for the
  twelve sizes in use (`Slabs.LastNodeFits`, `Slabs.TwelveSizesGood`).
- A page that has been evicted loses its bytes exactly when it faults again while a new frame is available:
  `do_pagefault` does not look at `pte->info` on that path (`AddressSpaces.AccessKeeps`,
  `AddressSpaces.EvictedPageLost`).
- `fs_seek` means to stop at both ends of the file, but positions are unsigned: a negative target lands at the end
  (`OpenFiles.SeekClamps`).
- The guard of `fs_read` lets an overrun through exactly when position plus length wraps (`OpenFiles.ReadGuard`), and
  an append open lands on the end exactly when no more than one block is unused (`OpenFiles.AppendCursor`,
  `OpenFiles.OpenFile.constructor`). Every other open, and expansion, is right for any number of unused blocks.
- `expand_fat32` links from the first cluster of the file: chain and `i_data_map` agree afterwards exactly when the
  map had one cluster; otherwise the old tail is orphaned (`FatVolumes.FatVolume.Expand`,
  `FatVolumes.ExpandLosesTail`).
- The 8.3 round trip holds exactly for names that fit (`ShortNames.RoundTrip`).

## Model

| member | source | states |
|---|---|---|
| `RbMemory.PackUnpack` | include/linux/rbtree_augmented.h:88-109 | parent and colour packed into one word of an aligned address come back out of it, and setting the black bit changes the colour only |
| `RbTreeModel.HeightBound` | kernel/linux/rbtree.c:15-27 | the height of a red-black tree is at most 2*log2(n+1), as 2^height <= (n+1)^2 |
| `RbTreeModel.UnplugRedBlack` | kernel/linux/rbtree.c:15-27 | a red-black tree taken apart at any place gives a path and a subtree that fit together at one black height |
| `RbTreeModel.PlugRedBlack` | kernel/linux/rbtree.c:15-27 | a path and a subtree that fit make a red-black tree |
| `RbTreeModel.RotatedInorder` | kernel/linux/rbtree.c:139-181 | a rotation keeps the in-order sequence |
| `RbTreeModel.RotatedAug` | include/linux/rbtree_augmented.h:73-80 | a rotation of a tree with right stored values has right values exactly when the rule gives the top the same value before and after |
| `RbMemory.RotateCallbackExact` | include/linux/rbtree_augmented.h:73-80 | the rotate callback is right on all trees if and only if the rule is rotation-invariant |
| `RbMemory.RotateRep` | kernel/linux/rbtree.c:68-81 | the pointer and colour writes of a rotation turn memory that represents a tree into memory that represents the rotated tree, parent links included |
| `RbMemory.TurnKeeps` | kernel/linux/rbtree.c:139-216 | a rotation anywhere in a tree keeps its nodes, their order, and right augmented values under a rotation-invariant rule |
| `RbMemory.TurnExact` | include/linux/rbtree_augmented.h:73-80 | around a pair with right values, one rotation leaves all values right exactly when those above are and the rotation equation holds at the pair |
| `RbMemory.TripleExact` | include/linux/rbtree_augmented.h:73-80 | the same for two rotations in a row that turn three nodes |
| `RbMemory.SizeRuleSound` | include/linux/rbtree_augmented.h:73-80 | subtree size is a rotation-invariant rule |
| `RbLookup.LookupEnds` | kernel/linux/rbtree.c:34-56 | in safe memory a lookup, from the root or continued at any node, sees only nodes of the tree, none twice, so it ends |
| `RbLookup.RepSafe` | kernel/linux/rbtree.c:34-56 | memory that represents a tree is safe |
| `RbLookup.TurnSafe` | kernel/linux/rbtree.c:139-181 | memory is safe after the first and after the second child-pointer store of a rotation |
| `RbLookup.OtherOrderLoops` | kernel/linux/rbtree.c:36-42 | with these two stores the other way round there is a loop in between, for every rotation |
| `RbLookup.TurnAllSafe` | kernel/linux/rbtree.c:139-216 | every store of a rotation leaves safe memory, also when the rotation starts from memory that an unfinished one left |
| `RbLookup.SpliceSafe` | include/linux/rbtree_augmented.h:160-226 | so does every store that moves the successor into the place of the erased node |
| `RbRoots.RbRoot.ChangeChild` | include/linux/rbtree_augmented.h:111-122 | exactly the slot that held the old child, or the root, holds the new one |
| `RbRoots.RbRoot.RotateSetParents` | kernel/linux/rbtree.c:68-81 | the new top takes the old one's parent word and slot, the old top gets the new one as parent and the colour |
| `RbRoots.RbRoot.AugmentRotate` | include/linux/rbtree_augmented.h:73-80 | the new top gets the old one's stored value, the old top a recomputed one |
| `RbRoots.RbRoot.TurnUp` | kernel/linux/rbtree.c:165-181 | a whole rotation in place: memory represents the rotated tree and nothing outside the tree is written |
| `RbRoots.RbRoot.TurnInner` | kernel/linux/rbtree.c:139-163 | Case 2 of insertion: memory differs from the rotated tree in exactly the words the following rotation writes |
| `RbRoots.RbRoot.TurnSibling` | kernel/linux/rbtree.c:291-327 | Case 3 of erase: likewise |
| `RbInsert.ColorFlipInv` | kernel/linux/rbtree.c:116-136 | the colour flip of Case 1 moves the loop invariant two levels up |
| `RbInsert.OuterInv` | kernel/linux/rbtree.c:165-181 | Case 3 ends with the red-black properties restored |
| `RbInsert.InnerInv` | kernel/linux/rbtree.c:139-181 | Cases 2 and 3 together do |
| `RbInsert.Iterate` | kernel/linux/rbtree.c:89-218 | one iteration keeps nodes and order, and right stored values under a rotation-invariant rule; it either ends in a red-black tree or repeats strictly closer to the root with the invariant; the tree the loop will end in stays the same |
| `RbInsert.Insert` | kernel/linux/rbtree.c:83-219 | from any tree that is red-black except for a red `node`, the loop terminates in a red-black tree with the same nodes in the same order, namely `Fixed`; nothing outside the tree is written, and every child-pointer store leaves safe memory |
| `RbInsert.LinkNode` | include/linux/rbtree.h:63-70 | the node is a red leaf in the chosen empty slot, and the rest of the tree is as before |
| `RbInsert.LinkAndInsert` | kernel/linux/rbtree.c:432-456 | for every red-black tree and every empty slot: the result is red-black and its in-order sequence is the old one with the node at that slot; if the caller updated the insertion path, stored values are right afterwards if and only if the rule meets the equation of `InsertRight`, so always under a rotation-invariant rule; every child-pointer store leaves memory that is safe on the old or the new nodes |
| `RbInsertResult.FixedExact` | kernel/linux/rbtree.c:83-219 | whatever the rule: from right values, the tree the insertion loop leaves has right values if and only if the equation of its last rotation holds, and always when it ends without one |
| `RbHeights.InsertBreaksHeights` | include/linux/rbtree_augmented.h:73-80 | a run of the modelled code: three insertions with right heights before the last rebalancing and a wrong one after it |
| `RbPropagate.SettleRight` | include/linux/rbtree_augmented.h:54-65 | stopping at the first unchanged value leaves every value on the path right |
| `RbPropagate.Propagate` | include/linux/rbtree_augmented.h:54-65 | the loop writes exactly the values of that walk, up to `stop` |
| `RbEraseColor.CaseOneInv` | kernel/linux/rbtree.c:241-259 | Case 1 keeps the loop invariant, with a black sibling |
| `RbEraseColor.CaseTwoInv` | kernel/linux/rbtree.c:260-290 | Case 2 either restores the red-black properties or moves "one black short" one level up |
| `RbEraseColor.CaseFourInv` | kernel/linux/rbtree.c:329-350 | Case 4 restores black heights and colours |
| `RbEraseColor.CaseThreeInv` | kernel/linux/rbtree.c:291-350 | Cases 3 and 4 together do |
| `RbEraseColor.EraseColor` | kernel/linux/rbtree.c:225-406 | from a tree one black node short at an empty place, the loop terminates, each repeat closer to the root, in a red-black tree with the same nodes in the same order, namely `Mended`; every child-pointer store leaves safe memory |
| `RbEraseResult.MendedExact` | kernel/linux/rbtree.c:225-406 | whatever the rule: from right values, the tree the erase loop leaves has right values if and only if the equations of its rotations hold |
| `RbHeights.EraseBreaksHeights` | include/linux/rbtree_augmented.h:73-80 | a run of the modelled code: four insertions and an erase after which a subtree height is wrong |
| `RbErase.EraseOneChild` | include/linux/rbtree_augmented.h:135-159 | Case 1: the only child takes the place of the node, with its colour; stored values are right for every rule |
| `RbErase.FindSuccessor` | include/linux/rbtree_augmented.h:161-197 | the first node in order of the right subtree, and its parent |
| `RbErase.SpliceSuccessor` | include/linux/rbtree_augmented.h:160-226 | Cases 2 and 3: the successor stands in the place of the node with its colour, its own child in its old place |
| `RbErase.TwoChildrenOrder` | include/linux/rbtree_augmented.h:160-226 | the in-order sequence of that tree is the old one without the node |
| `RbErase.TwoChildrenAug` | include/linux/rbtree_augmented.h:160-226 | copy and two propagates leave every stored value right, for every rule |
| `RbErase.EraseAugmented` | include/linux/rbtree_augmented.h:127-228 | exactly the node leaves the in-order sequence, stored values stay right for every rule, and the result is red-black or one black short at the place returned |
| `RbErase.Erase` | kernel/linux/rbtree.c:437-443 | for every red-black tree and every node in it: a red-black tree whose in-order sequence is the old one without the node, links consistent; stored values are right if and only if the rule meets the equations of `ErasedRight`; every child-pointer store leaves memory that is safe on the old or the remaining nodes |
| `RbIteration.OrderForward` | kernel/linux/rbtree.c:461-514 | the order walked by rb_next is the in-order sequence |
| `RbIteration.OrderBackward` | kernel/linux/rbtree.c:473-542 | the order walked by rb_prev is its reverse |
| `RbIteration.First` | kernel/linux/rbtree.c:461-483 | the first node of the order, NULL exactly for the empty tree |
| `RbIteration.Next` | kernel/linux/rbtree.c:485-542 | the following node of the order, NULL exactly after the last |
| `RbIteration.Walk` | kernel/linux/rbtree.c:461-542 | iterating visits exactly the order and ends |
| `RbIteration.OrderDistinct` | kernel/linux/rbtree.c:461-542 | every node once |
| `RbIteration.NextPostorder` | kernel/linux/rbtree.c:572-588 | the following node of the postorder |
| `RbIteration.FirstPostorder` | kernel/linux/rbtree.c:590-596 | its first node |
| `RbIteration.WalkPostorder` | kernel/linux/rbtree.c:560-596 | iterating visits exactly the postorder and ends |
| `RbIteration.PostorderDistinct` | kernel/linux/rbtree.c:560-596 | every node once |
| `RbIteration.PostorderAfterBelow` | kernel/linux/rbtree.c:560-596 | every node comes after all nodes below it |
| `RbIteration.Replace` | kernel/linux/rbtree.c:544-558 | exactly one element of the in-order sequence is replaced and the tree stays red-black with consistent links; the store that links the new node leaves safe memory |
| `PageMath.BuddyIs` | kernel/mm/buddy.h:9-9 | for an aligned page XOR finds the other half, AND of the halves their common head, and the buddy of the buddy is the page |
| `Buddies.BuddyIsHead` | kernel/mm/buddy.c:80-86 | whenever the buddy of a block is inspected it lies in the zone and is the head of some block of no higher level |
| `Buddies.MergeInv` | kernel/mm/buddy.c:80-91 | a round of the coalescing loop keeps the invariant |
| `Buddies.SplitInv` | kernel/mm/buddy.c:140-147 | a round of the splitting loop keeps the invariant |
| `Buddies.PutInv` | kernel/mm/buddy.c:92-95 | a block that cannot merge goes to the list of its level, and no two free buddies remain |
| `Buddies.RunInOneBlock` | kernel/mm/buddy.c:80-95 | a free aligned run of 2^k pages lies inside one free block |
| `Buddies.ListsDecide` | kernel/mm/buddy.c:124-132 | all lists from level k up are empty exactly when no free aligned run of 2^k pages exists |
| `Buddies.SamePagesSameLists` | kernel/mm/buddy.c:69-96 | history independence: the set of free pages determines the free blocks on every list |
| `Buddies.GrantTakes` | kernel/mm/buddy.c:118-159 | an allocation takes exactly the pages of its block from the free ones |
| `Buddies.FreeGives` | kernel/mm/buddy.c:69-96 | freeing a block gives back exactly its pages |
| `Buddies.BuddyZone.FreePages` | kernel/mm/buddy.c:69-96 | the block's pages become free, everything else about free and allocated pages is unchanged, invariant kept; on each level it merges through the buddy leaves its list, the merged block goes to the end of its list, and no other list changes; pages outside the zone and free heads are refused |
| `Buddies.BuddyZone.TakeBlock` | kernel/mm/buddy.c:137-147 | the last free block of the list is cut down to the level asked for: its lower half is kept, each upper half is at the end of the list of its level |
| `Buddies.BuddyZone.AllocPages` | kernel/mm/buddy.c:118-159 | NULL exactly for an illegal level or when no free aligned run exists; otherwise the last block of the lowest list from the level up that is not empty is cut: its head is returned, its upper halves are the only blocks of the lists below, no other list changes, and of the free pages exactly the block is taken |
| `Buddies.OrderCovers` | kernel/mm/buddy.c:166-175 | the order chosen covers the request exactly up to 0xFFFFF000 bytes, and up to there the next lower order would not |
| `Buddies.BuddyZone.AllocBytes` | kernel/mm/buddy.c:166-181 | the lowest order whose block has the bytes asked for (order 0 above 0xFFFFF000), and what AllocPages says for it |
| `Buddies.BuddyZone.AllocThenFree` | kernel/mm/buddy.c:218-224 | allocating and freeing leaves the same free blocks on every list |
| `Buddies.BuddyZone.Init` | kernel/mm/buddy.c:11-43 | the zone is aligned, all its pages are free, and there are exactly page_num/16 free blocks, all of order 4 |
| `Slabs.NodesApart` | kernel/mm/slab.c:85-115 | objects and link nodes of different slots do not overlap |
| `Slabs.ObjectInPage` | kernel/mm/slab.c:85-115 | no object overlaps the slab head, and no object or link node leaves its page |
| `Slabs.LastNodeFits` | kernel/mm/slab.c:28-35 | the last object fits for every size, the last link node exactly when 8 bytes are left over |
| `Slabs.TwelveSizesGood` | kernel/mm/slab.c:11-21 | all twelve cache sizes give good layouts |
| `Slabs.FreshSlabOk` | kernel/mm/slab.c:85-97 | a new slab page has the frontier invariant |
| `Slabs.CarveOk` | kernel/mm/slab.c:104-115 | carving adds the slot behind the frontier, never a slot twice, and a page that is not full always has a free object |
| `Slabs.PopOk` | kernel/mm/slab.c:65-76 | taking the first free object keeps the invariant and hands out a node that was not allocated |
| `Slabs.PushOk` | kernel/mm/slab.c:197-200 | giving an object back keeps the invariant and removes exactly it from the allocated ones |
| `Kmalloc.AllocListsOk` | kernel/mm/slab.c:164-174 | after an allocation the page is on the list its count asks for |
| `Kmalloc.FreeListsOk` | kernel/mm/slab.c:201-207 | after a free it is too |
| `Kmalloc.AdoptOk` | kernel/mm/slab.c:138-160 | a page from the buddy allocator becomes an empty slab page, and the same blocks are live |
| `Kmalloc.LiveInZone` | kernel/mm/slab.c:232-287 | live blocks lie inside the zone |
| `Kmalloc.LiveDisjoint` | kernel/mm/slab.c:232-287 | live blocks are pairwise disjoint, and objects do not overlap link nodes |
| `Kmalloc.NodesUntouched` | kernel/mm/slab.c:85-115 | no live block overlaps a slab head or a link node, be its slot allocated or free |
| `Kmalloc.KernelHeap.constructor` | kernel/mm/slab.c:16-21 | the heap is consistent and nothing is live |
| `Kmalloc.KernelHeap.FindPage` | kernel/mm/slab.c:122-163 | the current page if it has room, else the first partial page, else the first free one, and then the zone is untouched; only when all pages of the cache are full one free page of the zone becomes a slab page; NULL only when there is none |
| `Kmalloc.KernelHeap.CacheAlloc` | kernel/mm/slab.c:122-176 | a block that was not live becomes live at the returned address, no other block changes; NULL exactly on exhaustion; with room in the cache the zone is untouched and the object is the first free one of its page, without it exactly one page is taken; a page that changes its list goes to the front |
| `Kmalloc.KernelHeap.AllocRow` | kernel/mm/slab.c:122-176 | any number of allocations, up to the room of the current page, all come from that page and leave the zone untouched |
| `Kmalloc.KernelHeap.CacheFree` | kernel/mm/slab.c:183-208 | exactly the given object stops being live; it is the first free one of its page, and a page that changes its list goes to the front |
| `Kmalloc.KernelHeap.Alloc` | kernel/mm/slab.c:232-263 | NULL exactly when the heap is exhausted for the size; otherwise a new live block, of at least `size` bytes exactly up to 0xFFFFF000: an object of the smallest cache that fits, with the zone untouched if that has room, or above 2048 bytes a run of the lowest order that fits |
| `Kmalloc.KernelHeap.Free` | kernel/mm/slab.c:269-287 | the page struct sends a live pointer to the right allocator and exactly its block stops being live: an object leaves the zone untouched, a run gives exactly its pages back |
| `Kmalloc.KernelHeap.FreeThenAlloc` | kernel/mm/slab.c:197-200 | an object of the current page that is freed is the next one handed out, at the same address |
| `PagePools.PagePool.constructor` | kernel/vm/pageswap.c:8-16 | no block is in use |
| `PagePools.PagePool.AllocBlock` | kernel/vm/pageswap.c:20-32 | the head of the free list: a block nobody uses, whatever blocks were deleted in between; the frontier moves only when every block below it is in use; none exactly when all are in use |
| `PagePools.PagePool.DeleteBlock` | kernel/vm/pageswap.c:60-65 | exactly that block is no longer in use, and it is the next to be handed out |
| `PageTables.IndexesSplitThePageNumber` | kernel/vm/vm.c:83-94 | the shifts of get_pte and addr_bind_to_lo1 depend on the page number alone and determine it |
| `PageTables.LoWord` | kernel/vm/vm.c:186-187 | the word do_pagefault writes decodes to a valid, writable, global entry for the frame |
| `PageTables.UpdateOne` | kernel/vm/vm.c:81-125 | writing through the pointer get_pte returned changes one entry of the flat table |
| `PageTables.GetPte` | kernel/vm/vm.c:81-95 | allocating a second-level table changes no entry |
| `PagingModel.RefillCoherent` | arch/mips32/tlb.c:92-130 | writing the pair over the entry with its VPN2, or anywhere when there is none, keeps the TLB coherent and free of double VPN2s |
| `PagingModel.MapCoherent` | kernel/vm/vm.c:186-187 | mapping a page that was not valid keeps the TLB coherent |
| `PagingModel.ResetCoherent` | arch/mips32/tlb.c:175-222 | after an entry was invalidated tlb_reset restores coherence |
| `PagingModel.HitIsContent` | arch/mips32/tlb.c:92-135 | a TLB hit translates to the frame that holds the bytes of the page |
| `PagingModel.FramesApart` | kernel/vm/vm.c:142-231 | no two valid pages share a frame |
| `PagingModel.EvictedInv` | kernel/vm/vm.c:202-231 | an eviction keeps the bijection of FIFO and valid entries and gives no two pages one swap block |
| `PagingModel.EvictedContent` | kernel/vm/vm.c:202-231 | an eviction changes the bytes of no other page, the victim included |
| `PagingModel.EvictedLoads` | kernel/vm/vm.c:213-214 | the frame of the page that comes in holds the bytes it was last evicted with; on its first use, those of the victim |
| `PagingModel.SwapFault` | kernel/vm/vm.c:182-231 | a whole fault by swapping: the invariant and the flat memory |
| `PagingModel.FreshFault` | kernel/vm/vm.c:158-187 | a whole fault with a new frame: the invariant and the flat memory |
| `PagingModel.NothingMapped` | kernel/vm/vm.c:257-271 | with an empty FIFO no page-table entry and no TLB half is valid |
| `AddressSpaces.AddressSpace.constructor` | kernel/vm/vm.c:53-62 | the invariant holds and no page has contents |
| `AddressSpaces.AddressSpace.TlbReset` | arch/mips32/tlb.c:175-222 | the half of the page takes the page-table entry if the TLB has its pair, entry by entry, and nothing else changes |
| `AddressSpaces.AddressSpace.TlbWrite` | arch/mips32/tlb.c:113-130 | one entry, the one with the VPN2 or else the one tlbwr picks, holds both halves of the pair as the page table has them, and no other entry changes; the page is translated and the TLB stays coherent |
| `AddressSpaces.AddressSpace.SwapOnePage` | kernel/vm/vm.c:202-231 | when it evicts, restarts or is undefined, exactly; and the state each leaves |
| `AddressSpaces.AddressSpace.PrepareBlock` | kernel/vm/pageswap.c:18-42 | the block of the page, or a new one that no page has, inside the file, which grows by one block exactly when the new one lies behind its end |
| `AddressSpaces.AddressSpace.AllocOnePage` | kernel/vm/vm.c:158-170 | a frame of the buddy allocator that no page has, NULL exactly when the zone has no free page; no resident frame is touched |
| `AddressSpaces.AddressSpace.DoPagefault` | kernel/vm/vm.c:142-194 | a new frame is taken exactly when fewer pages than the limit are resident and the zone has a free page, and then the FIFO is one longer, the page last; otherwise the first page of the FIFO leaves and its frame goes to the end; the limit is never exceeded; which outcome when, the page table entry by entry, swap blocks included, the bytes of the faulting page, all other pages unchanged, and the granted frame the only page of the zone taken |
| `AddressSpaces.AddressSpace.TlbException` | arch/mips32/tlb.c:81-173 | every exception keeps coherence, the bijection and the flat memory; a valid page is translated afterwards |
| `AddressSpaces.AddressSpace.Access` | arch/mips32/tlb.c:81-173 | a repeated access ends after n <= 3 exceptions in a translation to the bytes of the page, and always does when the page is valid or a new frame is taken, which happens exactly as a fault says; the bytes of no other page change |
| `AddressSpaces.AddressSpace.Store` | kernel/vm/vm.c:18-46 | a store through the TLB changes the flat memory at one page |
| `AddressSpaces.AddressSpace.FreePages` | kernel/vm/vm.c:257-271 | every resident frame is given back to the buddy allocator once, in FIFO order, its pages are free then, and nothing stays mapped |
| `AddressSpaces.AccessKeeps` | kernel/vm/vm.c:154-183 | whatever the frames hold, an access gives a used page its bytes back exactly unless a new frame is taken for an evicted page |
| `AddressSpaces.EvictedPageLost` | kernel/vm/vm.c:158-170 | a run in which an evicted page comes back with other bytes |
| `BlockLists.ConcatSlice` | kernel/fs/read_write.c:28-49 | bytes of a block are the bytes at that place of the file |
| `BlockLists.ConcatSplice` | kernel/fs/read_write.c:74-99 | copying into a block writes at that place of the file and nowhere else |
| `OpenFiles.ExpandedOk` | kernel/fs/read_write.c:173-185 | the blocks file_expand_to asks for are enough, whatever was unused before, and a file with at most one unused block stays one |
| `OpenFiles.BlocksForIs` | kernel/fs/read_write.c:178-180 | the rounding computes the least number of blocks that hold the bytes |
| `OpenFiles.EnoughSpare` | kernel/fs/read_write.c:177-185 | the blocks asked for are there exactly when the new size fits into all blocks together |
| `OpenFiles.CopyOut` | kernel/fs/read_write.c:24-49 | the loop of fs_read stays inside the list and gathers exactly the bytes asked for |
| `OpenFiles.CopyIn` | kernel/fs/read_write.c:70-99 | the loop of fs_write stays inside the list and writes exactly the given bytes |
| `OpenFiles.FindBlock` | kernel/fs/read_write.c:120-130 | the loop of fs_seek finds block and offset of the position |
| `OpenFiles.WrittenIs` | kernel/fs/read_write.c:55-103 | growing and overwriting, seen flat: no byte behind the old end is exposed that was not just written |
| `OpenFiles.SeekClamps` | kernel/fs/read_write.c:113-119 | the position is the clamped target exactly for targets that are not negative, and in an empty file |
| `OpenFiles.ReadGuard` | kernel/fs/read_write.c:17-19 | the guard lets an overrun through exactly when the sum wraps |
| `OpenFiles.AppendCursor` | kernel/fs/open.c:243-246 | the append cursor is the end of the file exactly when at most one block is unused |
| `OpenFiles.OpenFile.constructor` | kernel/fs/open.c:223-255 | position and contents for the three open modes; the cursor is the position in every mode but append, and there exactly when at most one block is unused |
| `OpenFiles.OpenFile.Read` | kernel/fs/read_write.c:9-53 | errors exactly as specified, and otherwise the bytes of the flat file at the position, which moves |
| `OpenFiles.OpenFile.ExpandTo` | kernel/fs/read_write.c:167-188 | it fails exactly when file and spare blocks together are too small; else the new size, old bytes unchanged, and the least number of blocks is added that holds it, in order, none if there is room |
| `OpenFiles.OpenFile.Write` | kernel/fs/read_write.c:55-103 | the flat file with the data at the position, byte by byte, or nothing changed on an error; an error exactly without the write mode or when file and spare blocks together are too small |
| `OpenFiles.OpenFile.Seek` | kernel/fs/read_write.c:105-133 | the target if it lies in the file, else its end; offset 0 gives the position, the start and the end of the contents for the three modes; contents unchanged |
| `OpenFiles.OpenFile.WriteThenRead` | kernel/fs/read_write.c:9-133 | what was written is read back |
| `FatVolumes.FindFree` | kernel/fs/fat/fat.c:177-190 | the lowest free cluster from the start on, none exactly when there is none |
| `FatVolumes.HintFindsLowest` | kernel/fs/fat/fat.c:177-212 | with a sound hint the search finds the lowest free cluster of the table |
| `FatVolumes.FreeCountIs` | kernel/fs/fat/fat.c:177-190 | the count that decides whether the search succeeds is the number of free clusters from the start on |
| `FatVolumes.FreeChain` | kernel/fs/fat/fat.c:538-557 | the walk frees exactly the chain and finds its lowest cluster, a member of it |
| `FatVolumes.ReadChain` | kernel/fs/fat/fat.c:336-355 | the walk reads exactly the chain |
| `FatVolumes.LinkNew` | kernel/fs/fat/fat.c:482-513 | the lowest free clusters are linked behind the first one and the last is marked END; fails exactly when too few are free |
| `FatVolumes.ExpandedChain` | kernel/fs/fat/fat.c:482-513 | first cluster and new clusters are an acyclic chain that ends in END |
| `FatVolumes.AppendedMap` | kernel/fs/fat/fat.c:482-506 | the linked clusters equal the map exactly when the map had one cluster |
| `FatVolumes.FatVolume.constructor` | kernel/fs/fat/fat.c:316-361 | a volume with disjoint chains is mounted |
| `FatVolumes.FatVolume.Create` | kernel/fs/fat/fat.c:398-410 | the lowest free cluster from the hint on becomes a one-cluster file; chains stay disjoint, the hint sound |
| `FatVolumes.FatVolume.Expand` | kernel/fs/fat/fat.c:476-521 | chain and map afterwards, equal exactly for a one-cluster map; chains stay acyclic, END-terminated and disjoint; only free clusters are taken and no other entry changes; the hint is right behind the last new cluster and stays sound |
| `FatVolumes.FatVolume.Clear` | kernel/fs/fat/fat.c:523-561 | the table entry by entry: everything but the first cluster of the chain is freed, that one is marked END; other files are untouched; the hint moves to the lowest freed cluster if that lies below it, and stays sound |
| `FatVolumes.FatVolume.Delete` | kernel/fs/fat/fat.c:619-646 | exactly the chain is freed, other files are untouched; the hint moves to the lowest freed cluster if that lies below it, and stays sound |
| `FatVolumes.FatVolume.Load` | kernel/fs/fat/fat.c:334-355 | the map of a reloaded inode is the chain |
| `FatVolumes.ExpandLosesTail` | kernel/fs/fat/fat.c:481-501 | a two-cluster file whose second cluster leaves the chain when it is expanded |
| `ShortNames.ConvertToShort` | kernel/fs/fat/fat.c:214-237 | stem and extension around the last dot, no letter in lower case, padded with spaces |
| `ShortNames.ConvertFromShort` | kernel/fs/fat/fat.c:239-267 | lower case up to the first space, no letter in upper case, with a dot exactly before a non-empty extension |
| `ShortNames.RoundTrip` | kernel/fs/fat/fat.c:214-267 | to 8.3 and back gives the lower-case name if and only if the name fits |
| `ShortNames.Compare` | kernel/fs/fat/fat.c:693-712 | 0 exactly for names equal up to case, as C strings |
| `ShortNames.LookupFinds` | kernel/fs/fat/fat.c:436-474 | a file created under a name that fits is found under exactly the names equal to it up to case |
| `ShortNames.ShortNamesDistinct` | kernel/fs/fat/fat.c:214-237 | two names that fit collide on disk exactly when they are equal up to case |

## Left out

- Scheduler, signals, system calls, drivers, interrupt and exception assembly, shell, logging, time: outside the five parts.
- `kernel/mm/bootmm.c`, `kernel/fs/fscache.c`, `kernel/fs/ext2`, `kernel/vm/shm.c`: the zone bounds are inputs, `get_fspage` is a total map from block to page.
- `kmem_cache_free_page` and `page_is_in_freelist`: they have no caller.
- Disk errors and failed small metadata allocations: they are taken to succeed.
- Circular list pointers: the lists of `include/linux/list.h` are sequences, so aliasing of list nodes is not captured.
- Interrupts are off in every operation that is modelled, and each runs alone.
- The scalar type of augmented values is `int`, and the user's compute function is a pure function of the node and its children's values.
- RbEraseColor.CaseFour: the colour write of the sibling's outer child is made before the two child-pointer writes of the rotation, not between them; the resulting memory is the same.
- Buddies.BuddyZone.FreePages: expects the head of a block for pages of the zone, as all callers pass; the code's guard against a double free reads the page struct and means something for heads only.
- `struct page`'s field `virtual` is not part of the physical memory model; the slab head lies at the address of its page.
- Kmalloc.KernelHeap.Free: expects a live pointer; freeing anything else is undefined in the code.
- AddressSpaces.AddressSpace.TlbException: faults are given by page number; for a fault address that is not page-aligned the code later swaps a window that crosses into the next page, which is not captured.
- AddressSpaces.AddressSpace.SwapOnePage: a TLB miss on the victim inside the copy is modelled as the comment in the code describes it: the handler is abandoned and the access starts over; the swap block taken so far is lost.
- AddressSpaces.AddressSpace.PrepareBlock: the swap file is read and written block by block; that `fs_seek`, `fs_write` and `fs_read` reach those bytes is what the file model proves.
- Address space identifiers and the global bit: there is one address space, and TLB entries match by VPN2.
- AddressSpaces.AddressSpace.FreePages: releasing the second-level tables and the `mm_struct` is not modelled.
- RbIteration.Replace: the structure copy into the new node, before anything leads to it, is not among the memory in `seen`.
- RbErase.Erase: a lookup that stands on the erased node while its tree is being rebalanced is not covered, only one that came from the root or stands on a remaining node.
- PagePools.PagePool.DeleteBlock: the `kfree` of the block's buffer is not modelled.
- OpenFiles.OpenFile.Read: expects position plus length below 2^32; `OpenFiles.ReadGuard` says when the guard is passed otherwise.
- OpenFiles.OpenFile.Write: when the file has to grow, expects the new size, and its distance from the end of the last block, to be an int, which is what file_expand_to computes with; beyond it nothing is stated.
- Files and blocks are below 2^31 bytes; `fs_seek` counts in int.
- Files have one opener, so `f_size` and `i_size` are one number.
- Directory entries, and the sector and byte offsets of table entries, are not modelled; a volume keeps all its inodes cached.
- FatVolumes.FatVolume.Expand: when too few clusters are free the code reads on behind the table; nothing is claimed for that case.
- End-of-chain marks other than 0x0FFFFFFF are not recognised by the code, and volumes with such marks are not modelled.
