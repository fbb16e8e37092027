# Verification of the TipOS kernel's storage, scheduling, screen and loader code

This project models the stateful core of the operating system in Dafny and proves what it promises:

* **Kernel heap** (`kernel/memory.c`): the buddy allocator over 16384 frames with its one-byte tags and intrusive
  free lists, the slab caches on top of it, `kmalloc`/`kfree`/`kcalloc`, the user mappings, and the four-level page
  mapper. The central fact is that tags of interior frames go stale and are never cleaned, and yet the merge test
  never reads a tag it may not trust. From tiling and coalescing follow when allocation fails, that the live
  blocks determine the free ones, and that freeing undoes allocating.
* **FAT32 driver** (`fs/fat32.c`): the disk is an array of 512-byte sectors, the table little-endian 28-bit entries
  inside it, directories 32-byte slots along chains. Write-then-read, exact space accounting, the tree that names and
  chains form and what every other file keeps over a whole run of calls in any directories, `mkdir` against `rmdir`,
  entering and leaving a directory, freeing on arbitrary (also cyclic) tables, and 8.3 names.
* **Scheduler** (`kernel/process.c`): the process table as a state machine composed with the heap: safety of every
  run, bounded waiting, who is woken, and that a process's two heap blocks come back; then table, slab pages and all
  other blocks in the one heap they share.
* **Terminal repaint** (`userland/libc/tui.c`): the painter's algorithm and a diffing repaint, stated through an
  interpreter for the control functions CUP, EL, ED and SGR (sections 8.3.21, 8.3.41, 8.3.39 and 8.3.117 of ECMA-48).
* **Mach-O** (`userland/tools/macho_pack.py`, `kernel/mach_o.c`): the packer and the loader that must undo it.

Objects the source updates in place are classes (`BuddyHeap.Heap`, `Kmalloc.Allocator`, `FatDriver.Volume`,
`Processes.Processes`, `Kernel.Kernel`, `PageTables.AddressSpace`, `Tui.Screen`, `Tui.Window`, `MachO.Memory`); their
loops are methods proved against functions and predicates on values, about which the lemmas speak. `Valid()` of each
class is kept by every one of its methods, so what follows from it holds in every reachable state; the methods that
give memory back in `Kmalloc` and `Kernel` say exactly when it is kept. Proofs about other steps use `hide` to keep
the definitions they do not need out of sight. What lies outside the programs, the bytes on the disk, in an image and
on the screen, page-table entries and the slots of the process table, is also said in plain numbers, without the
functions that the proofs use (`FatLayout`, `MachOBytes`, `PageRights`, `Tui.Seen`, `Scheduling.SwitchSlots`).

Files: `Widths`, `Options`, `Arithmetic`, `Counting` (shared); `Dyadic`, `Blocks`, `Layout`, `FreeLists`, `Buddy`,
`Slabs`, `Kmalloc`, `Grants`, `PageReuse` (heap); `Paging`, `PageRights`, `PageTables` (page tables); `Bytes`,
`FatTable`, `Fat`, `FatDriver`, `FatFree`, `FatNames`, `FatSlots`, `FatScan`, `FatFiles`, `FatDirs`, `FatMkdir`,
`FatRmdir`, `FatRoundTrips`, `FatLayout`, `FatSessions`, `FatVolume`, `FatOthers`, `FatLinks`, `FatTree` (FAT32);
`Scheduling`, `LostWakeup`, `Processes`, `Lifecycle` (scheduler); `Kernel` (memory and processes together);
`Terminal`, `Tui`, `TuiText` (screen); `Words`, `MachO`, `MachOPlaces`, `MachOBytes` (loader and packer). `dafny
verify dfyconfig.toml` covers all of them.

## Where the code does not do what it looks like

Each is kept as it is in the code, with an exact condition or a concrete input:

* `kmalloc` rounds up in 64 bits: a request within 4095 bytes of 2^64 gets one frame (`Kmalloc.RoundUp`,
  `Kmalloc.HugeRequestGetsOneFrame`); `kcalloc` also when its product wraps (`Kmalloc.ProductFits`): 2^60 + 1 elements
  of 16 bytes are granted 16 bytes (`Kmalloc.WrappedProductGetsOne`).
* `munmap_user` frees whatever block begins at the address, and the system call passes on any address unchecked
  (`kernel/syscall.c:222-223`). The allocator stays sound exactly if that is no slab page
  (`Kmalloc.Allocator.MunmapUser`); after one, the page's frame is handed out again under objects still in use
  (`PageReuse.PageReused`). The process table keeps its blocks exactly if it is neither a slab page nor a block of a
  process (`Kernel.Kernel.MunmapUser`), and the kernel stack that a spawn took is such a block
  (`Kernel.Kernel.Spawn`). `munmap_all_user`, which nothing calls, takes all those stacks
  (`Kernel.Kernel.MunmapAllUser`).
* `schedule` never leaves a READY current slot, and after `process_init` the current slot is READY
  (`Scheduling.ReadySlotStays`, `Scheduling.BootOk`).
* A child stores its parent's slot number, but the parent is looked up by pid, so a waiting parent is woken exactly
  if its pid is its slot number (`Scheduling.WaiterWokenIff`); a run from boot in which it never is
  (`LostWakeup.LostWakeup`).
* Waiting again for a process already reaped blocks instead of failing (`Scheduling.WaitAgainBlocks`).
* `pml4_map_phys` sets the user bit in the page's entry, but not in those of the tables it hangs in. A page mapped is
  open to user programs exactly if both entries above it were there before with that bit
  (`PageTables.RangeRights`).
* The byte count of a file read or write is returned as an `int`: from 2^31 bytes on a complete write looks failed
  and leaves the directory entry as it was (`FatFiles.WriteThenRead`, `FatFiles.WriteFile`, `FatFiles.HugeWrite`).
* Growing a chain whose last entry is 0 (line 167 of `fs/fat32.c` takes it for an end): if its last cluster is the
  least free one, the end mark overwrites the link, and the bytes that follow go over that same cluster while the
  write looks complete. Exactly then, and if the bytes need more than the chain, what was written is not what the
  chain holds (`FatDriver.Volume.WriteChain`); the input: `FatDriver.LostCluster`.
* A name whose 8.3 form begins with byte 0xE5 makes `fat32_mkdir` return -1 after it has written to a slot, which is
  marked deleted by that name and stays unused (`FatMkdir.Mkdir`, `FatMkdir.MarkedName`). `fat32_create_file` succeeds
  with it, and such a file does not keep its directory from being removed (`FatSessions.RemoveFull`).
* `fat32_rmdir(".")` succeeds in a fresh directory and leaves the current directory in a free cluster that no chain
  begins with (`FatRoundTrips.RemoveSelf`); a removal spares the chain of the current directory exactly if it is of
  another one (`FatVolume.OwnChainIff`).
* Removing a fresh directory marks its slot deleted; if that slot was the end mark, stale entries behind it come to
  light, and only then (`FatRoundTrips.ViewRestoredIff`); `fat32_mkdir` clears one sector of a new directory only, so
  a row whose second sector begins with such an entry is at hand (`FatRoundTrips.StaleEntryReturns`). Filling the slot
  that ends a directory adds just its own link exactly if no entry behind it leads anywhere (`FatLinks.PutTargetsIff`).
* `mach_o_load` takes a first segment at address 0 for no segment at all; all segments keep their distances exactly
  if the first one's address is not 0, or all are (`MachOPlaces.OneBaseIff`, `MachOPlaces.ZeroFirst`).
* A thread command's entry point is read from bytes 48 to 55 of the command, byte 32 of the state
  (`MachOBytes.CmdBytes`); that is the fifth 64-bit register of the
  state, and x86-64 keeps the entry point in the seventeenth.
* A scrolling window does not scroll: text that goes on behind its last row is typed over that row
  (`TuiText.TypeOver`).
* Closing a window moves the topmost window to its place in the stacking order (`Tui.ClosedLooks`).
* `tui_refresh` sends the bytes 0x09 and 0x7F as they are. A row of the terminal is in step afterwards exactly if it
  holds neither and was in step or was repainted (`Tui.Screen.RefreshRow`, `Tui.Screen.Refresh`); so from a terminal
  in step it shows the picture exactly if neither is to be seen in it. One window holding one of them spoils it
  (`Tui.SpoiltRefresh`), and a tab moves what follows it (`Tui.TabMoves`). `char` is signed on this target, so bytes
  from 0x80 on are shown as blanks like control bytes.

## Model

| member | source | states |
|---|---|---|
| Dyadic.XorFlips | kernel/memory.c:132 | the xor with 2^order that finds the buddy flips exactly bit `order` of the frame number, for all numbers |
| Dyadic.AlignedIsMultiple | kernel/memory.c:97-146 | the alignment that every block keeps is divisibility of its first frame by 2^order |
| Dyadic.FlipTwice | kernel/memory.c:132 | the buddy of the buddy is the block itself, and the two differ |
| Dyadic.NestedOrDisjoint | kernel/memory.c:97-146 | two aligned blocks of any two orders are nested or disjoint |
| Layout.TagMasks | kernel/memory.c:24-26 | reading the fields of a tag record is the masking that the code does on the tag byte, for all bytes |
| Blocks.BuddyIsHead | kernel/memory.c:131-133 | for every maximum order: where a block's buddy would begin, some block of no greater order begins, so the merge test never reads the tag of an interior frame |
| BuddyHeap.BuddyTag | kernel/memory.c:133 | the byte compare on the buddy's tag succeeds exactly if a free block of that very order begins there, however old interior tags are |
| BuddyHeap.TagTells | kernel/memory.c:298-299 | FRAME_ALLOC is set exactly at the heads of live blocks, with their order and use |
| Blocks.RunInsideBlock | kernel/memory.c:97-146 | by induction on the order: an aligned run of idle frames lies inside one free block, because no two buddies of equal order are both free |
| Blocks.FitIffRun | kernel/memory.c:100-104 | a free block of order o or more exists exactly if some aligned run of 2^o frames is entirely free |
| Blocks.LiveDeterminesAll | kernel/memory.c:123-146 | canonical form: two coalesced tilings with the same live blocks are the same, free blocks included |
| Blocks.EmptyIsOneBlock | kernel/memory.c:123-146 | with nothing live the heap is one free block of the maximum order |
| Blocks.GiveUpperHalf | kernel/memory.c:110-115 | one split keeps tiling and coalescing and changes the live blocks only in the order of the one being cut |
| Blocks.MergeBuddies | kernel/memory.c:131-138 | one merge keeps tiling, keeps coalescing but for the joint block, and keeps the live blocks |
| Blocks.MergeEnds | kernel/memory.c:131-143 | when the merge loop stops, no two buddies are both free |
| FreeLists.AddLinked | kernel/memory.c:81-86 | list_add on the words in memory keeps every free list a well-formed doubly linked list and puts the block in front |
| FreeLists.RemoveLinked | kernel/memory.c:88-95 | list_remove takes exactly that block out and keeps every list well formed, at the head and anywhere else |
| BuddyHeap.Heap.ListAdd | kernel/memory.c:81-86 | the stores amount to putting the block in front of its list; only words of listed blocks change |
| BuddyHeap.Heap.ListRemove | kernel/memory.c:88-95 | the stores amount to taking the block out of its list; the block's own first word keeps a link |
| BuddyHeap.Heap.constructor | kernel/memory.c:205-214 | the heap begins as one free block of order 14 with the whole invariant |
| BuddyHeap.Heap.FindOrder | kernel/memory.c:100-104 | finds the least sufficient order with a non-empty list, or none exactly if no free block is large enough |
| BuddyHeap.Heap.TakeFirst | kernel/memory.c:106-108 | the head of that list becomes live and is unlinked; memory of live blocks is untouched |
| BuddyHeap.Heap.SplitOnce | kernel/memory.c:111-114 | one turn of the split loop halves the block kept and lists the upper half |
| BuddyHeap.Heap.Split | kernel/memory.c:110-115 | the loop brings the block down to the order asked for, keeping the whole invariant |
| BuddyHeap.Heap.BuddyAlloc | kernel/memory.c:97-121 | returns NULL exactly if the order is out of range or no aligned run of 2^order frames is free; otherwise exactly one live block of that order is new, in a smallest free block that is large enough, the head of the first sufficient list; contents of live blocks are untouched |
| BuddyHeap.Heap.Release | kernel/memory.c:129-130 | the freed block leaves the live blocks and may be uncoalesced with its buddy only |
| BuddyHeap.Heap.MergeOnce | kernel/memory.c:133-138 | one turn of the merge loop unlinks the buddy and retags the joint block, keeping the invariant and the live blocks |
| BuddyHeap.Heap.MergeUp | kernel/memory.c:131-145 | the loop ends with the whole invariant, no two free buddies, and the same live blocks |
| BuddyHeap.Heap.InsertBlock | kernel/memory.c:144-145 | listing the finished block completes the invariant |
| BuddyHeap.Heap.BuddyFree | kernel/memory.c:123-146 | exactly that block leaves the live blocks; bad addresses and orders change nothing; contents of live blocks are untouched |
| BuddyHeap.FreeUndoesAlloc | kernel/memory.c:97-146 | freeing the block just allocated restores the earlier state, free blocks included, for every state |
| BuddyHeap.Heap.FreeEach | kernel/memory.c:123-146 | freeing all live blocks, in whatever order, ends in the single block of order 14 |
| BuddyHeap.OrderFor | kernel/memory.c:286-287 | the least power of two that is no less than the number of pages |
| BuddyHeap.Heap.MmapUser | kernel/memory.c:282-289 | a user block of the least sufficient order, or NULL exactly if there is no such run |
| BuddyHeap.Heap.MunmapUser | kernel/memory.c:291-301 | frees the live block that begins at the address, if one does, whatever its use; the return value by cases |
| BuddyHeap.ScanStep | kernel/memory.c:303-332 | one step of the scan forgets one user block and steps over exactly its frames, or forgets nothing |
| BuddyHeap.Heap.MunmapAllUser | kernel/memory.c:303-332 | exactly the kernel blocks stay live, their contents untouched; one block of order 14 is left if there are none |
| Slabs.SlotFits | kernel/memory.c:175-180 | an object fits behind the header exactly if its number is below obj_per_slab, so loop count and table agree |
| Slabs.SlotPlace | kernel/memory.c:162-180 | in plain numbers: object k of a page of 2^(c+4)-byte objects lies at 0x900000 + 4096 f + 48 + k 2^(c+4), and 4048 / 2^(c+4) of them fit |
| Slabs.PopSlot | kernel/memory.c:153-154 | the first free object's first word leads to the rest of the free list |
| Slabs.PushSlot | kernel/memory.c:193-194 | storing the list's head in a taken object puts that object in front of the free list |
| Slabs.LinkIsNotMagic | kernel/memory.c:81-83 | a link word never reads as SLAB_MAGIC, so list_add wipes the magic of an earlier slab life |
| Kmalloc.GrantedDisjoint | kernel/memory.c:228-256 | two objects handed out and not given back never overlap, across slabs and buddy blocks |
| Kmalloc.ObjectWord | kernel/memory.c:148-203 | no word of an object lies in a slab header or in a free frame, the only places the allocator writes besides the object given back |
| Kmalloc.OthersSpared | kernel/memory.c:189-203 | what giving an object back writes reaches no other object |
| Kmalloc.KeepState | kernel/memory.c:148-203 | what the buddy layer does to free blocks leaves every slab page and the kfree test intact |
| Kmalloc.Allocator.constructor | kernel/memory.c:205-226 | an empty heap and eight empty caches satisfy the whole invariant |
| Kmalloc.Allocator.FindFree | kernel/memory.c:150-159 | the first page of the cache with a free object, or none exactly if all are full |
| Kmalloc.Allocator.TakeFree | kernel/memory.c:152-156 | the object returned was free and leaves the free list; in_use grows by one, so free plus in_use stays total |
| Kmalloc.Allocator.BuildFreeList | kernel/memory.c:171-180 | the loop threads all objects that fit, last first, and counts them |
| Kmalloc.Allocator.InitPage | kernel/memory.c:162-185 | a new page has all its objects free but the first one handed out, and a sound header |
| Kmalloc.Allocator.OpenNewPage | kernel/memory.c:160-186 | a fresh frame becomes a slab page of the cache, at the front of its chain |
| Kmalloc.Allocator.SlabAlloc | kernel/memory.c:148-187 | NULL exactly if all pages of the cache are full and no frame is free; otherwise exactly one object of the cache's size is new |
| Kmalloc.Allocator.UnchainPage | kernel/memory.c:198-200 | exactly that page leaves its cache's chain, which stays well formed |
| Kmalloc.Allocator.SlabFree | kernel/memory.c:189-203 | exactly that object is given back; an emptied page is unlinked and its frame freed |
| Kmalloc.Allocator.Kmalloc | kernel/memory.c:228-242 | NULL exactly if the size is 0 or no page or run can serve it; otherwise exactly one object is new, of the size class's size, it holds the request exactly if rounding does not wrap, it is no block that munmap_all_user takes, and every word of every other object is unchanged |
| Kmalloc.Allocator.Kfree | kernel/memory.c:244-256 | exactly the object at that address is given back, by the right path on recycled pages too, and every word of every other object is unchanged; any other address changes nothing that callers hold |
| Kmalloc.Allocator.ClientStore | kernel/memory.c:228-256 | a caller's store inside its object changes that word only and keeps the whole invariant, headers and free lists included |
| Kmalloc.Allocator.ClearSize | kernel/memory.c:262-274 | what kcalloc computes as the size to clear is exactly the size that kmalloc granted |
| Kmalloc.Allocator.Clear | kernel/memory.c:275-276 | exactly the words of the object become zero |
| Kmalloc.Allocator.Kcalloc | kernel/memory.c:258-280 | one new object, cleared to its last word, every word of every other object unchanged; as large as count times size exactly if neither product nor rounding wraps |
| Kmalloc.Allocator.MmapUser | kernel/memory.c:282-289 | beside the slab layer: NULL exactly if no run of the least sufficient order is free; otherwise exactly one user block is new, it holds the request exactly if rounding does not wrap, and every word of every object is unchanged |
| Kmalloc.Allocator.MunmapUser | kernel/memory.c:291-301 | for every address: the allocator stays sound exactly if that is no slab page; exactly the block at that address leaves the live blocks, if one begins there; then exactly that object is given back and every word of every other object is unchanged; the return value by cases |
| PageReuse.PageReused | kernel/memory.c:291-301 | after unmapping a slab page, in every state: allocating single frames comes to that very frame, and the new block lies over an object of the page that is still in use |
| Kmalloc.Allocator.MunmapAllUser | kernel/memory.c:303-332 | what is handed out afterwards is exactly what was and is no user block; every word of it, small objects included, is unchanged |
| Kmalloc.RoundUp | kernel/memory.c:232-234 | the block holds the request exactly if adding 4095 does not wrap |
| Kmalloc.HugeRequestGetsOneFrame | kernel/memory.c:232-235 | counterexample: a request of 2^64 - 1 bytes gets 4096 |
| Kmalloc.ProductFits | kernel/memory.c:259-260 | the object holds count times size exactly if neither the product nor the rounding wraps |
| Kmalloc.WrappedProductGetsOne | kernel/memory.c:259-260 | counterexample: 2^60 + 1 elements of 16 bytes get an object of 16 bytes |
| Kmalloc.CacheFor | kernel/memory.c:237-240 | the least cache whose objects hold the request |
| Kmalloc.SizeTable | kernel/memory.c:228-240 | the size granted, in plain numbers: 16, 32, .. 2048 bytes up to a request of 2047, from there 4096 bytes times the least power of two that is no less than the pages |
| Paging.Indices | kernel/memory.c:370-372 | the three indices of the walk are the bit fields the code shifts out |
| PageRights.Translates | kernel/memory.c:370-387 | what a walk is, in plain numbers: the entries at those indices, bit 0 for present, bit 7 for a large page, bits 51 down for the frame |
| Paging.HungTree | kernel/memory.c:373-385 | hanging a fresh zeroed table into an empty entry keeps the tables a tree |
| Paging.HungAtRoot | kernel/memory.c:373-378 | a fresh table under the root changes no translation |
| Paging.HungAt3 | kernel/memory.c:380-385 | nor does one on the second level |
| Paging.PageEntered | kernel/memory.c:386-387 | after the entry is stored a four-level walk sends exactly the addresses of that 2 MB page to the physical page, all others as before |
| PageRights.HungWays | kernel/memory.c:373-385 | a fresh table hung in with 0x03 changes no right and no page entry, as user programs could not pass there before either |
| PageRights.EnteredWays | kernel/memory.c:386-387 | entering a page with 0x87 opens it for touching and storing exactly as far as the upper entries let through, and leaves the rights and entries of all other pages |
| PageTables.NewPage | kernel/memory.c:374 | a page just allocated holds no table yet, because every table lies in an allocated block |
| PageTables.AddressSpace.Descend | kernel/memory.c:373-386 | the entry leads on afterwards, no translation, no right and no page entry changes, and failure means that no frame is free |
| PageTables.AddressSpace.MapPage | kernel/memory.c:368-387 | one page translates as given, its entry is the address plus 0x87, and it is open as far as the entries above let through; all other addresses as before |
| PageTables.AddressSpace.MapPhys | kernel/memory.c:362-391 | on success every page of the range is mapped and entered with 0x87; on failure an initial part is, and no frame is free; all else translates, and is allowed, as before |
| PageTables.RangeTranslates | kernel/memory.c:362-391 | every va in the range goes to phys + (va - virt), every other 48-bit address where it went before |
| PageTables.RangeRights | kernel/memory.c:362-391 | a page of the range may be touched by user programs exactly if both upper entries were there before with the user bit, and stored to exactly if none that was there forbids it; its entry is its address plus 0x87; every other address keeps its rights |
| Fat.ClustersApart | fs/fat32.c:66-68 | different clusters have disjoint sectors |
| FatLayout.ChainByte | fs/fat32.c:66-68 | byte j of sector s of the k-th cluster of a chain is byte j of sector first_data + (cluster - 2) * sectors_per_cluster + s of the disk |
| Fat.MixBits | fs/fat32.c:85-86 | mixing the top four bits with the low 28 on words is the arithmetic of the model |
| Fat.PutEntryGet | fs/fat32.c:70-89 | an entry written is the entry read, others and all top-four-bit fields are unchanged |
| FatLayout.EntryBytes | fs/fat32.c:70-77 | entry c in plain bytes: 28 bits of the four bytes at 4 (c mod 128) of sector c / 128 of the table |
| FatLayout.ReservedBytes | fs/fat32.c:79-89 | what every call keeps, in plain bytes: the sectors before the table and the upper half of the last byte of every entry |
| Fat.ClustersNeeded | fs/fat32.c:138-179 | the chain of n clusters is just long enough exactly if n is the ceiling of bytes over cluster size |
| FatTable.ChainUnique | fs/fat32.c:110-136 | a chain is determined by where it begins |
| FatLayout.ChainLinks | fs/fat32.c:110-136 | what a chain is, without the functions of the model: different clusters from 2 on, each entry the next one, the last 0x0FFFFFF8 or more |
| FatTable.GrowStep | fs/fat32.c:168-173 | appending the least free cluster keeps the old chain as a prefix and changes nothing else |
| FatTable.GrownFree | fs/fat32.c:138-179 | exactly the added clusters leave the free set, and their number is the difference of the lengths |
| FatTable.OtherChain | fs/fat32.c:138-179 | any chain that shares no cluster stays a chain, and shares none with the grown one |
| FatDriver.Volume.ReadEntry | fs/fat32.c:70-77 | the 28-bit entry of the cluster |
| FatDriver.Volume.WriteEntry | fs/fat32.c:79-89 | exactly that entry changes, to the low 28 bits; data sectors and top-four-bit fields do not |
| FatDriver.Volume.FindFree | fs/fat32.c:91-98 | the least free cluster, or 0 exactly if there is none |
| FatLayout.FirstFree | fs/fat32.c:91-98 | in plain numbers: it is the first cluster from 2 on whose entry is 0, and none is free exactly if all entries from 2 on are not 0 |
| FatDriver.Volume.WriteCluster | fs/fat32.c:144-163 | whole sectors and the tail: the cluster begins with the bytes given, the rest of it and of the disk is as before |
| FatDriver.Volume.NextCluster | fs/fat32.c:166-176 | the next cluster of the chain; or, at an end mark or a 0, the chain grown by the least free cluster; or the same cluster again, exactly if it is itself the least free one; or failure with none free |
| FatDriver.Volume.WriteChain | fs/fat32.c:138-179 | for chains that end in an end mark or in 0: succeeds exactly if the bytes fit the chain and the free clusters; the free clusters spent are those the ceiling of bytes over cluster size asks for beyond the chain, or all; on success the chain has grown by least free clusters, nothing outside it changed, and it begins with the buffer, or with the buffer less what went to its last cluster first, exactly if its last cluster was the least free one and the bytes need more than it |
| FatDriver.LostCluster | fs/fat32.c:165-176 | the input: a chain of one cluster, the least free one, and up to two clusters of bytes; the count says complete, the chain is that cluster, and its bytes are those of the second |
| FatDriver.Accounts | fs/fat32.c:138-179 | both exits of the loop spend that number: the chain grows only while it is too short |
| FatDriver.Volume.ReadCluster | fs/fat32.c:115-132 | whole sectors and the remainder: exactly the first n bytes of the cluster land at the offset |
| FatDriver.Volume.ReadChain | fs/fat32.c:110-136 | exactly the leading bytes of the clusters that the links lead to, as many as size and chain allow, however the chain ends and also on a circle that is long enough; the rest of the buffer is untouched |
| FatFree.FreeChain | fs/fat32.c:672-677 | on every table in which what the start leads to stays inside, cyclic ones included, the loop ends and zeroes exactly the entries reachable from the start |
| FatFree.ClearedAll | fs/fat32.c:672-677 | what the loop has cleared when it stops is everything reachable, no more |
| FatFree.ChainReaches | fs/fat32.c:672-677 | from the head of a whole chain exactly its clusters are reached |
| FatNames.NameTo83 | fs/fat32.c:35-64 | the 11 bytes, in plain numbers: byte i of base and extension is the character there, less 0x20 if it is 0x61 to 0x7A, cut to 8 and 3, then blanks; dots names kept |
| FatNames.CaseBlind | fs/fat32.c:52-60 | names that differ only in the case of letters give the same 11 bytes |
| FatNames.SameName | fs/fat32.c:35-64 | two names give the same 11 bytes exactly if their upper-cased base and extension agree after cutting to 8 and 3 and dropping trailing blanks |
| FatNames.PrintedRoundTrip | fs/fat32.c:290-298 | converting the printed name gives the same slot name back, for every upper-case slot without inner blanks or dots |
| FatLayout.PrintedBytes | fs/fat32.c:290-298 | the name listed: the base up to its first blank, and behind a dot the extension up to its own, if both have something |
| FatNames.DotsRoundTrip | fs/fat32.c:37-41 | the two dots entries survive printing and converting |
| FatSlots.ReadSlot | fs/fat32.c:204-209 | the slot read from a sector buffer is the slot of that number along the chain |
| FatSlots.SlotFields | fs/fat32.h:51-64 | the fields of a slot byte by byte: name 0-10, attribute 11, first cluster 26, 27, 20, 21, size 28-31, a directory exactly with bit 4 of the attribute |
| FatSlots.WithClusterBytes | fs/fat32.h:51-64 | storing a first cluster changes bytes 20, 21, 26 and 27 and no other |
| FatSlots.WithSizeBytes | fs/fat32.h:51-64 | storing a size changes the last four bytes and no other |
| FatSlots.WriteSlot | fs/fat32.c:442 | a buffer with one slot changed, written back, changes exactly that slot of the directory |
| FatLayout.StoredBytes | fs/fat32.c:442 | storing slot p changes bytes 32 p to 32 p + 31 of the directory and no other |
| FatScan.Scan | fs/fat32.c:202-225 | the slot loop finds the first slot along the links that the test takes or stops at, or passes all; links that go round behind that slot are followed no further |
| FatFiles.FindEntry | fs/fat32.c:197-226 | the first matching slot before the end of the directory, or none exactly if there is none, also in a directory whose links go round behind it |
| FatLayout.FoundBytes | fs/fat32.c:197-226 | in plain bytes: the slot found is the first one with those 11 bytes, in use and no long name, and no slot up to it begins with 0 |
| FatFiles.UpdateHitsSame | fs/fat32.c:426-438 | the second scan, which does not stop at the end mark, hits the very slot that find_entry found |
| FatFiles.ReadFile | fs/fat32.c:398-405 | as much of the file as request, size field and chain allow, by cases, also for chains that are shared or do not end in an end mark; the size is the number in bytes 28 to 31 of the slot found |
| FatFiles.FirstOrNew | fs/fat32.c:412-418 | a file without a chain gets the least free cluster, or the disk is full and unchanged |
| FatFiles.WriteFile | fs/fat32.c:407-450 | the buffer is at the front of the grown chain, the added clusters left the free set and nothing else did; it is cut short exactly if the bytes do not fit the chain and the free clusters; the slot is updated exactly if the count is a positive int, every other chain and its contents are kept, and failure means missing name or full disk; of the slot only bytes 20, 21 and 26 to 31 change, to the first cluster and the count |
| FatFiles.HugeWrite | fs/fat32.c:407-450 | a write of 2^31 bytes that fit: the chain holds them all, the result is negative and the directory entry is as before |
| FatFiles.HeadSpends | fs/fat32.c:407-420 | the same account for files that had no chain: the first cluster comes out of the free ones too |
| FatFiles.NamesAfter | fs/fat32.c:407-450 | after a write the name stands for the new chain and size |
| FatFiles.WriteThenRead | fs/fat32.c:398-450 | the write does not look failed exactly if the name is there, the bytes fit and there are fewer than 2^31 of them; then a read of m bytes gives min(m, n) and exactly those bytes |
| FatDirs.CreateEntry | fs/fat32.c:312-342 | the first unused slot gets the name, attribute, size 0 and cluster 0; failure exactly without one, and then nothing changes |
| FatLayout.FreshBytes | fs/fat32.c:324-334 | the new slot byte by byte: name, attribute, first cluster and size 0, bytes 12 to 19 and 22 to 25 as they were |
| FatLayout.FileEntryBytes | fs/fat32.c:390-392 | a new file's slot byte by byte: attribute 0x20, no cluster, no size |
| FatDirs.CreateFile | fs/fat32.c:390-392 | the same with the file attribute; failure exactly without an unused slot |
| FatSessions.CreateThenEnter | fs/fat32.c:390-478 | create, read and cd of a new name: exactly with a slot unused the file is there, reads as 0 bytes and cannot be entered (-5); otherwise -4, and both others give -1 |
| FatSessions.CreateWriteRead | fs/fat32.c:390-450 | create, write and read a new name: what was written comes back exactly if a slot is unused and the bytes fit the free clusters and an int |
| FatDirs.DeleteFile | fs/fat32.c:344-372 | the slot find_entry would find is marked deleted and nothing else changes; -1 exactly without one |
| FatDirs.Rename | fs/fat32.c:614-640 | the first slot in use with the old name gets the new one, its other bytes unchanged |
| FatLayout.RenamedBytes | fs/fat32.c:630-633 | of the slot only the eleven bytes of the name change |
| FatDirs.ChangeDir | fs/fat32.c:456-478 | the current directory afterwards, by cases |
| FatLayout.EnteredBytes | fs/fat32.c:472-477 | in plain bytes: -5 without bit 4 of byte 11, else to the cluster of bytes 26, 27, 20 and 21, or the root if that is 0 |
| FatMkdir.Mkdir | fs/fat32.c:555-612 | the error cases exactly, with what each leaves behind; on success the least free cluster holds dot and dot-dot, the first unused slot names it, and nothing else changed |
| FatLayout.DirEntryBytes | fs/fat32.c:563-585 | the new directory's slot byte by byte |
| FatLayout.DirSectorBytes | fs/fat32.c:587-604 | its first sector byte by byte: dot with its own cluster, dot-dot with the current one, the rest zeros |
| FatSessions.Refusals | fs/fat32.c:456-687 | mkdir of a name that is there gives -2, or -4 without a free cluster; rmdir, rename and cd of one that no slot in use bears give -1; the volume is as it was |
| FatMkdir.MarkedName | fs/fat32.c:555-612 | the name 0xE5, with a cluster free and a slot unused: -1, the first unused slot is marked deleted and can still be used, no table entry changed |
| FatMkdir.NewEntryHits | fs/fat32.c:568-582 | the second scan of fat32_mkdir hits the entry just created |
| FatRmdir.CheckEmpty | fs/fat32.c:665-669 | slots 2 to 15 of the first sector are unused |
| FatRmdir.Rmdir | fs/fat32.c:642-687 | the error cases exactly, also in plain bytes: -5 without bit 4 of byte 11, -6 exactly if one of bytes 64, 96, .. 480 of the first sector is neither 0 nor 0xE5; on success exactly what the first cluster reaches is freed and the slot marked deleted |
| FatSessions.RemoveFull | fs/fat32.c:312-687 | mkdir, cd, create a file, cd dot-dot, rmdir: mkdir succeeds exactly as usual, then rmdir gives -6, or 0 exactly if the file's 8.3 name begins with 0xE5 |
| FatRoundTrips.MkdirKeeps | fs/fat32.c:555-612 | every other chain and its contents are kept and do not get the new cluster |
| FatRoundTrips.RmdirKeeps | fs/fat32.c:642-687 | every chain that the removed directory does not lead to is kept with its contents |
| FatRoundTrips.MkdirThenRmdir | fs/fat32.c:555-687 | mkdir succeeds exactly if a cluster is free, the name is new and a slot unused, and leaves the disk as it is otherwise; then rmdir succeeds and restores every table entry, and of the parent one unused slot is now marked deleted |
| FatRoundTrips.ViewRestoredIff | fs/fat32.c:203-211 | the names that can be seen are the same afterwards exactly if no stale entry stood behind the end mark |
| FatRoundTrips.StaleEntryReturns | fs/fat32.c:203-211 | on a volume with a directory of two sectors, its first filled up to the end mark and an old entry behind it: a new directory can be made, and removing it brings that entry to light |
| FatRoundTrips.StaleVolume | fs/fat32.c:587-606 | that volume is one: geometry, table, chain and bytes of the directory, with one cluster free |
| FatRoundTrips.EnterAndLeave | fs/fat32.c:456-612 | mkdir succeeds exactly as above; then changing into the directory and then to dot-dot succeeds and leads back |
| FatRoundTrips.RemoveSelf | fs/fat32.c:642-687 | mkdir succeeds exactly as above; then changing into the directory and rmdir of "." succeed and leave a current directory that is a free cluster and lies in no chain |
| FatVolume.WriteSound | fs/fat32.c:407-450 | a write keeps the chains of the volume chains, disjoint, in range and not free, and the contents of all others |
| FatVolume.StoreSound | fs/fat32.c:312-372 | so do create, delete and rename, which change one slot |
| FatVolume.MkdirSound | fs/fat32.c:555-612 | mkdir adds one chain that shares nothing |
| FatVolume.RmdirSound | fs/fat32.c:642-687 | rmdir removes one chain, whose clusters are exactly the ones that become free; all others stay chains, and their contents are kept |
| FatVolume.OwnChainIff | fs/fat32.c:642-687 | the directory in which rmdir is called is a chain afterwards exactly if it is not what was removed |
| FatOthers.CreateOther | fs/fat32.c:312-342 | creating another name leaves a file with its slot, its chain and its contents |
| FatOthers.DeleteOther | fs/fat32.c:344-372 | so does deleting another name |
| FatOthers.RenameOther | fs/fat32.c:614-640 | and renaming another name to another name |
| FatOthers.WriteOther | fs/fat32.c:407-450 | and writing another name, complete or cut short |
| FatOthers.MkdirOther | fs/fat32.c:555-612 | and making a directory of another name |
| FatOthers.RmdirOther | fs/fat32.c:642-687 | and removing a directory that does not lead to the file or its directory |
| FatOthers.StoreElsewhere | fs/fat32.c:312-372 | creating, deleting or renaming in a directory that shares nothing with a file and its directory keeps slot, chain and contents |
| FatOthers.WriteElsewhere | fs/fat32.c:407-450 | so does writing there |
| FatOthers.MkdirElsewhere | fs/fat32.c:555-612 | and making a directory |
| FatOthers.RmdirElsewhere | fs/fat32.c:642-687 | and removing one that does not lead to the file or its directory |
| FatOthers.SameRead | fs/fat32.c:398-405 | a file kept in this sense reads the same |
| FatOthers.WriteThenReadOther | fs/fat32.c:398-450 | after a write to one name, whatever its outcome, a read of another name gives what it would have given before |
| FatLinks.PutTargetsIff | fs/fat32.c:312-342 | storing a slot changes the links of its directory in that slot only, exactly if no entry behind the end mark that leads anywhere comes to light |
| FatTree.EmptyTied | fs/fat32.c:181-226 | an empty root directory makes a tree |
| FatTree.FoundFile | fs/fat32.c:197-226 | every name found in a tree stands for no chain or for a whole chain that shares nothing with its directory, which is what read and write ask for |
| FatTree.FoundDir | fs/fat32.c:642-677 | and what a directory's slot leads to stays inside the table, which is what rmdir asks for |
| FatTree.FilesApart | fs/fat32.c:197-226 | the files of two slots, in one directory or in two, share no cluster |
| FatTree.CallTied | fs/fat32.c:312-687 | every call, in any directory, keeps that the chains share nothing, that the links of all directories are what their slots say, and that no chain has two of them; what the call makes of chains and links is given |
| FatTree.RunTied | fs/fat32.c:312-687 | so over every run of calls in any directories no two chains come to share a cluster, none loops, and every name leads to a chain of its own |
| FatTree.RunKeepsFile | fs/fat32.c:312-687 | over every run of calls in other directories, or in its own under other names, a file is found in the same slot, with the same chain and contents |
| FatTree.WriteNamed | fs/fat32.c:407-450 | under any name that is no directory's a write asks for nothing but the tree, and leaves one |
| FatTree.RemoveNamed | fs/fat32.c:642-687 | under any name that is found rmdir asks for nothing but the tree, and leaves one, or changes nothing |
| Scheduling.ResumesReady | kernel/process.c:281-293 | schedule resumes only a READY slot, and changes slots exactly if another is READY and the current one is not |
| Scheduling.SwitchSlots | kernel/process.c:281-293 | schedule going elsewhere: that slot was READY and is RUNNING, the one left is READY if it was RUNNING, every other slot and field is as before |
| Scheduling.SwitchGoesTo | kernel/process.c:270-283 | it stays exactly if the current slot is READY or none is; otherwise no slot between, going round, was READY |
| Scheduling.ActiveIff | kernel/process.c:127-293 | a process that is READY or RUNNING is so after any step, and the same process, exactly unless it is the current one and exits or waits for a process that has not ended |
| Scheduling.ActiveStays | kernel/process.c:127-293 | so over every run, until it gives up itself |
| Scheduling.RunsAgain | kernel/process.c:281-293 | a process that schedule puts aside runs again within 63 calls of schedule, itself unchanged |
| Scheduling.StepSafe | kernel/process.c:213-293 | every step keeps that only the current slot is RUNNING |
| Scheduling.RunSafe | kernel/process.c:213-293 | so in every state of every run only the current slot is RUNNING |
| Scheduling.SwitchNearer | kernel/process.c:270-293 | after a call of schedule a READY slot runs or is nearer; it is the same process |
| Scheduling.BoundedWaiting | kernel/process.c:127-293 | in every run from a state whose current slot is not READY, a READY slot at cyclic distance d runs within d calls of schedule; as the same process |
| Scheduling.ReadySlotStays | kernel/process.c:270-283 | from a READY current slot schedule never leaves |
| Scheduling.StepPids | kernel/process.c:127-258 | pids stay different from one another and below next_pid |
| Scheduling.ExitSlots | kernel/process.c:213-236 | exit slot by slot: the caller is ZOMBIE with its code, the first blocked slot awaited is READY, all others as before, and then schedule |
| Scheduling.WaitSlots | kernel/process.c:238-258 | one turn of waiting slot by slot: nothing without such a pid; a ZOMBIE's slot becomes EMPTY; otherwise the caller is BLOCKED and schedule follows |
| Scheduling.SpawnSlots | kernel/process.c:127-171 | spawn slot by slot: the first EMPTY slot holds the next pid, READY, with the current slot as parent, the stack's end 8192 bytes on and the page-table root |
| Scheduling.WokenIff | kernel/process.c:213-236 | on an exit, a blocked process is READY or RUNNING afterwards exactly if its pid is the number of the slot that spawned the child; it is BLOCKED otherwise |
| Scheduling.WaiterWokenIff | kernel/process.c:213-236 | a parent that waits is READY or RUNNING after its child's exit exactly if its pid is its slot number; it is BLOCKED otherwise |
| Scheduling.WaitAgainBlocks | kernel/process.c:238-258 | waiting for a process already reaped blocks the caller |
| Scheduling.BootOk | kernel/process.c:43-75 | the first state, slot by slot: one READY process with pid 0, 63 EMPTY slots with pid -1; it satisfies the invariants |
| LostWakeup.StuckForEver | kernel/process.c:281-283 | with nothing READY and the current process ended, no state ever differs |
| LostWakeup.LostWakeup | kernel/process.c:127-258 | for all addresses that the spawns return: a run from boot into such a state, in which a parent waits for a child that has exited |
| Processes.Processes.constructor | kernel/process.c:43-75 | the table after process_init, with kmalloc failing or not |
| Processes.Processes.FindNextReady | kernel/process.c:270-278 | the READY slot at the least cyclic distance, or the current one if none is |
| Processes.Processes.Schedule | kernel/process.c:281-293 | a step of the state machine that keeps the whole invariant and the heap |
| Processes.Processes.WakeParent | kernel/process.c:224-236 | the first blocked slot that some slot with the child's pid names as parent becomes READY, nothing else changes |
| Processes.Processes.Exit | kernel/process.c:213-222 | a step of the state machine that keeps the whole invariant and the heap |
| Processes.Processes.TakeBlocks | kernel/process.c:133-137 | stack and page-table root, both from free memory, or no change to any block |
| Processes.Processes.Spawn | kernel/process.c:127-171 | fails exactly if the table is full, no pair of frames is free, or the stack leaves no page, and then no block of the heap differs; otherwise exactly the two blocks are new |
| Processes.NoPageLeft | kernel/process.c:133-137 | the stack leaves no page exactly if it took the only free block |
| Processes.Processes.WaitTurn | kernel/process.c:238-258 | one turn of the loop: reaps, blocks or fails, each exactly when, and reaping gives back exactly the process's two blocks |
| Processes.Processes.Reap | kernel/process.c:245-248 | exactly the stack and the page-table root of that process are freed, whatever it holds |
| Processes.SameOwnersSameHeap | kernel/process.c:127-258 | whenever the processes and the rest of the kernel hold the same blocks, the free blocks are the same too |
| Lifecycle.SpawnWaitReap | kernel/process.c:127-258 | spawn, wait, exit and reap: the parent gets the exit code exactly if a slot, a pair of frames and a page beside it were free, no such pid otherwise; every block of the heap is as before either way |
| Kernel.ProcessApart | kernel/process.c:127-171 | the stack and the page-table root of a process overlap no other object handed out, small or large |
| Kernel.SpawnOwns | kernel/process.c:133-148 | the two blocks that a spawn took are the child's |
| Kernel.Kernel.constructor | kernel/process.c:43-75 | after memory_init and process_init, with its kmalloc, memory and table are in step |
| Kernel.Kernel.Kmalloc | kernel/memory.c:228-242 | beside the processes: exactly as above, and no process's block is touched |
| Kernel.Kernel.Kfree | kernel/memory.c:244-256 | memory and processes stay in step exactly if the block given back is no process's |
| Kernel.Kernel.MmapUser | kernel/memory.c:282-289 | beside the processes: exactly as above, and no process's block is touched |
| Kernel.Kernel.MunmapUser | kernel/memory.c:291-301 | for every address: they stay in step exactly if it is neither a slab page nor a block of a process |
| Kernel.Kernel.MunmapAllUser | kernel/memory.c:303-332 | they stay in step exactly if no process holds a stack from mmap_user |
| Kernel.Kernel.Store | kernel/memory.c:228-256 | a caller's store inside its object, slab page or not, changes no process and keeps both in step |
| Kernel.Kernel.Spawn | kernel/process.c:127-171 | beside slab pages: fails exactly as above; the two blocks are the child's afterwards; every word of every object is unchanged |
| Kernel.Kernel.WaitTurn | kernel/process.c:238-258 | beside slab pages: a step of the state machine; exactly the reaped process's blocks go; every word of every object left is unchanged |
| Kernel.Kernel.Exit | kernel/process.c:213-222 | a step of the state machine that keeps memory and table in step |
| Kernel.Kernel.Schedule | kernel/process.c:281-293 | likewise |
| Terminal.FeedDigits | userland/libc/tui.c:8 | the number that the terminal reads is the number printed |
| Terminal.FeedGoto | userland/libc/tui.c:9 | the cursor ends where ansi_goto says |
| Terminal.GotoSent | userland/libc/tui.c:9 | the bytes sent: ESC [ row + 1 ; column + 1 H |
| Terminal.FeedColour | userland/libc/tui.c:35 | all sixteen foreground and background colours survive their encoding |
| Terminal.ColourSent | userland/libc/tui.c:35 | the bytes sent: ESC [ 30 to 37 or 90 to 97 ; 40 to 47 or 100 to 107 m |
| Tui.FmtInt | userland/libc/tui.c:8 | the decimal digits of every int but -2^31, whose negation overflows, with its sign |
| Tui.Window.AddCh | userland/libc/tui.c:28 | one cell at the caret changes, or nothing outside the window |
| Tui.Window.AddStr | userland/libc/tui.c:30 | the window and the caret are those of the typing function |
| TuiText.TypeLines | userland/libc/tui.c:30 | lines of text that fit lie one below the other, the first from the caret on and the others from the left edge; no other cell changes |
| TuiText.TypeOn | userland/libc/tui.c:30 | behind the end of a row the text goes on at the start of the next |
| TuiText.TypeBelow | userland/libc/tui.c:30 | behind the last row nothing is typed, in a window that does not scroll |
| TuiText.TypeOver | userland/libc/tui.c:30 | in one that does, the text goes over the start of the last row |
| Tui.Window.SetColour | userland/libc/tui.c:31 | colours are taken modulo 16 |
| Tui.TypeFits | userland/libc/tui.c:30 | a text without line ends that fits fills the cells from the caret on, in every window, and no other |
| Tui.Window.GotoXY | userland/libc/tui.c:27 | the caret stays inside the window |
| Tui.Window.Move | userland/libc/tui.c:25 | the position is the one given, size, cells and order as before |
| Tui.Screen.constructor | userland/libc/tui.c:14-21 | on every terminal the screen agrees with what is recorded as painted |
| Tui.Screen.NewWindow | userland/libc/tui.c:23 | a blank window in white on black on top of the others, or none exactly for an empty size |
| Tui.Screen.CloseWindow | userland/libc/tui.c:24 | the last window takes the closed one's place |
| Tui.ClosedLooks | userland/libc/tui.c:24 | a cell looks as if the window had just been taken out exactly if the last window was not above one in between, or they agree |
| Tui.PaintedOver | userland/libc/tui.c:34 | windows on top cover those below |
| TuiText.Topmost | userland/libc/tui.c:34 | the cell seen is that of the last window whose rectangle holds it, at its place in that window |
| TuiText.NoneThere | userland/libc/tui.c:34 | outside all windows there are blanks, white on black |
| Tui.Screen.Composite | userland/libc/tui.c:34 | every cell is that of the last window covering it, clipped to the screen, or blank |
| Tui.Screen.RefreshRow | userland/libc/tui.c:35 | from every terminal: the row is recorded as painted, and nothing outside it; it is in step afterwards exactly if it holds no tab and no delete and was in step or was repainted, the other rows as before; a row that is unchanged sends nothing |
| Tui.Screen.Refresh | userland/libc/tui.c:35 | for every picture and every terminal, row by row: in step afterwards exactly as above; so from a terminal that shows what is recorded, the terminal, fed all output so far, shows the composite (every character, and the colours up to the last one of each row that is not blank) exactly if no tab and no delete is visible; an unchanged picture sends nothing; then every cell of the terminal is the very character painted there, 0x20 to 0x7E, or a blank for all others, with colours that are the two halves of its attribute |
| TuiText.ShowLines | userland/libc/tui.c:30-35 | lines typed into the topmost window and a refresh: the terminal shows each character in its place, in the window's two colours |
| Tui.SyncIsClean | userland/libc/tui.c:35 | no row of a terminal shows a tab or a delete, so no recorded row with one agrees with it |
| Tui.SpoiltRefresh | userland/libc/tui.c:35 | counterexample: one window of one cell with a tab, or with a delete; after the refresh the record says painted and the terminal does not show it |
| Tui.TabMoves | userland/libc/tui.c:35 | a terminal fed a tab in column 0 and then a letter shows the letter in column 8 and leaves column 1 as it was |
| MachO.Memory.Copy | kernel/mach_o.c:44-47 | exactly the segment's bytes and zeros land at its addresses |
| MachO.Memory.Load | kernel/mach_o.c:14-68 | for every image whose commands lie inside it: every address holds the byte of the last segment that reaches it or what it held; the entry point; other magics load nothing |
| MachOBytes.MagicBytes | kernel/mach_o.c:17-25 | an image begins with CF FA ED FE, or with those bytes backwards |
| MachOBytes.CmdBytes | kernel/mach_o.c:27-64 | command by command, in plain bytes: where each begins, its kind, and the fields that count |
| MachOBytes.LastEntry | kernel/mach_o.c:52-62 | the entry point is what the last entry or thread command says, a thread's moved with the first segment before it whose address is not 0, if there is one |
| MachOPlaces.SegmentLands | kernel/mach_o.c:32-47 | for disjoint segments whose first address is not 0, byte j of each lands at vmaddr minus the first vmaddr plus the slide plus j, zeros behind the file bytes |
| MachOBytes.LandsBytes | kernel/mach_o.c:32-47 | the same in plain numbers, with 0x2000000 for the slide |
| MachOPlaces.RestStays | kernel/mach_o.c:32-47 | every address that no segment reaches is unchanged |
| MachOPlaces.OneBaseIff | kernel/mach_o.c:38-41 | all segments are placed relative to the first exactly if its address is not 0, or all are 0 |
| MachOPlaces.ZeroFirst | kernel/mach_o.c:38-41 | counterexample: the second segment is loaded over a first one at address 0 |
| MachOPlaces.PackedCmds | userland/tools/macho_pack.py:11-38 | for all code and offsets the loader finds in a packed image one segment and one entry command, with the values packed |
| MachOBytes.PackBytes | userland/tools/macho_pack.py:11-38 | the packed image byte by byte: all 128 of header and commands, and the code behind them |
| MachOPlaces.PackThenLoad | userland/tools/macho_pack.py:11-38 | packing and loading puts the code at 0x2000000 byte for byte, changes no other address and returns 0x2000000 plus the offset |

## Left out

- Hardware and assembly: port I/O, interrupts, the timer, context switching beyond the change of the current slot, the stack frames built for it, `cr3`, `tss`. Sector reads and writes inside the disk succeed; the disk fits 2^31 sectors.
- Locks: every call is one step. `slab_alloc` and `slab_free` take no lock of their own, and `proc_exit` and `proc_waitpid` are not interrupted between their store and their call of `schedule`.
- Memory is kept by word position (words 0 and 1 of all frames, word 2, and so on), not as one array of bytes; page tables have a map of their own beside it.
- Kmalloc.Allocator.Kfree: does not model a caller that begins a large block with SLAB_MAGIC or frees a pointer into a slab page that is not an allocated object.
- BuddyHeap.Heap.BuddyFree: asks its callers for a live block with its order, as all callers in the source pass one; an address that is no frame is ignored as in the code.
- PageTables.AddressSpace.MapPhys: asks for aligned arguments, a table tree without 1 GB pages, and physical addresses below 2^52; the code checks none of these. The `writable` argument has no effect in the code either.
- Scheduler: names, registers and file descriptors; the older `process_create_user`, `process_switch_to` and `process_exit_current`, which mix pids with slot numbers; pids are unbounded.
- Processes.Processes.WaitTurn: is one turn of the loop; a blocked caller takes the next turn when it is resumed.
- FAT32: the second copy of the table (the code does not update it), time fields, `fat32_get_cwd_name`, `list_dir_at`, `fat32_stat`, `alloc_clusters` and `fat_chain_last` (not called); reading the boot sector is replaced by the geometry it yields.
- Names are not unique in the code: `create_entry_at` and `fat32_rename` do not look for duplicates, and a deleted file's chain stays allocated. No claim here says otherwise.
- FatRmdir.Rmdir: asks that what the directory to be removed leads to stays inside the table; the code reads and writes outside it otherwise. The emptiness test looks at the first sector only, as in the code.
- FatScan.Scan: asks that the links of the directory stop somewhere without leaving the table, or that the slot looked for, or the end mark where it stops the scan, comes before; the code does not end otherwise. Calls that change a directory ask that it is a whole chain.
- FatDriver.Volume.ReadChain: asks that the links followed stay inside the table, as far as the size needs them; the code reads outside the data area otherwise.
- FatDriver.Volume.WriteChain: asks for different clusters inside the table, the last with an end mark or 0; other links than these lead the code outside the table, to clusters 0 and 1, or round in a circle.
- FatFiles.ReadFile: asks the same of the file's links as ReadChain, and of the directory as Scan.
- FatFiles.WriteFile: asks that the name, if it is there, stands for no chain or for a whole chain that shares nothing with its directory; so do FatFiles.WriteThenRead and FatFiles.HugeWrite. In a tree every name of a file does (FatTree.FoundFile).
- FatTree.CallTied: leaves out calls that rename or write to the dots entries, write to a directory as to a file, remove a directory that is found behind the end mark or by ".", or bring a stale entry that leads anywhere to light; FatTree.RunTied and FatTree.RunKeepsFile speak of runs of the others. After removing "." the current directory is no directory of the tree any more (FatRoundTrips.RemoveSelf).
- FatRoundTrips.MkdirThenRmdir: leaves out names whose 8.3 form begins with 0xE5, for which FatMkdir.Mkdir says what happens; FatRoundTrips.EnterAndLeave also leaves out names beginning with a slash.
- FatSessions.CreateThenEnter: leaves out names whose 8.3 form begins with 0xE5, which no look-up finds, and names beginning with a slash; FatSessions.RemoveFull does so for the directory, not for the file in it.
- Lifecycle.SpawnWaitReap: asks that no process is READY and that the parent's pid is its slot number; otherwise it is not woken (Scheduling.WaiterWokenIff).
- Terminal: what happens behind the right margin is left open by ECMA-48; in the model what is printed there is lost, and only the rows that hold a tab reach there. Colours of trailing blanks are not repainted by the code and not claimed. Colour n of a cell is colour n of SGR.
- TuiText.ShowLines: speaks of a window that lies on the screen and of text that fits it; Tui.Screen.Refresh speaks of every picture.
- Screen: `tui_win_resize`, `tui_win_clear`, `tui_win_box`, dialogs and input are not modelled, nor is memory running out.
- MachO.Memory.Load: asks that the commands of the image lie inside it, since the loader checks nothing; the image and the memory loaded are apart from each other; the fields of a thread's state are read where the code reads them.
- `userland/libc/stdlib.c`, `stdio.c`, the shell, the window toolkit and the copies under `src/`.
