# Verified models of the kernel labs

This project models the most intricate parts of a set of teaching-kernel labs in Dafny and proves
what they are for: the physical memory manager of `os-l1`, and from `os-l3` the 64-bit division
runtime, the x86-64 page tables, the multiprocessor scheduler with its spinlocks and semaphores,
copy-on-write processes and their family lists, the coroutine library, the terminal, the block
device and the trap table.

`dafny verify dfyconfig.toml` checks everything.

## How the models are built

* **Words.** Machine words are natural numbers with every wrap-around written out. `bits.dfy` defines
  `&`, `|`, `^` and the shifts bit by bit and proves the arithmetic that each mask or flip amounts to,
  so that an address computed with `^` in the source is computed with `^` here.
* **Contracts.** What an operation promises is also written out in numbers and plain terms, apart from
  the helper functions that its proof runs on; the lemmas whose names end in `Means`, and those like
  `Buddy.BuddyPool.BlockPlaced`, do the same for the invariants and the state machines.
* **Memory manager** (`intrusive_list`, `free_lists`, `tiling`, `buddy`, `slab_heap`, `kmem`). The page
  descriptors, the intrusive rings through them and the cache heads are arrays that the methods write
  as the source does. Descriptors inside a block go stale, as in the source; the ghost map `blocks`
  holds the true blocks, and `Described` speaks of block heads only. The key argument is
  `Tiling.BuddyIsHead`: the page a merge looks at is always a block head. `slab_heap` states where
  live objects lie, `kmem` runs `kalloc` and `kfree` on top. An object of the class `Allocator` that
  satisfies `Valid()` is any state reached by calls on live pointers, since every method keeps it.
* **Division** (`int64`, `int64_signed`, `bit_counts`). The two-word pairs are shifted word by word;
  the loop keeps the existentially hidden quotient so far (`Progress`), and `Comparable` is the reason
  why the sign bit of the wrapped difference is never misread.
* **Page tables** (`page_tables`, `vme`). Tables are pages of 512 numbers. The reference is the
  processor's own walk (`Translate`), after section 4.5 of the Intel 64 SDM, volume 3A; the ghost tree
  `tables` connects it to what `ptwalk` builds.
* **Scheduler and spinlocks** (`sched`, `spinlock`). Every exchange and every plain write is one step
  of a state machine over any number of processors, tasks and locks; a run is any sequence of enabled
  steps. The main lemmas speak of all runs from boot. Control transfer is the step `Return`; a CPU
  stands on the old stack until then. `Task.started` is bookkeeping of the model: the task has been
  returned to once.
* **Semaphores** (`semaphore`, `producer_consumer`). The lock of a semaphore makes its operations
  steps; the class links waiting tasks through their own `next` fields. Producers and consumers run
  over the semaphores' specification functions in any schedule, and the class `Workers` takes each of
  their steps on two semaphore objects that share those fields.
* **Processes** (`cow_slots`, `cow`, `linked_list`, `kinship`, `family`, `tallies`, `family_runs`,
  `process_tree`). Copy-on-write is proved against tasks with pages of their own: the ghost function
  `View()` gives the bytes each task sees, and `fork`, faults, stores and the end of a task change it as
  if nothing were shared. `kinship` is the state machine of parents and children down to the sibling
  links, with `fork` in three steps because no lock covers it as a whole, and with killed tasks that go
  on with a `fork` or an `exit`, through stale links. `family` and `tallies` prove over all
  interleavings exactly which runs keep the families and the books in order, `family_runs` shows runs
  that do not; `process_tree` takes each step on the real fields and the exit records.
* **Coroutines** (`coroutine`). The circular list is kept as links with a cursor; `joining` says which
  `co_wait` the saved context of a coroutine stands in.
* **Devices and traps** (`terminal`, `tty`, `sd_disk`, `trap_table`). The flat cell buffer is read as
  a terminal of rows and columns; the picture is what the frame buffer device has drawn; the disk is
  an array of bytes behind a one-block buffer; the handler table is sorted in place.

## Findings

* `get_buddy_chunk` (`os-l1/kernel/src/pmm.c:125-127`) compares with `>=` and so turns away a buddy
  that ends exactly at the pool's end. Coalescing is complete except for that pair, and which half is
  freed last decides (`Buddy.MergesUnlessLast`, `Buddy.LastPairStays`); `Buddy.LosePair` reaches a pool
  of two free pages that cannot serve two pages.
* `buddy_alloc` returns NULL with the global lock held (`os-l1/kernel/src/pmm.c:205-207`);
  `BuddyAlloc` says so: `locked <==> addr == None`.
* The write fault on a code page copies the initial image over it again
  (`os-l3/kernel/src/uproc.c:342-346`). `Cow.Uprocs.PageFault` gives the exact condition under which the
  page is kept, `Cow.Uprocs.LoseStore` a run in which a store is lost.
* `fork` is not one step (`os-l3/kernel/src/uproc.c:74-82`): the parent is written under no lock and the
  child put on its list later, while `kill` sets only the parents of listed children to NULL. A `kill` of
  the forking task or of the child in between leaves a live task with a dead parent, or a dead child on a
  live task's list, on which `wait` waits forever. `FamilyRuns.KilledInFork` is such a run.
* `kill` (`os-l3/kernel/src/uproc.c:194-219`) clears neither the parent nor the sibling links of its
  victim, which another processor may be running on its way through `exit`. That exit leaves a record of
  a task that was killed, and writes its stale links: a sibling that died in between comes back on the
  list (`FamilyRuns.KilledInExit`, and `FamilyRuns.KilledExitRun` from boot, where no `fork` is
  disturbed).
* `Families.FamilyInAllRuns` says exactly which runs are free of dead parents and of dead or lost
  children: those without a `kill` in the window of a `fork`, without a `fork` begun by a killed task, and
  without the exit of a killed task whose live neighbours are no longer linked to each other.
  `Tallies.ConservedInAllRuns` says that the books over the children stay in order exactly when no killed
  task that has a parent exits. No run at all makes a list a ring (`Kinship.RunsAreSound`).
* A request of 2049 to 4095 bytes to `slab_alloc` picks the tenth cache, in whose slabs no object fits, and
  fails an assertion (`os-l1/kernel/src/pmm.c:281-286`); `kalloc` never makes it.
* `__divdi3` is C's division for all pairs but `INT64_MIN / -1`, where it returns `INT64_MIN`;
  `__divmoddi4` returns the right remainder even then.
* The comment `MAX_CACHES = 9` (`os-l1/kernel/src/pmm.c:229`) is not what the header says: there are ten
  caches, of which `kalloc` reaches nine.

## Model

| member | source | states |
|---|---|---|
| Bits.XorBit | os-l1/kernel/src/pmm.c:124 | Flipping bit k of a word adds or subtracts 2^k according to that bit. |
| Bits.BitsOf | os-l1/kernel/src/pmm.c:124 | Each bit of the three bitwise operations is the conjunction, the disjunction and the difference of the two bits. |
| Bits.AndHighMask | os-l1/kernel/src/pmm.c:347 | Masking the low k bits off gives the largest multiple of 2^k not above the word. |
| Bits.PageBaseValue | os-l1/kernel/src/pmm.c:347 | The masked pointer is the start of its page; `baseof` of the page tables is the same mask. |
| IntrusiveList.RingInsert | os-l1/kernel/include/list.h:14-24 | Insertion after any node of a well-formed ring gives the ring with the node in that place, `next` and `prev` agreeing. |
| IntrusiveList.RingRemove | os-l1/kernel/include/list.h:26-29 | Deleting any element of a ring gives the ring of the others, in order. |
| IntrusiveList.RingFrame | os-l1/kernel/include/list.h:9-31 | Link writes outside a ring leave the ring alone, so the lists in one array of nodes do not disturb each other. |
| IntrusiveList.RingEmpty | os-l1/kernel/include/list.h:31 | The source's test holds of a head exactly when its ring has no element; otherwise the head's links are the first and last element. |
| IntrusiveList.RingLinks | os-l1/kernel/include/list.h:9-31 | The two links of the head and of every node, by their places in the ring. |
| IntrusiveList.Links.ListAdd | os-l1/kernel/include/list.h:14-19 | The new link arrays, of which `RingInsert` says that they are the ring with the node inserted. |
| IntrusiveList.Links.ListAppend | os-l1/kernel/include/list.h:21-24 | The same at the tail. |
| IntrusiveList.Links.ListDel | os-l1/kernel/include/list.h:26-29 | The new link arrays, of which `RingRemove` says that they are the ring without the node. |
| IntrusiveList.Links.ListEmpty | os-l1/kernel/include/list.h:31 | Tells whether the list that the links describe is empty. |
| Tiling.BuddyIsHead | os-l1/kernel/src/pmm.c:122-131 | The buddy page of a block head is itself a block head, of no larger order: a merge never reads a stale descriptor. |
| Tiling.PairAligned | os-l1/kernel/src/pmm.c:122-131 | Buddies are mutual, and the lower one is aligned to the double size. |
| Tiling.SplitKeeps | os-l1/kernel/src/pmm.c:134-147 | Splitting an allocated block keeps an exact tiling of the pages, the alignment of every block and complete coalescing. |
| Tiling.MergeKeeps | os-l1/kernel/src/pmm.c:167-180 | An allocated block absorbing its free buddy of equal order keeps tiling, alignment and complete coalescing. |
| Tiling.MarkFreeKeeps | os-l1/kernel/src/pmm.c:181-184 | A block may be marked free exactly where the merge loop stops; tiling, alignment and complete coalescing stay. |
| Tiling.MarkAllocatedKeeps | os-l1/kernel/src/pmm.c:198-201 | Marking a block allocated keeps tiling, alignment and complete coalescing. |
| FreeLists.PushKeepsRings | os-l1/kernel/src/pmm.c:144-145 | Adding a page that is on no list keeps all thirteen rings well-formed and separate. |
| FreeLists.RemoveKeepsRings | os-l1/kernel/src/pmm.c:174-175 | Deleting a page from its list keeps all thirteen rings well-formed and separate. |
| FreeLists.Conservation | os-l1/kernel/src/pmm.c:167-210 | For any sound tiling and the lists that hold its free heads: the free pages counted over the lists, a list of order k weighing 2^k an entry, and the allocated pages add up to the pool. |
| Buddy.AlignSize | os-l1/kernel/src/pmm.c:15-20 | The least power of two that is not below the size, and at least 8. |
| Buddy.BlockOrder | os-l1/kernel/src/pmm.c:31-37 | The least order whose block holds the pages. |
| Buddy.PoolArea | os-l1/kernel/src/pmm.c:81-86 | The pool begins on a page boundary behind 32 bytes of descriptor for each of its pages, so early that no further page would fit, and ends with the area. |
| Buddy.BuddyPool.constructor | os-l1/kernel/src/pmm.c:68-107 | From uninitialised pages to a valid pool in which everything is free, behind the descriptors of all its pages. |
| Buddy.BuddyPool.FreeAll | os-l1/kernel/src/pmm.c:99-104 | Freeing page by page leaves no live block and all invariants. |
| Buddy.BuddyPool.AddrRoundTrip | os-l1/kernel/src/pmm.c:150-163 | `addr2block` undoes `block2addr`, and block addresses are page-aligned. |
| Buddy.BuddyAddress | os-l1/kernel/src/pmm.c:124 | Flipping one bit of an aligned block's absolute address gives its buddy's address. |
| Buddy.BuddyPool.GetBuddyChunk | os-l1/kernel/src/pmm.c:122-131 | Gives the buddy page exactly when it lies in the pool and does not end it. |
| Buddy.BuddyPool.BuddyDescribed | os-l1/kernel/src/pmm.c:170-171 | The descriptor that the merge loop consults is accurate, though descriptors inside blocks may be stale. |
| Buddy.BuddyPool.Split2Buddies | os-l1/kernel/src/pmm.c:134-147 | Keeps the pool valid; the live block halves and the upper half heads its free list. |
| Buddy.BuddyPool.BuddySystemSplit | os-l1/kernel/src/pmm.c:110-119 | The block comes down to the target order and one upper half of each order in between is pushed, nothing else. |
| Buddy.BuddyPool.Absorb | os-l1/kernel/src/pmm.c:174-179 | One round of the merge keeps every invariant but the free mark of the block in hand. |
| Buddy.BuddyPool.Release | os-l1/kernel/src/pmm.c:181-184 | The merged block is free at the front of the list of its order, and the pool is valid. |
| Buddy.BuddyPool.BuddySystemMerge | os-l1/kernel/src/pmm.c:167-185 | Keeps the pool valid, complete coalescing included, and takes exactly one block out of the live ones; the blocks are then those of the reference `Freed`, which merges as long as the range test lets it. |
| Buddy.BuddyPool.FirstNonEmpty | os-l1/kernel/src/pmm.c:193-197 | Finds the first non-empty list from the needed order on, or that there is none. |
| Buddy.BuddyPool.Serve | os-l1/kernel/src/pmm.c:198-209 | Serves from that list: new block not live before, of the asked order, other live blocks untouched. |
| Buddy.BuddyPool.BuddyAlloc | os-l1/kernel/src/pmm.c:188-210 | For any request, of no bytes as well: fails exactly when no free block is large enough, and then with the lock held; otherwise a fresh block of the least sufficient order. |
| Buddy.BuddyPool.BuddyFree | os-l1/kernel/src/pmm.c:213-218 | Keeps the pool valid and frees exactly the block at the address, with the blocks of `Freed`. |
| Buddy.BuddyPool.PoolConserved | os-l1/kernel/src/pmm.c:167-210 | In every valid pool the pages counted over the free lists and the allocated pages add up to the pool, and `nr_free` of each list is its length. |
| Buddy.BuddyPool.BlockPlaced | os-l1/kernel/src/pmm.c:110-185 | In every valid pool the blocks lie in the pool, behind the descriptors, aligned to their sizes, one behind the other. |
| Buddy.BuddyPool.PageInBlock | os-l1/kernel/src/pmm.c:110-185 | In every valid pool each page lies in a block. |
| Buddy.BuddyPool.PairsMerged | os-l1/kernel/src/pmm.c:167-185 | In every valid pool two free buddies of one order end the pool or are of the largest order. |
| Buddy.BuddyPool.ListsDescribe | os-l1/kernel/src/pmm.c:134-210 | In every valid pool the list of each order holds exactly the free blocks of that order, and the descriptor of every block is accurate. |
| Buddy.BuddyPool.FreePagesCounted | os-l1/kernel/src/pmm.c:167-210 | The pages counted over the free lists are those that lie in no allocated block. |
| Buddy.MergesUnlessLast | os-l1/kernel/src/pmm.c:122-131 | A block merges with a free buddy of its order if and only if the buddy does not end the pool; always when the buddy is the lower one. |
| Buddy.LastPairStays | os-l1/kernel/src/pmm.c:122-131 | For every pool of two pages that are buddies: freed with page 0 last, both pages stay free and there is no free block of two pages; freed with page 1 last, they merge. |
| Buddy.BuddyPool.FreeLastPair | os-l1/kernel/src/pmm.c:188-218 | Two requests of a page, page 1 freed, then page 0: the pool is in that state, and a request of two pages fails. |
| Buddy.LosePair | os-l1/kernel/src/pmm.c:68-107 | The same from `buddy_pool_init` on an area of three pages. |
| SlabHeap.SlabLayout | os-l1/kernel/src/pmm.c:267-271 | The first object lies behind the header at a multiple of the size, and the objects fill the page exactly. |
| SlabHeap.SlotOfPage | os-l1/kernel/src/pmm.c:267-287 | The objects of a slab are all the multiples of the size between the header of 40 bytes and the end of the page. |
| SlabHeap.ObjectsDisjoint | os-l1/kernel/src/pmm.c:254-383 | Two live objects, of slabs or blocks, never overlap. |
| SlabHeap.ObjectsInPool | os-l1/kernel/src/pmm.c:254-383 | Every live object lies inside the pool. |
| SlabHeap.ObjectsAligned | os-l1/kernel/src/pmm.c:254-383 | Every live object starts at a multiple of its size, which is the request rounded up to a power of two. |
| SlabHeap.ObjectsClearOfSlabs | os-l1/kernel/src/pmm.c:254-383 | No live object meets a slab header or a free object. |
| Kmem.Allocator.ObjectsClearOfDescriptors | os-l1/kernel/src/pmm.c:81-86 | No live object meets the page descriptors or lies behind the pool. |
| SlabHeap.ObjectTaken | os-l1/kernel/src/pmm.c:312-316 | Taking the first free object adds exactly one live object. |
| SlabHeap.ObjectFreed | os-l1/kernel/src/pmm.c:350-352 | Pushing an object on its slab's list removes exactly one live object. |
| SlabHeap.SlabAdded | os-l1/kernel/src/pmm.c:254-290 | A page made into a slab changes no live object. |
| SlabHeap.BlockTaken | os-l1/kernel/src/pmm.c:365-368 | A block from the buddy system is exactly one new live object. |
| SlabHeap.BlockReturned | os-l1/kernel/src/pmm.c:381 | A block given back is exactly one live object less. |
| Kmem.Allocator.constructor | os-l1/kernel/src/pmm.c:232-240 | A valid allocator without slabs and live objects. |
| Kmem.Allocator.FindCache | os-l1/kernel/src/pmm.c:244-251 | The first cache whose objects are large enough. |
| Kmem.Allocator.FindSlab | os-l1/kernel/src/pmm.c:308-321 | The first slab of the cache's list with a free object; NULL only when all are full. |
| Kmem.Allocator.LinkObjects | os-l1/kernel/src/pmm.c:281-287 | The objects of a new slab form one list in address order ended by NULL; other links stay. |
| Kmem.Allocator.Pop | os-l1/kernel/src/pmm.c:324-329 | The slab's first free object, and nothing else, becomes live. |
| Kmem.Allocator.AllocateSlab | os-l1/kernel/src/pmm.c:254-290 | A marked page all of whose objects, every multiple of the size behind the header, are free, with an accurate count; no live object changes. |
| Kmem.Allocator.SlabAlloc | os-l1/kernel/src/pmm.c:297-336 | NULL for no bytes and for a page or more; for sizes up to 2048 one new live object of the smallest cache size that is not below the request, a new slab being made exactly when all slabs of that size are full; for sizes in between a failed assertion. |
| Kmem.Allocator.SlabFree | os-l1/kernel/src/pmm.c:341-356 | Exactly the object at the address is live no more, and it heads its slab's free list. |
| Kmem.Allocator.Kalloc | os-l1/kernel/src/pmm.c:360-373 | A new live object of the rounded size, disjoint from all others by `ObjectsDisjoint`; NULL exactly when the rounded size is a block that is too large or cannot be had. |
| Kmem.Allocator.Kfree | os-l1/kernel/src/pmm.c:375-383 | For a live pointer of either layer, exactly that object goes: the page's mark names the right layer. |
| Int64.SignReadsComparison | os-l3/abstract-machine/klib/src/int64.c:626 | The sign of the wrapped difference reads as the comparison if and only if the true difference fits a signed word. |
| Int64.NeverMisread | os-l3/abstract-machine/klib/src/int64.c:612-629 | In the loop it always fits, and the remainder never loses its top bit to the shift. |
| Int64.BranchFreeSubtract | os-l3/abstract-machine/klib/src/int64.c:626-628 | Mask, carry and subtraction are the conditional subtraction. |
| Int64.DividingStep | os-l3/abstract-machine/klib/src/int64.c:612-629 | One pass keeps `a = (d * done + r) * 2^sr + rest` and the range that keeps the comparison right. |
| Int64.ShiftSubtract | os-l3/abstract-machine/klib/src/int64.c:611-633 | From any normalised pair the loop gives quotient and remainder. |
| Int64.Normalise | os-l3/abstract-machine/klib/src/int64.c:550-571 | The word-by-word shifts are the 64-bit shifts by `64 - sr` and `sr`, for every `sr` from 1 to 63. |
| Int64.DivideByLowWord | os-l3/abstract-machine/klib/src/int64.c:524-572 | The branch for one-word divisors divides. |
| Int64.DivideByHighWord | os-l3/abstract-machine/klib/src/int64.c:488-604 | The branches for two-word divisors divide, with the unsigned wrap of the length difference. |
| Int64.DivideWords | os-l3/abstract-machine/klib/src/int64.c:438-604 | All special cases and the general case divide. |
| Int64.Udivmoddi4 | os-l3/abstract-machine/klib/src/int64.c:426-634 | The exact quotient and remainder for every dividend and every non-zero divisor. |
| Int64Signed.TruncatedDivision | os-l3/abstract-machine/klib/src/int64.c:369-404 | The reference quotient and remainder satisfy section 6.5.5 of ISO/IEC 9899:2011. |
| Int64Signed.TruncationUnique | os-l3/abstract-machine/klib/src/int64.c:369-404 | No other pair satisfies it. |
| Int64Signed.QuotientRange | os-l3/abstract-machine/klib/src/int64.c:369-379 | The quotient is a 64-bit integer if and only if the pair is not `INT64_MIN / -1`. |
| Int64Signed.Divdi3 | os-l3/abstract-machine/klib/src/int64.c:369-379 | C's quotient if and only if the pair is not `INT64_MIN / -1`, where it is `INT64_MIN`. |
| Int64Signed.Moddi3 | os-l3/abstract-machine/klib/src/int64.c:393-404 | C's remainder for every pair. |
| Int64Signed.Divmoddi4 | os-l3/abstract-machine/klib/src/int64.c:383-389 | C's quotient with the same exception, and C's remainder without one. |
| BitCounts.HalveLeading | os-l3/abstract-machine/klib/src/int64.c:642-656 | Each halving keeps zeros counted plus zeros left. |
| BitCounts.Clzsi2 | os-l3/abstract-machine/klib/src/int64.c:640-669 | The number of leading zeros of every 32-bit word, also said as `2^(31-n) <= a < 2^(32-n)`. |
| BitCounts.HalveTrailing | os-l3/abstract-machine/klib/src/int64.c:677-693 | The same for trailing zeros, above garbage bits. |
| BitCounts.Ctzsi2 | os-l3/abstract-machine/klib/src/int64.c:675-709 | The number of trailing zeros of every 32-bit word: its power of two divides the word with an odd quotient. |
| BitCounts.Ctzdi2 | os-l3/abstract-machine/klib/src/int64.c:717-723 | The same for every 64-bit word. |
| BitCounts.Clzdi2 | os-l3/abstract-machine/klib/src/int64.c:725-731 | The number of leading zeros of every 64-bit word, also said by powers of two. |
| PageTables.IndexOfIsField | os-l3/abstract-machine/am/src/x86/qemu/vme.c:49-51 | Mask and shift give the 9-bit field of the level. |
| PageTables.SameEntry | os-l3/abstract-machine/am/src/x86/qemu/vme.c:49-75 | Two addresses share a leaf entry if and only if they lie in one page. |
| PageTables.TranslateIsLookup | os-l3/abstract-machine/am/src/x86/qemu/vme.c:57-75 | The processor's walk through the raw pages finds exactly what the tree of tables says. |
| PageTables.ProcessorStep | os-l3/abstract-machine/am/src/x86/qemu/vme.c:49-75 | One level of the walk in numbers: nine address bits for the index, bits 0, 1 and 2 of the entry for presence, writing and user access, its bits from 12 on for the next page. |
| PageTables.GrowTree | os-l3/abstract-machine/am/src/x86/qemu/vme.c:66-68 | A new zeroed table below an empty entry keeps the tree a tree. |
| PageTables.GrowTranslations | os-l3/abstract-machine/am/src/x86/qemu/vme.c:66-68 | A new table changes no translation. |
| PageTables.NextTable | os-l3/abstract-machine/am/src/x86/qemu/vme.c:66-71 | The present bit that `ptwalk` reads is set exactly when the next table exists, and the entry then leads to it. |
| PageTables.LeafTranslations | os-l3/abstract-machine/am/src/x86/qemu/vme.c:146-154 | Writing a leaf entry updates the translation of one page and no other. |
| PageTables.NextBelow | os-l3/abstract-machine/am/src/x86/qemu/vme.c:79-83 | The tables below one more index are those below the indices before it and those of one subtree. |
| PageTables.BelowApart | os-l3/abstract-machine/am/src/x86/qemu/vme.c:79-86 | Subtrees share no page, and none holds its own root. |
| Vme.LeafEntryMaps | os-l3/abstract-machine/am/src/x86/qemu/vme.c:152 | The entry that `map` writes translates to the frame with the asked permission. |
| Vme.AddrSpace.PgAllocZ | os-l3/abstract-machine/am/src/x86/qemu/vme.c:40-47 | A fresh zeroed page, or none exactly when the allocator is empty. |
| Vme.AddrSpace.Protect | os-l3/abstract-machine/am/src/x86/qemu/vme.c:117-135 | A space in which no address is mapped for the user and the kernel's tables are as they were. |
| Vme.AddrSpace.Descend | os-l3/abstract-machine/am/src/x86/qemu/vme.c:60-73 | One level down: tables only grow, no translation changes, nothing is written outside this space's tables. |
| Vme.AddrSpace.PtWalk | os-l3/abstract-machine/am/src/x86/qemu/vme.c:57-75 | Ends at the leaf table of the address, taking one free page for each missing table; fails if and only if there are fewer; a second walk changes nothing. |
| Vme.AddrSpace.Map | os-l3/abstract-machine/am/src/x86/qemu/vme.c:141-156 | Finite-map update of the processor's translation on success: the page at `va`, and no other, is absent for `prot` 0 and otherwise leads to `pa`, writable exactly when bit 1 of `prot` is set. On each panic every translation stays; each of the five panics and success happen if and only if their condition on address, alignment, missing tables against free pages, protection and old translation holds; tables of the kernel and of other spaces are untouched; pages are conserved. |
| Vme.AddrSpace.Teardown | os-l3/abstract-machine/am/src/x86/qemu/vme.c:77-87 | Frees exactly the pages of the subtree; a page is freed only while it is in use, so each once, and none is read afterwards; the recursion ends by level. |
| Vme.AddrSpace.Unprotect | os-l3/abstract-machine/am/src/x86/qemu/vme.c:137-139 | Gives back exactly the table pages that `protect` and `map` took, each once; no kernel table and no leaf frame. |
| Sched.OwnersAfter | os-l3/kernel/src/kmt.c:75-119 | Of all steps only the release of the buffer gives a task up and only a won probe takes one. |
| Sched.OwnershipKept | os-l3/kernel/src/kmt.c:75-119 | Every step keeps: one owner a task at most, and `suspend` exactly for owned tasks. |
| Sched.ProbeExclusive | os-l3/kernel/src/kmt.c:99 | A task that passes the pick condition is owned by no other processor. |
| Sched.ContextsKept | os-l3/kernel/src/kmt.c:75-82 | Every step keeps the saved contexts of each task a stack whose top is the next to be resumed. |
| Sched.RunsAreSafe | os-l3/kernel/src/kmt.c:75-119 | In every run: no shared current task, no shared stack, `suspend` exactly for owned tasks, contexts resumed once each and last in first out. |
| Sched.WinnerIsFree | os-l3/kernel/src/kmt.c:95-118 | In every run, a task that is picked is on no other processor's stack or hands and has a context to resume. |
| Sched.ProbeExact | os-l3/kernel/src/kmt.c:99 | In every run: a search may win a task if and only if the task is neither blocked nor dead nor running and no other processor has it as its current task, in its unreleased buffer or as the one it has won. |
| Sched.WinnerRuns | os-l3/kernel/src/kmt.c:95-119 | In every run: the processor goes on to the task that it found, on that task's stack and from the context saved last, and the task is marked as running and owned. |
| Sched.TrapTaken | os-l3/kernel/src/kmt.c:75-82 | A trap saves the context and leaves the task owned and not running. |
| Sched.IdleChosen | os-l3/kernel/src/kmt.c:108-110 | A search without success leads to the processor's own idle task. |
| Sched.ReapExact | os-l3/kernel/src/kmt.c:90-92 | Only a dead task that its processor has left goes out of the table, and nothing else changes. |
| Sched.ContextComesBack | os-l3/kernel/src/kmt.c:75-119 | In every run: the context that a trap saves for a task is the one that it goes on with, if nothing else is saved or resumed for it in between. |
| Spinlock.SoundKept | os-l3/kernel/src/kmt.c:195-236 | Every step keeps holders unique, lock words and owners exact, `noff` equal to locks held or being taken, interrupts off while it is not zero. |
| Spinlock.MutualExclusion | os-l3/kernel/src/kmt.c:190-236 | In every run: one holder a lock at most, its word 1 exactly then, `holding` exact outside the operations. |
| Spinlock.LockTakes | os-l3/kernel/src/kmt.c:220-227 | In every run, whatever other processors do: a `spin_lock(lk)` that is through has taken exactly `lk`, which the processor did not hold before. |
| Spinlock.UnlockGives | os-l3/kernel/src/kmt.c:229-236 | In every run, whatever other processors do: a `spin_unlock(lk)` that is through has given back exactly `lk`. |
| Spinlock.PanicsAreMisuse | os-l3/kernel/src/kmt.c:203-232 | In every run: the panics fire exactly on taking a held lock again and releasing one not held; those of `pop_off` never. |
| Spinlock.InterruptsRestored | os-l3/kernel/src/kmt.c:195-212 | Over any run, the flag to be restored does not change, whatever the order of releases. |
| Spinlock.FlagComesBack | os-l3/kernel/src/kmt.c:195-236 | A processor that held nothing and holds nothing again has its old interrupt flag. |
| Semaphore.Semaphore.Wait | os-l3/kernel/src/kmt.c:245-255 | Blocks exactly when the count was not positive; the linked list is the specification's stack of waiters. |
| Semaphore.Semaphore.Signal | os-l3/kernel/src/kmt.c:263-273 | Wakes the latest waiter exactly when one waits; the source's assertion holds. |
| Semaphore.Semaphore.KeptByWait | os-l3/kernel/src/kmt.c:245-255 | A wait on one semaphore keeps the list and count of any other over the same tasks, though the lists share the `next` fields. |
| Semaphore.Semaphore.KeptBySignal | os-l3/kernel/src/kmt.c:263-273 | So does a signal, when the woken task does not wait on the other one as well. |
| Semaphore.GrantsBounded | os-l3/kernel/src/kmt.c:239-273 | Over any history: granted waits are at most initial value plus signals, exactly that while somebody waits, and the list is as long as the count is below zero. |
| Semaphore.HistoryGrows | os-l3/kernel/src/kmt.c:245-273 | What one more wait or signal makes of the count and the list of a history. |
| Semaphore.SignalPossible | os-l3/kernel/src/kmt.c:263-273 | No history leads to a signal that finds an empty list. |
| ProducerConsumer.CountsAfter | os-l3/kernel/src/os.c:65-66 | What each step does to the numbers of tasks past their P and past their output. |
| ProducerConsumer.ConservedKept | os-l3/kernel/src/os.c:65-66 | Each semaphore's value is accounted for by the output and the tasks in between. |
| ProducerConsumer.OutputAccepted | os-l3/kernel/pc-check.py:4-10 | Any number of producers and consumers, any schedule: after every character the opening brackets printed so far are at least as many as the closing ones, and at most as many more as the initial value of `empty`. |
| ProducerConsumer.NoDeadlock | os-l3/kernel/src/os.c:65-66 | With a producer, a consumer and a slot, some task can always move. |
| ProducerConsumer.Workers.Begin | os-l3/kernel/src/os.c:65-66 | On the two semaphore objects over shared tasks, `P` is the step of the state machine; both lists stay well-formed. |
| ProducerConsumer.Workers.Print | os-l3/kernel/src/os.c:65-66 | So is `putch`. |
| ProducerConsumer.Workers.End | os-l3/kernel/src/os.c:65-66 | So is `V`: the latest waiter of the other role is past its P. |
| CowSlots.PageAdded | os-l3/kernel/src/uproc.c:382-386 | The fault on an absent page keeps counts, frames, tables and slots in step. |
| CowSlots.PageShared | os-l3/kernel/src/uproc.c:104-112 | Sharing a page with the child keeps counts exact and leaves no writer of a shared frame. |
| CowSlots.PageMoved | os-l3/kernel/src/uproc.c:386-395 | Moving a page keeps counts exact and makes its task the only namer of the writable frame. |
| CowSlots.SoleWriter | os-l3/kernel/src/uproc.c:331-341 | A writable page shares its frame with no page of any task. |
| CowSlots.InUseIffNamed | os-l3/kernel/src/uproc.c:33-41 | A frame is in use if and only if some segment slot names it; a free one is named by none. |
| Cow.ImagedKeeps | os-l3/kernel/src/uproc.c:342-346 | The copy of the initial image keeps a page if and only if the page lies behind the image or begins as the image does. |
| Cow.ImageComesBack | os-l3/kernel/src/uproc.c:342-346 | Every byte of a page is the image's where the image lies and the old one elsewhere. |
| Cow.Uprocs.ViewMeans | os-l3/kernel/src/uproc.c:331-341 | Every task sees, at each of its pages, the content of the frame that the page is mapped to. |
| Cow.Uprocs.DecPgcnt | os-l3/kernel/src/uproc.c:33-41 | A frame is freed exactly when its count comes to zero. |
| Cow.Uprocs.ShareSlot | os-l3/kernel/src/uproc.c:104-112 | One page shared: the child sees the parent's bytes there, nobody else sees a change. |
| Cow.Uprocs.Fork | os-l3/kernel/src/uproc.c:71-118 | The child sees exactly what the parent sees, every other view and mapping stays, and neither can write a page. |
| Cow.Uprocs.AddPage | os-l3/kernel/src/uproc.c:382-386 | One view gains one page, mapped read-only; frames are conserved. |
| Cow.Uprocs.MovePage | os-l3/kernel/src/uproc.c:386-395 | One view changes in one page at most, to the copied image, and the page becomes writable; frames are conserved. |
| Cow.Uprocs.PageFault | os-l3/kernel/src/uproc.c:350-397 | The page served is the one that holds the faulting address. The panics come exactly outside the code and stack segments and on the 33rd page of one; otherwise an absent page is added for reading and a present one becomes writable, with the image's bytes where the image lies and the old ones elsewhere; no other page or mapping changes. A write fault keeps all views if and only if the page lies behind the image or begins as the image does; pages of the stack do. |
| Cow.Uprocs.LoseStore | os-l3/kernel/src/uproc.c:342-346 | From any state: a new task stores to its code page, forks and writes there again; its store is lost, and the child still has it. |
| Cow.Uprocs.Store | os-l3/kernel/src/uproc.c:331-341 | A store to a writable page changes one byte of one task's view. |
| Cow.Uprocs.Create | os-l3/kernel/src/uproc.c:408-430 | A new task with an empty code segment that covers the image and no further page, and an empty stack segment of a gigabyte at the end of the user area, seen by nobody else. |
| Cow.Uprocs.Teardown | os-l3/kernel/src/kmt.c:147-161 | The task's view goes, the others stay, and frames are conserved. |
| LinkedList.PushKeeps | os-l3/kernel/src/uproc.c:79-81 | Insertion at the front of a list ended by NULL keeps both link directions. |
| LinkedList.UnlinkKeeps | os-l3/kernel/src/uproc.c:174-178 | Removal of any node keeps both link directions and the head. |
| Kinship.SoundKept | os-l3/kernel/src/uproc.c:71-219 | Every step of every task, also after a `kill` in the middle of `fork` and at the exit of a killed task: a parent is the forking task or NULL, and not NULL while that task lives; a link leads from child to child of one task, the next sibling being older and the previous one younger. |
| Kinship.RunsAreSound | os-l3/kernel/src/uproc.c:71-219 | So it is in every run from boot: whatever becomes of the links, no list is ever tied into a ring or into another task's list. |
| Kinship.EnabledMeans | os-l3/kernel/src/uproc.c:71-219 | Which steps are possible: a task forks, exits and waits while it may run and stands in no `fork`, and any live task may be killed at any time. |
| Kinship.ForkGoesOn | os-l3/kernel/src/uproc.c:74-82 | A `fork` under way always has exactly one next step, whatever came in between. |
| Kinship.ListAfter | os-l3/kernel/src/uproc.c:78-82 | A step keeps a list of children that is linked both ways and holds every live child, and does to it exactly what it should: the new child in front, the leaving child out, no other list touched; unless it is the exit of a killed child of that list's task. |
| Kinship.InsertedList | os-l3/kernel/src/uproc.c:78-82 | The insertion keeps a list of children linked both ways and complete. |
| Kinship.UnlinkedList | os-l3/kernel/src/uproc.c:174-178 | The unlinking of a listed child gives the list without it, linked both ways. |
| Kinship.OthersUnlinked | os-l3/kernel/src/uproc.c:174-178 | An unlinking, even through stale links, writes no link on another task's list. |
| Families.LinksAgree | os-l3/kernel/src/uproc.c:174-178 | In two families with the same live tasks the links between live siblings are the same. |
| Families.DeadExitFamily | os-l3/kernel/src/uproc.c:153-192 | The exit of a killed task keeps the family if and only if its live neighbours, as its links name them, still are next to each other, or its parent is dead or NULL. |
| Families.FamilyMeans | os-l3/kernel/src/uproc.c:71-219 | What a family is in plain terms: no live task has a dead parent, and the list of a live task is linked both ways and holds exactly its live children. |
| Families.FamilyAfter | os-l3/kernel/src/uproc.c:71-219 | One step makes a live task's parent or child dead, or its list of children incomplete or ill-linked, if and only if it is a `kill` inside the window of a `fork`, of either task, a `fork` begun by a killed task, or the exit of a killed task whose live neighbours have changed. |
| Families.FamilyInAllRuns | os-l3/kernel/src/uproc.c:71-219 | Over all interleavings of all tasks, those that were killed and run on included: parents of live tasks are live or NULL, and the list of a live task is linked both ways and holds its live children and no others, all along the run, if and only if the run has no such step. |
| Tallies.NoneLost | os-l3/kernel/src/uproc.c:174-178 | While no killed task with a parent has exited before, the exit of one may bring siblings back on the list but loses none. |
| Tallies.TidyKept | os-l3/kernel/src/uproc.c:71-219 | All other steps keep the lists of all tasks, dead ones too, linked both ways and complete, and no stale link leads past a listed child. |
| Tallies.ConservedAfter | os-l3/kernel/src/uproc.c:71-219 | On such lists one step unbalances the books (put on a list = still there + record waiting + record handed out + killed) if and only if it is the exit of a killed task that has a parent. |
| Tallies.ConservedInAllRuns | os-l3/kernel/src/uproc.c:71-219 | Over all interleavings the books of all tasks stay balanced all along the run if and only if no killed task that has a parent exits. |
| FamilyRuns.KilledInWindow | os-l3/kernel/src/uproc.c:74-82 | A `kill` anywhere in the window, before or after the write of the parent: the rest of the `fork` leaves a live child with a dead parent, or a dead child on a list. |
| FamilyRuns.DamageStays | os-l3/kernel/src/uproc.c:71-219 | A dead parent is cleared by one step only, its own exit when it was killed inside of `fork`; a dead child stays on a well-formed list through every step but the exit of a killed sibling, and `wait` never answers -1. |
| FamilyRuns.KilledInFork | os-l3/kernel/src/uproc.c:194-219 | The run from one first task: its first child kills it between the write of the parent and the insertion of a second one. |
| FamilyRuns.KilledInExit | os-l3/kernel/src/uproc.c:153-219 | For any three neighbours on a list: the middle one is killed, the older one exits, and the exit of the middle one puts it, dead, on the list again. |
| FamilyRuns.KilledExitRun | os-l3/kernel/src/uproc.c:153-219 | The run from one first task with three children, in which every step before the last is timely: a live task ends with a dead child on its list and unbalanced books. |
| ProcessTree.KidsEnd | os-l3/kernel/src/uproc.c:182-186 | The loop over a task's children meets tasks of the table only, each linked to the next, and ends. |
| ProcessTree.Processes.Exit | os-l3/kernel/src/uproc.c:153-192 | The step of the state machine on the real links, for killed tasks as well: the parent, if any, gets `status << 8` as its latest record and no other task gets one, the links are written as the task knows them, and exactly the listed children lose their parent. |
| ProcessTree.Processes.Wait | os-l3/kernel/src/uproc.c:120-151 | Hands out the latest record, each status once and as the child left it; -1 exactly with neither record nor child; also for a task that was killed and runs on. |
| ProcessTree.Processes.Kill | os-l3/kernel/src/uproc.c:194-219 | The step of the state machine, also for a task in the middle of `fork`: the task is taken out of its parent's list, if it is on one, without a record and is counted as killed; its children lose their parent. |
| ProcessTree.Processes.ForkCreate | os-l3/kernel/src/uproc.c:74 | The first step of `fork`: a new task without parent, on no list. |
| ProcessTree.Processes.ForkParent | os-l3/kernel/src/uproc.c:75 | The second step writes the parent and touches no list. |
| ProcessTree.Processes.ForkInsert | os-l3/kernel/src/uproc.c:78-82 | The third step: the child heads its parent's list, dead or alive, no other list changes, and the tally counts it. |
| ProcessTree.Processes.Leave | os-l3/kernel/src/uproc.c:174-187 | What `exit` and `kill` share: the links, heads and parents are those of the reference `Left`, whatever the links name; exactly the listed children lose their parent. |
| ProcessTree.Processes.EveryChildCounted | os-l3/kernel/src/uproc.c:120-219 | While the books are in order: children ever put on a list = listed ones + waiting records + records handed out + killed ones. |
| Coroutine.RingInsert | os-l3/libco/co.c:146-159 | Insertion at the cursor keeps the ring, the new node last from the cursor on. |
| Coroutine.RingRemove | os-l3/libco/co.c:165-182 | Removal at the cursor keeps the ring of the others. |
| Coroutine.SomebodyReady | os-l3/libco/co.c:254-262 | Under fork-join waiting some coroutine can run while any is not dead. |
| Coroutine.SwitchedMeans | os-l3/libco/co.c:254-263 | A switch goes to the first coroutine from the cursor on, its own being last, that is new or running, and leaves the cursor there, or behind the node that the resumed `co_wait` removes. |
| Coroutine.Coroutines.Start | os-l3/libco/co.c:184-196 | A new coroutine joins the ring as the last one; nothing else changes but its own entries. |
| Coroutine.Coroutines.FindReady | os-l3/libco/co.c:258-262 | The search ends within one round at the first coroutine that can run, the current one being last. |
| Coroutine.Coroutines.EndJoin | os-l3/libco/co.c:210-217 | With its target dead, `co_wait` finds the node and removes exactly it, the cursor standing at the next one. |
| Coroutine.Coroutines.Yield | os-l3/libco/co.c:254-292 | Switches to the first coroutine that can run, going round from the cursor; if that one stands in `co_wait`, its own target is dead and exactly that target's node goes; otherwise the ring keeps its nodes. No other status changes. |
| Coroutine.Coroutines.CoWait | os-l3/libco/co.c:198-218 | Returns only with its target dead and its node removed: at once if it is dead already; otherwise the caller waits, another coroutine is switched to, and the saved target decides which node goes when the caller is resumed. |
| Coroutine.Coroutines.Finish | os-l3/libco/co.c:278-284 | The coroutine is dead, its waiter can run, and the first coroutine that can run is switched to; if that one stands in `co_wait`, the node of its own target goes. |
| Terminal.RowsScrolled | os-l3/kernel/src/dev/dev_tty.c:36-44 | Moving the flat buffer up by one row's length is scrolling. |
| Terminal.ReadLf | os-l3/kernel/src/dev/dev_tty.c:146-155 | The flat line feed is the terminal's, scrolling at the end of the buffer only. |
| Terminal.ReadBs | os-l3/kernel/src/dev/dev_tty.c:55-60 | The flat backspace is the terminal's, running back over the start of a row. |
| Terminal.ReadPut | os-l3/kernel/src/dev/dev_tty.c:62-65 | The flat write is the terminal's, wrapping and scrolling. |
| Terminal.TypedInOrder | os-l3/kernel/src/dev/dev_tty.c:247-256 | A text takes effect character by character, in order. |
| Terminal.ReadRows | os-l3/kernel/src/dev/dev_tty.c:36-65 | The rows of the terminal lie in the buffer one after the other. |
| Tty.DirtyIsEnough | os-l3/kernel/src/dev/dev_tty.c:90-114 | Drawing the marked cells gives the picture that drawing all cells gives, when the unmarked ones are shown already. |
| Tty.UpToDateKept | os-l3/kernel/src/dev/dev_tty.c:116-130 | Marking written cells and both places of the cursor suffices. |
| Tty.Tty.Putc | os-l3/kernel/src/dev/dev_tty.c:135-167 | What carriage return, backspace, line feed and any other character do to buffer and cursor, cell by cell; that is what the terminal does; and every stale cell is marked. |
| Tty.Tty.Render | os-l3/kernel/src/dev/dev_tty.c:90-114 | Every cell is on the screen, with the textures of its character or of the cursor's block, as after a full redraw, and the marks are gone. |
| Tty.Tty.Write | os-l3/kernel/src/dev/dev_tty.c:247-256 | Any text: the buffer is the terminal after the text, and every cell is on the screen with the textures of its character or of the cursor's block. |
| Tty.Tty.Redraw | os-l3/kernel/src/dev/dev_tty.c:273-274 | A full mark-and-render puts every cell on the screen, whatever was there. |
| SdDisk.RoundDownValue | os-l3/kernel/src/dev/dev_sd.c:30 | For a power of two the mask gives the start of the block. |
| SdDisk.ReadAfterWrite | os-l3/kernel/src/dev/dev_sd.c:26-57 | A read after a write sees the written bytes where the ranges meet and the old ones elsewhere. |
| SdDisk.Sd.Read | os-l3/kernel/src/dev/dev_sd.c:26-39 | Exactly the bytes of the range; the disk stays. |
| SdDisk.Sd.Write | os-l3/kernel/src/dev/dev_sd.c:41-57 | Exactly the bytes of the range change, to the data. |
| TrapTable.Traps.OnIrq | os-l3/kernel/src/os.c:162-174 | The table is sorted and holds the registrations and the new one. |
| TrapTable.Traps.Trap | os-l3/kernel/src/os.c:141-153 | The outcome is that of calling the matching handlers in table order. |
| TrapTable.CalledInOrder | os-l3/kernel/src/os.c:144-146 | Called are the handlers for every event and those for this one, in the order of the table. |
| TrapTable.CombinedMeans | os-l3/kernel/src/os.c:143-152 | A trap ends with a context exactly when one call answers with one, and then with that. |
| TrapTable.TwoContexts | os-l3/kernel/src/os.c:147 | Two calls that answer with a context end in the panic. |
| TrapTable.RegisteredInAnyOrder | os-l3/kernel/src/kmt.c:122-124 | Whatever the order of the registrations, the sorted table has the context save first and the scheduler last. |
| TrapTable.SaveFirstScheduleLast | os-l3/kernel/src/os.c:141-153 | On such a table every trap, of whatever event, calls the context save first and the scheduler last. |
| TrapTable.SchedulerDecides | os-l3/kernel/src/os.c:141-153 | With silent other handlers, every trap ends with the scheduler's context, without a panic. |

## Left out

- Kmem.Allocator.Kalloc: asks for a free page or a slab with a free object when the request is below a page; without either the source dereferences NULL.
- Kmem.Allocator.SlabAlloc: asks for the same; after the failed assertion no more is said.
- Buddy.BuddyPool.constructor: takes at most 2^19 pages, since `index * PAGE_SIZE` is an `int` product, and page-aligned bounds.
- Buddy.AlignSize: takes sizes up to 2^63; beyond it the shift runs to zero and the loop does not end.
- Buddy.BlockOrder: does not model the `int` overflow of `1 << order` for 2^31 pages and more, which `kalloc` never asks for; the order is then above the largest either way.
- Locking inside the `os-l1` allocator is modelled only as one flag that says whether the global lock is held; each call is one step.
- Slabs are never given back to the buddy system, in the source as here.
- Sched.RunsAreSafe: takes one evaluation of the pick condition as one step, lets the search try tasks in any order, and assumes that traps nest less than eight deep and that the scheduler runs inside a trap, with the first scheduling guarded against the NULL `buffer`.
- Sched.WinnerIsFree: leaves out the freeing of a torn-down task's resources in `kmt_schedule`; a reaped task only leaves the table, and may do so on any processor that has left it, where the source asks that it died there.
- Spinlock.MutualExclusion: takes the reading and clearing of the interrupt flag in `push_off` as one step and allows `iset` only with no lock held; memory is sequentially consistent.
- Semaphore.Semaphore.Wait: ends with the release of the semaphore's lock; the `yield` that follows is the scheduler's business.
- Vme.AddrSpace.Map: is for the x86_64 configuration and 4-KByte pages; the allocator is a set of free pages, and a panic is an outcome after which no more is said than the contract does.
- Cow.Uprocs.PageFault: covers the private code and stack segments, both readable and writable as `uproc_create` makes them; shared and private `mmap` segments are left out, and a free frame is required.
- Cow.Uprocs.Fork: makes the child's slots visible one by one where the source fills a segment before hanging it in; the child cannot run before the end in either.
- ProcessTree.Processes.Kill: requires a live target; a missing or dead one is not checked by the source, which would follow NULL, or take a dead one off its list a second time.
- ProcessTree.Processes.Wait: is one round of the loop; the yield between rounds is an outcome.
- Coroutine.Coroutines.CoWait: requires a coroutine that the caller started and has not waited for yet; freed memory is a node that has left the ring.
- Coroutine.Coroutines.NodeInsert: is for a ring that is not empty; the constructor stands for the first insertion, and the clean-up at exit is left out.
- ProcessTree.Processes.Exit: takes `status << 8` as a product, without the overflow of `int`.
- Families.FamilyInAllRuns: leaves out `kmt_teardown`, which takes a dead task out of the table and frees its page tables, frames and exit records, not the task itself; a task that has put its child on the list may go on at once, and so may the child, where the source first copies pages. A killed task may run on for any time, where the source stops it at its next trap.
- Cow.Uprocs.constructor: asks that the program image and the gigabyte of stack fit the user area.
- Tty.Tty.constructor: asks for at least two cells, since a backspace in the first cell marks the second as well.
- Tty.Tty.Render: the visibility of the cursor is fixed; `tty_read` and the cooked-line queue are left out.
- SdDisk.Sd.Write: in-range requests on a block size that is a power of two, the disk smaller than 4 GB.
- TrapTable.Traps.Trap: takes the handlers' answers as given; what the handlers do is in the other models.
- `__udivdi3` and `__umoddi3` are calls of `__udivmoddi4` and add nothing.
- Context switching in assembly, boot code, port input and output, the APIC and timers.
- The second allocator of `os-l2` and `os-l3`, the first version of the coroutine library, the 32-bit page tables, `sleep`, `uptime`, `mmap`, the user programs and all copies of the files above.
