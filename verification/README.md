# HekaOS kernel model

HekaOS is a 32-bit x86 kernel. This project models the parts of it that carry state - the memory
stack, the process life cycle, signals and the scheduler, signal frames, and the scrolled text
buffer - and proves what they promise. `dafny verify dfyconfig.toml` checks everything.

## How it is organised

Each component has two layers. The lower one follows the C code: classes whose fields are the
kernel's globals and records, methods with the source's loops and stores. The upper one is a much
simpler object on values: a set of frames, a partial map from page to frame, a tiled interval, a
set of live objects, a tree of tasks, an unbounded transcript. Every method is proved against the
upper layer, and the theorems are about the upper layer, mostly over all runs. What an operation on
tasks does is also said a second time without its function: `ProcessMeaning` describes the records
and lists before and after it, and the methods of `Kernel.TaskTable` promise that description too.

| files | component |
|---|---|
| `Bits`, `FrameBitmap` | 32-bit words, frame bitmap as a set of free frames |
| `PageTables` | two-level tables edited through the recursive window, as a page map |
| `KernelPages` | the page loops of the kernel allocators, on those tables |
| `AddressSpaces`, `ForkCopying`, `Teardown`, `UserImage`, `Spawn` | frame ownership over all processes and the kernel; fork, teardown, image loading, and the memory side of spawn, fork and reap |
| `MemoryRuns` | every run of spawns, forks, reaps and switches from boot, against a book of frame counts |
| `Heap`, `Slab`, `Vmalloc` | the three kernel allocators and their runs |
| `Process`, `Signals` | tasks, signals, tree and scheduling on values |
| `ProcessMeaning` | what each of these operations comes to, said on the records and lists before and after it |
| `ProcessTree`, `ProcessInvariant`, `ProcessRuns` | the invariant and the state machine of system calls, signals and ticks |
| `Orphans` | the reparenting loop of exit: when it ends, and what the exit of init does to it |
| `ProcessSafety`, `ProcessProgress` | what never and what always happens over runs |
| `ProcessLaws`, `ProcessFairness` | laws of runs that join several operations: waiting for children, SIGKILL, turns on the CPU |
| `Kernel`, `KernelRuns` | linked task records refining that state machine |
| `Sigframe` | signal frames on the user stack, at any nesting depth |
| `Terminal` | the 204-row buffer against a transcript |

## Conventions and assumptions

- Physical memory is a map from frame to 1024 words; every access of the kernel goes through the
  hardware walk of the current directory. Translation always reads the current tables, so TLB
  flushes and CR3 reloads have no counterpart.
- `kpanic` never returns. Methods return a `panic` flag and say when it is set; the state after a
  panic is not used. Whether `alloc_page` succeeds inside the allocators, and whether a record,
  stack and address space could be built for a new task, are parameters there (`pages`, `mapped`,
  `built`); their memory side is proved in `PageTables`, `KernelPages` and `Spawn`.
- Requests to the heap are bounded by its 256 MiB zone. `Heap.Align8RoundsUp` shows where the
  rounding macro wraps.
- The base given to `phys_free_contiguous` is at most 64 MiB, since the code subtracts it from the
  frame count without a check.
- The kernel page tables in use exist when a process directory is made, in particular entry 956,
  which holds kernel stacks and scratch pages: directories copy kernel entries once.
- Pid 0 and init are not terminated and pid 0 makes no system calls (`ProcessRuns.Enabled`).
  `Orphans.OrphanLoop` says exactly when the loop of `do_exit` ends, and `Orphans.StuckReachable`
  gives a run after which an exit of init would never return.
- System calls are made by tasks that are neither dead nor stopped, and one scan-then-block pass of
  `wait` is atomic. `ProcessProgress.NoLostWakeup` and the laws of `ProcessFairness` also need the
  scheduler's test hooks off, since these put tasks to sleep; all other results hold with them on or off.
- A handler run by the kernel is an entry in a trace of calls and changes nothing else.
- User code keeps off pending signal frames and does not raise its stack pointer above the frame
  of the handler it runs (`Sigframe.Proper`).

Where code and intent differ, the code is modelled, and the exact condition is proved.

- The failure path of `task_fork` does not tear the half-built child down, unlike that of `spawn_user`:
  a failed fork leaves the free frames it found if and only if there were at most two, and of any
  more only two are left (`Spawn.ForkUser`). Over any run the frames lost in this way are the only
  ones that are neither free nor of a process (`MemoryRuns.RunFromBoot`).
- A failed `paging_fork_copy` can leave scratch pages mapped to frames of that child. The data page is
  left mapped exactly if there were more frames than the parent has tables up to its first one with
  a page, the table page exactly if the frames ran out between two tables and not before the first
  one (`ForkCopying.ScratchLeft`). For a parent whose tables all have a page, clear scratch pages stay
  clear if and only if the copy had at most one frame, the fork at most three. `Spawn.LeakFromBoot`
  is a run that loses frames, and with four or five free ones leaves the data page mapped to one of them.
- `alloc_page` at an unaligned address of a mapped page loses a frame; `PageTables.LoseFrame` does it
  right after boot.
- `vmalloc` then `vfree` gives back all frames but those of page tables it had to make: all of them if
  and only if every page of the range had a table before (`KernelPages.BackThenDrop`).
- Once a childless init has exited the kernel goes on naming it as the reaper: the next exit hands its
  children, if there are any, to a zombie (`Orphans.ReaperLost`).
- Output while the view is scrolled back is lost under the scrollback bar exactly if it is written to
  the row that the bar covers; a recycle of the buffer leaves the bar in place of that row
  (`Terminal.LostUnderBar`, `Terminal.Terminal.PutChar`).
- The counter is checked again after `exec_user_fn` has claimed a pid, so user spawns stop one pid
  earlier than forks: `Kernel.TaskTable.ExecUser` states the exact bound.

## Model

| member | source | states |
|---|---|---|
| `Bits.IsolateKeepsLowest` | src/signal.c:131-132 | `x & (~x + 1)` on 32-bit words keeps bit k and no other whenever k is the lowest set bit |
| `Bits.WithBit` | src/memory/phys_page_frame.c:22-38 | setting or clearing one bit of a bitmap stored in 32-bit words changes that bit and no other |
| `Bits.ScanClear` | src/memory/phys_page_frame.c:124-140 | a clear bit extends the current run, and completes it only at the lowest start of n clear bits |
| `Bits.ScanSet` | src/memory/phys_page_frame.c:141-144 | a set bit ends the current run and no run of n can end there |
| `FrameBitmap.FrameAllocator.constructor` | src/memory/phys_page_frame.c:40-59 | after initialisation the free set is exactly the frames from 4 MiB to 64 MiB |
| `FrameBitmap.FrameAllocator.AllocFrame` | src/memory/phys_page_frame.c:61-90 | returns the minimum of the free set and removes it; null iff the set is empty |
| `FrameBitmap.FrameAllocator.FreeFrame` | src/memory/phys_page_frame.c:92-110 | adds exactly the named frame; unaligned, reserved and out-of-range addresses change nothing |
| `FrameBitmap.FrameAllocator.AllocContiguous` | src/memory/phys_page_frame.c:112-148 | takes the lowest run of n free frames; null iff n is 0 or no such run exists |
| `FrameBitmap.FrameAllocator.FreeContiguous` | src/memory/phys_page_frame.c:150-172 | adds exactly the n frames from the base, or nothing for an unaligned, reserved or overlong request |
| `FrameBitmap.FrameAllocator.FreeCount` | src/memory/phys_page_frame.c:174-189 | the count is the cardinality of the free set |
| `PageTables.WindowShowsTables` | src/cpu/paging.c:18-22 | under the two-level hardware walk (section 4.3 of Intel SDM Vol. 3A) the recursive window shows, at page i, exactly page table i of the current directory, and the directory itself at the last page |
| `PageTables.WithPteUpdates` | src/cpu/paging.c:110-117 | writing one page-table entry changes the translation of that page and of no other page below the window |
| `PageTables.WithTableUpdates` | src/cpu/paging.c:91-108 | hanging a fresh zeroed table into the directory changes no translation at all |
| `PageTables.MapRefines` | src/cpu/paging.c:79-118 | mapping is exactly an update of the abstract page map, or no change when a table is needed and no frame is free |
| `PageTables.UnmapRefines` | src/cpu/paging.c:120-145 | unmapping is exactly removal from the abstract page map |
| `PageTables.MapRing3` | src/cpu/paging.c:79-118 | a page mapped with some flags is open to ring 3 iff they ask for read-write user access and it does not hang below a table made for the kernel; a table made on demand never stands in the way |
| `PageTables.BootDirectory` | src/cpu/paging.c:24-56 | the boot directory maps the first 4 MiB to themselves and nothing else |
| `PageTables.BootTables` | src/cpu/paging.c:27-51 | the loops of `paging_init` write exactly the directory and the identity table |
| `PageTables.Machine.constructor` | src/cpu/paging.c:24-56 | from any memory contents, boot establishes the invariant with the identity map and all managed frames free |
| `PageTables.Machine.GetPhysAddr` | src/cpu/paging.c:58-77 | the translation of any address, inside the recursive window too, 0 when there is none; below the window it is lookup in the abstract page map |
| `PageTables.Machine.AddTable` | src/cpu/paging.c:91-108 | takes the lowest free frame, clears it through the window and links it; fails iff no frame is free |
| `PageTables.Machine.WritePte` | src/cpu/paging.c:110-117 | the store through the window lands in the right table entry and nowhere else |
| `PageTables.Machine.MapPage` | src/cpu/paging.c:79-118 | memory and free set after the call are exactly those of the specification, unaligned arguments included |
| `PageTables.Machine.UnmapPage` | src/cpu/paging.c:120-145 | removes the page from the abstract map, leaves everything else, ignores unaligned and absent pages |
| `PageTables.Machine.AllocPage` | src/cpu/paging.c:147-165 | succeeds iff there is a frame for the page and, if needed, one for its table; on failure memory and free set are as before; at an unaligned address nothing is mapped and a frame is lost iff the page was mapped |
| `PageTables.Machine.FreePage` | src/cpu/paging.c:167-178 | unmaps the page and returns exactly its frame; reserved frames are only unmapped, unaligned addresses do nothing |
| `PageTables.LoseFrame` | src/cpu/paging.c:147-165 | a run: right after boot `alloc_page` at address 1 succeeds, changes no word of memory, and the lowest frame is then neither free nor mapped |
| `KernelPages.BackPage` | src/cpu/paging.c:147-165 | a kernel page gets a frame, and a table if it had none; fails, changing nothing, iff there is not a frame for each |
| `KernelPages.DropPage` | src/cpu/paging.c:167-178 | the page's frame is free again and no other translation changes |
| `KernelPages.BackRange` | src/memory/vmalloc.c:96-104 | the loop succeeds iff there is a frame for each page and for each missing table; then exactly the pages of the range are mapped, to distinct frames that were free |
| `KernelPages.DropRange` | src/memory/vmalloc.c:163-167 | exactly the frames of the range become free and exactly its pages unmapped |
| `KernelPages.BackThenDrop` | src/memory/vmalloc.c:57-168 | both together leave every translation as it was and every frame but those of the tables made; the free set is the old one iff every page of the range had a table before |
| `AddressSpaces.BootSystem` | src/cpu/paging.c:24-56 | the ownership invariant holds at boot with an empty ledger: every user frame has one owner, kernel pages lie on frames that are neither free nor owned |
| `AddressSpaces.BootMemory` | src/cpu/paging.c:24-56 | the machine boots into a state from which fork, spawn and teardown can be called, with all managed frames but one free |
| `AddressSpaces.KeepOnNewTable` | src/cpu/paging.c:238-252 | a cleared frame linked as a user table moves from free to owned, and every other frame keeps its one owner |
| `AddressSpaces.KeepOnNewPage` | src/cpu/paging.c:263-280 | the same for a user page |
| `AddressSpaces.KeepOnDrop` | src/cpu/paging.c:390-414 | dropping a directory entry gives up exactly the frames below it |
| `AddressSpaces.KeepSystem` | src/cpu/paging.c:212-216 | writes to free frames, kernel stacks, unused directories and the two scratch entries keep the invariant of the whole system |
| `ForkCopying.CopyPage` | src/cpu/paging.c:263-280 | one page is copied through the scratch mapping onto a fresh frame, word for word, and linked with the same flags; with no frame left the scratch table page is unmapped and nothing else changes |
| `ForkCopying.CopyEntries` | src/cpu/paging.c:254-281 | a whole table is copied, or the last frame is spent, an entry of the parent is still missing, the scratch table page is unmapped and the scratch data page shows a page of the child, or is as before if the child has none; only free frames, the child and the two scratch entries are written |
| `ForkCopying.CopyTable` | src/cpu/paging.c:230-282 | one directory entry is copied, absent ones stay absent; a failure says where the copy stopped, and the scratch table page is unmapped if a page was missing, shows a table of the child if a table was, and is as before if that was the first one |
| `ForkCopying.ForkCopy` | src/cpu/paging.c:218-287 | succeeds iff there are as many free frames as the parent has tables and pages, and then takes exactly that many, every user table is copied and both scratch pages are unmapped; in every case the ledger grows by exactly the frames taken and no frame in use changes, other kernel-stack entries included; a failure leaves no frame, and each scratch entry exactly as the frame count says; for a parent whose tables all have a page, clear scratch pages stay clear iff there was at most one frame |
| `ForkCopying.ParentUnchanged` | src/cpu/paging.c:218-287 | the parent's directory, tables and page contents are as before the copy |
| `ForkCopying.ForkIsolation` | src/cpu/paging.c:218-287 | for every user page: the child maps it iff the parent does, same flags, open to ring 3 iff it was, equal contents, on a frame that was free and that no other translation of any directory reaches, be it of a process, the kernel or the window; the parent keeps mapping and contents |
| `ForkCopying.CopiedRing3` | src/cpu/paging.c:238-280 | a copied page is open to ring 3, at both levels, iff the original is |
| `ForkCopying.OneOwner` | src/cpu/paging.c:238-280 | each user frame is named by exactly one directory or table entry of all processes |
| `ForkCopying.OnlyReach` | src/cpu/paging.c:212-216 | in every state with the scratch pages unmapped a user page is reached by its own place only, over all translations of all directories |
| `ForkCopying.EnoughFrames` | src/cpu/paging.c:228-282 | a finished copy took exactly one frame per table and page of the parent, which is what the child owns |
| `ForkCopying.TooFewFrames` | src/cpu/paging.c:238-268 | a copy that ran dry had fewer free frames than the parent has tables and pages |
| `ForkCopying.DataLeft` | src/cpu/paging.c:263-280 | where a copy has stopped the child has a page, and the data page shows one, iff there were more frames than the parent has tables up to its first one with a page |
| `ForkCopying.TableLeft` | src/cpu/paging.c:238-268 | the copy stopped for want of a table, and the table page is left mapped, iff the frames are exactly those of the parent's entries before some table, and more than none |
| `ForkCopying.PagedScratch` | src/cpu/paging.c:228-282 | when every table of the parent has a page and the copy must fail, the data page is left mapped iff there are at least two frames, the table page only then |
| `ForkCopying.CopyFailed` | src/cpu/paging.c:238-268 | both conditions, on the scratch entries of every failed copy |
| `Teardown.ReleaseTable` | src/cpu/paging.c:396-414 | frees each page of a table once, then the table, clears the entry and unmaps the scratch page; no other word of memory changes |
| `Teardown.ProcTeardown` | src/cpu/paging.c:383-416 | exactly the frames the directory owns become free, once each, and no user table is left; no other word of memory changes but the scratch entry, which ends unmapped iff anything was freed |
| `UserImage.ProcInit` | src/cpu/paging.c:180-203 | a new directory has no user entries, shares the kernel entries and maps itself; the memory invariant extends to it and no other frame changes |
| `UserImage.WriteImage` | src/cpu/paging.c:335-356 | byte b of the frame, taken from the value of its words in little-endian order, is byte b of the image, and 0 behind its end, for all 4096 |
| `UserImage.ImageBytes` | src/cpu/paging.c:335-356 | the words of the page written for an image spell its bytes one by one |
| `UserImage.LoadUserPage` | src/cpu/paging.c:293-359 | the page shows the image byte by byte, open to ring 3 at both levels, on a fresh frame, every other user page keeps mapping and contents; failure only with no frame left |
| `UserImage.LoadUserImage` | src/cpu/paging.c:361-381 | succeeds iff the size is 1..4096 and four frames are free; then the code page holds the image byte by byte, the stack page is zero, both are open to ring 3 and no other user page exists; no frame in use changes and no scratch page is left mapped; bad sizes change neither memory nor free set |
| `Spawn.ForkThenTeardown` | src/cpu/paging.c:218-416 | fork-copy followed by teardown restores the exact free set and ledger, whether or not the copy succeeded |
| `Spawn.LoadThenTeardown` | src/cpu/paging.c:293-416 | load-image followed by teardown restores the exact free set and ledger |
| `Spawn.AllocStack` | src/task.c:324-337 | maps both kernel-stack pages iff two frames are free, else the free set is as before; no other entry and no other frame changes |
| `Spawn.KeepOnStack` | src/task.c:324-337 | a frame mapped as a kernel stack leaves the free set and is named by its one slot |
| `Spawn.KeepOnUnstack` | src/task.c:579-586 | unmapping it makes it free again, with no other name left |
| `Spawn.ReapMemory` | src/task.c:579-600 | the memory side of reaping: stack pages and exactly what the directory owns become free |
| `Spawn.SpawnUser` | src/task.c:305-350 | succeeds iff the image fits and six frames are free; a failure at any point leaves the free set and ledger it found, a success takes two stack frames and exactly the four the child owns; no page, table or kernel stack in use changes |
| `Spawn.CopyStack` | src/task.c:502-518 | the child's kernel stack is the parent's, word for word, but for the saved eax, which is 0 |
| `Spawn.ForkUser` | src/task.c:447-518 | succeeds iff there are two frames more than the parent has tables and pages, and takes exactly these; then the child has a copy of every user page and of the kernel stack; a failure restores the ledger, and the free set iff it had at most two frames, else exactly two frames are left of it; each scratch entry is then as before, empty, or maps a lost frame, exactly as the frame count says, and for a parent whose tables all have a page stays clear iff there were at most three frames; no page, table or kernel stack in use changes |
| `Spawn.LeakFromBoot` | src/task.c:490-500 | runs from boot in which a fork with three, four or five free frames fails and loses all but two; with four or five the scratch data page is left mapped to a lost frame, with three not |
| `Spawn.SpawnThenReap` | src/task.c:305-600 | a spawn followed by the memory side of reap, or one that failed, restores the exact free set and ledger |
| `Spawn.ForkThenReap` | src/task.c:447-600 | so does a fork followed by reap; a failed fork does iff at most two frames were free |
| `MemoryRuns.NextTotal` | src/task.c:305-600 | no spawn, fork, reap or switch makes or destroys a frame: free frames, frames held by processes and frames lost in failed forks add up as before |
| `MemoryRuns.RunTotal` | src/task.c:305-600 | nor does any run of them |
| `MemoryRuns.Do` | src/task.c:305-600 | each step, run on the page tables, changes the number of free frames, the set of processes and the size of each as the book says |
| `MemoryRuns.DoAll` | src/task.c:305-600 | so does every run |
| `MemoryRuns.RunFromBoot` | src/task.c:305-600 | from boot, after any sequence of steps, failed ones included, the free frames, two stack frames and all tables and pages of every live process, and the frames lost in failed forks make up the frames there were at boot |
| `Heap.Align8RoundsUp` | src/memory/kmem_dyn_alloc.c:9 | the rounding macro gives the next multiple of 8 iff the request is at most 2^32 - 8, and wraps for the seven larger ones |
| `Heap.GrownKeeps` | src/memory/kmem_dyn_alloc.c:23-81 | growth keeps the tiling invariant and every live block |
| `Heap.TakenKeeps` | src/memory/kmem_dyn_alloc.c:143-160 | splitting keeps it |
| `Heap.TakenExact` | src/memory/kmem_dyn_alloc.c:143-160 | the block taken is at most a header and seven bytes larger than asked for, a larger rest is a free block behind it, and the blocks before and after stay |
| `Heap.TakenLive` | src/memory/kmem_dyn_alloc.c:143-160 | allocation adds exactly one live block |
| `Heap.ReleasedKeeps` | src/memory/kmem_dyn_alloc.c:163-202 | freeing with coalescing on both sides keeps it |
| `Heap.ReleasedLive` | src/memory/kmem_dyn_alloc.c:163-202 | freeing removes exactly the freed block from the live ones |
| `Heap.GrowMakesFit` | src/memory/kmem_dyn_alloc.c:125-141 | after growth the second search always succeeds, so the out-of-memory panic is unreachable |
| `Heap.AllocThenFree` | src/memory/kmem_dyn_alloc.c:105-202 | alloc without growth followed by free gives back the identical block list |
| `Heap.PayloadsDisjoint` | src/memory/kmem_dyn_alloc.c:105-161 | payloads are 8-aligned, inside the zone and pairwise disjoint |
| `Heap.Step` | src/memory/kmem_dyn_alloc.c:94-202 | every alloc, free and brk keeps the invariant: blocks tile the zone, sizes are multiples of 8 and at least 8, no two neighbours are free |
| `Heap.Run` | src/memory/kmem_dyn_alloc.c:94-202 | and so does every run of them |
| `Heap.StepLive` | src/memory/kmem_dyn_alloc.c:105-202 | one operation changes the live blocks by exactly the block allocated or freed; a block allocated wastes less than a header and sixteen bytes |
| `Heap.LiveBlockStays` | src/memory/kmem_dyn_alloc.c:105-202 | over every run that does not free it, a live block keeps place and size |
| `Heap.KernelHeap.Find` | src/memory/kmem_dyn_alloc.c:115-123 | the list walk finds the lowest-address free block that fits |
| `Heap.KernelHeap.GrowBy` | src/memory/kmem_dyn_alloc.c:23-81 | the headers after growth spell the grown block list; it panics iff the limit or the pages run out |
| `Heap.KernelHeap.Brk` | src/memory/kmem_dyn_alloc.c:94-103 | grows as asked and returns the heap end |
| `Heap.KernelHeap.Take` | src/memory/kmem_dyn_alloc.c:143-160 | the header writes of the split spell the specified block list, next and prev staying mutually inverse, and leave the block less than a header and eight bytes too large |
| `Heap.KernelHeap.Alloc` | src/memory/kmem_dyn_alloc.c:105-161 | returns the payload of the lowest fitting block, after growth if needed; null for 0; panics iff nothing fits and growth is impossible |
| `Heap.KernelHeap.Release` | src/memory/kmem_dyn_alloc.c:163-202 | the header writes of free and both merges spell the specified block list; panics iff the block is already free |
| `Heap.KernelHeap.Size` | src/memory/kmem_dyn_alloc.c:204-212 | the size of the block, 0 for null |
| `Heap.KernelHeap.Query` | src/memory/kmem_dyn_alloc.c:336-358 | used and free blocks are counted, and used bytes, free bytes and headers add up to the heap's extent |
| `Slab.ObjectsDisjoint` | src/memory/kmalloc.c:83-89 | distinct objects of the mapped pages do not overlap each other, the header or the page end |
| `Slab.RefilledKeeps` | src/memory/kmalloc.c:62-94 | a refill keeps the pool invariant |
| `Slab.PoppedKeeps` | src/memory/kmalloc.c:132-138 | taking the head object keeps it |
| `Slab.PushedKeeps` | src/memory/kmalloc.c:149-155 | returning an object keeps it, up to the page that may now be wholly free |
| `Slab.DroppedKeeps` | src/memory/kmalloc.c:157-176 | releasing a page removes exactly its objects from the list and keeps it |
| `Slab.AllocKeeps` | src/memory/kmalloc.c:112-139 | every allocation keeps the invariant: duplicate-free lists pointing into mapped pages of their class, free counts equal to list entries, no wholly free page retained, used plus free equal to the pages' capacity |
| `Slab.AllocMeaning` | src/memory/kmalloc.c:112-139 | the object returned was not live, fits the request and overlaps no live object |
| `Slab.FreeKeeps` | src/memory/kmalloc.c:141-177 | every release keeps the invariant and removes exactly that object from the live ones |
| `Slab.TakeThenGive` | src/memory/kmalloc.c:112-177 | kmalloc then kfree restores lists, headers and live objects exactly; if a page had to be mapped it is unmapped again and only its place in the zone is used up |
| `Slab.Run` | src/memory/kmalloc.c:112-177 | the invariant holds after every run of kmalloc and kfree |
| `Slab.LiveObjectStays` | src/memory/kmalloc.c:112-177 | an object not given back stays live in a mapped page over every run |
| `Slab.CacheIndex` | src/memory/kmalloc.c:33-45 | the first class whose objects hold the request, -1 iff it exceeds 256 bytes |
| `Slab.CacheIndexExact` | src/memory/kmalloc.c:47-60 | the one class of exactly that object size, a panic iff there is none; unreachable for stored headers |
| `Slab.ChunkPool.ThreadSlots` | src/memory/kmalloc.c:83-89 | the loop threads all objects of the page in address order and touches no other list |
| `Slab.ChunkPool.Refill` | src/memory/kmalloc.c:62-94 | the page and list after the writes are the specified ones; panics iff the zone or the frame runs out |
| `Slab.ChunkPool.Alloc` | src/memory/kmalloc.c:112-139 | null for 0, panic exactly when too large or a page is needed and cannot be had, else the head object of the class |
| `Slab.ChunkPool.Sweep` | src/memory/kmalloc.c:159-172 | the pointer-to-pointer loop unlinks every object of the page and no other |
| `Slab.ChunkPool.Free` | src/memory/kmalloc.c:141-177 | memory after the call spells the specified pool; null is ignored |
| `Slab.ChunkPool.Query` | src/memory/kmalloc.c:191-207 | counting along the lists, used plus free objects is the capacity of the mapped pages |
| `Vmalloc.OneRegion` | src/memory/vmalloc.c:57-120 | no page is covered by two regions |
| `Vmalloc.AllocatedKeeps` | src/memory/vmalloc.c:96-109 | allocation keeps agreement: a bit is set iff exactly one region covers the page |
| `Vmalloc.RemovedKeeps` | src/memory/vmalloc.c:139-167 | freeing keeps it |
| `Vmalloc.AllocThenFree` | src/memory/vmalloc.c:57-168 | vmalloc then vfree restores bitmap and list exactly |
| `Vmalloc.Run` | src/memory/vmalloc.c:57-168 | agreement holds after every run |
| `Vmalloc.SkipFull` | src/memory/vmalloc.c:76-80 | skipping a full word is what scanning its 32 bits would do |
| `Vmalloc.VmallocZone.FindRun` | src/memory/vmalloc.c:71-117 | the word-skipping search returns the lowest free run, or there is none |
| `Vmalloc.VmallocZone.Alloc` | src/memory/vmalloc.c:57-120 | takes the lowest run and puts the region in front of the list; null iff zero pages, no node or no run; panics iff a run was found and mapping failed |
| `Vmalloc.VmallocZone.FindRegion` | src/memory/vmalloc.c:137-145 | the walk finds the region that starts at the page, and its predecessor |
| `Vmalloc.VmallocZone.Free` | src/memory/vmalloc.c:123-168 | removes exactly that region and its bits; panics iff the pointer is outside the zone or starts no region |
| `Vmalloc.VmallocZone.Brk` | src/memory/vmalloc.c:171-182 | the lowest uncovered page; the zone's end iff all are covered |
| `Vmalloc.VmallocZone.Query` | src/memory/vmalloc.c:324-342 | used pages are the sum of the regions' sizes |
| `Vmalloc.CoveredSize` | src/memory/vmalloc.c:324-342 | the covered pages number the sum of the regions' sizes |
| `Orphans.SelfReparentStuck` | src/task.c:429-437 | a task that inherits its own first child is left exactly as it was |
| `Orphans.OrphanLoop` | src/task.c:427-437 | in every state of the system some number of rounds of the reparenting loop leaves no child iff the task is not its own reaper or has no children; it takes one round per child and gives the specified result |
| `Orphans.StuckReachable` | src/task.c:422-445 | a run from boot (init started, scheduled, forking) after which the current task is its own reaper and the loop would never end |
| `Orphans.ReaperLost` | src/task.c:422-445 | after a childless init has exited it stays the reaper: a zombie has children after the next exit iff the exiting task had any, and these are then its children |
| `Signals.DispatchMeaning` | src/signal.c:117-175 | dispatch handles the snapshot in ascending order up to and including the first signal that terminates or stops; handled signals are cleared, the rest and those a user task catches stay pending; kernel handlers run in that order |
| `Signals.KillAlwaysKills` | src/signal.c:117-175 | with SIGKILL pending on a task neither dead nor stopped the task ends with code 128 + s, s at most 9 the lowest effective terminating signal |
| `ProcessMeaning.SendMeaning` | src/signal.c:79-115 | the signal sent becomes pending; of the others a continue takes back the stops and a stop the continue, and no more; a sleeping task becomes ready, a stopped one only for SIGKILL and SIGCONT; unknown signals do nothing; no other field changes |
| `ProcessMeaning.RegisterMeaning` | src/signal.c:62-77 | the one handler changes, except for SIGKILL, SIGSTOP and numbers out of range |
| `ProcessMeaning.EffectMeaning` | src/signal.c:16-60 | which signals end a task, stop it or reach its handler, on the handler values and the listed signals |
| `ProcessMeaning.ExitMeaning` | src/task.c:422-445 | the task is a childless zombie with its code, its children stand last-first in front of the reaper's and have it for a parent, parent and inheriting reaper were sent SIGCHLD, and nothing else changed |
| `ProcessMeaning.DispatchOnHandlers` | src/signal.c:117-175 | the pending set, state, exit code and the calls made after dispatch, on the handlers: up to and with the lowest pending signal that ends or stops the task, kernel handlers called in ascending order, user handlers left pending |
| `ProcessMeaning.DispatchSettles` | src/signal.c:117-175 | the whole system after dispatch: the one task drained, and exited with 128 + s if signal s ends it; a dead or stopped task is left alone |
| `ProcessMeaning.DeliverMeaning` | src/signal.c:215-245 | on return to ring 3 the lowest pending signal with a handler, and it alone, stops being pending; 32 means there is none |
| `ProcessMeaning.AddMeaning` | src/task.c:379-386 | a new task is childless, first child of its parent and head of the run list; every other record and list is as before |
| `ProcessMeaning.RemoveMeaning` | src/task.c:196-219 | removal from a list drops the one entry and keeps the order of the others |
| `ProcessMeaning.ReapMeaning` | src/task.c:553-577 | the task is gone from records, tree and run list; everything else, and the order of both lists, is as before |
| `ProcessMeaning.WaitMeaning` | src/cpu/syscall.c:159-206 | a pid and a code are those of the first dead child, which is then gone; asleep means that no child is dead and the caller alone changed, to blocked; no child means a childless caller other than init and no change |
| `ProcessMeaning.PickMeaning` | src/sched.c:95-119 | the task picked is the first ready one after the current one going round the list; the current one iff no other is ready |
| `ProcessMeaning.SwitchMeaning` | src/sched.c:131-200 | a running task with time left keeps the CPU for one tick less; else it keeps it with a full slice if nobody else is ready; else the next ready one runs and the old one is ready with a full slice, or stays as it was if it had stopped running; no other task changes; laps are counted |
| `ProcessMeaning.StrikeMeaning` | src/sched.c:31-66 | at lap 3, once, the block hook hits the eligible task of highest pid, if there is one, and nothing else |
| `ProcessMeaning.RescheduleMeaning` | src/sched.c:131-200 | the same with the hooks on: they come after the switch, and only when it completes a lap |
| `ProcessMeaning.TickMeaning` | src/cpu/isr_stubs.s:99-122 | a tick settles the signals of the current task and then reschedules |
| `ProcessTree.SetTaskKeeps` | src/task.c:439 | field changes keep tree, list and pids as long as only a childless unprotected task becomes a zombie |
| `ProcessTree.OrphanedKeeps` | src/task.c:427-437 | handing all children to the reaper keeps the tree: every task exactly once in its parent's list, parents older than children |
| `ProcessTree.AddTaskKeeps` | src/task.c:379-386 | a new task keeps the tree, the run list and pid uniqueness |
| `ProcessTree.ReapKeeps` | src/task.c:553-577 | so does removing a childless zombie |
| `ProcessTree.Acyclic` | src/task.c:188-219 | no task is its own ancestor |
| `ProcessTree.Descends` | src/task.c:188-219 | every task descends from pid 0 |
| `ProcessTree.StacksApart` | src/task.c:245-246 | kernel-stack slots of distinct tasks are disjoint and lie below 0xEF100000 |
| `ProcessInvariant.SendMild` | src/signal.c:79-115 | sending keeps "no continue and stop pending together, bit 31 clear", never sleeps or kills the target, and moves a stopped task only for SIGCONT and SIGKILL |
| `ProcessInvariant.RegisterMild` | src/signal.c:62-77 | registering keeps the signal state, SIGKILL and SIGSTOP staying default |
| `ProcessInvariant.ExitKeeps` | src/task.c:422-445 | exit of an unprotected task keeps the whole invariant |
| `ProcessInvariant.DispatchOutcome` | src/signal.c:117-175 | dispatch is a change to the one task's signal state, possibly followed by its exit and by nothing else |
| `ProcessInvariant.DispatchKeeps` | src/signal.c:117-175 | dispatch keeps the whole invariant |
| `ProcessInvariant.SwitchKeeps` | src/sched.c:131-200 | scheduling keeps it, with or without the test hooks: slices stay in 1..10, only the current task runs |
| `ProcessInvariant.TickKeeps` | src/sched.c:121-200 | so does a whole tick |
| `ProcessRuns.BootInv` | src/task.c:48-62 | the state after boot satisfies the invariant |
| `ProcessRuns.ForkKeeps` | src/task.c:447-551 | fork keeps it |
| `ProcessRuns.WaitKeeps` | src/cpu/syscall.c:159-206 | a wait pass keeps it |
| `ProcessRuns.Next` | src/cpu/syscall.c:239-264 | every step of the machine leads from an allowed state to an allowed state |
| `ProcessRuns.Run` | src/cpu/syscall.c:239-264 | and so does every run, of any length |
| `ProcessSafety.StepFates` | src/signal.c:79-115 | no step revives a zombie or changes its exit code, and a stopped task leaves that state only when SIGCONT or SIGKILL is sent to it |
| `ProcessSafety.ZombieForever` | src/task.c:422-445 | over every run a pid whose task has ended never names a live task again |
| `ProcessSafety.StoppedStays` | src/signal.c:79-115 | over every run that sends it neither SIGCONT nor SIGKILL a stopped task stays on record and stopped |
| `ProcessProgress.ExitAwake` | src/task.c:422-445 | after an exit no blocked task has a zombie child: parent and inheriting reaper were woken |
| `ProcessProgress.StepAwake` | src/cpu/syscall.c:173-205 | with the test hooks off every step keeps "no blocked task has a zombie child" |
| `ProcessProgress.NoLostWakeup` | src/cpu/syscall.c:159-206 | and so does every run |
| `ProcessProgress.TickRuns` | src/sched.c:121-200 | while pid 0 is ready with only ignorable signals pending, every tick ends with the current task running and keeps it so |
| `ProcessProgress.AlwaysRunning` | src/sched.c:121-200 | in every run that sends pid 0 no signal whose default action ends or stops it, every tick ends with the current task running |
| `ProcessProgress.PeacefulSpared` | src/signal.c:16-60 | a task with only ignorable signals pending is neither ended nor stopped by dispatch, whatever its handlers |
| `ProcessProgress.BoundedWaiting` | src/sched.c:95-182 | with n tasks on the list no ready task waits through (n - 1) * 10 ticks, whatever else happens in between |
| `ProcessProgress.BootGood` | src/task.c:48-62 | all three invariants hold at boot |
| `ProcessLaws.WaitedOnce` | src/cpu/syscall.c:159-206 | over every run no pid is the answer of wait twice |
| `ProcessLaws.ReapedGone` | src/task.c:553-577 | after wait has answered a pid no task has it |
| `ProcessLaws.KillDooms` | src/signal.c:104-114 | SIGKILL sent to a live task, sleeping or stopped as it may be, is pending and the task can run |
| `ProcessLaws.StepDoomed` | src/signal.c:79-175 | from then on no step, of whatever task, takes the signal back or stops the task, until it handles its signals or exits |
| `ProcessLaws.KillLaw` | src/signal.c:104-175 | over every run: after SIGKILL is sent to a live task, the first tick that finds it on the CPU, or its first signal to itself, ends it with code 128 + h, h from 1 to 9 |
| `ProcessFairness.Preemption` | src/sched.c:131-200 | a tick leaves a task preempted while running ready and one that had stopped running as it was; the task switched to was ready and runs; nobody else changes state |
| `ProcessFairness.StepFit` | src/sched.c:121-200 | a ready or running task with only ignorable signals pending stays so in every step, unless it is sent another kind of signal or itself exits, waits or signals itself |
| `ProcessFairness.RoundRobin` | src/sched.c:95-200 | over every run, tasks coming and going included: an undisturbed task is ready or running in every state, and from each of them on gets the CPU within ten ticks for each other task on the list and for each that joins it meanwhile |
| `ProcessFairness.StepNearer` | src/sched.c:95-200 | each tick brings a ready task at least one tick nearer to the CPU, a newcomer puts it back by at most one slice, and nothing else takes it farther |
| `ProcessFairness.ListBound` | src/task.c:67-75 | the tasks on the run list and those that can still be made, pids never being reused, are at most 127 |
| `ProcessFairness.NoStarvation` | src/sched.c:95-200 | whatever the other tasks do, an undisturbed task has the CPU within any 1261 ticks |
| `ProcessFairness.SliceLaw` | src/sched.c:131-160 | an undisturbed running task keeps the CPU until its slice is used up, losing one tick of it at each tick |
| `ProcessFairness.KillDeadline` | src/signal.c:104-175 | with n tasks on the list a live task that is sent SIGKILL is dead before (n - 1) * 10 + 1 ticks are over, ten more for each task that joins meanwhile, and in any case before 1261 are |
| `Kernel.Unlink` | src/task.c:196-219 | the head case and the predecessor walk unlink exactly the given record, absent records included |
| `Kernel.TaskTable.constructor` | src/task.c:48-62 | the links after `task_init` spell the boot state: pid 0 running and alone on the run list, kthreadd its sleeping child, the next pid 3 |
| `Kernel.TaskTable.AddChild` | src/task.c:188-194 | the child becomes first of its parent's list |
| `Kernel.TaskTable.RemoveChild` | src/task.c:196-219 | the child leaves the list, the others keep their order |
| `Kernel.TaskTable.Reparent` | src/task.c:412-420 | both together |
| `Kernel.TaskTable.Orphan` | src/task.c:434-437 | the loop ends, with the child count as measure, and the children stand reversed in front of the reaper's own |
| `Kernel.TaskTable.DoExit` | src/task.c:422-445 | the writes and sends add up to the specified exit, and to the description of `ProcessMeaning.ExitMeaning` |
| `Kernel.TaskTable.Send` | src/signal.c:79-115 | the one record changes: the signal is pending, what it cancels is not, the state as in `ProcessMeaning.SendMeaning` |
| `Kernel.TaskTable.Register` | src/signal.c:62-77 | the one record changes: the handler is stored unless the signal is immutable or out of range |
| `Kernel.TaskTable.DefaultAction` | src/signal.c:16-60 | the default action table |
| `Kernel.SignalNumber` | src/signal.c:135-142 | the shift loop recovers the signal number of a one-bit mask |
| `Kernel.TakeLowest` | src/signal.c:131-142 | isolating, clearing and counting takes the lowest signal out of the set |
| `Kernel.TaskTable.Dispatch` | src/signal.c:117-175 | the bit-draining loop refines the signal-by-signal specification; the system after it is the one described by `ProcessMeaning.DispatchSettles` |
| `Kernel.TaskTable.CheckPending` | src/signal.c:215-245 | picks the lowest pending signal with a handler, 32 if there is none, and clears it alone, skipping immutable, default and ignored ones |
| `Kernel.TaskTable.WalkCircle` | src/sched.c:98-118 | the circular walk stops at the first ready task after the current one, or back at the start |
| `Kernel.TaskTable.PickNext` | src/sched.c:95-119 | the first ready task after the current one in list order, else the current one |
| `Kernel.TaskTable.BlockHook` | src/sched.c:31-66 | the ready or running task of highest pid, other than pid 0, the anchor and the next task, is blocked once at lap 3 |
| `Kernel.TaskTable.UnblockHook` | src/sched.c:71-90 | all blocked tasks of the list become ready once at lap 4 |
| `Kernel.TaskTable.SwitchTask` | src/sched.c:131-200 | slice accounting, pick, state changes and the switch: who keeps the CPU, who gets it, what becomes of the preempted task, and that no other task changes, as in `ProcessMeaning.RescheduleMeaning` |
| `Kernel.TaskTable.TimerTick` | src/cpu/isr_stubs.s:99-122 | dispatch, schedule and context switch as one atomic tick, as in `ProcessMeaning.TickMeaning` |
| `Kernel.TaskTable.Reap` | src/task.c:553-577 | the zombie is gone from records, tree and run list, the rest of all three and the order of the lists unchanged |
| `Kernel.TaskTable.FindZombie` | src/cpu/syscall.c:173-190 | the walk along the siblings finds the first dead child, null iff there is none |
| `Kernel.TaskTable.WaitPass` | src/cpu/syscall.c:159-206 | reaps the first zombie child, which is then nowhere, and returns its pid and code; refuses a childless caller other than init, changing nothing; else no child is dead and the caller alone changes, to blocked |
| `Kernel.TaskTable.PidAlloc` | src/task.c:67-75 | the next pid, or -1 at 127 |
| `Kernel.TaskTable.Insert` | src/task.c:379-386 | first child of its parent, childless, head of the run list, every other record and list as before |
| `Kernel.TaskTable.Fork` | src/task.c:447-551 | the child is a new first child of the caller, whoever that is, with the next pid, the caller's quantum, handlers and ring, a full slice and nothing pending; -1 and no change for pid 0, a full table or a failed build |
| `Kernel.TaskTable.SpawnUser` | src/task.c:305-387 | refuses a null or kthreadd parent and a full table, else a new first child of the parent, a user task with default handlers and a full slice |
| `Kernel.TaskTable.ExecUser` | src/task.c:389-401 | claims a pid and rolls it back on failure; the second check of the counter refuses the last pid; else a new user task with that pid under the parent |
| `Kernel.TaskTable.ExecKernel` | src/task.c:221-300 | a kernel thread with the next pid, always under kthreadd |
| `Kernel.TaskTable.ExecInit` | src/task.c:405-410 | init gets the reserved pid 1 under pid 0 and leaves the counter alone; null when it fails |
| `Kernel.TaskTable.FindByPid` | src/cpu/syscall.c:120-132 | finds a listed task of that pid, null iff there is none |
| `KernelRuns.Start` | src/task.c:48-62 | the linked kernel starts in an allowed state |
| `KernelRuns.Execute` | src/cpu/syscall.c:239-264 | every step run on the links is the specified step and keeps the invariant |
| `KernelRuns.ExecuteAll` | src/cpu/syscall.c:239-264 | so is every run: all run theorems hold of the linked kernel |
| `KernelRuns.Kill` | src/cpu/syscall.c:108-156 | -1 iff the signal is out of range, the pid unknown or permission refused; 0 is a probe; a self-signal is dispatched at once |
| `Sigframe.FrameBelow` | src/signal.c:183-185 | the 80-byte frame ends at least four bytes below the interrupted stack pointer iff that pointer is at least 96 |
| `Sigframe.SanitizedExact` | src/cpu/syscall.c:231-234 | masking the flags leaves them alone iff the interrupt flag and bit 1 are set and nothing outside the mask is |
| `Sigframe.SanitizedFlags` | src/cpu/syscall.c:234 | each flag after sanitizing: as it was inside the mask, set if forced, else clear |
| `Sigframe.MasksAre` | src/cpu/syscall.c:234 | the restored flags are the bits of 0xCD5 and the forced ones those of 0x202 |
| `Sigframe.TrampolineBytes` | src/signal.c:191-198 | the two words of the trampoline are the eight bytes that load 119 and enter the kernel |
| `Sigframe.ReturnedSafe` | src/cpu/syscall.c:229-236 | whatever user code left in memory, what sigreturn resumes runs in ring 3 with user flags, on the other registers found there |
| `Sigframe.ReturnedExact` | src/cpu/syscall.c:229-236 | a saved frame is resumed unchanged iff it is one ring 3 can have |
| `Sigframe.RoundTrip` | src/signal.c:187-200 | the frame found by sigreturn after the handler popped its return address is the one saved, and the return address points at the trampoline bytes |
| `Sigframe.DeliveryStarts` | src/signal.c:177-205 | the handler starts at its first instruction; its stack holds the address of the trampoline, the signal number and the interrupted registers in the order of the trap frame; the direction flag is clear, every other flag and register is as before, and so is memory outside the 80 bytes of the frame |
| `Sigframe.NestedRoundTrip` | src/signal.c:177-205 | at any nesting depth, each handler starting on the stack pointer that delivery gave it, every sigreturn resumes exactly the interrupted frame and no pending frame is overwritten |
| `Sigframe.UserThread.SetupFrame` | src/signal.c:177-205 | registers and stack are those a handler starts with, as in `Sigframe.DeliveryStarts`, and sigreturn will resume what was interrupted |
| `Sigframe.UserThread.Sigreturn` | src/cpu/syscall.c:217-237 | the sixteen words are read back and made safe for ring 3 |
| `Sigframe.UserThread.CheckAndDeliver` | src/signal.c:207-246 | nothing on a return to the kernel; on a return to ring 3 the chosen signal, if any, has its handler start, as in `Sigframe.DeliveryStarts` |
| `Terminal.HistoryKept` | src/drivers/vga.c:344-387 | no later character changes a transcript row above the cursor |
| `Terminal.PutMeaning` | src/drivers/vga.c:344-387 | text is shown at the cursor, which moves on, a newline and a return move it to the start of a row, a backspace goes back and blanks within the row; all other cells stay, and the view moves down just so far that the cursor is in it |
| `Terminal.TextShown` | src/drivers/vga.c:344-394 | plain text of any length is shown in full, cell after cell from the cursor on, across row ends and scrolls; every other cell is as before, new rows are blank |
| `Terminal.LostUnderBar` | src/drivers/vga.c:371-387 | a character at the row the bar covers is lost iff it writes a cell that did not hold it already |
| `Terminal.Terminal.constructor` | src/drivers/vga.c:284-308 | after a clear the buffer shows an empty transcript |
| `Terminal.Terminal.CopyUp` | src/drivers/vga.c:254-259 | the overlapping forward copy moves every row intact |
| `Terminal.Terminal.Recycle` | src/drivers/vga.c:243-264 | recycling drops only rows older than the last 154 of history and keeps the cursor on its row; with the view scrolled back the row under the bar, if kept, now reads as the bar |
| `Terminal.Terminal.Scroll` | src/drivers/vga.c:266-282 | one blank row is appended to the transcript, after a recycle if the buffer is full; all indices stay within 204 rows |
| `Terminal.Terminal.PutChar` | src/drivers/vga.c:344-387 | buffer rows above the status bar stay the last rows of the transcript, cursor in view, for every character; with the view scrolled back too, the transcript then being the one without the cell written under the bar, or with the bar for a row after a recycle |
| `Terminal.Terminal.Write` | src/drivers/vga.c:389-394 | and for every stream of characters; nothing is lost if the view is not scrolled back, or the stream is written below the bar and before the next recycle |
| `Terminal.Terminal.ScrollLines` | src/drivers/vga.c:423-456 | the scroll offset is clamped as stated and no content row is lost under the bar |
| `Terminal.Terminal.ScrollReset` | src/drivers/vga.c:458-469 | every content row is back in the buffer |
| `Terminal.Terminal.Browse` | src/drivers/vga.c:402-469 | any sequence of moves ended by a reset restores every content row |

## Left out

- `FrameBitmap.FrameAllocator.FreeContiguous`: bases above 64 MiB, where the unsigned subtraction of the source wraps and the loop clears bits past the bitmap.
- `PageTables.Machine.MapPage`, `PageTables.Machine.UnmapPage`, `PageTables.Machine.AllocPage`: addresses inside the recursive window, where the call would rewrite the directory itself.
- `PageTables.Machine.FreePage`: window addresses, and a page whose frame is a page table of the current directory.
- `UserImage.LoadUserPage`: a page that is already mapped; its one caller loads two pages into a fresh directory.
- `Heap.KernelHeap.GrowBy`, `Heap.KernelHeap.Brk`, `Heap.KernelHeap.Alloc`: requests above 256 MiB, for which the page sum can wrap.
- `Kernel.TaskTable.AddChild`, `Kernel.TaskTable.RemoveChild`, `Kernel.TaskTable.Reparent`: calls on tasks that are not in the stated parent's list, which no caller makes.
- `Kernel.TaskTable.Orphan`, `Kernel.TaskTable.DoExit`, `Kernel.TaskTable.DefaultAction`, `Kernel.TaskTable.Dispatch`, `Kernel.TaskTable.TimerTick`, `ProcessRuns.Next`: the exit of a task that is its own reaper, where the source loops forever (`Orphans.OrphanLoop`) or loses the reaper (`Orphans.ReaperLost`).
- `Sigframe.UserThread.Sigreturn`: a user stack pointer below 4.
- `Terminal.Terminal.Recycle`: the text in the bar that a recycle leaves behind; rows are compared with whatever the buffer shows there.
- `Kernel.TaskTable.Fork`, `Kernel.TaskTable.SpawnUser`: whether record, stack and address space could be built is the parameter `built`; `Spawn.ForkUser` and `Spawn.SpawnUser` say when they can.
- `Sigframe.UserThread.SetupFrame`: with a stack pointer below 96 the frame base wraps to the top of the address space, as in the source; the individual stores then are not wrapped past 2^32.
- `Heap.KernelHeap.Release`, `Heap.KernelHeap.Size`: the address is null or the payload of a block; arbitrary pointers, whose header the source reads unchecked, are not modelled.
- `Slab.ChunkPool.Free`: the address is null or a live object; double frees are not detected by the source and not modelled.
- `KernelRuns.Kill`: the uid comparison is a parameter.
- `Kernel.TaskTable.Reap`: the pages, stack and buffers it frees are covered by teardown and the allocators, not by this method.
- `Spawn.ReapMemory`, `Spawn.SpawnThenReap`, `Spawn.ForkThenReap`: the log and input buffers and the task record that reaping also frees are kmalloc objects, covered by `Slab`.
- `MemoryRuns.RunFromBoot`: kernel threads, whose stacks are allocated like those of processes, are not among the steps.
- `Spawn.SpawnUser`, `Spawn.ForkUser`: frames that kmalloc itself maps for the task record are outside their conservation statements; `ForkUser` is for a caller that has a kernel stack, the refusal of others is in `Kernel.TaskTable.Fork`.
- Scheduling, exit and wait are atomic steps; interrupts inside them are not modelled.
- User page faults on the stack page a signal frame is written to, and the execution of user instructions.
- `sys_read`, `sys_write`, uid getters, `sys_signal`'s return value, the exception-to-signal table: single-branch code.
- Task logs and input rings, printk, status and scroll bar text, the shell, keyboard and boot plumbing: easy or no properties.
- Port I/O, PIC, PIT, GDT, IDT and TSS set-up, and assembly stubs other than the task switch.
- The self tests and the Rust linkage demo.
