# Linux 0.11 kernel: verified model

A Dafny model of the cores of the Linux 0.11 kernel and proofs of what they promise. Code that
updates tables, lists, rings and video memory in place is modelled by classes whose methods do
the same, loop by loop; each method is proved against a value model, and the lemmas about the
value model say what the kernel relies on.

| files | kernel part | main result |
|---|---|---|
| `PageTables.dfy`, `Memory.dfy` | copy-on-write memory, fork, exec, page sharing | every run refines memory without sharing; page counts are the references |
| `BufferLists.dfy`, `BufferCache.dfy` | buffer cache | the lists are a map; coherence under every interleaving of getblk, which gets the block asked for |
| `BucketHeap.dfy`, `Malloc.dfy` | bucket allocator | blocks in use are disjoint and keep their contents |
| `ZoneTree.dfy`, `FileSystem.dfy` | MINIX files | each zone has one owner; files are flat byte arrays; writes are short exactly for want of zones |
| `Links.dfy` | directories | link counts are the names in the directories |
| `WaitQueues.dfy`, `Scheduler.dfy` | sleeping and scheduling | no sleeper is lost; nobody starves |
| `Elevator.dfy` | request queues | at most two ascending runs; no transfer is forgotten |
| `Terminal.dfy`, `TerminalLaws.dfy`, `VideoMemory.dfy`, `Console.dfy` | console | hardware scrolling shows a plain terminal, which does what its byte sequences are for |
| `ExecArguments.dfy` | execve arguments | argv and envp lead to the original strings |
| `Rings.dfy`, `Pipes.dfy`, `Terminals.dfy` | pipes and terminal input | first in, first out; line editing |

## How the kernel is modelled

- The kernel is not preemptive: a task runs until it reaches a sleep point. In the buffer cache
  each call of getblk is a thread that remembers where it sleeps, and threads are resumed in any
  order. Pipe and terminal calls take turns at their sleep points. A copy loop to or from user
  memory is one step.
- A panic is a state that preconditions exclude; the lemmas show that no run needs it. `oom()`
  is an answer to the caller.
- A device completes a queued request and transfers the block. What a write leaves on the disk
  is arbitrary when the buffer was written to during the transfer; the buffer is dirty again.
- Physical and linear addresses are counted in pages, page tables have 1024 words of five
  fields. Video memory is counted in 16-bit cells; `movsl` moves two of them. In malloc a
  descriptor is named by its number, a page by its address.
- Bytes and words are integers with their bounds stated. Cursor arithmetic of the console is
  that of 32-bit unsigned numbers, signals are 32-bit vectors, link counts are an unsigned char.

## Where the code and its promise part

- ESC 7 and ESC 8 compare the column with '7' and '8' instead of the byte
  (console.c:607-609): `Terminal.SaveRestoreByColumn` says exactly when that makes no difference.
- scrup moves long words, so with an odd number of moved cells one cell stays behind:
  `VideoMemory.ScrUpShows` says exactly when the screen is right all the same. The console
  itself is proved for even column numbers, which all its text modes have.
- free_block leaves the bit of a zone whose buffer others use: `ZoneTree.TruncateKeeps` says
  that zones keep their owners exactly when there is no such buffer.
- new_block sets the bit of a zone behind the end of the device before it gives up:
  `ZoneTree.SpareBitsKeep` shows that this harms nothing.
- tty_read takes characters past a newline and, when the queue is nearly full, from an open
  line, and erase cannot take them back: `Terminals.EditIsStreamEdit` and
  `Terminals.FoldExactly` say exactly when editing the queue is editing the input.
- copy_strings tests an unsigned value for being negative (exec.c:159), so that the strings fit
  is a condition on the caller; a space filled to the last byte is reported as failure.
  `ExecArguments.HandOver` has the exact condition.
- A 256th link makes the count 0: `Links.LinkWraps`. Runs of name calls go on to 255 links.
- sys_nice can leave a counter above the bound schedule() keeps: `Scheduler.Scheduler.Nice`.
- With two requests of one key the elevator can end up with three runs: `Elevator.EqualKeyThirdRun`;
  buffer locking prevents it.

## Model

| member | source | states |
|---|---|---|
| Memory.MemoryRun | linux-0.11/mm/memory.c:199-266 | In every run of fork, exec, exit, release, user and kernel stores and page faults, what each task reads at each linear page is what it would read had every fork copied every page. Along the whole run every sensible operation is performed and no other, one fails only when it is starved of slots or pages, and the dirty entries are those stored into. The counting invariant holds in every state, so no step met a panic. |
| Memory.Perform | linux-0.11/mm/memory.c:199-266 | One operation is one step of the eager memory, of the record of what was stored into, and of what the tasks execute. It is refused exactly when it makes no sense; it fails only for want of a slot, of enough free pages, or of the page written to; a page is shared only from a task that offers it and loaded only if none does. |
| Memory.SharingUnseen | linux-0.11/mm/memory.c:431-597 | Sharing is invisible: over any run each task reads what it would read if a fork copied every page and every missing page came from the task's own executable or was cleared, given that a fault brings what the file has at that offset. That a page was shared by try_to_share or by fork cannot be told. |
| Memory.SharedUntouched | linux-0.11/mm/memory.c:459-464 | A page that a fault is given to share is one that neither its owner nor a task the owner was forked from has stored into since it was supplied; whether shared or loaded, the fault brings the page of the file. |
| Memory.EagerIsolation | linux-0.11/mm/memory.c:357-384 | In the eager memory an operation of one task leaves every page of every other existing task as it was. |
| Memory.SameLayoutSameCounts | linux-0.11/mm/memory.c:60-63 | The page counts are a function of what is mapped where, of the directory and of the pages the kernel holds. |
| PageTables.CountFitsInByte | linux-0.11/mm/memory.c:60-63 | No page is referred to by more than one entry per task slot plus the kernel holders, so the unsigned char never wraps. |
| PageTables.TableExclusive | linux-0.11/mm/memory.c:199-266 | A page-table frame is referred to by its directory entry and by nothing else. |
| PageTables.TaskPageUnmapped | linux-0.11/kernel/fork.c:110-113 | The page of a task_struct is mapped nowhere and is no page table. |
| PageTables.SoleMapping | linux-0.11/mm/memory.c:329-333 | An entry on a page whose count is one is the only reference to that page: the reason why un_wp_page may just set the write bit. |
| PageTables.FreeUnreferenced | linux-0.11/mm/memory.c:77-97 | A page whose count is zero is mapped by no entry, is no page table and is held by nobody. |
| PageTables.AllocKeeps | linux-0.11/mm/memory.c:77-97 | Handing out a cleared free page keeps all counts equal to the references and changes no mapping and no content. |
| PageTables.DropKeeps | linux-0.11/mm/memory.c:105-121 | Giving back a page only the kernel holds keeps the invariant and every view. |
| PageTables.AddTableKeeps | linux-0.11/mm/memory.c:229-236 | A cleared page that becomes a page table changes no mapping and keeps every count. |
| PageTables.RewriteKeeps | linux-0.11/mm/memory.c:281-314 | Any change of one entry that is balanced in the counts and writable only as sole reference keeps the invariant, and its effect on mapping, dirty bits and view is that one spot. |
| PageTables.ShareKeeps | linux-0.11/mm/memory.c:236-262 | Sharing one page write-protected keeps the invariant that a writable entry is a sole reference; the child reads what the parent reads. |
| PageTables.SplitKeeps | linux-0.11/mm/memory.c:337-343 | Splitting a shared page moves the mapping to the private copy and changes what nobody reads. |
| PageTables.ClearKeeps | linux-0.11/mm/memory.c:161-166 | Dropping one entry keeps every count equal to the references. |
| PageTables.DropTableKeeps | linux-0.11/mm/memory.c:167-168 | Freeing an emptied page table keeps every count equal to the references. |
| Memory.Memory.constructor | linux-0.11/mm/memory.c:608-624 | After mem_init exactly the pages of the main memory area are free, everything else is used, and no task maps anything. |
| Memory.Memory.GetFreePage | linux-0.11/mm/memory.c:77-97 | The last free page, cleared, with count one, or 0 exactly when no page is free; nothing mapped changes. |
| Memory.Memory.FreePage | linux-0.11/mm/memory.c:105-121 | The count of a page above 1 MB goes down by one; pages below are ignored. The two panics are excluded. |
| Memory.Memory.FreePageTables | linux-0.11/mm/memory.c:134-172 | Everything mapped in the given directory entries is released and nothing else. |
| Memory.Memory.NewTable | linux-0.11/mm/memory.c:300-307 | A directory entry gets a cleared table, or nothing changes exactly when no page is free. |
| Memory.Memory.ShareEntry | linux-0.11/mm/memory.c:241-262 | The child gets the parent's page at the same offset, both write-protected; no other spot reads differently. |
| Memory.Memory.CopyPageTables | linux-0.11/mm/memory.c:199-266 | 0 exactly when there are as many free pages as the parent has page tables; then the child maps and reads what the parent does. On -1 clearing the child's range gives back the old mapping. |
| Memory.Memory.CopyMem | linux-0.11/kernel/fork.c:56-85 | When copy_page_tables fails part-way, free_page_tables restores every page count, mapping and content; it fails exactly when free pages are fewer than the parent's tables. |
| Memory.Memory.FindEmptyProcess | linux-0.11/kernel/fork.c:202-205 | The lowest free slot, -1 exactly when every slot but 0 is taken. |
| Memory.Memory.CopyProcess | linux-0.11/kernel/fork.c:99-189 | Succeeds exactly when a slot and pages for the task_struct and all page tables are free; on EAGAIN every count, mapping and slot is as before; else the lowest free slot reads what the parent reads. |
| Memory.Memory.PutPage | linux-0.11/mm/memory.c:281-314 | The page is mapped at the empty spot, or 0 exactly when a missing page table could not be had, and then nothing changed. |
| Memory.Memory.GetEmptyPage | linux-0.11/mm/memory.c:407-416 | The empty spot reads as zeros afterwards; out of memory exactly when the free pages do not cover the page and a missing table. |
| Memory.Memory.UnWpPage | linux-0.11/mm/memory.c:321-344 | Afterwards the entry is writable and every task reads what it read before; it fails exactly when the page is shared and none is free. |
| Memory.Memory.WriteVerify | linux-0.11/mm/memory.c:386-403 | A present page becomes writable without any view changing; a missing one is left alone. |
| Memory.Memory.StoreWord | linux-0.11/mm/memory.c:357-384 | A store through a writable entry changes that word of that page for this task alone and sets the dirty bit, which try_to_share later asks for. |
| Memory.Memory.UserWrite | linux-0.11/mm/memory.c:357-384 | A store changes one word of one page of the writer, through a write fault if the page is protected, and leaves the entry dirty. |
| Memory.Memory.KernelWrite | linux-0.11/mm/memory.c:386-403 | The same for a store by the kernel, which the R/W bit does not stop. |
| Memory.Memory.TryToShare | linux-0.11/mm/memory.c:431-495 | Not shared exactly when the other task's page is absent, dirty or outside the paged memory; when shared the caller reads that page and no other view changes. |
| Memory.Memory.MapSame | linux-0.11/mm/memory.c:470-494 | With a page table at hand or a free page for one, both entries map the page write-protected; else nothing changes. |
| Memory.Memory.SharePage | linux-0.11/mm/memory.c:515-541 | The last slot that runs the same executable and offers the page is taken; none is passed over. |
| Memory.Memory.DoNoPage | linux-0.11/mm/memory.c:547-597 | A missing page is cleared, shared or loaded under exactly those conditions, and only that spot changes. |
| Memory.Memory.Exit | linux-0.11/kernel/exit.c:127-135 | A task that exits maps nothing any more and no other view changes. |
| Memory.Memory.FreeSegments | linux-0.11/kernel/exit.c:134-135 | Nothing of the task is mapped any more and no other view changes. |
| Memory.Memory.Execve | linux-0.11/fs/exec.c:461-472 | The task executes the new inode and maps nothing any more; no other view changes. |
| Memory.Memory.Release | linux-0.11/kernel/exit.c:23-37 | The zombie's task_struct page goes back, its slot is free and no view changes. |
| BufferLists.BufferLists.constructor | linux-0.11/fs/buffer.c:395-432 | buffer_init leaves every buffer free, on one ring, and nothing cached. |
| BufferLists.BufferLists.FindBuffer | linux-0.11/fs/buffer.c:185-193 | Succeeds exactly when the block is cached, and then gives the one buffer that carries it. |
| BufferLists.BufferLists.RemoveFromQueues | linux-0.11/fs/buffer.c:148-164 | The buffer is on neither structure afterwards, all others stay on both, and the ring keeps its order. |
| BufferLists.BufferLists.InsertIntoQueues | linux-0.11/fs/buffer.c:166-183 | The buffer is at the tail of the ring and on the chain of its hash; all links are well formed (with the null guard of the comment at 174-175). |
| BufferLists.BufferLists.Rename | linux-0.11/fs/buffer.c:276-280 | As a map from (dev, block) only the old key goes and the new key comes; only this buffer moves, to the tail of the ring. |
| BufferLists.BufferLists.OneRenamed | linux-0.11/fs/buffer.c:276-280 | When only one buffer has a new identity that was not cached, no two buffers share a block and the index changes at those two keys. |
| BufferCache.Run | linux-0.11/fs/buffer.c:227-281 | Cache coherence under every interleaving at the sleep points. Over the whole run what readers of the device see changes only when a thread that holds the buffer writes, clears or discards, at that buffer's block, to the data given, in the order of these events; every other event leaves it. No buffer that a thread refers to gets another identity, every thread goes where getblk goes from its sleep point, and one that has a buffer has that of its own block. |
| BufferCache.Perform | linux-0.11/fs/buffer.c:227-281 | Each event does to threads, buffers and transfers what belongs to its place in the code and has exactly the effect its licence says; a buffer is given a new identity only by the thread that takes it, that of the block this thread asked for, and only when it is unlocked, clean and referenced by nobody else. |
| BufferCache.GetsWanted | linux-0.11/fs/buffer.c:227-281 | getblk(dev, block), however often it sleeps and whoever takes its buffers meanwhile, ends with the buffer of (dev, block) and with no other. |
| BufferCache.SameRequest | linux-0.11/fs/buffer.c:252-270 | As long as a thread is there no event makes it go after another block. |
| BufferCache.PinnedKeeps | linux-0.11/fs/buffer.c:227-281 | While a thread refers to a buffer no event but the waking of that very thread changes its device or block number. |
| BufferCache.PrefersClean | linux-0.11/fs/buffer.c:234-256 | With a clean free buffer at hand getblk neither waits for one to become free nor writes one back; if that buffer is not locked it does not sleep at all. |
| BufferCache.CachedAtOnce | linux-0.11/fs/buffer.c:230-231 | A cached block is had at once unless its buffer is locked, and it is the one buffer that carries it. |
| BufferCache.SyncPasses | linux-0.11/fs/buffer.c:68-96 | sync_dev does not return before it has stood before every buffer in both passes. |
| BufferCache.SyncGoesOn | linux-0.11/fs/buffer.c:77-82 | It leaves a buffer only when that is not locked, and starts to write it if it is a dirty one of the device. |
| BufferCache.BufferCache.CleanMeansOnDisk | linux-0.11/fs/buffer.c:68-96 | Once no transfer is pending and no buffer is dirty the disk holds what readers see. |
| BufferCache.PinnersWithout | linux-0.11/fs/buffer.c:283-291 | The reference count of a buffer drops by one exactly when the thread that leaves held it. |
| BufferCache.BufferCache.constructor | linux-0.11/fs/buffer.c:395-432 | The empty cache shows the disk. |
| BufferCache.BufferCache.ScanFree | linux-0.11/fs/buffer.c:234-248 | The chosen buffer is unreferenced and no unreferenced buffer is less bad; none is found exactly when all are in use. |
| BufferCache.BufferCache.GetHashTable | linux-0.11/fs/buffer.c:202-215 | Found exactly when cached: the buffer is referenced, and waited for if it is locked. |
| BufferCache.BufferCache.Getblk | linux-0.11/fs/buffer.c:227-281 | From the label repeat to the first sleep: a cached block is taken or waited for, with all buffers in use the caller sleeps, else the least bad buffer is waited for, written back or taken. |
| BufferCache.BufferCache.Search | linux-0.11/fs/buffer.c:234-281 | For a block that is not cached: with all buffers in use the caller sleeps, else the least bad buffer is waited for, written back or taken. |
| BufferCache.BufferCache.Take | linux-0.11/fs/buffer.c:273-280 | The buffer becomes the wanted block with one reference; no other buffer's identity changes and no data is lost. |
| BufferCache.BufferCache.AfterWait | linux-0.11/fs/buffer.c:256-270 | After waiting for a buffer it is checked again in full: in use, dirty, or the block cached meanwhile. |
| BufferCache.BufferCache.LastCheck | linux-0.11/fs/buffer.c:266-280 | A clean unreferenced buffer is taken unless the block was cached meanwhile; then the search starts again. |
| BufferCache.BufferCache.WakeLock | linux-0.11/fs/buffer.c:252-280 | Woken from the wait for a free buffer: in use, dirty or no longer needed are all noticed. |
| BufferCache.BufferCache.WakeHash | linux-0.11/fs/buffer.c:206-214 | Woken from the wait for a cached buffer: it is the thread's if it still carries the block, else its reference goes and the search starts again. |
| BufferCache.BufferCache.Resume | linux-0.11/fs/buffer.c:202-281 | A sleeper that finds its buffer locked sleeps on; else it goes on from its sleep point for its own block: the buffer it waited for if that is still right, or a new search from the label repeat; what readers see is unchanged. |
| BufferCache.BufferCache.SyncStep | linux-0.11/fs/buffer.c:68-96 | One buffer of sync_dev: waited for while locked, written if dirty, passed otherwise. |
| BufferCache.BufferCache.Bread | linux-0.11/fs/buffer.c:299-316 | An up-to-date buffer is returned at once, else a read is started; what readers see is unchanged. |
| BufferCache.BufferCache.Brelse | linux-0.11/fs/buffer.c:283-291 | The reference is dropped unless the buffer is locked; it is never dropped twice. |
| BufferCache.BufferCache.Queue | linux-0.11/kernel/blk_drv/ll_rw_blk.c:68-74 | Queueing a request marks the buffer clean; the data counts as being on its way to the disk. |
| BufferCache.BufferCache.Complete | linux-0.11/kernel/blk_drv/blk.h:117-126 | A completed read fills the buffer from the disk, a completed write leaves the buffer's data there; readers see no change. |
| BufferCache.BufferCache.CompleteRead | linux-0.11/kernel/blk_drv/blk.h:117-126 | The buffer holds what the disk has, is up to date and unlocked; readers see no change. |
| BufferCache.BufferCache.CompleteWrite | linux-0.11/kernel/blk_drv/blk.h:117-126 | The disk holds the data of the buffer, or anything if it was written to meanwhile and so is dirty again; readers see no change. |
| BufferCache.BufferCache.HolderWrite | linux-0.11/fs/file_dev.c:86-108 | A holder of an up-to-date buffer changes exactly that block. |
| BufferCache.BufferCache.HolderClear | linux-0.11/fs/bitmap.c:141-149 | The sole holder's block reads as the cleared data. |
| BufferCache.BufferCache.HolderDiscard | linux-0.11/fs/bitmap.c:83-93 | Dropping the data of a freed block uncovers what the disk has. |
| BucketHeap.BlocksDisjoint | linux-0.11/lib/malloc.c:136-203 | Two blocks in use, of whatever size and page, do not overlap. |
| BucketHeap.CellsNotLive | linux-0.11/lib/malloc.c:185-195 | The words in which the free chains are threaded lie in no block in use. |
| BucketHeap.TakeKeeps | linux-0.11/lib/malloc.c:198-200 | Taking the first block of a chain keeps the heap sound: distinct free blocks on own pages, each page on one bucket. |
| BucketHeap.NewKeeps | linux-0.11/lib/malloc.c:177-195 | A page newly cut into blocks keeps the heap sound. |
| BucketHeap.ReturnKeeps | linux-0.11/lib/malloc.c:214-270 | Giving a block back, and its page with the last one, keeps the heap sound. |
| BucketHeap.AllFree | linux-0.11/lib/malloc.c:243-267 | No block of a page is in use exactly when its free chain has all its blocks. |
| Malloc.InitTables | linux-0.11/lib/malloc.c:114-134 | A page of new descriptors in front of the free ones keeps every list acyclic and every descriptor on one list. |
| Malloc.NewTables | linux-0.11/lib/malloc.c:174-195 | A descriptor moved from the free list to a directory keeps all lists. |
| Malloc.CellTables | linux-0.11/lib/malloc.c:198-200 | A changed free chain with the matching freeptr and refcnt keeps all lists. |
| Malloc.DropTables | linux-0.11/lib/malloc.c:255-266 | Unlinking the descriptor of an emptied page keeps all lists and puts it in front of the free ones. |
| Malloc.LastIsLast | linux-0.11/lib/malloc.c:243-244 | refcnt reaches zero exactly when no other block of the page is in use. |
| Malloc.ReturnWords | linux-0.11/lib/malloc.c:241-242 | The cell written into a freed block lies in no block that stays in use. |
| Malloc.BlockWord | linux-0.11/lib/malloc.c:136-203 | Every word of the requested length lies inside the block handed out. |
| Malloc.Heap.constructor | linux-0.11/lib/malloc.c:92-108 | An empty heap: nothing in use. |
| Malloc.Heap.InitBucketDesc | linux-0.11/lib/malloc.c:114-134 | One page of descriptors is added in front of the free ones; the others are untouched. |
| Malloc.Heap.Malloc | linux-0.11/lib/malloc.c:136-203 | The block was not in use, is of the smallest sufficient size, exactly the needed pages are taken, and no word of a block in use changes. |
| Malloc.Heap.NewBucket | linux-0.11/lib/malloc.c:168-196 | A new page is cut into blocks for the directory; nothing comes into use. |
| Malloc.Heap.FindPage | linux-0.11/lib/malloc.c:223-238 | The search finds the one descriptor of the page and its predecessor, from the right directory on. |
| Malloc.Heap.FreeS | linux-0.11/lib/malloc.c:214-270 | Exactly the given block goes out of use; the page goes back exactly when that was its last block; no word that stays in use changes. |
| Malloc.Heap.Run | linux-0.11/lib/malloc.c:136-203 | In every legal run of malloc, stores and free each held block keeps what was stored in it, and the run stops only when malloc would run out of pages. |
| Malloc.HoldsAlloc | linux-0.11/lib/malloc.c:136-203 | A new block leaves what all other holders stored. |
| Malloc.HoldsStore | linux-0.11/lib/malloc.c:136-203 | A store by one holder leaves what all other holders stored. |
| Malloc.HoldsFree | linux-0.11/lib/malloc.c:214-270 | A freed block leaves what all other holders stored. |
| ZoneTree.StoreKeeps | linux-0.11/fs/inode.c:82-175 | Adding a freshly claimed zone at an empty location keeps: each zone bit is set exactly when one pointer of one inode refers to the zone. |
| ZoneTree.TruncateKeeps | linux-0.11/fs/truncate.c:49-70 | truncate keeps that ownership exactly when no buffer of the file is used by others: a busy zone keeps its bit without an owner. |
| ZoneTree.TruncatedPtr | linux-0.11/fs/truncate.c:49-70 | Truncating one inode leaves every pointer of every other tree. |
| ZoneTree.ProgressStep | linux-0.11/fs/truncate.c:11-70 | Each zone of the inode is met once, in range and with its bit still set: "bit already cleared" is never reached. |
| ZoneTree.SpareBitsKeep | linux-0.11/fs/bitmap.c:132-137 | Bits behind the last zone, which new_block may set by mistake, belong to no zone. |
| ZoneTree.StoreBytes | linux-0.11/fs/inode.c:82-175 | Growing a tree, by an index block or a data block, changes no byte of any file. |
| ZoneTree.WriteBytes | linux-0.11/fs/file_dev.c:91-107 | Bytes stored in one block of one file change those bytes of that file and none else. |
| ZoneTree.LeafInjective | linux-0.11/fs/inode.c:82-175 | No two file blocks, on whatever mapping level, store their zone number at one place. |
| ZoneTree.GrownBy | linux-0.11/fs/inode.c:82-175 | One step of _bmap adds one zone on the way to the wanted location and nothing else. |
| ZoneTree.ZonesConserved | linux-0.11/fs/inode.c:82-175 | Zones are neither lost nor made: each newly mapped location took exactly one free zone. |
| FileSystem.FileSystem.constructor | linux-0.11/fs/bitmap.c:41-55 | A file system without files has every zone free. |
| FileSystem.FileSystem.FindFirstZero | linux-0.11/fs/bitmap.c:41-55 | The first zero bit of a bitmap block, or its size when all are set. |
| FileSystem.FileSystem.NewBlock | linux-0.11/fs/bitmap.c:109-150 | The lowest free zone, now claimed and cleared; 0 exactly when no zone is free. |
| FileSystem.FileSystem.FreeBlock | linux-0.11/fs/bitmap.c:58-104 | The zone's bit is cleared unless somebody else uses the buffer; its two panics are excluded. |
| FileSystem.FileSystem.BMap | linux-0.11/fs/inode.c:82-175 | The zone of a file block through all three levels; with create, what was missing on the way is added, and 0 means the device is full. |
| FileSystem.FileSystem.FreeInd | linux-0.11/fs/truncate.c:11-29 | Everything an index block lists is freed once, and the block itself. |
| FileSystem.FileSystem.FreeDind | linux-0.11/fs/truncate.c:31-47 | The same for two levels. |
| FileSystem.FileSystem.Truncate | linux-0.11/fs/truncate.c:49-70 | The inode maps nothing, its size is 0, each of its zones was freed once except busy ones, and no other inode is touched. |
| FileSystem.FileSystem.FileRead | linux-0.11/fs/file_dev.c:19-59 | All requested bytes from the file position on, zero where nothing is mapped; nothing else changes. i_size is not consulted, as in the source. |
| FileSystem.FileSystem.FileWrite | linux-0.11/fs/file_dev.c:63-119 | Exactly the bytes in the returned count are in the file, no other byte of any file differs, size and position follow. What is newly mapped lies on the way to the written blocks. The count is complete exactly when the free zones cover what is missing on these ways; else the device is full with the next block missing. |
| FileSystem.FileSystem.Run | linux-0.11/fs/file_dev.c:19-119 | Any run of reads, writes and truncations agrees with flat byte arrays: every byte, every size and every answer. A write puts a prefix of the caller's bytes into the file and maps only what leads to them; it is complete exactly when the free zones suffice at that point; each zone has one owner in every state. |
| FileSystem.EnoughRoom | linux-0.11/fs/file_dev.c:83-109 | A write is complete exactly when as many zones are free as locations without a zone lie on the paths to its blocks. |
| FileSystem.WriteSurvives | linux-0.11/fs/file_dev.c:19-119 | A byte that a write put into a file is what is found there after any later reads and any operations on other files. |
| FileSystem.ReplayedStep | linux-0.11/fs/file_dev.c:63-119 | One more operation on the blocks is one more operation on the flat arrays. |
| FileSystem.PatchMore | linux-0.11/fs/file_dev.c:83-109 | The bytes of the next block extend what was written so far. |
| FileSystem.TruncatedBytes | linux-0.11/fs/truncate.c:49-70 | A truncated file reads as zeros and no other file changes. |
| Links.FileNames.Run | linux-0.11/fs/namei.c:492-515 | In any run of create, mknod, link, unlink, mkdir and rmdir calls every call does what it should and every link count equals the number of entries that name the inode. |
| Links.FileNames.FindEntry | linux-0.11/fs/namei.c:116-201 | Finds an entry exactly when the directory has one of that name: ".." leads to the parent directory, in the root to the root itself, any other name to the used entry of just that name, of which 14 characters count. |
| Links.FindsRight | linux-0.11/fs/namei.c:116-201 | In a sound tree what the search hits is what those rules say, and there is no second candidate. |
| Links.FileNames.AddEntry | linux-0.11/fs/namei.c:215-291 | The first empty entry gets the name, else a new last one; it fails exactly when all are used and the directory cannot grow. |
| Links.FileNames.FindInode | linux-0.11/fs/bitmap.c:194-231 | The lowest free inode number, none exactly when all are used. |
| Links.FileNames.Create | linux-0.11/fs/namei.c:542-601 | The answer is determined by the names and free inodes; on success one new inode has one name, which a search then finds. |
| Links.FileNames.Link | linux-0.11/fs/namei.c:923-990 | Directories are refused; on success the file has one name more, which a search then finds, and the count goes up by one as an unsigned char; all invariants hold unless that was the 256th name, whose count is 0. |
| Links.FileNames.Unlink | linux-0.11/fs/namei.c:851-920 | On success the name is gone and the file is freed exactly when that was its last name and nobody holds it. |
| Links.FileNames.Mkdir | linux-0.11/fs/namei.c:603-693 | On success a directory with "." and "..", the latter its parent, is named once in that parent, whose count goes up by one as an unsigned char; all invariants hold unless that was the 256th name of the parent. |
| Links.FileNames.EmptyDir | linux-0.11/fs/namei.c:699-752 | True exactly when all entries behind "." and ".." are empty. |
| Links.FileNames.Rmdir | linux-0.11/fs/namei.c:754-848 | Only an empty directory that nobody else uses disappears, with its name, and the parent's count goes down by one. |
| Links.FileNames.Iput | linux-0.11/fs/inode.c:191-248 | An inode is freed exactly when it has no links and no other user. |
| Links.CreateKeeps | linux-0.11/fs/namei.c:574-600 | A new file and its first name keep all link counts and the directory tree. |
| Links.LinkKeeps | linux-0.11/fs/namei.c:974-989 | Another name of a file keeps all link counts. |
| Links.UnlinkKeeps | linux-0.11/fs/namei.c:909-919 | A name less keeps all link counts. |
| Links.MkdirKeeps | linux-0.11/fs/namei.c:634-692 | A new directory keeps all link counts and the tree: each directory but the root has one ordinary name, in its parent. |
| Links.RmdirKeeps | linux-0.11/fs/namei.c:833-846 | A removed directory keeps all link counts and the tree; its own count was 2. |
| Links.OnlyNames | linux-0.11/fs/namei.c:835-846 | An empty directory is named by its own "." and by one entry of its parent, so freeing it leaves no name behind. |
| Links.FreeKeeps | linux-0.11/fs/inode.c:227-236 | An inode without links is named by no entry when iput frees it. |
| Links.LinkWraps | linux-0.11/fs/namei.c:974-989 | With 255 names one more makes the count 0 while 256 entries name the inode: why the counts must stay below 256. |
| Links.OrdinaryName | linux-0.11/fs/namei.c:809-829 | What sys_rmdir removes is never "." or "..": behind ".." there is always a directory that is not empty. |
| WaitQueues.SleeperReachable | linux-0.11/kernel/sched.c:206-236 | Every task inside sleep_on is reached along saved tmp pointers from a queue head or from a woken task that has yet to resume. |
| WaitQueues.OnlyLateSleepers | linux-0.11/kernel/sched.c:206-283 | Once no woken task has yet to resume, everybody still asleep came after the last wake_up of its queue. |
| WaitQueues.WaitQueues.SleepOn | linux-0.11/kernel/sched.c:220-223 | The sleeper is the new head and remembers the old one; the queue invariant holds. |
| WaitQueues.WaitQueues.Resume | linux-0.11/kernel/sched.c:234-235 | Exactly the remembered sleeper is made runnable. |
| WaitQueues.WaitQueues.WakeUp | linux-0.11/kernel/sched.c:277-283 | The head is made runnable and the queue is empty; the chain behind it is not lost. |
| WaitQueues.WaitQueues.RunWoken | linux-0.11/kernel/sched.c:206-283 | When the woken tasks run, in any order, exactly those leave that slept when their queue was last woken. |
| WaitQueues.FollowChain | linux-0.11/kernel/sched.c:206-236 | Following n tmp pointers from the first of a chain leads to its n-th sleeper. |
| WaitQueues.SleepLinks | linux-0.11/kernel/sched.c:220-222 | Going to sleep keeps the chains that the pointers spell out. |
| WaitQueues.WakeLinks | linux-0.11/kernel/sched.c:277-283 | wake_up turns the queue into a chain of its own. |
| WaitQueues.ResumeLinks | linux-0.11/kernel/sched.c:234-235 | A resumed task leaves its chain, the rest stays linked. |
| Scheduler.NoStarvation | linux-0.11/kernel/sched.c:162-184 | From any start with a fixed runnable set, whoever is running and with whatever time left, the idle task included, under user-mode ticks every runnable task runs within a number of ticks that priorities and counters fix. |
| Scheduler.TickStep | linux-0.11/kernel/sched.c:444-483 | After a tick the same tasks can run, the running one has time left and the bound of everybody else has gone down. |
| Scheduler.IdleStep | linux-0.11/kernel/sched.c:444-483 | A tick while the idle task or a task without time runs brings the next choice nearer and raises the bound of nobody who waits. |
| Scheduler.ScheduledRuns | linux-0.11/kernel/sched.c:136-189 | What schedule() picks can run and has time left, the runnable set stays and the bound of nobody goes up. |
| Scheduler.LeftBelowMost | linux-0.11/kernel/sched.c:180-183 | The time left to the runnable tasks never exceeds the sum of 2 * priority - 1. |
| Scheduler.Scheduler.CheckAlarms | linux-0.11/kernel/sched.c:144-158 | Passed alarms become signals and deliverable signals wake interruptible tasks, in every slot but 0. |
| Scheduler.AlarmWakes | linux-0.11/kernel/sched.c:149-157 | An alarm that is over wakes an interruptible sleeper that does not block SIGALRM, once. |
| Scheduler.KillGetsThrough | linux-0.11/kernel/sched.c:25-27 | SIGKILL and SIGSTOP get through whatever is blocked, the other signals exactly when they are not blocked. |
| Scheduler.Scheduler.Select | linux-0.11/kernel/sched.c:163-174 | The runnable task with the highest counter, of several the one with the highest number; 0 when there is none. |
| Scheduler.Scheduler.Recharge | linux-0.11/kernel/sched.c:180-183 | Every counter becomes half of itself plus the priority and stays within 0 .. 2 * priority - 1. |
| Scheduler.RechargeGains | linux-0.11/kernel/sched.c:180-183 | A recharge gives a task its priority and half of what it had saved: a sleeper only gains, and never as much as twice its priority. |
| Scheduler.Scheduler.Schedule | linux-0.11/kernel/sched.c:136-189 | The loop makes at most two passes; counters are recharged once, exactly when every runnable counter is 0; the best task of the result runs. |
| Scheduler.Scheduler.DoTimer | linux-0.11/kernel/sched.c:444-483 | One tick off the running task; a user-mode tick that uses up the time reschedules. A user-mode tick is one step of the runs in which nobody starves. |
| Scheduler.Scheduler.Nice | linux-0.11/kernel/sched.c:536-541 | Priority stays positive; the counter bound survives exactly when the counter is below twice the new priority. |
| Elevator.InsertKeepsRuns | linux-0.11/kernel/blk_drv/ll_rw_blk.c:68-95 | Inserting a request of a new key where the search stops keeps the queue at most two strictly ascending runs. |
| Elevator.EqualKeyThirdRun | linux-0.11/kernel/blk_drv/ll_rw_blk.c:86-91 | With a key that is already queued a third run can appear: a concrete queue. |
| Elevator.RestKeepsRuns | linux-0.11/kernel/blk_drv/blk.h:117-133 | Taking the first request away keeps at most two runs. |
| Elevator.KeysDistinct | linux-0.11/kernel/blk_drv/ll_rw_blk.c:43-50 | Buffer locking keeps any two queued requests from having one key. |
| Elevator.OrderIsTotal | linux-0.11/kernel/blk_drv/blk.h:45-48 | IN_ORDER is a strict total order of keys. |
| Elevator.ReadOvertakes | linux-0.11/kernel/blk_drv/ll_rw_blk.c:86-91 | Reads go before writes: behind any read of a lower position, say the one in service, a new read has only reads of lower positions before it, and goes in front of a write or a read of a higher position. |
| Elevator.WriteWaits | linux-0.11/kernel/blk_drv/ll_rw_blk.c:86-91 | A write goes to the end or in front of a write of a higher position, never in front of a read. |
| Elevator.PutKeeps | linux-0.11/kernel/blk_drv/ll_rw_blk.c:68-95 | The new slot behind its place keeps pointers, slots, contents and runs of all queues. |
| Elevator.UnlockedUnqueued | linux-0.11/kernel/blk_drv/ll_rw_blk.c:43-58 | An unlocked buffer has no request queued. |
| Elevator.BlockLayer.constructor | linux-0.11/kernel/blk_drv/ll_rw_blk.c:181-189 | All slots free, all queues empty. |
| Elevator.BlockLayer.AddRequest | linux-0.11/kernel/blk_drv/ll_rw_blk.c:68-95 | The request in service stays first, the others keep their order, the new one is where the elevator puts it, its buffer is clean. |
| Elevator.BlockLayer.FindPlace | linux-0.11/kernel/blk_drv/ll_rw_blk.c:86-91 | The search stops at the first place that fits, else at the end. |
| Elevator.BlockLayer.EndRequest | linux-0.11/kernel/blk_drv/blk.h:117-133 | The request in service leaves, its slot is free and its buffer unlocked; the others keep their places. |
| Elevator.BlockLayer.MakeRequest | linux-0.11/kernel/blk_drv/ll_rw_blk.c:97-165 | Nothing happens when nothing is needed; else the request is queued, waits for a slot, or is given up if it was only ahead. |
| Elevator.BlockLayer.QueueRequest | linux-0.11/kernel/blk_drv/ll_rw_blk.c:127-164 | The highest free slot is filled, for writes among the first two thirds; none was free exactly when the task sleeps or gives up. |
| Elevator.BlockLayer.Run | linux-0.11/kernel/blk_drv/ll_rw_blk.c:97-165 | In any run of requests, retries and completions each slot is free or in one queue once and no locked buffer is forgotten; each request is put where the elevator wants it with all others in order, each completion frees the slot and the buffer of the request in service, and nothing else happens. |
| Console.Console.Write | linux-0.11/kernel/chr_drv/console.c:537-725 | Whatever the bytes, con_write with its moving origin shows the grid, cursor, region and attribute of the plain terminal after each byte, and no byte but those that end ESC [ n M makes it store outside the screen it then shows. |
| Console.Console.constructor | linux-0.11/kernel/chr_drv/console.c:742-823 | The screen starts as the first rows of video memory, the cursor where the boot code left it, region the whole screen. |
| Console.Console.ScrUp | linux-0.11/kernel/chr_drv/console.c:120-204 | The region moves up by a row on screen, by moving the origin, copying back at the end of video memory, or in place; every store is on the new screen. |
| Console.Console.HardwareScroll | linux-0.11/kernel/chr_drv/console.c:130-168 | Scrolling the whole screen through the origin shows all rows one up and a blank last row. |
| Console.Console.ScrollRegionUp | linux-0.11/kernel/chr_drv/console.c:174-202 | Moving the rows of the region in place shows them one up. |
| Console.Console.ScrDown | linux-0.11/kernel/chr_drv/console.c:210-248 | The region moves down by a row. |
| Console.Console.GotoXY | linux-0.11/kernel/chr_drv/console.c:95-104 | A position off the screen is ignored, with 32-bit unsigned coordinates. |
| Console.Console.LineFeed | linux-0.11/kernel/chr_drv/console.c:252-260 | Down one row, or the region scrolls up on its last row. |
| Console.Console.ReverseIndex | linux-0.11/kernel/chr_drv/console.c:264-272 | Up one row, or the region scrolls down on its first row. |
| Console.Console.Delete | linux-0.11/kernel/chr_drv/console.c:282-289 | The character before the cursor is blanked. |
| Console.Console.EraseDisplay | linux-0.11/kernel/chr_drv/console.c:294-323 | Cells behind, before or all over the screen are blank, by addresses that run across rows. |
| Console.Console.EraseLine | linux-0.11/kernel/chr_drv/console.c:327-358 | The same within the cursor's row. |
| Console.Console.InsertChars | linux-0.11/kernel/chr_drv/console.c:465-475 | n cells are opened at the cursor, at most a row of them. |
| Console.Console.DeleteChars | linux-0.11/kernel/chr_drv/console.c:494-504 | n cells are taken out at the cursor. |
| Console.Console.InsertLines | linux-0.11/kernel/chr_drv/console.c:479-489 | n blank rows are opened at the cursor, to the bottom of the screen; the region is as before. |
| Console.Console.DeleteLines | linux-0.11/kernel/chr_drv/console.c:509-519 | n rows are taken out at the cursor; no store is outside the screen unless whole-screen scrolling wraps to the start of video memory on the way. |
| Console.Console.SetAttributes | linux-0.11/kernel/chr_drv/console.c:362-374 | The parameters are applied in order. |
| Terminal.StepOk | linux-0.11/kernel/chr_drv/console.c:537-725 | No byte takes cursor, region or grid of the plain terminal out of range. |
| Terminal.StepsCompose | linux-0.11/kernel/chr_drv/console.c:537-725 | Writing in pieces is writing at once. |
| Terminal.SaveRestoreByColumn | linux-0.11/kernel/chr_drv/console.c:598-614 | ESC 7 and ESC 8 do what they are documented to do exactly when the column happens to say the same as the byte, or the saved position is the present one: the source compares x, not c. |
| Terminal.SaveIgnored | linux-0.11/kernel/chr_drv/console.c:598-614 | A concrete case: at the left margin ESC 7 saves nothing. |
| TerminalLaws.Sequence | linux-0.11/kernel/chr_drv/console.c:616-642 | A control sequence does what its last byte says with the decimal parameters that were written, up to sixteen, empty ones being 0. |
| TerminalLaws.MovesTo | linux-0.11/kernel/chr_drv/console.c:677-681 | ESC [ row ; column H and f: the cursor goes to that row and column, counted from 1, if they are on the screen; nothing else changes. |
| TerminalLaws.MovesUpDown | linux-0.11/kernel/chr_drv/console.c:649-656 | ESC [ n A and B move up and down by n, at least 1, if that stays on the screen. |
| TerminalLaws.MovesLeftRight | linux-0.11/kernel/chr_drv/console.c:657-664 | ESC [ n C and D move right and left by n in the same way. |
| TerminalLaws.MovesToLine | linux-0.11/kernel/chr_drv/console.c:665-672 | ESC [ n E and F go to the start of the n-th line below or above, if there is one. |
| TerminalLaws.MovesInLine | linux-0.11/kernel/chr_drv/console.c:645-676 | ESC [ n G sets the column alone, ESC [ n d the row alone. |
| TerminalLaws.SavesCursor | linux-0.11/kernel/chr_drv/console.c:715-720 | ESC [ u brings the cursor back to where ESC [ s saved it. |
| TerminalLaws.SetsRegion | linux-0.11/kernel/chr_drv/console.c:706-714 | ESC [ first ; last r sets the scroll region to these lines, if there is such a region. |
| TerminalLaws.ErasesDisplay | linux-0.11/kernel/chr_drv/console.c:294-323 | ESC [ J blanks exactly the cells from the cursor on, with 1 those before it, with 2 all. |
| TerminalLaws.ErasesLine | linux-0.11/kernel/chr_drv/console.c:327-358 | ESC [ K does the same within the line. |
| TerminalLaws.OpensLines | linux-0.11/kernel/chr_drv/console.c:479-489 | ESC [ n L: the cursor's line and those below go down by n, at most to the bottom of the screen, over blank lines. |
| TerminalLaws.ClosesLines | linux-0.11/kernel/chr_drv/console.c:509-519 | ESC [ n M: the lines from n below come up to the cursor's line, blank ones follow at the bottom. |
| TerminalLaws.OpensCells | linux-0.11/kernel/chr_drv/console.c:465-475 | ESC [ n @: the rest of the line goes right by n over blank cells. |
| TerminalLaws.ClosesCells | linux-0.11/kernel/chr_drv/console.c:494-504 | ESC [ n P: the rest of the line comes left by n, blank cells follow at its end. |
| TerminalLaws.SetsAttribute | linux-0.11/kernel/chr_drv/console.c:362-374 | ESC [ ... m: the last of the parameters 0, 1, 4, 7 and 27 decides how characters look, normal, bright or reverse; other parameters say nothing. |
| TerminalLaws.ShowsByte | linux-0.11/kernel/chr_drv/console.c:556-572 | A printable byte is shown at the cursor with the attribute in force, and no other cell changes. |
| TerminalLaws.WrapsByte | linux-0.11/kernel/chr_drv/console.c:556-564 | Behind the last column it is shown where a line feed at the left margin leads. |
| TerminalLaws.FeedsLine | linux-0.11/kernel/chr_drv/console.c:252-260 | A line feed goes down, or in the region's last line moves the region's rows up over a blank one. |
| TerminalLaws.FeedsBack | linux-0.11/kernel/chr_drv/console.c:264-272 | ESC M goes up, or in the region's first line moves the region's rows down under a blank one. |
| TerminalLaws.GoesDown | linux-0.11/kernel/chr_drv/console.c:598-604 | ESC D is a line feed; ESC E goes to the start of the next line, if there is one. |
| TerminalLaws.MovesInRow | linux-0.11/kernel/chr_drv/console.c:577-594 | Carriage return, backspace and tabulator move within the row. |
| TerminalLaws.RubsOut | linux-0.11/kernel/chr_drv/console.c:579-580 | The erase character takes back the character before the cursor. |
| TerminalLaws.TypedAndRubbedOut | linux-0.11/kernel/chr_drv/console.c:556-580 | What was typed and rubbed out is gone: the cursor is back and its cell is blank. |
| VideoMemory.ShowsShift | linux-0.11/kernel/chr_drv/console.c:157-166 | An origin one row further shows the rows one up once the new last row is blank. |
| VideoMemory.ShowsCopyBack | linux-0.11/kernel/chr_drv/console.c:142-156 | So does the copy of all rows but the first to the start of video memory. |
| VideoMemory.ScrUpShows | linux-0.11/kernel/chr_drv/console.c:174-202 | The long-word move of a region shows the rows one up exactly when the moved cells are even in number or the cell left over is blank. |
| VideoMemory.ShowsDown | linux-0.11/kernel/chr_drv/console.c:210-248 | The backward move shows the rows one down. |
| VideoMemory.ShowsErase | linux-0.11/kernel/chr_drv/console.c:294-323 | Blank cells from one address to another show blank cells wherever the rows break. |
| VideoMemory.EraseRange | linux-0.11/kernel/chr_drv/console.c:294-323 | Erasing the display in row and column terms is erasing one address range. |
| VideoMemory.CellsInOrder | linux-0.11/kernel/chr_drv/console.c:95-104 | Addresses of cells are ordered as row and column are. |
| ExecArguments.HandOver | linux-0.11/fs/exec.c:439-446 | Succeeds exactly when the strings fit below the last long word and enough pages are free; then main finds at its stack pointer argc, and following the tables the original strings in order; on failure all pages go back. |
| ExecArguments.ArgSpace.constructor | linux-0.11/fs/exec.c:439-446 | No page is allocated at the start. |
| ExecArguments.ArgSpace.CopyStrings | linux-0.11/fs/exec.c:127-194 | The strings lie below what was there, in order, each with its zero, across page borders; 0 only when pages ran out or the space is full to the last byte. |
| ExecArguments.ArgSpace.CopyString | linux-0.11/fs/exec.c:155-187 | One string with its zero, from its last byte down. |
| ExecArguments.ArgSpace.StoreByte | linux-0.11/fs/exec.c:167-186 | A page is taken exactly when the first byte is put into it. |
| ExecArguments.ArgSpace.FreePages | linux-0.11/fs/exec.c:502-505 | As many pages go back as were taken. |
| ExecArguments.Image.PutPages | linux-0.11/fs/exec.c:222-227 | The argument pages are at the end of the data segment, byte for byte. |
| ExecArguments.Image.CreateTables | linux-0.11/fs/exec.c:53-83 | Header and NULL-terminated tables lie under the strings and overlap nothing; they point to the strings in order. |
| ExecArguments.Image.FillTable | linux-0.11/fs/exec.c:72-81 | One table: each pointer is the start of its string, NULL behind the last. |
| ExecArguments.StringInside | linux-0.11/fs/exec.c:72-81 | Reading a string stops behind its zero and nowhere before. |
| ExecArguments.EncodedConcat | linux-0.11/fs/exec.c:439-446 | Environment copied first and arguments below it lie in memory as one list of strings. |
| ExecArguments.AllocatedMore | linux-0.11/fs/exec.c:177-180 | The pages taken are exactly those that hold bytes. |
| ExecArguments.HoldsMore | linux-0.11/fs/exec.c:167-186 | A byte below the ones copied so far leaves them as they were. |
| ExecArguments.TablePoints | linux-0.11/fs/exec.c:53-83 | A filled table leads to the original strings, all above the tables. |
| Rings.Appended | linux-0.11/include/linux/fs.h:58-62 | A chunk put at the head, up to the end of the buffer, is appended to what the ring holds. |
| Rings.Taken | linux-0.11/include/linux/fs.h:58-62 | A chunk taken at the tail is the oldest part of what the ring holds. |
| Rings.Dropped | linux-0.11/include/linux/tty.h:25-34 | Stepping the head back drops the newest byte. |
| Pipes.Pipe.Run | linux-0.11/fs/pipe.c:13-88 | Readers and writers in any order at their sleep points, with ends that close on the way: the ring is the queue of the reference, each call gets what it would get there and takes no turn after it has returned, what was read is a prefix of what was written. |
| Pipes.TurnsContinue | linux-0.11/fs/pipe.c:13-88 | In the reference a reader only gains and a writer only gets rid of bytes, and a call that has returned stays as it was. |
| Pipes.Pipe.constructor | linux-0.11/fs/pipe.c:91-140 | An empty pipe with both ends open. |
| Pipes.Pipe.Size | linux-0.11/include/linux/fs.h:58-62 | PIPE_SIZE is the number of bytes in the ring. |
| Pipes.Pipe.Read | linux-0.11/fs/pipe.c:13-47 | As many of the oldest bytes as are wanted and there, in order; it sleeps only for more with a writer left. |
| Pipes.Pipe.Write | linux-0.11/fs/pipe.c:49-88 | As many bytes as there is room for go behind those in the pipe, never more than PAGE_SIZE-1 in all; SIGPIPE exactly when bytes are left and no reader is. |
| Terminals.Tty.Run | linux-0.11/kernel/chr_drv/tty_io.c:155-372 | Any order of arriving characters, cooking and reading is a run of the terminal without rings, and every read gets what it gets there. At the end queue plus what was read is the line-editing fold of the input exactly when no erase or kill of the run reached into a line being read. |
| Terminals.EditIsStreamEdit | linux-0.11/kernel/chr_drv/tty_io.c:155-266 | Queue plus what was read is the line-editing fold of the input exactly while no erase or kill reaches into a line of which a part was read. |
| Terminals.TextIsQueued | linux-0.11/kernel/chr_drv/tty_io.c:155-266 | Typed text without control characters is queued as it is. |
| Terminals.ErasedAgain | linux-0.11/kernel/chr_drv/tty_io.c:199-214 | As many erase characters as characters were typed take the text back. |
| Terminals.KilledAgain | linux-0.11/kernel/chr_drv/tty_io.c:184-198 | The kill character takes the whole open line back and nothing of the lines before. |
| Terminals.LineEnds | linux-0.11/kernel/chr_drv/tty_io.c:168-183 | With ICRNL a carriage return becomes a newline, else with IGNCR it is dropped; with INLCR a newline becomes a carriage return. |
| Terminals.LineIsRead | linux-0.11/kernel/chr_drv/tty_io.c:311-345 | A typed line is read whole once its newline is there; before, the reader waits unless the queue is nearly full. |
| Terminals.FoldExactly | linux-0.11/kernel/chr_drv/tty_io.c:155-372 | In every state of a run queue plus what was read is the fold of the input exactly when nothing has reached too far: what was changed too late never mends. |
| Terminals.CookTracks | linux-0.11/kernel/chr_drv/tty_io.c:155-266 | Cooking a character keeps that record, whichever way the character edits. |
| Terminals.TakeTracks | linux-0.11/kernel/chr_drv/tty_io.c:329-345 | So does reading a character. |
| Terminals.CookedConsumes | linux-0.11/kernel/chr_drv/tty_io.c:155-266 | Cooking consumes a prefix of what arrived, editing the queue by it, and stops only when all is consumed or the queue is full. |
| Terminals.ReadThenErase | linux-0.11/kernel/chr_drv/tty_io.c:329-345 | A concrete run where one does: x, newline, a, read at once, then erase. |
| Terminals.KilledKeepsLines | linux-0.11/kernel/chr_drv/tty_io.c:184-198 | Kill stops at the last line end: no finished line is lost. |
| Terminals.KilledSplit | linux-0.11/kernel/chr_drv/tty_io.c:184-198 | Kill on a queue behind other characters reaches these only when the queue holds no line end. |
| Terminals.EditLines | linux-0.11/kernel/chr_drv/tty_io.c:155-266 | No character takes away a line end. |
| Terminals.LinesConcat | linux-0.11/kernel/chr_drv/tty_io.c:155-266 | Line ends are counted additively. |
| Terminals.TakeSplits | linux-0.11/kernel/chr_drv/tty_io.c:329-345 | A read takes a prefix of the queue, ended by the request, an empty queue, or the end-of-file character, which it swallows. |
| Terminals.Tty.CopyToCooked | linux-0.11/kernel/chr_drv/tty_io.c:155-266 | It edits the oldest characters, one by one, until there are none or the queue is full, as the terminal without rings does; secondary.data stays the number of line ends. |
| Terminals.Tty.Cook | linux-0.11/kernel/chr_drv/tty_io.c:167-262 | One character is mapped, edits the queue or flow control, or is queued. |
| Terminals.Tty.ReadPass | linux-0.11/kernel/chr_drv/tty_io.c:329-345 | The characters handed over are the front of the queue; in canonical mode an end-of-file character ends the pass. |
| Terminals.Tty.MustWait | linux-0.11/kernel/chr_drv/tty_io.c:320-324 | tty_read waits exactly while there is nothing, or in canonical mode no line and still room. |
| Terminals.Tty.constructor | linux-0.11/include/linux/tty.h:25-34 | Empty queues. |

## Left out

- Boot code, interrupt stubs, descriptor tables, port I/O, DMA and the floppy, hard-disk and serial drivers.
- Tasks 0 and 1 and the frames below 1 MB that they share with the kernel; the first fork, which copies only 160 pages.
- Memory.Memory.CopyProcess: has neither the process number nor registers, signals, open files and inode references of the child.
- Memory.Memory.DoNoPage: takes whether the address is in the file, what bread_page would read and the inode count of share_page as parameters. It is one step: that other tasks run while bread_page sleeps, between get_free_page and put_page, is not modelled, nor in the loading part FillPage.
- TerminalLaws.MovesUpDown: is stated for counts up to 2^32 - 256; a larger one wraps around as Terminal.TargetY says, and so for the other relative moves.
- Memory.Memory.Exit: does not close files, notify the father or kill the session.
- Memory.Memory.Execve: is the memory part; the argument pages that change_ldt maps in the last 128 KB of the data segment are in ExecArguments; they are clean and would be shared only under a program whose file reaches that far.
- BufferCache.BufferCache.Resume: sync_dev stops at every buffer, which allows more interleavings than the code; sync_inodes is not part of it.
- BufferCache.BufferCache.Getblk: is not called for device 0, which marks a free buffer.
- breada, block_write, bread_page, floppy change and read or write errors; where buffer_init finds its buffer heads in memory.
- Malloc.Heap.NewBucket: does not model that a fresh page is cleared.
- FileSystem.FileSystem.Truncate: the set of zones whose buffers others use does not change during the call.
- FileSystem.FileSystem.FileRead: models no read errors and no access time; FileSystem.FileSystem.FileWrite no time stamps.
- i_zone of character and block devices, whose first word is a device number; the inode cache, inode blocks on disk and super blocks.
- Links.FileNames.FindEntry: has no mount points and no process root but the root of the file system.
- Links.FileNames.AddEntry: whether the directory can grow is a parameter; directories have no holes and no unreadable blocks.
- Links.FileNames.Create: is sys_mknod, and open_namei with O_CREAT and O_EXCL: without O_EXCL open_namei opens a file whose name exists, and for an empty name it answers EISDIR or gives the directory itself.
- Links.FileNames.Run: leaves out link and mkdir calls on an inode that has 255 links.
- Links.FileNames.Mkdir: has no failure after the new directory's block was allocated; new_block and bread succeed.
- Path lookup, permissions, sticky directories, links across devices, time stamps.
- interruptible_sleep_on, whose queue handling the source itself calls wrong, and keyboard or serial wake-ups.
- add_timer, floppy timers, the time counters of do_timer, and the task switch itself.
- Elevator.BlockLayer.QueueRequest: sleeping tasks are a map from buffer to command.
- Console.Console.Write: for the byte M that ends ESC [ n M, which may scroll the whole screen n times, that no store is outside the screen is stated by Console.Console.DeleteLines under its condition.
- Console answers (ESC Z, ESC [ c), the beep, the cursor and origin registers, and the detection of the video adapter.
- ExecArguments.HandOver: is only the argument part of do_execve: no file header, no script interpreter, no segment limits. Arguments come from user space and fit into the argument space; past it the source would use its page table out of bounds.
- put_page running out of memory inside change_ldt.
- Terminals.Tty.Run: termios is fixed; VMIN and VTIME, alarms, signals, carrier and echo to write_q are not modelled.
- Pipes.Pipe.Run: a pipe has one reader and one writer end; an end that has closed is not opened again.
