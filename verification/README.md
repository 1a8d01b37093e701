# Linux 0.11: models and proofs

A Dafny model of the stateful parts of the Linux 0.11 kernel, and proofs of what
they are for. `dafny verify dfyconfig.toml` checks everything.

The model follows the source's own units. Processes do not preempt each other in the
kernel, so where it may sleep, the code between two such points is one step of a state
machine, and the theorems are about every run of the machine. Where an interrupt can
change what the code reads or writes, either the code has interrupts off, or it is split
there too (terminal input, `sleep_on` in `make_request`, the scans of the buffer cache
and of the scheduler). Where the code updates tables,
arrays, rings or linked lists in place, a class does the same in Dafny, and each of
its methods is proved to do what a specification function says; the theorems are
about that function. Data structures that the source links by pointers into one
array (buffer heads, requests) are linked by positions in the array here, with -1
for the null pointer.

| directory | modules | subject |
|---|---|---|
| `mm/` | `PageTables`, `PagingInvariant`, `PagingSteps`, `PagingTables`, `EagerSpaces`, `CopyOnWrite`, `ForkMemory`, `SharedPages`, `LaunderedRun`, `MemoryManager`, `EntryFormat` | two-level page tables, `mem_map`, copy-on-write, sharing |
| `fs/` | `BufferCache`, `CacheInvariant`, `CacheSteps`, `CacheRuns`, `CacheProgress`, `WriteBack`, `BufferQueues` | the buffer cache, write-back, hash chains and free list |
| `fs/` | `Zones`, `ZoneOwnership`, `FileContents`, `DiskSpace`, `FileSystemRuns`, `ZoneRaces`, `Device` | zone map, index trees, truncation, file contents, full disks, calls that overlap |
| `fs/` | `ExecArguments`, `ScriptExec`, `Pipes`, `PipeCalls` | arguments of a new program, `#!` scripts, pipes |
| `kernel/` | `Elevator`, `RequestQueue` | the disk request list |
| `kernel/` | `Scheduling`, `SleepQueues`, `SleepRaces`, `Processes` | scheduler, wait queues, process table |
| `kernel/` | `LineDiscipline`, `TerminalRuns`, `TerminalRings`, `Numbers` | terminal input, number printing |
| `lib/` | `Buckets`, `BucketLemmas`, `BucketRuns`, `HeapPages`, `KernelHeap` | the kernel's `malloc` |
| `lib/` | `Basics` | definitions and facts that several modules use |

## The main results

- Paging: address spaces shared lazily cannot be told from spaces copied at once.
  `CopyOnWrite.Meaning` reads a space of private pages off the tables; every event
  of the kernel is the same event of the machine in `EagerSpaces`, none panics, and
  every page's count is exact in every reachable state. The table format is that of
  section 4.3 of Intel's Software Developer's Manual, volume 3A; `EntryFormat` ties
  the fields used in the model to the 32-bit words and masks of the source. Sharing
  shows a task exactly the clean pages of another; they are as they were brought in if
  and only if no `write_verify` copies a page that has been stored into
  (`SharedPages.CleanIffNotLaundered`).
- Buffer cache: over every interleaving of calls, users, write-back, eviction and
  completions, the cache and the disk behave as one array of blocks, and what a
  write-back was begun for is on the disk when it is over (`WriteBack.ChangesReachDisk`).
- Files: over every run of calls that do not overlap, the files are sequences of bytes
  with zeros in the holes, and the set bits of the zone map are exactly the zones
  owned, each by one place. Calls that make blocks may overlap, split where
  `new_block` sleeps: no zone ever gets two owners, and zones are lost if and only if
  two of the calls make the same place at once (`ZoneRaces.OwnedIffNoOverlap`). A write
  is complete if and only if there are free zones for all that is missing on its way.
- Requests, scheduling, wait queues: bounds on waiting that hold whatever else
  arrives (for a runnable task, 8 ticks per unit of priority of all tasks), requests
  neither lost nor served twice, and wake-ups that are neither lost nor given twice; with
  interrupts on, if and only if no wake-up of a queue comes inside a call of `sleep_on`
  for it.
- Terminals: typing interrupts reading. The queue stays right if and only if it is
  never empty when a reader that has seen a character comes to take one; then finished
  lines reach the reader unchanged, and readers and queue together are what a line
  editor makes of the keys if and only if no erase or kill comes when its characters
  have been read already.
- Arguments: every string arrives, with the tables that point to them, exactly when
  there are pages for all of them.
- Pipes: bytes come out as they went in, and a reader and a writer that call at once come to
  an end, whatever the order of their turns, which depends only on how many bytes there are.
- Processes, heap, numbers: invariants over every run and round trips. The input
  flags of a terminal, the cases of `waitpid` and the layout of printed numbers are also
  stated on what goes in and what comes out.

## Assumptions, and where the code departs from its intent

- I/O succeeds: a request completes with `b_uptodate` set. A panic is an outcome of
  the specification functions, and is proved not to happen.
- Copies to and from user space neither sleep nor fail.
- `mm/memory.c:261-272` copies a page for `write_verify` without the dirty bit, so the copy
  of a page that has been stored into counts as clean, and `mm/memory.c:311` lets
  `try_to_share` give it to other tasks of the program in place of the page of the file.
  `SharedPages.VerifyCleans` says exactly when, `SharedPages.CleanIffNotLaundered` that
  nothing else does, and `LaunderedRun.ItHappens` is a run from boot in which it happens.
- `fs/buffer.c:163` writes through `b_next` even when the chain was empty; the model
  writes only if there is a buffer (`BufferQueues.BufferTable.InsertIntoHash`).
- `fs/exec.c:128` tests whether an unsigned difference is negative, which it never
  is; the model requires that the strings fit. Strings that fill the space to the last
  byte are refused all the same, since 0 also stands for failure. `fs/exec.c:263` counts
  arguments one too few when there are none: `ScriptExec.ScriptExactly` says exactly when
  the interpreter of a script gets the right arguments.
- `fs/bitmap.c:93-95` leaves a bit set when it finds no zone behind it:
  `ZoneOwnership.NewBlockLeaks` says exactly when. No zone is affected, and the
  theorems need nothing of the bits past the last zone.
- `fs/inode.c:82-83` and the lines like it look at a place before `new_block` sleeps
  and not after. What two calls can then do to each other is in `ZoneRaces`; the
  theorems of `FileSystemRuns`, which are about whole calls with `truncate` among them,
  assume that calls do not overlap.
- `fs/file_dev.c:65` panics in `_bmap` when a write gets past the largest file:
  `DiskSpace.WritePanics` says exactly when.
- `kernel/blk_drv/ll_rw_blk.c:78-82` keeps two runs of requests that differ, and
  `Elevator.AddRunsExactly` says when it does of others. Two requests are never for
  the same block: `CacheRuns.RequestsDiffer`.
- `kernel/chr_drv/tty_io.c:261-272` lets a reader take characters of a line that is not
  finished, which erase and kill then cannot reach: `TerminalRuns.EditorExactly`. It tests
  that the queue is not empty, and takes a character, with interrupts on; an erase or kill
  in between leaves it nothing to take, and the queue underflows:
  `TerminalRuns.RightIffStocked` says exactly when, `TerminalRuns.EraseUnderReader` how.
- `kernel/blk_drv/ll_rw_blk.c:129` calls `sleep_on` with interrupts on, for a queue that
  the disk interrupt wakes. A wake-up between the link and the sleep loses everyone on the
  queue for good: `SleepRaces.SoundIffCalm`, `SleepRaces.WholeQueueLost`. A slot may also
  be freed between the scan that finds none and `sleep_on`; the caller then sleeps until
  the next request is done. The theorems of the buffer cache let a call run when there is
  a slot, and say nothing of when that is. Elsewhere `sleep_on` has interrupts off, or
  only processes wake the queue.
- `kernel/sched.c:125-134` scans with interrupts on and can overlook a task woken meanwhile:
  `Scheduling.InterruptedScan`, `Scheduling.Overlooked`. In the scheduling runs a call of
  `schedule` is one step.
- Updates of one variable, such as the counter of a queue or the tail of a ring, are one
  step.
- `free_block` gives up when a buffer of the block is in use elsewhere
  (`fs/bitmap.c:58-62`); the model is about the other case.
- The init process never exits, and task 0 does nothing but idle once init runs.
- A disk has fewer than 65536 zones (`s_nzones` is an unsigned short), and a buffer
  table has at least two buffers.

## Model

| member | source | states |
|---|---|---|
| `CopyOnWrite.RunIsEager` | linux-0.11/mm/memory.c:150-189 | along every run of fork, exit, exec, faults, stores and sharing, each event that can happen ends without a panic and is the same event of a machine that copies address spaces at once |
| `CopyOnWrite.StepSound` | linux-0.11/mm/memory.c:221-238 | one event: keeps the ownership invariant, cannot panic, is a step of the eager machine; it has no effect only when memory is full, or a fork finds too few pages |
| `CopyOnWrite.Isolation` | linux-0.11/mm/memory.c:292-334 | whatever events touch other tasks, in any later run, a task keeps seeing the pages it saw and reads there what it read, unless the page is one of the low megabyte and is stored into from outside paging |
| `CopyOnWrite.CountsAreRight` | linux-0.11/mm/memory.c:89-131 | from boot on, mem_map of every page is the number of table entries and directory entries that refer to it plus its kernel holder, and below NR_TASKS |
| `CopyOnWrite.BootInv` | linux-0.11/mm/memory.c:399-411 | memory as mem_init leaves it satisfies the invariant |
| `ForkMemory.BootExists` | linux-0.11/mm/memory.c:399-411 | there is a memory as mem_init leaves it, with any part of it free |
| `PagingInvariant.WritableIsAlone` | linux-0.11/mm/memory.c:221-229 | an entry is writable only if nothing else refers to its page, whose count is 1 |
| `PagingInvariant.CountBound` | linux-0.11/mm/memory.c:57 | a page is mapped at most once per task, so a count never meets USED or wraps |
| `PagingSteps.FreeNeverPanics` | linux-0.11/mm/memory.c:89-99 | free_page does not panic on a page that something refers to |
| `PagingSteps.UnWriteProtectInv` | linux-0.11/mm/memory.c:221-238 | afterwards the task sees what it saw and may write it, no other page view changes, and only a full memory makes it fail, without effect |
| `PagingSteps.TryToShareInv` | linux-0.11/mm/memory.c:292-334 | never panics on an unmapped target; it succeeds exactly if the page is there, clean, and above the low megabyte; then both tasks see it and nobody else notices |
| `SharedPages.SharedExactly` | linux-0.11/mm/memory.c:292-334 | sharing succeeds if and only if the entry of the other task is there, is clean, and names a page above the low megabyte, and there is a table for the new entry or a free page for one |
| `SharedPages.CleanIffNotLaundered` | linux-0.11/mm/memory.c:261-334 | from boot on, over every run: in every state the clean pages, which are those that may be shared, are as they were brought in with no store since, through however many forks and shares, if and only if no write_verify of the run makes a clean copy of a page that has been stored into |
| `SharedPages.SharedAsBrought` | linux-0.11/mm/memory.c:292-334 | in such a state a share that succeeds shows the page as it was brought in |
| `SharedPages.VerifyCleans` | linux-0.11/mm/memory.c:221-272 | write_verify of a page marked dirty makes a clean copy exactly if the entry is read-only, the page has another user, and a page is free |
| `SharedPages.LaunderedAfterFork` | linux-0.11/mm/memory.c:221-272 | so it does in the child of a task that has stored into the page |
| `LaunderedRun.ItHappens` | linux-0.11/mm/memory.c:292-334 | a run from boot after which a task is given, in place of the page brought in, one that another task has stored into |
| `SharedPages.VerifyWritable` | linux-0.11/mm/memory.c:261-272 | after write_verify a page that is there is writable, unless memory was full |
| `PagingSteps.PutPageInv` | linux-0.11/mm/memory.c:197-219 | the page appears at the address with its contents, and nowhere else |
| `PagingTables.FreeTablesInv` | linux-0.11/mm/memory.c:105-131 | never panics; the range is left without tables and all other views are as before |
| `PagingTables.CopyTablesInv` | linux-0.11/mm/memory.c:150-189 | never panics; on success the child sees exactly the parent's pages, and nobody else anything new |
| `PagingTables.CopyDirPanics` | linux-0.11/mm/memory.c:164-165 | the copy panics exactly if the target has a table already |
| `PagingTables.CopyMemInv` | linux-0.11/kernel/fork.c:39-61 | never panics; a copy that runs out of memory half way and is undone leaves every count and every reference as it was, and the child without tables |
| `PagingTables.RefsDetermineCounts` | linux-0.11/mm/memory.c:179-184 | the same references and holders give the same mem_map |
| `CopyOnWrite.ForkStep` | linux-0.11/kernel/fork.c:68-119 | fork with the page for the task structure: eager copy of the parent, or no effect at all |
| `ForkMemory.ForkRefused` | linux-0.11/kernel/fork.c:39-61 | a fork is refused if and only if there are fewer free pages than one for the task structure and one for each table of the parent |
| `ForkMemory.ForkUses` | linux-0.11/kernel/fork.c:68-133 | a fork that is not refused uses exactly these pages |
| `ForkMemory.ExitUndoesFork` | linux-0.11/kernel/exit.c:102-107 | a child that exits and is released gives everything back: mem_map, holders, tasks and all views are as before the fork |
| `CopyOnWrite.WriteStep` | linux-0.11/mm/memory.c:247-259 | a store on a read-only page copies it first; the store is then seen by this task only |
| `CopyOnWrite.VerifyStep` | linux-0.11/mm/memory.c:261-272 | write_verify leaves what the task reads unchanged |
| `CopyOnWrite.ExitStep` | linux-0.11/kernel/exit.c:102-107 | both calls of free_page_tables empty the space of the exiting task and of no other |
| `CopyOnWrite.ExecStep` | linux-0.11/fs/exec.c:328-329 | exec empties the space in the same way |
| `CopyOnWrite.ShareStep` | linux-0.11/mm/memory.c:292-334 | sharing shows a task the page another task sees, exactly if that task has it and has not written it |
| `MemoryManager.Memory.constructor` | linux-0.11/mm/memory.c:399-411 | mem_init over the array mem_map |
| `MemoryManager.Memory.GetFreePage` | linux-0.11/mm/memory.c:63-83 | over the arrays: the last free page, marked and cleared, or 0 |
| `MemoryManager.Memory.FreePage` | linux-0.11/mm/memory.c:89-99 | over the arrays: low pages ignored, the count lowered, or a panic |
| `MemoryManager.Memory.FreePageTables` | linux-0.11/mm/memory.c:105-131 | the double loop over directory and tables is the function the lemmas are about |
| `MemoryManager.Memory.CopyPageTables` | linux-0.11/mm/memory.c:150-189 | the double loop, with 160 entries for the first fork, is that function |
| `MemoryManager.Memory.CopyMem` | linux-0.11/kernel/fork.c:39-61 | copying and undoing over the arrays |
| `MemoryManager.Memory.PutPage` | linux-0.11/mm/memory.c:197-219 | over the arrays, making a table if there is none |
| `MemoryManager.Memory.UnWpPage` | linux-0.11/mm/memory.c:221-238 | over the arrays, with the copy of the page |
| `MemoryManager.Memory.WriteVerify` | linux-0.11/mm/memory.c:261-272 | over the arrays, nothing unless the entry is present and read-only |
| `MemoryManager.Memory.TryToShare` | linux-0.11/mm/memory.c:292-334 | over the arrays, with its three ways to give up |
| `EntryFormat.EveryNumberIsAWord` | linux-0.11/mm/memory.c:150-189 | every 32-bit number is the encoding of its decoded fields |
| `EntryFormat.EveryWordIsANumber` | linux-0.11/mm/memory.c:150-189 | and every word of fields decodes from its encoding |
| `EntryFormat.ClearWriteBit` | linux-0.11/mm/memory.c:177 | masking with ~2 clears the write permission and nothing else |
| `EntryFormat.FrameMask` | linux-0.11/mm/memory.c:177-184 | the frame masks, the flags 7 of a new entry, and the comparison with LOW_MEM mean what the model makes of them |
| `EntryFormat.CleanMask` | linux-0.11/mm/memory.c:311 | (entry & 0x41) == 1 holds exactly for a present, clean page |
| `CacheRuns.BreadReturnsLatest` | linux-0.11/fs/buffer.c:267-281 | from boot on, over every interleaving of calls, users, write-back, eviction and completions, bread returns the last contents written to the block, or the disk's at boot, unless the block was freed since |
| `CacheRuns.RunIsFlatStore` | linux-0.11/fs/buffer.c:206-281 | the cache with its disk behaves like one array of blocks over every run, and the invariant holds throughout |
| `CacheRuns.BreadReturns` | linux-0.11/fs/buffer.c:263-281 | when bread returns it has a buffer of the block asked for, up to date, with the block's contents; it never fails when I/O succeeds |
| `CacheRuns.VictimIsFree` | linux-0.11/fs/buffer.c:237-251 | a buffer changes identity only at the end of getblk, when nobody uses it, it is unlocked and clean, the disk has its contents, and no buffer has the new identity |
| `CacheRuns.Boot` | linux-0.11/fs/buffer.c:348-381 | buffer_init establishes the invariant |
| `CacheRuns.BootStore` | linux-0.11/fs/buffer.c:348-381 | and every block is then what the disk holds |
| `CacheRuns.RequestsDiffer` | linux-0.11/kernel/blk_drv/ll_rw_blk.c:88-143 | two requests that wait at the same time are for different blocks |
| `WriteBack.ChangesReachDisk` | linux-0.11/fs/buffer.c:44-83 | over every run: when a write-back of a changed buffer is over and no request for its block is left, the disk has what was last put into the block, if nothing was put into it or freed meanwhile |
| `WriteBack.EndsCleanOrQueued` | linux-0.11/kernel/blk_drv/ll_rw_blk.c:88-143 | a call of ll_rw_block(WRITE) is over only if the buffer was clean, or with a request for it in the array |
| `WriteBack.WriterStep` | linux-0.11/kernel/blk_drv/ll_rw_blk.c:105-142 | its steps: the lock, if the buffer is dirty, and then the request |
| `WriteBack.StaysClean` | linux-0.11/fs/buffer.c:206-281 | a block without changes stays so until a user changes it |
| `CacheProgress.GetblkHits` | linux-0.11/fs/buffer.c:206-212 | a block in a buffer that is not locked: two steps, one reference more, and getblk returns it or bread reads it |
| `CacheProgress.GetblkMisses` | linux-0.11/fs/buffer.c:213-251 | a block in no buffer, with one that is unused, clean and not locked: two steps, and such a buffer is the block's, and the last to be reused |
| `CacheProgress.GetblkStartsOver` | linux-0.11/fs/buffer.c:227-242 | getblk starts over if the buffer has been taken, or the block has come in, while it slept |
| `CacheProgress.BreadReads` | linux-0.11/fs/buffer.c:267-281 | with a free slot: lock, request, completion, and bread returns the buffer with what the disk holds |
| `CacheProgress.BufferWritten` | linux-0.11/kernel/blk_drv/ll_rw_blk.c:88-143 | likewise for a write: the disk then has the buffer's data, and the buffer is clean |
| `CacheProgress.BreadFinds` | linux-0.11/kernel/blk_drv/ll_rw_blk.c:105-109 | a block that was read while bread waited for the lock: bread returns the buffer as it is |
| `CacheProgress.RacedWrite` | linux-0.11/kernel/blk_drv/blk.h:109-125 | a buffer changed while it is written is still dirty afterwards, whatever the disk has |
| `CacheProgress.BrelseIs` | linux-0.11/fs/buffer.c:253-261 | brelse takes back one reference |
| `CacheProgress.UsersChange` | linux-0.11/fs/bitmap.c:54-103 | who has a reference may change the data; who has the only one may clear or drop them |
| `CacheProgress.ScansSettle` | linux-0.11/kernel/blk_drv/ll_rw_blk.c:110-131 | a scan that is interrupted may settle for any unused buffer, or any empty slot: a write only for one of the first two thirds |
| `CacheSteps.StepKeeps` | linux-0.11/fs/buffer.c:7-13 | each step from one sleep to the next, and each completion, keeps: one buffer per block, counts equal to references, locks owned by one request, clean buffers equal to the disk, the free list a permutation |
| `CacheSteps.HashWaitKeeps` | linux-0.11/fs/buffer.c:183-196 | the buffer get_hash_table waited for is always still the right one |
| `CacheSteps.ReadWaitKeeps` | linux-0.11/fs/buffer.c:276-278 | a read that has been waited for has made the buffer valid |
| `CacheSteps.ClaimKeeps` | linux-0.11/fs/buffer.c:243-250 | taking over a buffer leaves every block's contents as they were |
| `CacheSteps.RequestKeeps` | linux-0.11/kernel/blk_drv/ll_rw_blk.c:132-142 | add_request hands the lock to the request and clears the dirty bit without losing data |
| `CacheSteps.FileKeeps` | linux-0.11/kernel/blk_drv/ll_rw_blk.c:115-131 | whichever empty slot the scan finds, interrupted or not, the request keeps the invariant and every block's contents |
| `CacheSteps.WaitKeeps` | linux-0.11/fs/buffer.c:213-231 | whichever buffer the scan settles for, interrupted or not, waiting for it keeps them too |
| `CacheSteps.CompleteKeeps` | linux-0.11/kernel/blk_drv/blk.h:109-125 | end_request unlocks exactly its buffer, and no block's contents change, even if a write raced with a change |
| `CacheSteps.LockKeeps` | linux-0.11/kernel/blk_drv/ll_rw_blk.c:42-49 | a lock obtained belongs to one caller |
| `CacheSteps.ChangeKeeps` | linux-0.11/fs/buffer.c:206-251 | changes by users that hold a reference change their own block only |
| `CacheInvariant.FindIs` | linux-0.11/fs/buffer.c:166-174 | with one buffer per block find_buffer finds that buffer |
| `BufferCache.Find` | linux-0.11/fs/buffer.c:166-174 | the buffer found has the identity asked for; -1 exactly if none has |
| `BufferCache.Victim` | linux-0.11/fs/buffer.c:205-223 | the buffer chosen is unused and no unused buffer is less bad |
| `CacheProgress.VictimOrder` | linux-0.11/fs/buffer.c:205-223 | clean goes before dirty, and then unlocked before locked |
| `CacheProgress.FirstOfBest` | linux-0.11/fs/buffer.c:214-223 | of the unused, clean and unlocked buffers the first on the free list is taken |
| `BufferCache.FreeSlot` | linux-0.11/kernel/blk_drv/ll_rw_blk.c:115-122 | the slot is empty, or there is none below the limit |
| `BufferQueues.BufferTable.FindBuffer` | linux-0.11/fs/buffer.c:166-174 | following one hash chain finds what a search of all buffers would |
| `BufferQueues.BufferTable.RemoveFromHash` | linux-0.11/fs/buffer.c:131-139 | the chains are exact for all buffers but the one removed |
| `BufferQueues.BufferTable.RemoveFromFreeList` | linux-0.11/fs/buffer.c:140-147 | the ring without the buffer, in the same order |
| `BufferQueues.BufferTable.InsertIntoFreeList` | linux-0.11/fs/buffer.c:149-155 | the buffer at the end of the ring |
| `BufferQueues.BufferTable.InsertIntoHash` | linux-0.11/fs/buffer.c:156-164 | the chains are exact again, an empty chain included |
| `BufferQueues.BufferTable.Reuse` | linux-0.11/fs/buffer.c:243-250 | the new identity, the new chain and the end of the free list, as the abstract cache has it |
| `BufferQueues.BufferTable.FindVictim` | linux-0.11/fs/buffer.c:213-223 | the walk around the ring picks the buffer the specification picks |
| `BufferQueues.BufferTable.constructor` | linux-0.11/fs/buffer.c:348-381 | empty chains and a ring of all buffers in order |
| `BufferQueues.RemoveChained` | linux-0.11/fs/buffer.c:134-139 | unlinking from a doubly linked chain leaves every chain a proper list |
| `BufferQueues.InsertChained` | linux-0.11/fs/buffer.c:161-163 | and so does putting a buffer first |
| `BufferQueues.RingUnlink` | linux-0.11/fs/buffer.c:143-146 | unlinking from the circular list |
| `BufferQueues.RingAppend` | linux-0.11/fs/buffer.c:152-155 | appending to the circular list |
| `Elevator.AddKeepsRuns` | linux-0.11/kernel/blk_drv/ll_rw_blk.c:78-84 | a new request keeps all requests and the head in place, and the list has at most one descent; each request stays in its pass |
| `Elevator.AddRunsExactly` | linux-0.11/kernel/blk_drv/ll_rw_blk.c:78-84 | for any request: the list still has two runs if and only if the request is not in the second run, nor the last of all, or fits into the first |
| `Elevator.EqualRequestsBreakRuns` | linux-0.11/kernel/blk_drv/ll_rw_blk.c:78-82 | a list and an equal request that do make a third run |
| `Elevator.ArriveKeeps` | linux-0.11/kernel/blk_drv/ll_rw_blk.c:64-86 | an arrival keeps the invariant |
| `Elevator.NextSectorKeeps` | linux-0.11/kernel/blk_drv/hd.c:258-266 | advancing the head by a sector keeps the order |
| `Elevator.FinishKeeps` | linux-0.11/kernel/blk_drv/blk.h:124 | removing the head keeps two runs |
| `Elevator.Served` | linux-0.11/kernel/blk_drv/blk.h:40-43 | however many requests arrive, fewer than twice the key space are finished before a queued request is at the head |
| `Elevator.NoneLost` | linux-0.11/kernel/blk_drv/ll_rw_blk.c:64-86 | over every run the blocks asked for are those finished and those still in the list, each as often: no request is lost or served twice |
| `Elevator.StepTargets` | linux-0.11/kernel/blk_drv/blk.h:109-125 | what an arrival, a sector and a completion do to the blocks asked for, and that they can happen |
| `Elevator.StepWait` | linux-0.11/kernel/blk_drv/blk.h:109-125 | no step makes a request wait longer, and each finished request brings it nearer |
| `Elevator.RankOrder` | linux-0.11/kernel/blk_drv/blk.h:40-43 | IN_ORDER is the order of command, device and sector taken as one number |
| `RequestQueue.RequestQueue.AddRequest` | linux-0.11/kernel/blk_drv/ll_rw_blk.c:64-86 | the splice in the linked list is the insertion the lemmas are about |
| `RequestQueue.RequestQueue.EndRequest` | linux-0.11/kernel/blk_drv/blk.h:109-125 | the head leaves the list and its slot is free |
| `RequestQueue.RequestQueue.MakeRequest` | linux-0.11/kernel/blk_drv/ll_rw_blk.c:110-142 | the highest free slot below the limit is used, the last third being for reads; none is used only if all are busy |
| `RequestQueue.RequestQueue.constructor` | linux-0.11/kernel/blk_drv/ll_rw_blk.c:157-165 | an empty list and free slots |
| `FileSystemRuns.RunRefines` | linux-0.11/fs/file_dev.c:17-90 | over every run of whole calls that write, truncate and create blocks, none ending in a panic, the files are the sequences of bytes that updating and clearing sequences gives, and all zones stay owned exactly once |
| `FileSystemRuns.WriteRefines` | linux-0.11/fs/file_dev.c:48-90 | file_write is an update of one sequence, short only on a full disk |
| `FileSystemRuns.ReadRefines` | linux-0.11/fs/file_dev.c:17-46 | file_read is a slice, with zeros past the end |
| `FileSystemRuns.TruncateRefines` | linux-0.11/fs/truncate.c:47-64 | truncate empties one sequence |
| `FileSystemRuns.CreateRefines` | linux-0.11/fs/inode.c:145-148 | create_block changes no sequence |
| `FileSystemRuns.UnownedContents` | linux-0.11/fs/bitmap.c:96-103 | what a free zone holds makes no difference to any file |
| `FileSystemRuns.FreshInv` | linux-0.11/fs/bitmap.c:31-105 | an empty file system satisfies the invariant |
| `FileSystemRuns.CallsHappen` | linux-0.11/fs/inode.c:140-148 | files can be truncated, created in and written to within the largest file at any time; a block created is there if and only if the free zones suffice |
| `ZoneRaces.OwnedIffNoOverlap` | linux-0.11/fs/inode.c:72-138 | from a disk where the zones marked are the zones owned, over any interleaving of calls that make places and copy bytes, split where new_block sleeps: when all have ended, that is so again if and only if no call got a zone for a place that another was making |
| `ZoneRaces.Final` | linux-0.11/fs/bitmap.c:75-105 | in every state of every run, overlapping or not, no zone has two owners, every owned zone is marked, and the zones being made are marked and nobody's |
| `ZoneRaces.LostForever` | linux-0.11/fs/bitmap.c:47-105 | a marked zone that no place and no call has is lost for good |
| `ZoneRaces.BytesArrive` | linux-0.11/fs/file_dev.c:62-82 | as long as no two calls make the same place at once, each block of each file holds exactly what was copied into it, in the order of copying |
| `ZoneRaces.CalmStep` | linux-0.11/fs/inode.c:82-86 | one step: nothing is lost or contested afterwards if and only if it was so before and the step does not make a place that is being made |
| `ZoneRaces.StoredZones` | linux-0.11/fs/inode.c:100-105 | a zone put in a place is there if the place's table still is, and then what was below the place is gone; nothing else changes |
| `ZoneRaces.TwoCallsOnePlace` | linux-0.11/fs/inode.c:82-83 | on any disk with two free zones, two calls that find the same place missing lose a zone |
| `ZoneRaces.AloneIsGiven` | linux-0.11/fs/inode.c:72-138 | without interruption the two steps are what _bmap does at a missing place |
| `ZoneRaces.CopyFollows` | linux-0.11/fs/file_dev.c:62-82 | data can be copied into a block as soon as it is in its place |
| `FileContents.WriteIsUpdate` | linux-0.11/fs/file_dev.c:48-90 | unless it panics: the bytes written are there, bytes elsewhere and in other files are as before, the size grows to cover them; it stops short only when the disk is full |
| `DiskSpace.WriteCompletes` | linux-0.11/fs/file_dev.c:60-90 | a write is complete if and only if it ends within the largest file and the clear bits of the zone map suffice for the blocks and tables missing on its way |
| `DiskSpace.WritePanics` | linux-0.11/fs/inode.c:76-79 | file_write panics if and only if it has data for a position past 7+512+512*512 blocks and there are free zones for all that is missing before that |
| `DiskSpace.EnsureFills` | linux-0.11/fs/inode.c:74-140 | _bmap makes a block if and only if there are free zones for what is missing on the way to it, takes just as many, and gives zones to no other place |
| `FileContents.ReadIsSlice` | linux-0.11/fs/file_dev.c:17-46 | each byte returned is the byte at its position |
| `FileContents.TruncateIs` | linux-0.11/fs/truncate.c:47-64 | never panics; the file has no zones left and every other file has its own |
| `FileContents.TruncateFrees` | linux-0.11/fs/truncate.c:47-64 | the bits cleared are exactly those of the zones the file owned |
| `FileContents.TruncateBytes` | linux-0.11/fs/truncate.c:47-64 | the file reads as zeros, the others as before |
| `FileContents.TruncateSpares` | linux-0.11/fs/truncate.c:51-52 | of an inode that is neither a file nor a directory nothing is freed |
| `FileContents.FreeTreeClears` | linux-0.11/fs/truncate.c:11-45 | freeing what a place points to clears exactly the bits of the zones below it, each once |
| `Zones.SlotOfIs` | linux-0.11/fs/inode.c:81-130 | every block below the limit has a place in the tree of its file |
| `Zones.SlotOfInjective` | linux-0.11/fs/inode.c:81-130 | distinct blocks have distinct places |
| `ZoneOwnership.EnsureKeeps` | linux-0.11/fs/inode.c:72-138 | _bmap keeps every zone owned once and all contents; it returns the block's zone, and 0 only if not asked to make one or on a full disk |
| `ZoneOwnership.NewBlockIs` | linux-0.11/fs/bitmap.c:75-105 | the first free zone, marked and cleared; none exactly when all are owned, and then no zone's bit changes |
| `ZoneOwnership.NewBlockLeaks` | linux-0.11/fs/bitmap.c:88-95 | new_block sets a bit and returns 0 if and only if every zone is taken and a bit past the last zone is clear |
| `ZoneOwnership.LeakyDisk` | linux-0.11/fs/bitmap.c:88-95 | a disk on which it does |
| `ZoneOwnership.FreeUndoesNew` | linux-0.11/fs/bitmap.c:47-73 | free_block after new_block gives the old map |
| `ZoneOwnership.FreeBlockIs` | linux-0.11/fs/bitmap.c:54-73 | free_block clears the bit of a marked zone and panics for every other number |
| `ZoneOwnership.GivenZones` | linux-0.11/fs/inode.c:101-105 | a new zone changes what one place points to, and nothing else |
| `ZoneOwnership.GetPut` | linux-0.11/fs/inode.c:100-105 | reading a table entry back after writing it |
| `Device.Device.FindFirstZero` | linux-0.11/fs/bitmap.c:31-45 | the first clear bit of a map block, word by word |
| `Device.Device.NewBlock` | linux-0.11/fs/bitmap.c:75-105 | the search over the map blocks in place is the specification |
| `Device.Device.FreeBlock` | linux-0.11/fs/bitmap.c:47-73 | in place, with its two panics |
| `Device.Device.Bmap` | linux-0.11/fs/inode.c:72-138 | the three-level code in place is the specification |
| `Device.Device.FreeInd` | linux-0.11/fs/truncate.c:11-27 | the loop over a table in place |
| `Device.Device.FreeDind` | linux-0.11/fs/truncate.c:29-45 | the loop over a table of tables in place |
| `Device.Device.Truncate` | linux-0.11/fs/truncate.c:47-64 | in place; nothing for anything but files and directories |
| `Device.Device.FileWrite` | linux-0.11/fs/file_dev.c:48-90 | the loops in place, with the file position and O_APPEND |
| `Device.Device.FileRead` | linux-0.11/fs/file_dev.c:17-46 | the loops in place; the disk is left alone |
| `Scheduling.BoundedWaiting` | linux-0.11/kernel/sched.c:122-141 | a task that stays runnable is picked before the others have used four times the sum of priorities in ticks that find a positive counter, while tasks sleep and wake freely |
| `Scheduling.BoundedTicks` | linux-0.11/kernel/sched.c:305-336 | a task that stays runnable is picked within eight times the sum of priorities ticks in user mode, and one, whatever counters these find |
| `Scheduling.SliceEnds` | linux-0.11/kernel/sched.c:332-335 | a tick in user mode that finds at most one unit left, with any task runnable: the current task then is runnable, has time left, and none has more |
| `Scheduling.SliceGoesOn` | linux-0.11/kernel/sched.c:332-334 | every other tick takes one unit from the current task and changes nothing else |
| `Scheduling.SchedulePicks` | linux-0.11/kernel/sched.c:122-141 | when nothing is woken during the scan, the task picked is runnable with the largest counter, task 0 exactly if nothing else can run; one round of recharging is always enough |
| `Scheduling.RechargeNeeded` | linux-0.11/kernel/sched.c:135-139 | counters are recharged only when every runnable task has none left |
| `Scheduling.SleepersGain` | linux-0.11/kernel/sched.c:136-139 | recharging gives a runnable task as many units as its priority; a task that sleeps with units left gets ahead of those, to at most twice that |
| `Scheduling.SleepYields` | linux-0.11/kernel/sched.c:151-162 | a task that goes to sleep gives the processor to the best of the others, task 0 if there is none |
| `Scheduling.WokenIsPicked` | linux-0.11/kernel/sched.c:188-194 | wake_up makes one task runnable and nothing else, and that task is picked within the bound of ticks |
| `Scheduling.ReschedPicks` | linux-0.11/kernel/sched.c:122-141 | any call of schedule picks a runnable task that no other exceeds |
| `Scheduling.InterruptedScan` | linux-0.11/kernel/sched.c:125-134 | when tasks are woken during the scan: the task found can run, no task runnable at the start had a larger counter when looked at, and none is found exactly if none was runnable when looked at |
| `Scheduling.Overlooked` | linux-0.11/kernel/sched.c:125-134 | a task woken when the scan is past it is not found although no other can run |
| `Scheduling.StepKeeps` | linux-0.11/kernel/sched.c:305-336 | counters never exceed twice the priority |
| `Scheduling.StepWait` | linux-0.11/kernel/sched.c:332-335 | no step costs a waiting task patience, and a tick with a positive counter uses some up |
| `Scheduling.OneRound` | linux-0.11/kernel/sched.c:135-139 | after one round the scan finds a positive counter |
| `Scheduling.Scheduler.Schedule` | linux-0.11/kernel/sched.c:122-141 | the loop ends and does what the specification says |
| `Scheduling.Scheduler.Scan` | linux-0.11/kernel/sched.c:125-134 | the scan from the last task down |
| `Scheduling.Scheduler.RechargeAll` | linux-0.11/kernel/sched.c:136-139 | the recharging loop |
| `Scheduling.Scheduler.DoTimer` | linux-0.11/kernel/sched.c:332-335 | the counter part of do_timer |
| `SleepQueues.WokenInTurn` | linux-0.11/kernel/sched.c:151-165 | with interrupts off in sleep_on, over every run from a state with exact chains, a task of a woken chain is awake exactly when as many tasks of the chain have resumed as were ahead of it: no wake-up is lost or given twice |
| `SleepQueues.WakeReachesAll` | linux-0.11/kernel/sched.c:151-194 | likewise: a task asleep on a queue when wake_up is called is awake, in any later run, exactly once those that went to sleep after it have resumed |
| `SleepQueues.AlwaysReachable` | linux-0.11/kernel/sched.c:151-194 | likewise: in every state reached from empty queues, every sleeper is reachable through the tmp variables from its queue or from an awake task in sleep_on |
| `SleepQueues.Tracked` | linux-0.11/kernel/sched.c:151-194 | likewise: the chains are exact in every state of every run |
| `SleepQueues.SleepAdds` | linux-0.11/kernel/sched.c:158-161 | sleep_on puts the caller last on its queue and changes no other |
| `SleepQueues.WakeEmpties` | linux-0.11/kernel/sched.c:188-194 | wake_up empties the queue, wakes its last task only, and those who were on it stay together |
| `SleepQueues.ResumeLeaves` | linux-0.11/kernel/sched.c:163-164 | the task that resumes was the last of its group, leaves it, and wakes the one before it and nobody else |
| `SleepQueues.WakeTakesAll` | linux-0.11/kernel/sched.c:188-194 | wake_up takes everyone then asleep on the queue |
| `SleepQueues.SleeperReachable` | linux-0.11/kernel/sched.c:151-165 | every sleeper is reachable through the tmp variables from its queue or from a woken task |
| `SleepQueues.ResumeKeeps` | linux-0.11/kernel/sched.c:163-164 | the task a resuming one wakes is asleep on the same queue |
| `SleepQueues.WakeKeeps` | linux-0.11/kernel/sched.c:188-194 | and so is the one wake_up wakes |
| `SleepQueues.StepKeeps` | linux-0.11/kernel/sched.c:151-194 | the chains stay disjoint, acyclic and exact |
| `SleepRaces.SoundIffCalm` | linux-0.11/kernel/blk_drv/ll_rw_blk.c:129 | sleep_on with interrupts on, in three steps, over every run from empty queues: no sleeper is ever lost and whoever is to be woken next sleeps on that queue, if and only if no wake_up of a queue that is not empty comes inside a call of sleep_on for it |
| `SleepRaces.FoundIffCalm` | linux-0.11/kernel/sched.c:158-162 | if *p is read and written at one go, every sleeper is always reachable if and only if no wake_up of the queue comes between the link and the sleep of a call |
| `SleepRaces.WholeQueueLost` | linux-0.11/kernel/sched.c:158-162 | after one wake_up between the link and the sleep, the caller and all who waited on the queue sleep in every later state |
| `SleepRaces.LostForever` | linux-0.11/kernel/sched.c:151-194 | sleepers that only each other's tmp variables lead to are never woken |
| `SleepRaces.CalmIsWhole` | linux-0.11/kernel/sched.c:151-165 | a run without such wake-ups is a run of the machine whose sleep_on is one step |
| `SleepRaces.WholeCall` | linux-0.11/kernel/sched.c:151-165 | a call that nothing disturbs, with its wake-up and end: the queue is empty, and of all others only the one that slept before the caller is awake |
| `SleepQueues.WaitQueues.SleepOn` | linux-0.11/kernel/sched.c:151-162 | over task states, heads and stack variables: the caller becomes the last of the tasks waiting on its queue and falls asleep; no other queue changes |
| `SleepQueues.WaitQueues.SleepOnReturns` | linux-0.11/kernel/sched.c:163-165 | the caller was the last of the tasks it slept with, leaves them, and the one before it is the only task woken |
| `SleepQueues.WaitQueues.WakeUp` | linux-0.11/kernel/sched.c:188-194 | the queue is empty, its last task is the only one woken, and those who waited there stay together, in order |
| `SleepQueues.WaitQueues.constructor` | linux-0.11/kernel/sched.c:151-194 | empty queues with exact chains |
| `Processes.FindPid` | linux-0.11/kernel/fork.c:139-142 | the search ends within 65 tries with the first number after the last that nobody has, wrapping to 1 |
| `Processes.FewTries` | linux-0.11/kernel/fork.c:139-142 | numbers tried in vain are different numbers in use, of which there are at most 64 |
| `Processes.NewPid` | linux-0.11/kernel/fork.c:135-147 | the number of a new process is positive and unused |
| `Processes.RunKeeps` | linux-0.11/kernel/exit.c:102-135 | over every run numbers are distinct and every process has a running father |
| `Processes.Reapable` | linux-0.11/kernel/exit.c:142-195 | every zombie has a running father whose waitpid for its number finds it, and whose wait() finds a zombie |
| `Processes.WaitAny` | linux-0.11/kernel/exit.c:150-195 | waitpid(-1) reaps if and only if some child is a zombie, and fails if and only if there is no child |
| `Processes.WaitOne` | linux-0.11/kernel/exit.c:150-195 | waitpid of a number likewise for the child of that number |
| `Processes.WaitGroup` | linux-0.11/kernel/exit.c:150-195 | waitpid(0) and of a negative number below -1 likewise for the children of that process group |
| `Processes.CodeArrives` | linux-0.11/kernel/exit.c:130-195 | a process that ends is a zombie with its exit code, which its father finds by its number |
| `Processes.LifeOfChild` | linux-0.11/kernel/fork.c:68-147 | a fork, an exit and a wait for the number fork has returned can all happen, and leave every slot as it was |
| `Processes.WaitIs` | linux-0.11/kernel/exit.c:147-195 | waitpid takes a zombie child if there is one, sleeps exactly if there are only others, fails exactly if there is none |
| `Processes.EndExitKeeps` | linux-0.11/kernel/exit.c:83-100 | the father of an exiting process is there to be told |
| `Processes.BeginExitKeeps` | linux-0.11/kernel/exit.c:108-114 | children given to process 1 have a running father |
| `Processes.ForkKeeps` | linux-0.11/kernel/fork.c:68-133 | a new process gets a number of its own and its caller as father |
| `Processes.ForkIs` | linux-0.11/kernel/fork.c:68-147 | fork succeeds if and only if there is a free slot and memory; the child is its caller but for number, father and state; one that fails has used up a number |
| `Processes.FatherGone` | linux-0.11/kernel/exit.c:83-100 | a process whose father is not to be found releases its own slot |
| `Processes.ProcessTable.Fork` | linux-0.11/kernel/fork.c:68-147 | find_empty_process and copy_process over the table |
| `Processes.ProcessTable.BeginExit` | linux-0.11/kernel/exit.c:108-114 | the loop over the table |
| `Processes.ProcessTable.EndExit` | linux-0.11/kernel/exit.c:130-132 | the zombie state and tell_father |
| `Processes.ProcessTable.WaitPid` | linux-0.11/kernel/exit.c:147-195 | the scan, with WNOHANG, and the release of the slot |
| `BucketRuns.RunKeeps` | linux-0.11/lib/malloc.c:117-231 | over every run of malloc, free_s and stores by users, an object that is not freed keeps its place, its length and every word last stored in it |
| `BucketRuns.FreeDone` | linux-0.11/lib/malloc.c:182-231 | in every reachable state free_s of an object that has not been freed ends without a panic |
| `BucketRuns.ObjectsApart` | linux-0.11/lib/malloc.c:117-173 | in every reachable state objects are disjoint and within one page |
| `BucketRuns.StartGood` | linux-0.11/lib/malloc.c:76-88 | the empty heap is where runs start |
| `BucketRuns.StoreKeeps` | linux-0.11/lib/malloc.c:160-164 | a store within an object damages no free chain and no other object |
| `BucketLemmas.MallocKeeps` | linux-0.11/lib/malloc.c:117-173 | the object is new, and no other object is touched |
| `HeapPages.MallocExactly` | linux-0.11/lib/malloc.c:127-172 | malloc fails if and only if more than a page is asked for, or no page for the smallest size that fits has room and the system gives none, for objects or descriptors; it takes a page if and only if none has room |
| `BucketLemmas.FreeKeeps` | linux-0.11/lib/malloc.c:182-231 | only the object freed goes; the page is given back exactly when it was the last on it |
| `HeapPages.RoundTrip` | linux-0.11/lib/malloc.c:117-231 | malloc and free_s of what it gave leave the objects and the pages as they were |
| `HeapPages.UsersMay` | linux-0.11/lib/malloc.c:182-231 | users can free what they have, and store into it |
| `HeapPages.FreePage` | linux-0.11/lib/malloc.c:207-223 | the descriptor goes with the page |
| `BucketLemmas.LastObject` | linux-0.11/lib/malloc.c:207-208 | the count is 1 exactly when no other object is on the page |
| `BucketLemmas.FreeStranger` | linux-0.11/lib/malloc.c:202 | free_s of an address on no page of the heap panics |
| `HeapPages.FreeTooLarge` | linux-0.11/lib/malloc.c:192-202 | free_s with a size larger than the objects of the page panics |
| `BucketLemmas.Disjoint` | linux-0.11/lib/malloc.c:160-164 | an object ends before the next begins |
| `BucketLemmas.LinkCellsIs` | linux-0.11/lib/malloc.c:160-164 | each cell of a new page points to the next, the last to nothing |
| `BucketLemmas.BucketForIs` | linux-0.11/lib/malloc.c:127-134 | the first bucket large enough |
| `KernelHeap.KernelHeap.LinkPage` | linux-0.11/lib/malloc.c:156-164 | the loop that links the cells |
| `KernelHeap.KernelHeap.Malloc` | linux-0.11/lib/malloc.c:117-173 | the searches and updates in place |
| `KernelHeap.KernelHeap.FreeS` | linux-0.11/lib/malloc.c:182-231 | the search and the updates in place |
| `ExecArguments.Execve` | linux-0.11/fs/exec.c:311-334 | succeeds if and only if the free pages suffice for all strings (and these leave one byte unused); then the strings are at the top of memory and the count and tables below them |
| `ExecArguments.ArgumentArrives` | linux-0.11/fs/exec.c:46-70 | the i-th pointer of argv addresses a zero-terminated copy of the i-th string, above the tables; the table ends with a null pointer |
| `ExecArguments.EnvironmentArrives` | linux-0.11/fs/exec.c:46-70 | and so for envp |
| `ExecArguments.ArgPages.CopyStrings` | linux-0.11/fs/exec.c:104-152 | the strings end up one after the other below the starting point, across pages, and nothing else changes; it fails exactly when pages run out or the space is filled to its first byte |
| `ExecArguments.ChangeLdt` | linux-0.11/fs/exec.c:154-177 | each page appears at its place below 64 MB |
| `ExecArguments.UserMemory.CreateTables` | linux-0.11/fs/exec.c:46-70 | count, table addresses and both tables, aligned, and nothing at or above the strings is changed |
| `ExecArguments.UserMemory.FillTable` | linux-0.11/fs/exec.c:59-68 | a null-terminated table of pointers to consecutive strings |
| `ExecArguments.PutGet` | linux-0.11/fs/exec.c:46-70 | a long read back after it was put |
| `ScriptExec.ParseBang` | linux-0.11/fs/exec.c:235-256 | the first line taken apart into blanks, interpreter and argument, with the interpreter's base name; failure exactly without a complete line or with a blank one |
| `ScriptExec.CopyAll` | linux-0.11/fs/exec.c:261-279 | interpreter name, argument, script name, and the arguments after the first, in memory order; fails exactly when pages run out or the space is filled |
| `ScriptExec.ExecveScript` | linux-0.11/fs/exec.c:226-297 | succeeds if and only if the free pages suffice; what the interpreter then finds, with and without arguments |
| `ScriptExec.ScriptExactly` | linux-0.11/fs/exec.c:263 | the interpreter sees the right arguments if and only if execve was given at least one |
| `Pipes.FirstInFirstOut` | linux-0.11/fs/pipe.c:13-69 | from a new pipe, over every interleaving of the turns of readers and writers, bytes delivered are a prefix of bytes accepted and the rest is in the pipe, at most 4095 |
| `Pipes.NothingTakenBack` | linux-0.11/fs/pipe.c:13-69 | what was accepted or delivered at one time of a run stays so, in that order |
| `Pipes.TurnKeeps` | linux-0.11/fs/pipe.c:24-65 | one turn moves bytes from the front or to the end, and the gap between head and tail is what is in the pipe |
| `PipeCalls.CallsEnd` | linux-0.11/fs/pipe.c:13-69 | a reader that wants n bytes and a writer with data, in whatever order they run, end after a bounded number of turns: the reader has its n bytes, the oldest, if and only if there are as many, else it sleeps with all there are; the writer is done if and only if the rest fits, else it sleeps at a full pipe |
| `PipeCalls.ComesToRest` | linux-0.11/fs/pipe.c:13-69 | such an end can be reached from every state |
| `PipeCalls.BoundedCalls` | linux-0.11/fs/pipe.c:17-68 | every turn brings the calls nearer to their end |
| `PipeCalls.NeverBothAsleep` | linux-0.11/fs/pipe.c:17-68 | over every run a single reader and a single writer are never both asleep, who sleeps has nothing to do or will be woken, and what is read is what was written, in order |
| `PipeCalls.AfterClose` | linux-0.11/fs/pipe.c:20-21 | when the other end is closed nobody sleeps: the reader gets what is left, the writer stops at a full pipe |
| `Pipes.PipeInode.Read` | linux-0.11/fs/pipe.c:24-35 | the oldest bytes, across the end of the page |
| `Pipes.PipeInode.Write` | linux-0.11/fs/pipe.c:54-65 | bytes put after the unread ones, none of which is overwritten |
| `Pipes.PutRing` | linux-0.11/fs/pipe.c:61-65 | new bytes follow the unread ones around the end of the page |
| `TerminalRuns.RightIffStocked` | linux-0.11/kernel/chr_drv/tty_io.c:249-283 | typing interrupts tty_read between its test, GETCH and the counter. Over every interleaving, in any mode: data is the number of line ends in the queue, the queue is within bounds, and readers get what is in it, if and only if the queue is never empty when GETCH is done |
| `TerminalRuns.Emptied` | linux-0.11/kernel/chr_drv/tty_io.c:161-191 | between the test and GETCH a queue becomes empty only in canonical mode, without a finished line in it, and by an erase or kill key |
| `TerminalRuns.EraseUnderReader` | linux-0.11/kernel/chr_drv/tty_io.c:261-272 | it happens: with the console's settings, a reader of three characters, "x", newline, "y", and an erase |
| `TerminalRuns.StepKeeps` | linux-0.11/kernel/chr_drv/tty_io.c:249-283 | while GETCH finds a character, a reader's step moves characters from the front of the queue to the reader and changes nothing else, and every step keeps queue and counter right |
| `TerminalRuns.RunKeeps` | linux-0.11/kernel/chr_drv/tty_io.c:145-288 | then queue and counter are right after every run, and what has been read stays read |
| `TerminalRuns.LinesArrive` | linux-0.11/kernel/chr_drv/tty_io.c:145-288 | then, in canonical mode: what was read and the finished lines in the queue stay an unchanged prefix of what is read and queued later |
| `TerminalRuns.EditorExactly` | linux-0.11/kernel/chr_drv/tty_io.c:145-288 | then, in canonical mode from an idle terminal: what readers have and what is queued are together what a line editor makes of the keys if and only if no erase or kill is typed when the characters it should delete have been read |
| `TerminalRuns.EraseAfterReader` | linux-0.11/kernel/chr_drv/tty_io.c:178-191 | such an erase happens too: the reader has just taken the character |
| `TerminalRuns.AloneIsTake` | linux-0.11/kernel/chr_drv/tty_io.c:261-272 | a read that nothing interrupts is what the loop is specified to do |
| `TerminalRuns.BeginsExactly` | linux-0.11/kernel/chr_drv/tty_io.c:256-259 | a read gets past its test exactly if there is something to read, in canonical mode a finished line or a nearly full queue |
| `TerminalRuns.KeysInTwo` | linux-0.11/kernel/chr_drv/tty_io.c:145-149 | it makes no difference in how many interrupts keys arrive, and what finds the queue full waits |
| `LineDiscipline.CopyIsEdit` | linux-0.11/kernel/chr_drv/tty_io.c:145-228 | copy_to_cooked in canonical mode is a line editor: erase and kill only change the unfinished line |
| `LineDiscipline.CopyKeeps` | linux-0.11/kernel/chr_drv/tty_io.c:145-228 | typing keeps the counter and the bound; input is left over only when the queue is full |
| `LineDiscipline.ReturnIsNewline` | linux-0.11/kernel/chr_drv/tty_io.c:151-153 | with ICRNL alone, input makes the same line with newlines for carriage returns |
| `LineDiscipline.ReturnsIgnored` | linux-0.11/kernel/chr_drv/tty_io.c:154-155 | with IGNCR and not ICRNL, carriage returns make no difference |
| `LineDiscipline.NewlineIsReturn` | linux-0.11/kernel/chr_drv/tty_io.c:157-158 | with INLCR and not ICRNL, newlines act as carriage returns that are kept |
| `LineDiscipline.BothSwap` | linux-0.11/kernel/chr_drv/tty_io.c:151-158 | with ICRNL and INLCR they change places |
| `LineDiscipline.CaseIgnored` | linux-0.11/kernel/chr_drv/tty_io.c:159-160 | with IUCLC, upper case acts as lower case |
| `LineDiscipline.RawIsCopied` | linux-0.11/kernel/chr_drv/tty_io.c:145-228 | without flags, editing and signals the input is queued as it is, up to the room there is |
| `LineDiscipline.EnterEndsWait` | linux-0.11/kernel/chr_drv/tty_io.c:151-225 | Enter with ICRNL ends the wait of a canonical reader |
| `LineDiscipline.PlainKey` | linux-0.11/kernel/chr_drv/tty_io.c:210-226 | a key that is not special is queued |
| `LineDiscipline.ControlKeys` | linux-0.11/kernel/chr_drv/tty_io.c:191-209 | the stop, start, interrupt and quit keys do what they are for and are not queued |
| `LineDiscipline.TakeIs` | linux-0.11/kernel/chr_drv/tty_io.c:261-272 | reading takes from the front; an end of file is taken, not delivered, and ends the read |
| `LineDiscipline.WaitsForLine` | linux-0.11/kernel/chr_drv/tty_io.c:256-259 | a canonical reader waits exactly while no line is finished, unless the queue is nearly full; any other exactly while there is nothing to read |
| `LineDiscipline.KilledIs` | linux-0.11/kernel/chr_drv/tty_io.c:164-174 | kill leaves everything up to the last line end |
| `TerminalRings.TtyQueue.PutCh` | linux-0.11/include/linux/tty.h:33-34 | a character put into a queue that is not full follows the unread ones |
| `TerminalRings.TtyQueue.GetCh` | linux-0.11/include/linux/tty.h:31-32 | the oldest character; an empty queue is full afterwards |
| `TerminalRings.TtyQueue.Last` | linux-0.11/include/linux/tty.h:28 | the newest character |
| `TerminalRings.TtyQueue.DropLast` | linux-0.11/include/linux/tty.h:25 | the newest character goes |
| `TerminalRings.TtyQueue.Left` | linux-0.11/include/linux/tty.h:27 | the masked difference is the room left |
| `TerminalRings.TtyQueue.Empty` | linux-0.11/include/linux/tty.h:26 | equal positions mean no characters |
| `TerminalRings.Tty.TypeChar` | linux-0.11/kernel/chr_drv/tty_io.c:150-225 | one character through all branches, without the echo |
| `TerminalRings.Tty.KillLine` | linux-0.11/kernel/chr_drv/tty_io.c:162-176 | the loop of the kill character |
| `TerminalRings.Tty.CopyToCooked` | linux-0.11/kernel/chr_drv/tty_io.c:145-228 | the loop over the two rings |
| `TerminalRings.Tty.ReadChunk` | linux-0.11/kernel/chr_drv/tty_io.c:261-272 | the inner loop of tty_read, undisturbed |
| `Numbers.OutputDenotes` | linux-0.11/kernel/vsprintf.c:40-90 | between blanks, sign and prefix on one side and blanks on the other are digits that denote exactly the 32-bit magnitude, the most negative int included |
| `Numbers.OutputLength` | linux-0.11/kernel/vsprintf.c:66-88 | the length is the field width or what sign, prefix, precision and digits need, whichever is larger |
| `Numbers.PrintedParses` | linux-0.11/kernel/vsprintf.c:40-90 | in every base and with all flags, a signed number read back is itself, the most negative int too, and an unsigned one its 32-bit word |
| `Numbers.SignShown` | linux-0.11/kernel/vsprintf.c:52-78 | minus for a negative number, else plus or blank as the flags ask, in front of the prefix |
| `Numbers.Justified` | linux-0.11/kernel/vsprintf.c:67-88 | blanks before only when justified right without zeros, after only when left; more zeros than the precision asks for only to pad |
| `Numbers.DigitsDenote` | linux-0.11/kernel/vsprintf.c:64-65 | the digits of a value denote it in every base from 2 to 36 |
| `Numbers.DigitsFit` | linux-0.11/kernel/vsprintf.c:64-65 | a value below 2^k has at most k digits |
| `Numbers.Number` | linux-0.11/kernel/vsprintf.c:40-90 | the code with its moving counters produces that layout for all flags; nothing for other bases |
| `Numbers.FillTmp` | linux-0.11/kernel/vsprintf.c:61-65 | the digits in tmp, last first, in at most 32 of its 36 cells |
| `Numbers.SkipAtoi` | linux-0.11/kernel/vsprintf.c:18-25 | the value of the leading digits, cut to 32 bits, and what follows them |
| `Numbers.ReadBack` | linux-0.11/kernel/vsprintf.c:18-25 | skip_atoi reads back every plain non-negative int |

## Left out

- Boot code, descriptor tables, trap stubs, `switch_to`, segment registers, TLB flushes and the FPU: hardware detail; `switch_to` is the assignment of the current task.
- Disk and floppy controllers, DMA, ports, serial lines, keyboard, console: a device is a step that completes a request.
- I/O errors, disk change, mount and umount, ioctl.
- `breada` (`fs/buffer.c:322-346`): line 336 reads ahead into the wrong buffer, so nothing is claimed of it; `bread_page` is four reads at once.
- `block_write` (`fs/block_dev.c`): it dirties a whole block that was never valid, which breaks the law that dirty buffers are up to date.
- `sync_inodes`, the inode cache, directories, path walking, permissions, and the one-branch system calls.
- `ll_rw_block` chooses the driver before it waits for the buffer's lock (`kernel/blk_drv/ll_rw_blk.c:149-154`); the model has one request array and leaves the choice of driver out.
- Requests of several drivers share the request array; `RequestQueue` follows the list of one of them.
- Timers (`add_timer`, alarms) and signals; waking a task with a pending signal is one of the free wake-ups of the scheduling runs.
- `interruptible_sleep_on`: a sleeper that is signalled breaks the chains the queue theorems are about.
- Times and statistics: access times, CPU times, process groups beyond `waitpid`.
- `do_no_page` reading a page from the executable: the page arrives by the events that take, fill and give a page; `bmap` and `bread` are modelled on their own.
- `respond` in `kernel/chr_drv/console.c` calls `copy_to_cooked` from a process, with interrupts on; here it runs in interrupts only.
- The echo of typed characters: `PUTCH` into the write queue is unchecked, so no invariant holds there.
- `tty_read`'s alarm and minimum count; one turn of its loop is modelled.
- `tolower` is modelled for letters; the table it looks into has no entry for most negative characters.
- `Device`: the zone map is an array of bits, and the bit instructions are reads and writes of its elements; block contents are sequences held in an array.
- `SleepQueues.WaitQueues`: the stack variables of `sleep_on` are a map from tasks to frames.
- Device.Device.FreeBlock: does not model the early return when the block's buffer is in use elsewhere (`fs/bitmap.c:57-62`), which keeps the zone marked; the theorems assume freed blocks are not in use.
- BufferQueues.BufferTable.InsertIntoHash: models the write to `b_prev` of the next buffer only if there is one (`fs/buffer.c:163` has no such test).
- KernelHeap.KernelHeap.Malloc: the chains of bucket descriptors are sequences and the free descriptors a number; their `next` pointers are not modelled.
- KernelHeap.KernelHeap.FreeS: likewise; unlinking a descriptor is removing it from its sequence.
- Processes.WaitIs: stopped children are not modelled, because nothing in the kernel sets TASK_STOPPED.
- Processes.ProcessTable.WaitPid: likewise for TASK_STOPPED and WUNTRACED.
- ZoneRaces.OwnedIffNoOverlap: does not split the calls at `bread` of a table, and has no `truncate` among the steps.
- FileSystemRuns.RunRefines: whole calls are single steps; calls that overlap are the subject of `ZoneRaces`.
- `kernel_mktime`, CHS arithmetic, the rest of `vsprintf`, stub libraries.
