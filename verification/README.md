# xv6-riscv, modelled and proved in Dafny

This project models the parts of the kernel and its user library whose correctness spans many
functions or many steps, and proves what they promise for every input, every run and every
interleaving the model has. `dafny verify dfyconfig.toml` checks all of it.

Where the C code updates memory in place, the model is a class whose methods carry the same loops
and branches; each method is tied to a function on plain values, and the theorems are about those.
Protocols are state machines over their atomic steps.

- `LogFormat`, `Log`, `LogRuns`, `LogCode`: the redo log: commit and recovery as sequences of single-block writes, the code of log.c over the buffer cache, all runs with crashes at any write, and that the code follows these runs.
- `BufferCache`: the LRU buffer cache of bio.c: a doubly linked ring with reference counts, locks and pins.
- `Blocks`, `FileLayout`, `BlockUse`, `Files`, `WorstDisk`: bitmap, direct and indirect blocks, which blocks a write takes and logs, readi, writei, itrunc and filewrite over raw blocks, and a disk on which a write logs the most.
- `Links`, `DirNames`, `Directory`: directories as maps from names to inodes, and link counts: create, link, unlink.
- `PageTable`, `Vm`, `FreeTables`, `UserImage`, `UserMemory`: physical pages with owners, three-level page tables in memory, and user memory as processes see it.
- `Process`, `ExecImage`, `Exec`: fork's memory, sbrk and its limit, and exec.
- `Scheduler`, `LockOrder`, `ExitWait`, `WaitOutcomes`: the priority scheduler and its fairness, process-lock order on many CPUs, the exit/wait/reparent protocol, and what each call has done when it returns.
- `Virtqueue`, `DiskRequests`, `VirtioDisk`: the virtio disk: driver and device steps on shared rings, whole requests, and the driver's code.
- `Pipe`: pipes: sections under the pipe lock, and the ring with wrapping counters.
- `FreeList`, `Malloc`: the user-level allocator.
- `Grep`: the pattern matcher of grep.
- `Basics`: a few shared definitions.

Main results:

- **Crash atomicity.** In every run of grouped operations, with crashes between any two block writes
  and again during recovery, recovery gives exactly the writes of the committed operations, in order,
  and an operation is committed whole or not at all (`LogRuns.CrashAtomicity`, `LogRuns.Durability`).
  Whenever no operation is open, all of them are committed (`LogRuns.NothingPending`). Each call of the code is
  an event of such a run, and each disk it goes through one at which that event can be cut (`LogCode.EndOp`).
- **Log space.** Header entries plus unspent reservations never exceed the log. An operation with some of its
  reservation left never meets the panic of `log_write` exactly when the on-disk log has more than LOGSIZE
  blocks (`LogRuns.PanicFreeExactlyWhen`); with `log.size` equal to LOGSIZE, as mkfs makes it, there is a run
  that panics. For any `log_write` at all, also one of a block that is listed already, the exact condition is
  that the list has reached the smaller of LOGSIZE and `log.size` - 1 (`LogRuns.PanicsExactlyWhen`).
- **Files are byte sequences.** `writei` splices, `readi` slices and no other file changes. Which blocks a
  write takes and logs is exact, and so is when it runs out of them. One chunk of `filewrite` logs at most
  MAXOPBLOCKS blocks, and that many are reached: by a write of three blocks that begins one byte into the last
  direct block, when the four lowest free blocks lie under four bitmap blocks (`Files.FileSystem.Writei`). A
  file system where it happens is given (`WorstDisk.WorstExists`).
- **Pages are conserved.** Every allocatable page is free, owned by exactly one slot of one page table,
  or out with a caller; a failed fork or exec leaves every page where it was; exec's success gives back
  the whole old image; and a process sees flat memory whatever the physical pages behind it. A new program
  starts with exactly the bytes of its segments, zeros elsewhere, a page it cannot touch below its stack, and an
  argv it can walk (`Exec.ReplaceImage`).
- **No lost exit, no wait cycle**, over all interleavings the machines have. A wait that returns has reaped
  exactly one zombie child, or had a reason not to (`WaitOutcomes.WaitReturns`); it sleeps exactly if it was not
  killed and has children, none of them a zombie (`WaitOutcomes.WaitOutcome`).
- **Fair slices.** Any set of fresh CPU-bound processes of equal priority, among other slots that do anything,
  stay within one run of each other exactly when the priority is below 2^31 - 5 and, besides, each of their slices
  is charged a tick or the clip of the dynamic priority makes the charge irrelevant (`Scheduler.FairExactlyWhen`).
- **Link counts** equal the entries that name an inode from linked directories, in every run; and each call
  changes one name of one directory and nothing else (`DirNames.NamesHold`).
- **Rings**: virtqueue indices wrap at 16 bits and pipe counters at 32 bits without losing, repeating or
  misdirecting anything. A disk request that returns was carried out exactly once since it started, a write with
  what its buffer had then, a read with what the disk had (`DiskRequests.WholeRequest`).
- **The allocator** keeps one address-ordered cycle of disjoint, never-adjacent free blocks and shares out
  every unit it got. What it hands out after growing is memory it was given exactly when the request is at most
  0x7FFFFFE0 bytes (`Malloc.BackedExactly`).
- **The matcher** accepts exactly the texts with a substring in the pattern's language; patterns and their texts
  correspond one to one (`Grep.TextOfParse`, `Grep.ParseOfText`).

Where the code and its comments disagree the model follows the code: `uvmdealloc` says the old size may be
larger than the process, but unmapping a page that is not mapped panics, so the model requires the pages to
be there; and `waitx`, the priority-dependent memory limit and the limit system call are not claimed to do
what their comments say.

Five properties hold only under a condition, and each condition is proved exact.

- A reader asleep on a pipe has always meant empty with the write end open, exactly if no write was cut short by
  a kill while a reader slept (`Pipe.NoLostReader`, with a run in `Pipe.LostReader`).
- `log_write` panics exactly when the list is at its limit. With a log larger than LOGSIZE that happens only when
  every reservation is spent and the block is listed already: the size test comes before absorption
  (`LogRuns.PanicsExactlyWhen`). No size of the log rules it out (`LogRuns.SomeWritePanics`).
- Fairness fails in two ways, and only these. Processes that give up the CPU before a tick passes starve one that
  was charged a tick, for any number of slices, at every priority strictly between -5 and 100
  (`Scheduler.Starvation`). At the five largest priorities the sum of the dynamic priority wraps to a negative int,
  and one process that was charged a tick gets every slice, however many ticks are charged
  (`Scheduler.Monopoly`). At all other priorities fairness needs no ticks (`Scheduler.FairExactlyWhen`).
- A process asleep in `wait` has not been killed, exactly unless the kill came after `wait` looked at the flag and
  before `sleep` took the process lock (`WaitOutcomes.KillLostExactlyWhen`, with a run in `WaitOutcomes.LostKill`).
- `morecore` cuts the size in bytes to an int. Beyond 0x7FFFFFE0 bytes `malloc` can hand out a block that `sbrk` did
  not give: for 0xFFFFFFFF bytes, one of 2^28 + 1 units of which one is there (`Malloc.LargestRequest`,
  `Malloc.BackedExactly`).

## Model

| member | source | states |
|---|---|---|
| `LogFormat.RecoveryIsRestartable` | kernel/log.c:116-123 | a crash after any write of a recovery leaves a disk whose recovery gives the same home blocks |
| `LogFormat.CommitLogPhase` | kernel/log.c:178-191 | the log copies change neither the header nor any home block, and put the cache's contents in the log |
| `LogFormat.HeaderWriteCommits` | kernel/log.c:102-114 | once the header is written, recovery gives the listed blocks their new contents and leaves the rest |
| `LogFormat.InstallTwice` | kernel/log.c:68-83 | installing a prefix and then everything is installing everything |
| `LogFormat.CommitIsAtomic` | kernel/log.c:193-203 | after any number of commit's writes, recovery gives the state before (up to the last log copy) or the whole transaction (from the header write on); after all of them the log is empty |
| `LogFormat.NoHomeWriteBeforeHeader` | kernel/log.c:193-203 | no home block changes before the header write has happened |
| `LogFormat.CommitTraceIsReplay` | kernel/log.c:193-203 | the second half of commit makes the same writes, in the same order, as recovery would |
| `Log.FillHeader` | kernel/log.c:108-111 | the loop writes the count and the block list into the header block |
| `Log.FindBlock` | kernel/log.c:225-228 | the absorption loop finds the first entry for the block, or the end of the list |
| `Log.Log.LogWrite` | kernel/log.c:214-235 | absorbs or appends the block and pins it once; refuses exactly when the log is full or no operation is open |
| `Log.Log.TryBeginOp` | kernel/log.c:126-142 | reserves exactly when nobody commits and MAXOPBLOCKS more per open operation fit |
| `Log.Log.WriteLog` | kernel/log.c:178-191 | the disk after each turn is the commit prefix of that length |
| `Log.Log.InstallTrans` | kernel/log.c:68-83 | copies the logged blocks home, unpins them, and goes through exactly the replay states |
| `Log.Log.WriteHead` | kernel/log.c:102-114 | one write that puts the list into the header block |
| `Log.Log.Commit` | kernel/log.c:193-203 | the disk goes through exactly the commit states; afterwards the log is empty, nothing is pinned, and the cache shows what it showed |
| `Log.Log.EndOp` | kernel/log.c:146-175 | only the last open operation writes the disk, and then commits everything |
| `Log.Log.ReadHead` | kernel/log.c:86-97 | reads back the block list that the header holds |
| `Log.Log.RecoverFromLog` | kernel/log.c:116-123 | the disk goes through exactly the recovery states, and a cold cache then shows the recovered disk |
| `LogRuns.StepInv` | kernel/log.c:126-235 | every step of the log machine, crash included, keeps the run invariant |
| `LogRuns.CrashAtomicity` | kernel/log.c:68-203 | in every run the recovered disk is the start with exactly the committed writes applied, and each operation's writes are committed all or none |
| `LogRuns.Durability` | kernel/log.c:146-203 | what was committed once stays committed in every continuation |
| `LogRuns.NothingPending` | kernel/log.c:146-175 | in every run, when no operation is open, nothing is listed, every change is committed, and recovery would give what the cache shows |
| `LogRuns.EndCommits` | kernel/log.c:146-203 | an open operation can always end; the last one makes 2n + 2 writes, or none with nothing listed, can be cut after any of them, and keeps all changes exactly if the header was written; any other end_op writes nothing |
| `LogCode.BeginOp` | kernel/log.c:126-142 | the code gets past begin_op exactly when the machine lets an operation begin, and is then where the machine is |
| `LogCode.WriteBlock` | kernel/log.c:214-235 | storing and logging a block is the machine's event, and panics exactly where the machine goes down |
| `LogCode.EndOp` | kernel/log.c:146-203 | each disk that end_op goes through is the one at which the machine's event is cut there, and a complete end_op is the complete event |
| `LogCode.Recover` | kernel/log.c:116-123 | recovery at boot is the machine's event, cut where the code stopped |
| `LogRuns.LogNeverOverfull` | kernel/log.c:126-142 | logged blocks plus unspent reservations never exceed LOGSIZE |
| `LogRuns.PanicFreeExactlyWhen` | kernel/log.c:214-222 | in every run an operation that has some of its reservation left can log without a panic, if and only if the log has more than LOGSIZE blocks |
| `LogRuns.PanicsExactlyWhen` | kernel/log.c:214-235 | in every run, any log_write, of a new block or of a listed one, panics exactly when the list is at LOGSIZE, or at log.size - 1 in a smaller log; in a larger log it then finds every reservation spent and the block listed |
| `LogRuns.SomeWritePanics` | kernel/log.c:214-222 | for every size of the log there is a run with such a panic: three operations spend what they reserved, and one logs a listed block again |
| `BufferCache.UnlinkRing` | kernel/bio.c:128-129 | taking a buffer out of the linked ring gives the ring without it |
| `BufferCache.PushRing` | kernel/bio.c:130-133 | linking a buffer behind the head gives the ring with it first |
| `BufferCache.RequeueRing` | kernel/bio.c:126-134 | release moves the buffer to the front and keeps all others in order |
| `BufferCache.Lookup` | kernel/bio.c:66-73 | the forward walk finds the buffer of the block, or none has it |
| `BufferCache.LeastRecentlyUsed` | kernel/bio.c:77-87 | the backward walk finds the least recently used unreferenced buffer, or all are referenced |
| `BufferCache.Oldest` | kernel/bio.c:77-87 | the last unreferenced buffer of a list in order of recency is the one unreferenced for longest |
| `BufferCache.MostRecent` | kernel/bio.c:126-134 | moving the buffer just released to the front keeps the list in order of recency |
| `BufferCache.Binit` | kernel/bio.c:36-53 | the loop builds a ring of all buffers |
| `BufferCache.Cache.Bget` | kernel/bio.c:58-89 | returns the one buffer of the block, recycling, if needed, the unreferenced one whose last reference went longest ago; fails exactly when all are in use |
| `BufferCache.Cache.Bread` | kernel/bio.c:92-103 | the locked buffer holds the latest contents of the block |
| `BufferCache.Cache.Bwrite` | kernel/bio.c:106-112 | exactly one block of the disk changes, to the buffer's contents |
| `BufferCache.Cache.Brelse` | kernel/bio.c:116-137 | unlocks, drops a reference, and moves an unreferenced buffer to the front, which keeps the list in order of recency; a changed block must be written or pinned |
| `BufferCache.Cache.Bpin` | kernel/bio.c:139-144 | a pinned block keeps its buffer: its reference count includes the pin |
| `BufferCache.Cache.Bunpin` | kernel/bio.c:146-151 | the pin and its reference go together |
| `Blocks.WordAfterSet` | kernel/fs.c:395-397 | a word stored in an indirect block reads back, and no other word changes |
| `Blocks.WithBitBits` | kernel/fs.c:64-103 | setting a bit of a bitmap byte changes that bit only |
| `FileLayout.AllocatedOwned` | kernel/fs.c:64-86 | allocating a block no slot owns leaves every owner as it was |
| `FileLayout.PutEntryOwned` | kernel/fs.c:394-400 | an indirect entry takes ownership of the new block and of nothing else |
| `FileLayout.FreeEntryOwned` | kernel/fs.c:423-429 | freeing an entry's block ends its ownership and nobody else's |
| `Files.FindFree` | kernel/fs.c:64-86 | the nested scan finds the lowest clear bit, or none is clear |
| `Files.FileSystem.constructor` | mkfs/mkfs.c:234-248 | the file system before its first file is consistent: the loop marks exactly the metadata blocks |
| `Files.FileSystem.Balloc` | kernel/fs.c:64-86 | the lowest block that no file owns, now marked and zeroed, with exactly it and its bitmap block logged; fails exactly when every data block is owned |
| `Files.FileSystem.Bmap` | kernel/fs.c:377-405 | the block's address, allocated if missing; no file's bytes and no other address change; the blocks taken are the lowest free ones, as many as were missing, and exactly what changed is logged; it fails only out of range or for want of blocks |
| `Files.FileSystem.WriteLoop` | kernel/fs.c:497-506 | the bytes of the range become the data; exactly the missing blocks of the range are filled, with the lowest free ones; the set of blocks logged is given exactly; it fails exactly when fewer blocks are free than are missing |
| `Files.FileSystem.Writei` | kernel/fs.c:486-517 | the file becomes the old one with the data spliced in, no other file changes, -1 exactly past the end or the maximum size, and a panic exactly for want of free blocks; the blocks logged are exact, at most MAXOPBLOCKS for three blocks of data, and just that many in the worst place |
| `Files.FileSystem.Readi` | kernel/fs.c:455-477 | exactly the slice of the file, cut at its end; nothing changes |
| `Files.FileSystem.Bfree` | kernel/fs.c:89-103 | clears the block's bit, and panics exactly when it was clear |
| `Files.FileSystem.Itrunc` | kernel/fs.c:409-437 | exactly this inode's blocks are released, each was marked, and every other file is untouched |
| `Files.FileSystem.FileWrite` | kernel/file.c:134-181 | the written prefix is spliced in, all of it exactly when it fits, and no chunk's operation logs more than MAXOPBLOCKS blocks |
| `BlockUse.ChunkBudget` | kernel/file.c:149-155 | four data blocks, their bitmap blocks, the indirect block and the inode make at most ten distinct blocks |
| `BlockUse.WorstChunk` | kernel/file.c:149-155 | ten are logged when a write of three blocks that begins in the last direct block takes the four lowest free blocks and these lie under four bitmap blocks |
| `WorstDisk.WorstExists` | kernel/file.c:149-155 | there is a consistent file system on which such a write can be made |
| `Files.WriteDone` | kernel/fs.c:508-516 | after the loop and the size update the file system is consistent and the contents are the splice |
| `Files.SpliceBytes` | kernel/fs.c:486-517 | byte by byte: the new bytes where they go, the old ones elsewhere, and what was written is read back |
| `Links.LinkInv` | kernel/sysfile.c:119-166 | link keeps all counts right and the directory tree well formed |
| `Links.UnlinkInv` | kernel/sysfile.c:184-239 | unlink of a file keeps them, and the file's count was positive |
| `Links.CreateInv` | kernel/sysfile.c:241-284 | create of a file keeps them |
| `Links.MkdirInv` | kernel/sysfile.c:241-284 | create of a directory keeps them, ".." counting for the parent |
| `Links.OnlyLink` | kernel/sysfile.c:213-216 | the only link to an empty directory is its one name |
| `Links.ParentStays` | kernel/sysfile.c:221-224 | a directory that loses a subdirectory keeps a link |
| `Links.RmdirInv` | kernel/sysfile.c:184-239 | unlink of an empty directory keeps them, the parent losing the ".." |
| `Links.DropInv` | kernel/fs.c:332-358 | freeing an inode without links keeps them |
| `Links.LinkCountsHold` | kernel/sysfile.c:119-284 | in every run nlink is the number of entries other than "." that name the inode from linked directories |
| `Links.FreshInv` | mkfs/mkfs.c:117-128 | the empty file system has right counts, the root's ".." counting for itself |
| `DirNames.CallEffect` | kernel/sysfile.c:119-284 | link, unlink, rmdir, create and mkdir each set or remove one name of one directory, a new inode has its kind and, if a directory, just its dot names, and every other name and kind stays |
| `DirNames.NamesHold` | kernel/sysfile.c:119-284 | in every run no directory has a name twice, and every call has just that effect |
| `DirNames.FreshUnique` | mkfs/mkfs.c:117-128 | the empty file system has no name twice |
| `Directory.FileTree.Dirlookup` | kernel/fs.c:529-553 | the first entry with the name, or none has it |
| `Directory.FileTree.Dirlink` | kernel/fs.c:556-583 | the entry goes into the first empty place, exactly when the name is not taken; it panics exactly when the directory is full |
| `Directory.FileTree.Isdirempty` | kernel/sysfile.c:169-182 | true exactly when nothing but the dot entries is left |
| `Directory.FileTree.Ialloc` | kernel/fs.c:195-215 | the lowest free inode, with the new type; it panics exactly when none is free |
| `Directory.FileTree.Link` | kernel/sysfile.c:119-166 | succeeds exactly for a non-directory and a free name in an existing directory that is not full; failure restores the count; all counts stay right; names being unique, as every call keeps them, the name then finds the inode, and no other name or kind changes |
| `Directory.FileTree.Unlink` | kernel/sysfile.c:184-239 | removes the first entry of the name; refuses exactly dot names, missing names and directories that are not empty; the nlink panic is unreachable; names being unique, as every call keeps them, the name is then gone, and no other name or kind changes |
| `Directory.FileTree.Create` | kernel/sysfile.c:241-284 | makes a new inode exactly when the name is free, else returns an existing file or device only for a file; it panics exactly for a new name without a free inode or in a full directory, and its own panics are unreachable; names being unique, as every call keeps them, the name then finds an inode of the kind asked for, and no other name or kind changes |
| `PageTable.PageSlotVpn` | kernel/riscv.h:357 | the three indices of a page number give the page number back |
| `PageTable.SetEntryElsewhere` | kernel/vm.c:137-160 | writing one entry of a table changes what a slot holds only at and below that entry |
| `PageTable.AddNodeEntry` | kernel/vm.c:91-94 | a new zeroed table changes no slot but the one that points to it |
| `Vm.Freerange` | kernel/kalloc.c:33-40 | the loop puts every page of the range on the list once |
| `Vm.TakenOk` | kernel/kalloc.c:68-82 | kalloc keeps memory consistent, and the page belonged to nobody |
| `Vm.ReturnedOk` | kernel/kalloc.c:46-63 | kfree of a page out with its caller keeps memory consistent |
| `Vm.AttachedOk` | kernel/vm.c:91-94 | adding an inner table keeps memory consistent, changes no page entry, and touches no other page table |
| `Vm.SpaceFits` | kernel/vm.c:220-244 | user pages are different pages of memory, so a space never reaches the trapframe page |
| `Vm.ImageApart` | kernel/vm.c:137-328 | what happens in one page table leaves the memory another process sees as it was |
| `FreeTables.PruneChild` | kernel/vm.c:266-282 | freeing a child table and clearing its entry removes exactly what was below it |
| `FreeTables.FreedAll` | kernel/vm.c:266-282 | when the loop is done, the node and all below it are gone, each page given back once |
| `FreeTables.ReleaseRoot` | kernel/vm.c:286-292 | then nothing is owned by the page table any more, and nothing outside it has changed |
| `FreeTables.CameAndWent` | kernel/proc.c:171-228 | a page table that was built and freed leaves the same pages free, and every other page with its owner and contents |
| `UserMemory.Memory.constructor` | kernel/kalloc.c:26-40 | at the start all pages are free |
| `UserMemory.Memory.Kalloc` | kernel/kalloc.c:68-82 | the first page of the free list, filled with junk; fails exactly when the list is empty |
| `UserMemory.Memory.Kfree` | kernel/kalloc.c:46-63 | the page goes on the list, filled with junk |
| `UserMemory.Memory.Walk` | kernel/vm.c:80-98 | finds the level-0 table, adding at most two inner tables; no translation of any page table changes |
| `UserMemory.Memory.Mappages` | kernel/vm.c:137-160 | an exact update of the page map, or of a prefix when memory runs out |
| `UserMemory.Memory.Uvmunmap` | kernel/vm.c:165-187 | exactly these mappings go, and their pages when asked; the panics are unreachable for mapped pages |
| `UserMemory.Memory.Uvmcreate` | kernel/vm.c:191-200 | a new empty page table, or nothing changed |
| `UserMemory.Memory.Uvmdealloc` | kernel/vm.c:250-262 | user memory is cut to the pages the new size needs |
| `UserMemory.Memory.Uvmalloc` | kernel/vm.c:220-244 | success leaves the old memory as it was and gives new pages that user code can read, write and execute and that read as zero, or memory stays as it was, and then fewer than three free pages were left per new page |
| `UserMemory.GrownZero` | kernel/vm.c:220-244 | at every address of the pages added, user code has all access and reads 0 |
| `UserMemory.Memory.Freewalk` | kernel/vm.c:266-282 | exactly the table and all below it are freed; it never meets a leaf |
| `UserMemory.Memory.Uvmfree` | kernel/vm.c:286-292 | the page table and all user pages are given back |
| `UserMemory.Memory.Uvmcopy` | kernel/vm.c:300-328 | the child sees a copy of the parent's memory in its own pages, or nothing; the parent's memory is unchanged |
| `UserMemory.Memory.Uvmclear` | kernel/vm.c:332-341 | user code loses one page and nothing else changes |
| `UserMemory.Memory.Walkaddr` | kernel/vm.c:103-121 | an address is found exactly when user code may use it, and the page holds what the process sees |
| `UserMemory.Memory.Copyout` | kernel/vm.c:346-366 | the bytes are stored up to the first address user code cannot use, across pages, and nothing else changes |
| `UserMemory.Memory.Copyin` | kernel/vm.c:371-391 | the bytes user code sees, up to the first address it cannot use |
| `UserImage.CopyRoundTrip` | kernel/vm.c:346-391 | copyin of a range gives back what copyout stored there |
| `UserImage.UserMapped` | kernel/vm.c:137-160 | mapping the next page appends it to what the process sees |
| `UserImage.UserUnmapped` | kernel/vm.c:165-187 | unmapping the last pages cuts them off what the process sees |
| `UserImage.UserWrite` | kernel/vm.c:346-366 | a store to one physical page changes exactly one page of one process |
| `UserMemory.Memory.ProcPagetable` | kernel/proc.c:194-219 | an empty space with trampoline and trapframe mapped and closed to user code, or every page back where it was |
| `UserMemory.Memory.ProcFreepagetable` | kernel/proc.c:222-228 | everything of the process is given back and nothing else changes |
| `Process.Proc.Growproc` | kernel/proc.c:269-299 | success adds n to the size within the limit, or takes n off if there is so much; failure changes nothing; user pages are exactly those the size needs, the new ones zero; it fails only over the limit or short of pages |
| `Process.MemoryLimit` | kernel/proc.c:269-299 | over any sequence of calls the size stays within the limit or the size at the start |
| `Process.ForkMemory` | kernel/proc.c:302-321 | the child has a copy of the parent's memory and its own trapframe, or every page is back where it was |
| `ExecImage.StoredIs` | kernel/exec.c:135-154 | a store at an address determines the whole image |
| `ExecImage.PushKeeps` | kernel/exec.c:79-98 | a push below what was pushed leaves it in place |
| `ExecImage.LeRoundTrip` | kernel/exec.c:88-97 | a pointer pushed as little-endian bytes reads back as itself |
| `ExecImage.PointerAt` | kernel/exec.c:88-97 | each eight bytes of the pushed array are the pointer of that index, and the last eight are null |
| `ExecImage.ArgvIs` | kernel/exec.c:79-98 | user code that loads pointer i of the array finds argument i as a terminated string, and null behind the last |
| `ExecImage.LoadedBytes` | kernel/exec.c:42-59 | loaded memory holds at each address the byte of the last segment whose file part covers it, and 0 if none does |
| `ExecImage.ProgramIs` | kernel/exec.c:42-74 | the memory a program starts with: its segments open to user code, a page it cannot reach, and the stack page |
| `Exec.Loadseg` | kernel/exec.c:135-154 | the file's bytes are in place exactly when the file has enough of them; the panic is unreachable |
| `Exec.LoadSegment` | kernel/exec.c:47-58 | one header: memory has room for it and its bytes, exactly its refusals and want of pages stop it, and the size never shrinks |
| `Exec.LoadSegments` | kernel/exec.c:42-59 | on success no header was refused and memory is the segments loaded in order into zeroed pages; it stops only at an unreadable or refused header or for want of pages |
| `Exec.AddStack` | kernel/exec.c:69-74 | two more pages, the lower one closed to user code |
| `Exec.PushArgs` | kernel/exec.c:79-98 | exactly when they fit, the stack page holds an argv in order with a null behind the last, each pointer leading to its terminated string, at a 16-byte aligned stack pointer |
| `Exec.ReplaceImage` | kernel/exec.c:12-129 | failure leaves the process and every page as before; success installs the new image, byte for byte that of the segments with zeros elsewhere, a guard page and a stack with a correct argv, and gives back every page of the old one; it never succeeds with a refused header, that is, a file size above the memory size, a wrapping or unaligned address, an empty segment at address 0 before any other memory, or a file too short; and it succeeds whenever no header is refused, the arguments fit and there are enough pages |
| `Scheduler.Nice` | kernel/proc.c:498-502 | niceness is between 0 and 10: the tenths of the time that were slept, and 5 without any time |
| `Scheduler.Select` | kernel/proc.c:487-544 | the first of the runnable slots least by dynamic priority (cut to an int, then clipped), runs and age; it ends holding exactly that slot's lock, or none |
| `Scheduler.BestIs` | kernel/proc.c:518-541 | compared with any runnable slot the choice has no higher dynamic priority number, then no more runs, then no later creation, then the lower index |
| `Scheduler.BestUnique` | kernel/proc.c:518-541 | there is only one such slot |
| `Scheduler.Table.UpdateTime` | kernel/proc.c:758-777 | each tick adds one to the running time of the running, also in its total, and to the sleeping time of the sleeping, and nothing else |
| `Scheduler.Table.Pass` | kernel/proc.c:471-563 | one pass gives the best process one slice, the sleepers' sleep grows by its ticks, and nothing else changes |
| `Scheduler.BestRanLeast` | kernel/proc.c:496-532 | if one of a set of fair CPU-bound processes is chosen among any others, it is one of the set that ran least |
| `Scheduler.Fairness` | kernel/proc.c:471-563 | on one CPU, whatever the other slots do and whoever leaves, a set of fresh CPU-bound processes of equal priority below 2^31 - 5 never differ by more than one run, when each of their slices is charged a tick or the clip makes the charge irrelevant |
| `Scheduler.Starvation` | kernel/proc.c:496-532 | at every priority strictly between -5 and 100, two or more processes have a run in which one is charged a tick, and the others, which give up the CPU before a tick passes, share all later slices, any number of them |
| `Scheduler.Monopoly` | kernel/proc.c:504-510 | at the five largest priorities there is a run, of any length and with any number of ticks per slice, in which one of the set gets every slice and the others none |
| `Scheduler.FairExactlyWhen` | kernel/proc.c:496-563 | all runs with at least a given number of ticks for each slice of the set keep its two or more processes within one run of each other, if and only if that number is positive or the priority at least 100 or at most -5, and the priority is below 2^31 - 5 |
| `LockOrder.StepInv` | kernel/proc.c:487-601 | every step, also of a handler that interrupts the scheduler between two slots, keeps each CPU's locks, its nesting count and the order of best and wanted slot right |
| `LockOrder.WaitsUp` | kernel/proc.c:487-544 | a CPU that waits while another waits for it holds one lock, of smaller index than the one it wants |
| `LockOrder.NoCycle` | kernel/proc.c:487-601 | no wait cycle over process locks is reachable, on any number of CPUs |
| `LockOrder.NoDeadlock` | kernel/spinlock.c:21-43 | if every CPU spins on a process lock, one of those locks is free |
| `LockOrder.OneLockAtSwitch` | kernel/proc.c:548-589 | each switch happens with exactly one process lock and nesting count one, the scheduler can be interrupted between slots exactly when it has none, and the check in sched passes exactly when no other spinlock is held |
| `LockOrder.AnySlotRuns` | kernel/proc.c:487-601 | on any CPU any slot can be chosen in a pass, its process then runs with just its own lock held, and so is the scheduler switched back to |
| `LockOrder.HandlerRuns` | kernel/proc.c:487-544 | between any two slots, with nothing chosen, a handler can come in and take any process lock |
| `LockOrder.Apply` | kernel/spinlock.c:88-110 | after any nested sequence of push_off and pop_off the count is the depth, interrupts are off inside, and as before outside |
| `LockOrder.Hart.Push` | kernel/spinlock.c:88-97 | at depth zero it saves the interrupt flag; interrupts go off and the depth grows by one |
| `LockOrder.Hart.Pop` | kernel/spinlock.c:99-110 | the depth shrinks by one, and at zero the saved flag comes back |
| `ExitWait.StepInv` | kernel/proc.c:302-458 | every step of fork, exit, reparent, wait, sleep, wakeup and kill keeps the invariant |
| `ExitWait.NoLostExit` | kernel/proc.c:368-458 | whenever wait_lock is free, no process asleep in wait, or on its way to sleep there, has a zombie child |
| `ExitWait.ParentsLive` | kernel/proc.c:354-407 | no zombie and no unused slot is anyone's parent |
| `WaitOutcomes.WaitOutcome` | kernel/proc.c:421-456 | a wait step reaps the zombie child it is at, or changes nothing but its place; it goes to sleep exactly after the last slot, not killed and with children, and then none of them is a zombie |
| `WaitOutcomes.WaitReturns` | kernel/proc.c:410-458 | a wait that returns has freed exactly one slot, a zombie child's, or the copy failed, or it was killed with no zombie child, or it has no child |
| `WaitOutcomes.ForkReturns` | kernel/proc.c:302-348 | a fork that returns has made a live child of its caller, or given the slot back, and touched no other |
| `WaitOutcomes.ExitLeaves` | kernel/proc.c:368-407 | a process that becomes a zombie keeps its parent, who is not at rest, and has no children |
| `WaitOutcomes.ZombieGoes` | kernel/proc.c:424-443 | a zombie goes only when its parent's wait reaps it |
| `WaitOutcomes.ParentChanges` | kernel/proc.c:354-364 | a child changes hands only from an exiting parent to init |
| `WaitOutcomes.KillMarks` | kernel/proc.c:658-680 | kill sets the flag and wakes a sleeper, and changes no other process |
| `WaitOutcomes.KillLostExactlyWhen` | kernel/proc.c:451-456 | a process on its way to sleep in wait, or asleep there, has been killed if and only if a kill came between its look at the flag and the lock that sleep takes |
| `WaitOutcomes.LostKill` | kernel/proc.c:451-456 | a run in which such a kill leaves init asleep |
| `WaitOutcomes.NeverStuck` | kernel/proc.c:302-458 | a live process is held up only by wait_lock or by the lock of one that is switching away; outside these calls it may wait, exit unless it is init, and fork while a slot is unused |
| `WaitOutcomes.HolderGoesOn` | kernel/proc.c:354-458 | the holder of wait_lock can go on, or waits for a process that can give up its lock |
| `WaitOutcomes.HolderReleases` | kernel/proc.c:354-458 | each step of the holder of wait_lock releases it or leaves less to do, by a measure with a lower bound |
| `Virtqueue.RingPush` | kernel/virtio_disk.c:260-265 | a new ring entry overwrites none that is waiting, also when the 16-bit index wraps |
| `Virtqueue.RingPop` | kernel/virtio_disk.c:300-311 | the entry read next is the oldest one waiting |
| `Virtqueue.ChainsDisjoint` | kernel/virtio_disk.c:189-201 | two requests in flight share no descriptor |
| `Virtqueue.AtMostTwo` | kernel/virtio_disk.c:189-221 | at most two requests are in flight |
| `Virtqueue.SubmitInv` | kernel/virtio_disk.c:215-265 | submitting keeps the invariant |
| `Virtqueue.CompleteInv` | kernel/virtio_disk.c:226-253 | the device finds in the chain exactly the request, buffer and status byte of its head, and carrying it out keeps the invariant |
| `Virtqueue.SeeInv` | kernel/virtio_disk.c:300-312 | the handler finds a finished request with status 0 and releases that request's buffer |
| `Virtqueue.FinishInv` | kernel/virtio_disk.c:272-280 | a request that returns was carried out exactly once, its buffer holds what was moved, and freeing its chain keeps the invariant |
| `Virtqueue.StartInv` | kernel/virtio_disk.c:125-138 | the tables that virtio_disk_init leaves satisfy the invariant |
| `Virtqueue.AllRuns` | kernel/virtio_disk.c:203-315 | in every interleaving of driver, device and writers of idle buffers from there on the invariant holds, at most two requests are in flight, whatever can happen next finds memory as it relies on, and a request that returns was carried out once |
| `DiskRequests.DataMoves` | kernel/virtio_disk.c:203-315 | in every run the disk changes only by a write that completes, and a buffer only by a read that completes or while no request uses it |
| `DiskRequests.StepMovesOn` | kernel/virtio_disk.c:203-315 | each step of driver or device moves one request on by one stage, and leaves all others and what was asked as they are |
| `DiskRequests.CanGoOn` | kernel/virtio_disk.c:203-315 | a request in flight is never stuck: at each stage there is a step to take |
| `DiskRequests.WholeRequest` | kernel/virtio_disk.c:203-280 | a request that returns was carried out exactly once since it started: a write put on the disk what its buffer had at the start, a read left in the buffer what the disk had |
| `VirtioDisk.Disk.constructor` | kernel/virtio_disk.c:125-138 | the loop frees every descriptor, and the tables are those of the start |
| `VirtioDisk.Disk.AllocDesc` | kernel/virtio_disk.c:144-154 | the lowest free descriptor, or none is free |
| `VirtioDisk.Disk.FreeDesc` | kernel/virtio_disk.c:157-170 | the descriptor is cleared and free |
| `VirtioDisk.Disk.FreeChain` | kernel/virtio_disk.c:173-185 | exactly the three descriptors of the chain are cleared and free |
| `VirtioDisk.Disk.Alloc3` | kernel/virtio_disk.c:189-201 | three different free descriptors, or none taken and at most two were free |
| `VirtioDisk.Disk.StartRw` | kernel/virtio_disk.c:203-269 | the request goes out exactly when fewer than two are in flight |
| `VirtioDisk.Disk.Intr` | kernel/virtio_disk.c:282-315 | every completion in the ring is seen, each once; the panic is unreachable |
| `VirtioDisk.Disk.EndRw` | kernel/virtio_disk.c:272-280 | the chain is freed, and the request had been carried out once |
| `Pipe.StepKeeps` | kernel/pipe.c:58-130 | every section keeps the order of bytes and the reason writers sleep; it keeps the reason readers sleep exactly unless it is a write cut short by a kill while one sleeps |
| `Pipe.AllRuns` | kernel/pipe.c:58-130 | in every run what was read is a prefix of what was written, at most 512 bytes are outstanding, and a sleeping writer means full with the read end open |
| `Pipe.NoLostReader` | kernel/pipe.c:76-130 | in every run, up to any point, a sleeping reader has always meant empty with the write end open, if and only if no kill cut a write short while a reader slept |
| `Pipe.LostReader` | kernel/pipe.c:84-87 | a run with such a kill in which a reader sleeps on a pipe that is not empty |
| `Pipe.Ring.constructor` | kernel/pipe.c:33-36 | a new pipe is empty and open at both ends |
| `Pipe.Ring.IsFull` | kernel/pipe.c:88 | the 32-bit comparison means 512 bytes are outstanding, also when the counters have wrapped |
| `Pipe.Ring.Enqueue` | kernel/pipe.c:95 | the byte goes behind all outstanding ones and overwrites none |
| `Pipe.Ring.Dequeue` | kernel/pipe.c:123 | the oldest outstanding byte |
| `Pipe.Ring.WriteSection` | kernel/pipe.c:76-103 | one section of pipewrite is the write step: a prefix of the bytes goes in; it returns with all of them or all that could be fetched and wakes the readers, sleeps exactly on a full pipe, and fails exactly without readers or killed |
| `Pipe.Ring.ReadSection` | kernel/pipe.c:105-130 | one section of piperead is the read step: it delivers what it dequeued, all that was asked for or all there is, up to a byte that copyout fails on, which is lost; it wakes the writers, and sleeps or fails exactly on an empty pipe with the write end open |
| `Pipe.Ring.Close` | kernel/pipe.c:58-74 | the end is closed, the other side is woken, and the pipe is freed exactly with its second end |
| `FreeList.InsertOrdered` | user/umalloc.c:33-42 | freeing a block keeps the list in order, disjoint and never adjacent |
| `FreeList.InsertUnits` | user/umalloc.c:33-42 | freeing adds exactly the block's units |
| `FreeList.TakeOrdered` | user/umalloc.c:76-82 | allocating keeps the list in order, disjoint and never adjacent |
| `FreeList.TakeUnits` | user/umalloc.c:76-82 | allocating removes exactly the units handed out |
| `Malloc.FreedOk` | user/umalloc.c:24-44 | after a free every unit is still in exactly one block |
| `Malloc.GivenOk` | user/umalloc.c:75-84 | after an allocation every unit is still in exactly one block, and the new one was nobody's |
| `Malloc.GrownOk` | user/umalloc.c:46-61 | new core adds its units and disturbs no block |
| `Malloc.UnitsFor` | user/umalloc.c:69 | enough units for the request and its header, and no unit too many |
| `Malloc.BackedExactly` | user/umalloc.c:46-61 | the block that malloc takes from new core lies in the memory sbrk added, if and only if the request is at most 0x7FFFFFE0 bytes |
| `Malloc.LargestRequest` | user/umalloc.c:46-61 | for 0xFFFFFFFF bytes morecore links in 2^28 + 1 units where sbrk gave one |
| `Malloc.Allocator.FindSpot` | user/umalloc.c:29-32 | the search round the cycle ends, at the last free block below the one freed |
| `Malloc.Allocator.FreeBlock` | user/umalloc.c:24-44 | the headers form the list with the block merged in |
| `Malloc.Allocator.Morecore` | user/umalloc.c:46-61 | exactly the new units join the list, which then has a block big enough, and if it had none before only the one that ends with the new units; nothing changes when sbrk fails |
| `Malloc.Allocator.Alloc` | user/umalloc.c:63-90 | for every request a live block of the right size from free units: the end of the first block behind freep that fits, or of the new core if none did; it asks for core at most once, and fails exactly when nothing fits and sbrk fails |
| `Malloc.Allocator.Carve` | user/umalloc.c:75-84 | the block is unlinked whole or loses its tail |
| `Grep.Match` | user/grep.c:70-80 | true exactly when some substring, at the start under '^' and up to the end under '$', is in the language of the pattern's items |
| `Grep.Matchhere` | user/grep.c:83-94 | true exactly when a prefix is in the language, up to the end under '$' |
| `Grep.Matchstar` | user/grep.c:97-104 | true exactly when the rest matches after some characters the starred one covers |
| `Grep.HereStar` | user/grep.c:97-104 | a starred item matches exactly by such characters and then the rest |
| `Grep.TextOfParse` | user/grep.c:64-104 | every pattern text is the text of the pattern it is read as |
| `Grep.ParseOfText` | user/grep.c:64-104 | every pattern is read back from its text |

## Left out

- Hardware and foreign code: device registers, UART, PLIC, CLINT, traps, the trampoline and swtch; swtch is a scheduler step and the disk device a step that may complete any request it has taken.
- Memory ordering: acquire and release are atomic steps, and sleep locks are plain mutual exclusion.
- Path lookup (namex, skipelem), the in-memory inode table with its reference counts (iget, iput, ilock) and file descriptors: the directory calls start from the inodes that the paths name.
- Directory calls inside directories that are already unlinked, whose entries no count includes.
- 16-bit overflow of nlink and 64-bit overflow of run counts and ticks.
- writei and readi when a user copy fails part-way.
- uvminit, copyinstr, the kernel page table and the kernel stacks: they add no new kind of step.
- Open files, the current directory, names and registers in fork and exec.
- setpriority, waitx, procdump, console and printf.
- mkfs, beyond the shape of the file system it starts with.
- The shell and the other user programs.
- Log.Log.Commit: when every buffer is in use bget panics, and the method stops there with the disk at that point of the commit; that other processes leave it a buffer is not modelled.
- BufferCache.Cache.Bget: serves one device, ROOTDEV, which is the only one the kernel has.
- BufferCache.Cache.Bread: likewise.
- LogRuns.PanicFreeExactlyWhen: lets an operation add no more blocks to the transaction than it reserved.
- Files.FileSystem.Writei: is about files without holes; the file system starts without any and every call keeps it so.
- Files.FileSystem.Readi: likewise.
- Files.FileSystem.FileWrite: likewise.
- UserMemory.Memory.Uvmunmap: clears the entry before it gives the page back, where the code does it in the other order within the same step.
- UserMemory.Memory.Mappages: covers page ranges on one side of the trapframe page, as all user mappings are.
- Exec.ReplaceImage: takes the ELF headers and the file's bytes as arguments, and physical memory as at most 128 megabytes; how the new program's registers are set is left out.
- Scheduler.Select: reads each slot as it was when this CPU held its lock; other CPUs may change it afterwards.
- Scheduler.Fairness: is about one CPU and processes that do not sleep; one that leaves the set by sleeping does not join it again.
- LockOrder.NoCycle: is about waits for process locks, other spinlocks being counted but not waited for; it rests on all code outside the scheduler taking process locks one at a time, which is how the rest of proc.c is written.
- Pipe.StepKeeps: takes a section under the pipe lock as one step, with sleep as its end; ExitWait shows for wait_lock why a wakeup cannot fall between releasing the lock and sleeping.
- Malloc.Allocator.Alloc: takes the core it links in as there, which `Malloc.BackedExactly` shows to be so exactly for requests up to 0x7FFFFFE0 bytes, and an sbrk that returns aligned memory above all it gave before.
