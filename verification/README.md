# Verified model of xv6-reimagined

A Dafny model of the parts of this x86 teaching kernel where the difficulty lies: the crash-safe
log over a write-back buffer cache, the inode and block layer, the user-level allocator, physical
pages and page tables, sleep and wakeup with its clients (mailboxes, pipes, exit and wait), the
lottery scheduler, and the shell's parser.

Code that changes things in place is modelled by classes whose methods carry the loops of the
source; each such method is proved against a function or predicate on plain values, and the
properties are proved about those. Protocols in which many processes interleave are state machines
over single steps, with theorems about every state of every run.

| file | what it models |
|---|---|
| `Options.dfy`, `Words.dfy`, `Counting.dfy`, `Blocks.dfy` | values that may be missing; 32-bit words; sizes of sets; disk blocks as bytes and little-endian words |
| `LogLayout.dfy`, `CommitPoints.dfy` | the log on disk: recovery, and the disk after each single write of commit |
| `LogProtocol.dfy`, `LogReservation.dfy`, `LogSafety.dfy` | begin_op, log_write, end_op, commit, eviction, crash and recovery as interleaved steps |
| `LogRuns.dfy` | runs of it as the callers see them: from a store to its recovery, and that a commit can always be finished |
| `BufferCache.dfy`, `Log.dfy` | bio.c, memide.c and log.c as one process executes them |
| `LogRefinement.dfy` | the steps of the protocol and the code of log.c make the same disk writes |
| `Bitmap.dfy`, `FsLayout.dfy`, `FileBytes.dfy`, `Truncate.dfy`, `Supply.dfy`, `FileSystem.dfy`, `FileLayer.dfy` | fs.c from the bitmap to readi and writei, fileread and filewrite |
| `CrashedWrite.dfy` | filewrite over the log: what a crash in the middle leaves |
| `Growproc.dfy`, `Umalloc.dfy` | sbrk as a process sees it, malloc and free |
| `PageTables.dfy`, `PageBill.dfy`, `Kvm.dfy` | kalloc.c, the page-table part of vm.c, how many pages it needs, and growproc |
| `Mailbox.dfy`, `ProcTable.dfy`, `Pipe.dfy` | sleep and wakeup and their clients |
| `Rand.dfy`, `FullPeriod.dfy`, `Lottery.dfy` | the generator, its period, and the ticket draw |
| `ShellGrammar.dfy`, `ShellSyntax.dfy`, `ShellLexer.dfy`, `Shell.dfy` | sh.c's parser and the language it accepts, its lexer and NUL termination |

## Where an expected property fails

Each of these is stated with the exact condition under which the code keeps the promise.

- The log reserves MAXOPBLOCKS blocks per operation against LOGSIZE, but the shipped image has one
  slot fewer. On it operations are safe from the panic exactly if each logs at most nine distinct
  blocks (`LogSafety.SafeAllowance`, by way of `LogSafety.LogNeverOverruns` and
  `LogReservation.FullAllowanceOverruns`). That is for processes that log inside operations of their own;
  log_write asks only that some process has one open, and two blocks logged by a process without one
  fill the log next to three operations of nine (`LogReservation.StrayBlocksOverrun`).
- One writei can be too big for the log: a write over more blocks than the log has slots always panics,
  and one for which the log has room never does for that reason (`FileSystem.Fs.Writei`). filewrite cuts its writes so
  that with twenty slots beside those for the bitmap only a full disk makes it panic (`FileLayer.OpenFile.Write`).
- writei stores the inode only when the file grows. What is on disk then equals the inode in memory
  exactly when the file grew or no address in the inode had to be filled in
  (`FileSystem.Fs.Writei`); files without holes always keep it (`FileSystem.WriteThrough`), a hole
  breaks it (`FileSystem.HoleIsNotWrittenThrough`). mkfs leaves such a hole when the root directory
  fills its last block, and `FileSystem.RootDirectoryHole` reaches it on any layout with two data blocks.
- fileread opens no operation, so reading such a hole panics in log_write unless some other process
  has one open: with none open, exactly when a block is missing in the range read
  (`FileLayer.OpenFile.Read`), which never happens in a file without holes (`FileSystem.WholeLacksNone`).
- malloc hands out what was asked for exactly when nbytes is at most 0x7FFFFFF0. From 0x7FFFFFF1 on the
  byte count is not positive as an int; sbrk succeeds without granting it, so that the allocator books memory the
  process does not have, or it takes all memory away; above 0xFFFFFFF8 the rounding wraps around and the block is too small
  (`Umalloc.Allocator.Malloc`, `Umalloc.TwoGigabytes`).
- A pipe writer that fails half way can leave readers asleep next to data, under the condition in
  `Pipe.Pipe.WriteSome` and no other; `Pipe.LostWakeup` is a sequence of calls from a new pipe that gets there.
- allocproc does not clear the mark of kill, and kill looks at unused slots too. New processes are born
  unmarked exactly as long as nobody kills a pid left over in an unused slot and no fork fails after its
  child was killed (`ProcTable.StaysUnmarked`); after kill(0) the next child is born killed
  (`ProcTable.BornKilled`).
- random_at_most runs for ever exactly when there are more than 65536 bins (`Rand.RunsForever`);
  settickets checks only that a ticket count is positive, so one process with 65537 tickets is enough
  (`Lottery.OneHolderTooMany`).
- The scheduler adds tickets up in an int. As long as the sum is one, the process it stops at owns the
  ticket drawn (`Lottery.StopIsOwner`). Beyond, two processes can have so many that neither ever runs
  (`Lottery.TwoHoldersNeverRun`), or the first of three always does (`Lottery.FirstHolderAlwaysRuns`).
- A process with tickets gets its share in every period of the generator (`Lottery.LongRunShare`), and
  so its turn, unless its only ticket is number 0 and there are more than 32768 (`Lottery.Starves`).
- The shell treats `>>` as `>`: rewriting one as the other changes no tree (`ShellGrammar.AppendIsWrite`).

Where the code and its documentation disagree the code is followed: ksend returns 0 and not a byte
count, and the scheduler draws with random_at_most, not with the rand_range described in
Documentation/lottery_scheduling_modifications.md.

## Model

| member | source | states |
|---|---|---|
| `LogLayout.HeaderRoundTrip` | log.c:84-113 | reading back a written header gives the same block list, whatever the block held; the count is its first word and the blocks follow |
| `LogLayout.RecoverAfterPrefix` | log.c:69-122 | cutting recovery off after any number of writes and starting over gives the same disk |
| `LogLayout.RecoveryIdempotent` | log.c:69-122 | any number of crashes during recovery, each at any write, then one full run give the disk of a single run |
| `LogLayout.HoldsRecovers` | log.c:69-122 | recovery of a disk that holds given contents shows them in every home block and empties the log |
| `LogLayout.RecoverHolds` | log.c:69-122 | conversely, what recovery shows is what the disk holds, for a list of distinct blocks |
| `LogLayout.InstalledIsLastCopy` | log.c:69-82 | after k copies each block holds the last of its log copies, or what it had |
| `CommitPoints.CommitPointAtomic` | log.c:177-202 | a crash after any write of commit recovers to the old contents up to the last log block and to the new ones from the header write on |
| `CommitPoints.CommitTraceAtomic` | log.c:177-202 | the same for the whole sequence of disks that commit passes through |
| `CommitPoints.OneBlockAWrite` | log.c:96-202 | each write of a commit changes one block: the log blocks in turn, the header, the homes in turn, the header |
| `CommitPoints.CommitPointFinal` | log.c:192-202 | after the last write every logged block is home and the log is empty |
| `LogReservation.ReservedBeginOp` | log.c:126-141 | admitting an operation keeps logged blocks plus unused reservations within the log |
| `LogReservation.ReservedLogWrite` | log.c:213-233 | so does logging a block, whether it is absorbed or appended |
| `LogReservation.ReservedEndOp` | log.c:146-174 | so does ending an operation |
| `LogReservation.ReservedHasRoom` | log.c:213-233 | hence no log_write of an open operation meets the size panic |
| `LogReservation.FullAllowanceOverruns` | log.c:126-141 | if operations may log ten distinct blocks or more there is a run of the shipped layout that reaches the panic |
| `LogReservation.StrayBlocksOverrun` | log.c:217-221 | there is a run of operations of nine blocks each next to which two blocks logged by a process without an operation fill the log |
| `LogSafety.StepKeepsInv` | log.c:115-233 | every step of any process, any eviction, any commit write, any crash and any recovery step keeps the invariant of disk, cache and history |
| `LogSafety.RunKeepsInv` | log.c:115-233 | hence every state of every run satisfies it |
| `LogSafety.CrashAtomicity` | log.c:115-233 | cutting the power in any state of any run, recovery shows exactly a prefix of the history in which no operation is under way |
| `LogSafety.NoHalfOperations` | log.c:125-202 | whoever did anything in the committed history also ended that operation in it |
| `LogSafety.Durability` | log.c:146-202 | the committed history only grows, and when no operation is open it is the whole history |
| `LogSafety.ReadsLatest` | bio.c:61-93 | whatever was evicted, bread finds the latest logged contents of a block nobody is changing |
| `LogSafety.LogNeverOverruns` | log.c:125-174 | if every block is logged inside an operation of the process that logs it, and no operation logs more than nine distinct blocks, the log never overruns, and nobody sleeps in begin_op unless a commit is under way or one more operation would not fit beside the open ones |
| `LogRuns.StoredIsLogged` | log.c:204-233 | log_write enters in the history what its process last stored in the buffer, whatever the others did in between |
| `LogRuns.StoredSurvives` | log.c:69-233 | once committed, that is what every recovery shows in the block, until a later write of the block is committed |
| `LogRuns.CanFinish` | log.c:115-202 | a commit or recovery under way can always be finished; everything done is then committed, nobody sleeps in begin_op, and every process may begin |
| `LogSafety.SafeAllowance` | log.c:126-141 | under the same proviso, on the image mkfs ships, some run reaches the panic exactly if operations may log ten distinct blocks |
| `LogRefinement.CommitIsTrace` | log.c:177-202 | in every run, whatever the other processes do meanwhile, each state from the start of a commit to its end or a crash has the disk that log.c's commit has after as many writes |
| `LogRefinement.RecoveryIsPrefix` | log.c:115-122 | likewise from power-on on each state has the disk of log.c's recovery after as many writes, and the system comes up with the recovered disk |
| `BufferCache.Cache.constructor` | bio.c:38-56 | a ring of all buffers, none caching a block of the root device |
| `BufferCache.Cache.Bget` | bio.c:61-93 | the buffer that caches the block, else the least recently released clean unused one; the block map is unchanged; none exactly when every buffer is in use or dirty |
| `BufferCache.Cache.Iderw` | memide.c:38-60 | a dirty buffer goes to disk and becomes clean, an invalid one is filled from disk; it panics, changing nothing, exactly for a buffer that is not locked, is valid and clean, or is not for a block of the disk |
| `BufferCache.Cache.Bread` | bio.c:96-106 | a locked buffer with the block's current contents; no block of the map changes and nothing is unpinned |
| `BufferCache.Cache.Bwrite` | bio.c:109-116 | the block on disk becomes the buffer's data, in one write |
| `BufferCache.Cache.Brelse` | bio.c:120-141 | the last release moves the buffer to the front; the ring stays a permutation in order of release; the cache stays true to the disk exactly if what was changed in the buffer has been written or logged |
| `BufferCache.RecycleUnseen` | bio.c:78-91 | giving a clean unused buffer to another block shows in no block |
| `BufferCache.NewestFirst` | bio.c:130-138 | moving the released buffer to the front keeps the list ordered by release |
| `BufferCache.FreeBuffer` | bio.c:78-91 | with no buffer in use and fewer pinned blocks than buffers there is one to recycle |
| `Log.RedoLog.constructor` | log.c:53-66 | after initlog the disk is the recovered disk, the log is empty and the reservation holds |
| `Log.RedoLog.ReadHead` | log.c:84-96 | the header in memory is the one on disk |
| `Log.RedoLog.WriteHead` | log.c:101-113 | one block write puts the header on disk |
| `Log.RedoLog.InstallTrans` | log.c:69-82 | the disks passed through are the install points, and the blocks end up unpinned |
| `Log.RedoLog.RecoverFromLog` | log.c:115-122 | the disk ends as the recovered disk, by way of exactly the recovery prefixes |
| `Log.RedoLog.WriteLog` | log.c:177-190 | the cached contents reach the slots, through exactly the log points |
| `Log.RedoLog.Commit` | log.c:192-202 | the writes made are exactly the commit points, in order |
| `Log.RedoLog.BeginOp` | log.c:126-141 | one turn of the loop, entered or not, keeps logged blocks plus unused reservations within the log; whoever has to wait has a commit or an open operation to wait for |
| `Log.RedoLog.LogWrite` | log.c:213-233 | the block is listed once and its buffer pinned; it panics exactly on a full log or outside an operation, and never for an operation within its reservation |
| `Log.RedoLog.EndOp` | log.c:146-174 | the last operation out commits, and after each write of it a crash recovers to all or nothing; the reservation of the others holds |
| `Blocks.WordFormat` | mkfs.c:55-65 | a word has a value exactly when its bytes are those mkfs writes for it |
| `Bitmap.WithBitValue` | fs.c:66-91 | setting or clearing bit k adds or takes away two to the k, if anything |
| `Bitmap.BitOfWith` | fs.c:66-68 | setting or clearing one bit of a byte changes that bit and no other |
| `Bitmap.InUseOfMark` | fs.c:66-92 | marking a block changes its own bit in the bitmap and no other |
| `FsLayout.InodeFormat` | fs.h:29-36 | where the fields of an inode lie in its block |
| `FsLayout.InodeRoundTrip` | fs.c:226-235 | storing an inode and loading it back is the identity and keeps its neighbours |
| `FsLayout.OnDiskStored` | fs.c:220-236 | in the whole table exactly that inode changes |
| `FsLayout.OnePath` | fs.c:372-400 | a block number is kept in at most one place of one inode |
| `FsLayout.BitsAreReached` | fs.c:56-95 | the set bits are exactly the metadata blocks and the blocks some inode reaches |
| `FsLayout.WriteKeepsGood` | fs.c:498-504 | writing a block that is not an indirect block keeps the ledger of blocks exact |
| `FsLayout.MarkKeepsGood` | fs.c:66-92 | marking a block nobody points at moves it into or out of the loose blocks and nothing else |
| `FsLayout.LinkKeepsGood` | fs.c:378-388 | storing a taken block in an empty address of an inode keeps the ledger exact |
| `FsLayout.LeafKeepsGood` | fs.c:389-396 | so does storing it in an empty word of the indirect block |
| `Supply.ClearCount` | fs.c:57-78 | the clear bits are as many as the data blocks no inode reaches |
| `Supply.AffordsIs` | fs.c:373-400 | the blocks missing in a range of a file, counted place by place with the indirect block once, are the places bmap finds empty |
| `Supply.BookedCount` | fs.c:372-400 | what bmap and the loops around it log is no more than the bitmap, the blocks at the places visited and what was logged before |
| `Supply.DataFits` | fs.c:498-504 | the data blocks a write has logged are distinct, so they are no more than the log has slots |
| `Supply.CannotPay` | fs.c:452-511 | a loop over blocks that fails at one of them had, from the start, more blocks to allocate than there were, or no operation open |
| `FileBytes.BlankLink` | fs.c:372-400 | linking a zeroed block changes no byte of any file |
| `FileBytes.DataWrite` | fs.c:498-504 | writing a data block shows in that block of that file and nowhere else |
| `FileBytes.UnlinkKeepsGood` | fs.c:414-431 | emptying an address takes exactly what is reached through it off the ledger |
| `FileSystem.Fs.constructor` | mkfs.c:237-253 | a fresh image satisfies the invariant, with every inode unused and equal to its copy on disk |
| `FileSystem.Fs.FirstFree` | fs.c:63-76 | the lowest clear bit, or none exactly when all are set |
| `FileSystem.Fs.BeginOp` | log.c:126-141 | returns with room in the log for a full operation of each process that has one open, having waited for no more than the others to end |
| `FileSystem.Fs.EndOp` | log.c:146-174 | between operations the log is empty |
| `FileSystem.Fs.LogWrite` | log.c:213-233 | panics exactly outside an operation or on a full log, even for a block that is in it |
| `FileSystem.Fs.Balloc` | fs.c:56-78 | takes the lowest free block, zeroed; files read as before; it panics exactly when every bit is set, no operation is open, or the log is full by the second of the two blocks it logs |
| `FileSystem.Fs.Bfree` | fs.c:81-95 | clears the bit, and panics exactly when it is clear already, no operation is open or the log is full |
| `FileSystem.Fs.Iupdate` | fs.c:220-236 | the inode on disk equals the one in memory; the other inodes, all files and all addresses are unchanged; it panics exactly outside an operation or on a full log |
| `FileSystem.Fs.Label` | mkfs.c:223-235 | the inode has its type and one link, in memory and on disk, and the ledger of blocks stays exact |
| `FileSystem.Fs.Bmap` | fs.c:372-400 | the address of the block, allocated if missing; every file reads as before; at most the looked-up places are filled; it panics if blocks are missing and there are too few free ones or no operation is open, and otherwise not unless fewer than five slots of the log are left |
| `FileSystem.Fs.Itrunc` | fs.c:407-435 | the inode is empty in memory and on disk, exactly its blocks leave the ledger, and no block is freed twice; it panics exactly outside an operation or if the bitmap blocks of the file fill the log |
| `FileSystem.TruncatedBits` | fs.c:407-435 | itrunc clears the bits of exactly the inode's own blocks |
| `FileSystem.TruncatedOthers` | fs.c:407-435 | no other file changes |
| `FileSystem.Fs.Iput` | fs.c:331-352 | the last reference to an unlinked inode empties and frees it; otherwise nothing changes; it panics exactly if it has to do so outside an operation or without room in the log |
| `FileSystem.Fs.Readi` | fs.c:452-476 | returns exactly the slice of the file, n bytes or as many as there are up to the end, -1 exactly on a bad range; it panics if blocks are missing in the range and there are fewer free ones or no operation is open, and otherwise not if the log has room for the range; with none missing it writes nothing |
| `FileSystem.WholeLacksNone` | fs.c:452-476 | in a file without holes no block is missing below its end, so that reading it never allocates and never panics |
| `FileSystem.Fs.Writei` | fs.c:481-511 | the file becomes old[..off] + src + the rest, no other file changes, exactly the missing blocks of the range are allocated, and the inode on disk is current under the exact condition; -1 exactly on a bad range; a panic outside an operation, with too few free blocks, or for more blocks than the log has slots, and no panic otherwise if the log has room for the range |
| `FileSystem.WriteThrough` | fs.c:506-509 | in a file without holes every write leaves the inode on disk equal to the one in memory |
| `FileSystem.HoleIsNotWrittenThrough` | fs.c:506-509 | overwriting inside a hole does not |
| `FileSystem.RootDirectoryHole` | mkfs.c:158-163 | from a new image on: a directory of type T_DIR with one full block, rounded up as mkfs does, is sound and current on disk, and one byte written to its second block makes the inode on disk stale |
| `FileSystem.PointersKept` | fs.c:498-509 | the inode changes in writei's loop exactly when an address kept in it was missing |
| `FileSystem.ChunkFitsLog` | file.c:126-145 | a chunk of filewrite gives log_write at most seven distinct blocks, with a one-block bitmap |
| `FileLayer.OpenFile.WriteChunk` | file.c:140-145 | one transaction: the write happens whole, within seven blocks, or panics; with twenty slots beside those for the bitmap exactly when more blocks are missing than free |
| `FileLayer.OpenFile.Read` | file.c:96-113 | the bytes at the offset, n or up to the end of the file, and the offset moves on by as many; outside any operation it panics exactly when a block is missing in the range read, and when none is it never does and writes nothing |
| `FileLayer.OpenFile.Write` | file.c:117-156 | between its transactions the file is the old one overlaid with the bytes of the whole chunks written so far; it returns n exactly for a write that starts within the file and ends within the largest, else -1 with exactly the chunks written that fit; it panics, with that room in the log, exactly when these chunks lack more blocks than are free at the start |
| `FileLayer.LackingSplit` | file.c:133-153 | what a range lacks is what its first part lacks and what the rest lacks once that is allocated |
| `FileLayer.OverlayTwice` | file.c:133-153 | writing two pieces one after the other is writing their concatenation |
| `CrashedWrite.WholeChunks` | log.c:125-202 | a part of the history of a filewrite in which no operation is under way ends with a whole chunk |
| `CrashedWrite.WholeChunksAfterCrash` | file.c:117-156 | let a filewrite begin in any state of any run in which no operation is open, and cut the power at any step of it: after recovery the inode on disk shows the file as it was overlaid with a whole number of chunks |
| `Umalloc.Allocator.constructor` | umalloc.c:21-22 | before the first call there is no list, and every unit on the books is memory of the process |
| `Umalloc.Allocator.FindGap` | umalloc.c:30-32 | the search of free ends within one lap at the highest free block below the one freed |
| `Umalloc.Allocator.JoinUpper` | umalloc.c:33-37 | joined to the block above exactly when adjacent |
| `Umalloc.Allocator.JoinLower` | umalloc.c:38-42 | joined to the block below exactly when adjacent; the list is whole again |
| `Umalloc.Allocator.Free` | umalloc.c:24-44 | the block's units become free, every other live block keeps its place and contents, and the list stays ordered, circular and without adjacent free blocks |
| `Umalloc.Allocator.Morecore` | umalloc.c:46-61 | asks sbrk for the byte count in 32-bit arithmetic; if it succeeds the units become free units, and then a block is large enough |
| `Umalloc.Allocator.FindFit` | umalloc.c:70-88 | asks sbrk at most once and only when nothing fits, and the lap after that succeeds |
| `Umalloc.Allocator.Malloc` | umalloc.c:63-90 | a block of the size asked for, the tail of the first free block that is large enough on the way round from where the last call left off; None exactly when nothing fits and sbrk refuses; the books stay within the memory of the process, and the block holds nbytes, exactly for nbytes up to 0x7FFFFFF0 |
| `Umalloc.BackedAfter` | umalloc.c:46-90 | after a search for n units all units on the books are memory of the process exactly when n units are less than 2 GB |
| `Umalloc.GrantUnused` | umalloc.c:54-57 | what sbrk hands out lies above everything the allocator has |
| `Umalloc.TwoGigabytes` | umalloc.c:69 | for 0x7FFFFFF1 bytes sbrk is asked for a negative number and succeeds without granting a byte |
| `Growproc.Granted` | proc.c:162-180 | a request read as an int is granted in full exactly below 2 GB; above, memory is given back or left as it is and the call succeeds |
| `Growproc.ThereAndBack` | proc.c:162-178 | memory asked for and given back leaves the process as it was |
| `Growproc.Refused` | sysproc.c:45-57 | sbrk fails exactly when memory is out, the kernel would be reached, or a request that counts as negative takes everything |
| `Umalloc.NotTouching` | umalloc.c:24-44 | no two free blocks are adjacent |
| `Umalloc.BlockUnits` | umalloc.c:24-90 | a block owns exactly the units from its header on, so blocks, free or live, never overlap |
| `Umalloc.FreeRun` | umalloc.c:24-44 | any run of free units lies within one free block |
| `PageTables.TakeKeepsGood` | kalloc.c:82-95 | taking the head of the list keeps every managed page on the list, in use or in hand, in one of them only |
| `PageTables.PutKeepsGood` | kalloc.c:59-77 | so does putting a page in hand back |
| `PageTables.EntryWrite` | vm.c:71-73 | writing a table entry changes one mapping of one address space |
| `PageTables.NewTable` | vm.c:45-53 | hanging a zeroed table into a missing entry maps nothing yet |
| `Kvm.Vm.constructor` | kalloc.c:46-53 | after freerange exactly the pages up to PHYSTOP are free |
| `Kvm.Vm.Kfree` | kalloc.c:59-77 | panics exactly on a page outside the managed range, else the page heads the list |
| `Kvm.Vm.Kalloc` | kalloc.c:82-95 | the head of the list, 0 exactly when it is empty |
| `Kvm.Vm.FindTable` | vm.c:35-55 | walkpgdir without allocation: the table, 0 exactly when the directory entry is absent |
| `Kvm.Vm.Walkpgdir` | vm.c:35-55 | walkpgdir with allocation: no mapping changes, and it fails exactly when a table is missing and memory is out |
| `Kvm.Vm.Mappages` | vm.c:60-80 | exactly the range is mapped, page after page, and none of it was mapped before; the panic is reached only if a page of it was, and for a single page exactly then; without a panic it fails exactly when there are fewer free pages than tables missing |
| `Kvm.Vm.Deallocuvm` | vm.c:255-279 | exactly the mapped pages of the range are unmapped and freed, as a page-by-page loop would; no panic |
| `Kvm.UnmappedTable` | vm.c:266-268 | jumping over a missing table passes over no mapped page |
| `Kvm.Vm.Allocuvm` | vm.c:221-249 | zeroed pages, writable and open to the user, for exactly the new range, of which no page was mapped; on failure the range is unmapped and all other mappings are as before, and if it was unmapped only tables are kept; it panics only if a page of the range was mapped, and otherwise fails exactly when there are fewer free pages than pages and missing tables to pay for |
| `Kvm.Vm.Growproc` | proc.c:162-180 | answers as Growproc.Sbrk says, for every int, and the pages of the process are added or freed accordingly; memory is out exactly when there are fewer free pages than pages and missing tables |
| `Kvm.Vm.Freevm` | vm.c:283-298 | exactly the pages of the address space go back, each once; all other pages are untouched |
| `Kvm.Vm.Setupkvm` | vm.c:118-136 | physical memory from KERNBASE on, read-only between the kernel's link address and its data, the devices at their own addresses, nothing else and nothing open to the user; or 0 with every page given back, exactly when fewer than 65 pages are free |
| `Kvm.KernelEntryIs` | vm.c:105-115 | what the rows of kmap come to for each virtual page: which physical page, and whether it can be written |
| `Kvm.RangeBill` | vm.c:118-136 | how many tables each row of kmap takes after the ones before it |
| `PageBill.CannotPay` | vm.c:35-80 | when the pages run out in the middle of a range, there were too few for the whole range from the start |
| `PageBill.SpentNext` | vm.c:60-80 | what a range takes from the free list adds up page by page |
| `Kvm.KmapApart` | vm.c:105-115 | the kernel ranges do not meet, so mapping them never panics |
| `Kvm.Vm.Copyuvm` | vm.c:315-345 | the first sz bytes show the same contents with the same flags on new pages, and every other address space is untouched, with the kernel's part as in setupkvm; or 0 with every page given back, exactly when there are fewer free pages than the kernel's 65, one for each page and one for each 1024 of them; it panics only if a page below sz is unmapped, and then never returns a copy |
| `Kvm.NoSharing` | vm.c:60-80 | no page is mapped by two user entries |
| `Kvm.CopyIsApart` | vm.c:315-345 | the pages of a copy were free before |
| `Mailbox.StepKeepsLocks` | mailbox.c:36-109 | each lock is held by the one process whose position says so |
| `Mailbox.StepKeepsOrder` | mailbox.c:36-109 | each step keeps the messages sent equal to those taken plus the one in the box |
| `Mailbox.WakeAllReachesAll` | proc.c:498-515 | a wakeup finds nobody between deciding to sleep and sleeping |
| `Mailbox.StepLosesNoWakeup` | proc.c:458-515 | whoever sleeps, or is bound to, has reason to or is about to be woken |
| `Mailbox.RunKeepsInv` | mailbox.c:21-109 | all of this in every state of every run of any number of processes |
| `Mailbox.CallsStay` | mailbox.c:36-88 | a call gets in exactly if its arguments are in range, and stays the same until it returns |
| `Mailbox.CopyIsRecorded` | mailbox.c:51-105 | a message is sent, or taken, exactly when a process gets past its while loop, and it is that of its call |
| `Mailbox.HistoryIsCalls` | mailbox.c:36-109 | the histories are those of the calls, over whole runs |
| `Mailbox.Delivery` | mailbox.c:36-109 | the k-th krecv on a mailbox gets the bytes passed to the k-th ksend, cut to its maxlen; at most one message is still to be taken, and it is the one in the box |
| `Mailbox.NobodySleepsInVain` | mailbox.c:36-109 | with the lock free no sender sleeps on an empty box and no receiver on a full one |
| `Mailbox.NeverStuck` | mailbox.c:36-109 | while someone is inside a call and awake, some process can move |
| `ProcTable.AdoptedAt` | proc.c:258-265 | what exit's loop does to each slot: children go to init, which is woken if one is a zombie |
| `ProcTable.ExitAt` | proc.c:253-268 | what exit does to each field of each slot: who is handed to init and exactly who is woken |
| `ProcTable.ScanFinds` | proc.c:283-310 | wait finds a zombie child exactly when there is one, and no child exactly when there is none |
| `ProcTable.StepKeepsTree` | proc.c:73-315 | every step keeps living parents for all, waiters without zombies, and embryos with their forks |
| `ProcTable.StepKeepsLedger` | proc.c:73-315 | every step keeps pids distinct and each exit collected at most once |
| `ProcTable.RunKeepsInv` | proc.c:73-315 | both in every state of every run |
| `ProcTable.ExitAndWait` | proc.c:230-315 | whoever sleeps in wait has no zombie child, every process but init has a living parent, and each exited process is reaped once or still a zombie |
| `ProcTable.SleptSince` | proc.c:459-515 | nobody sleeps through a wakeup: whoever sleeps on a channel went to sleep after the last one |
| `ProcTable.KillReaches` | proc.c:520-538 | kill marks the process with the pid, leaves it not asleep, and touches no other process |
| `ProcTable.StaysUnmarked` | proc.c:73-93 | unused slots stay free of kill's mark exactly under the stated condition |
| `ProcTable.BornKilled` | proc.c:520-538 | a run in which kill(0) makes the next child be born killed |
| `ProcTable.Ptable.Wakeup1` | proc.c:498-506 | exactly the sleepers on the channel become RUNNABLE |
| `ProcTable.Ptable.Allocproc` | proc.c:73-101 | the first unused slot becomes an embryo with a new pid, or is given back with the pid used up if there is no kernel stack; nothing changes exactly when all are used |
| `ProcTable.Ptable.Exit` | proc.c:253-268 | the loop produces the table that the protocol's exit step produces |
| `ProcTable.Ptable.Wait` | proc.c:275-315 | one pass reaps the first zombie child and leaves its slot without pid, parent and mark; else it fails exactly if it has no child or is marked, and otherwise sleeps |
| `ProcTable.Ptable.Kill` | proc.c:520-538 | the first slot with that pid is marked and not asleep afterwards, the others are unchanged; fails exactly if there is none |
| `Pipe.Counters` | pipe.c:84-109 | comparing the wrapped 32-bit counters tells full and empty apart, and they index the same slots |
| `Pipe.Pipe.WriteSome` | pipe.c:78-98 | appends in order until done or full; when it fails, sleeps or leaves readers asleep, each exactly |
| `Pipe.Pipe.ReadSome` | pipe.c:100-121 | takes the next bytes in order, up to n; sleeps exactly when empty with a writer left |
| `Pipe.Pipe.Close` | pipe.c:59-75 | closes one end and leaves no one asleep who waits for it; the pipe is freed exactly with the second end, with no one asleep on it |
| `Pipe.Pipe.Kill` | proc.c:521-533 | a killed process sleeps on neither channel; nobody else is affected |
| `Pipe.LostWakeup` | pipe.c:79-98 | a new pipe, a sleeping reader and a killed writer of 513 bytes end with the reader asleep next to 512 bytes |
| `Rand.PrevOfNext` | rand.c:5-11 | the register's step can be undone |
| `Rand.NextOfPrev` | rand.c:5-11 | and every state has a predecessor, so the step is a permutation |
| `Rand.NeverZero` | rand.c:3-11 | from any state but 0 no number of draws reaches 0 |
| `Rand.RejectionBound` | rand.c:22-25 | at most sixteen draws in a row are rejected |
| `Rand.LimitIsHigh` | rand.c:19-25 | the bound lies above the lower half exactly for at most 65536 bins, else it is 0 |
| `Rand.RunsForever` | rand.c:22-25 | from every state the loop runs for ever exactly when there are more than 65536 bins |
| `Rand.Generator.RandomAtMost` | rand.c:14-28 | the first accepted draw modulo the bins, within 17 draws for at most 65536 bins; never an answer for more |
| `Lottery.OneOwner` | proc.c:348-356 | a ticket number has at most one owner, and it is RUNNABLE |
| `Lottery.Scheduler.Pick` | proc.c:340-373 | the process at which the sum of tickets, an int, exceeds the number drawn; nobody exactly when that sum over all is not positive, and no end of drawing exactly when it is more than 65536 |
| `Lottery.StopIsOwner` | proc.c:348-356 | as long as the sum of all tickets is an int, that process is the owner of the ticket drawn |
| `Lottery.TwoHoldersNeverRun` | proc.c:340-345 | two processes with 0x7FFFFFFF tickets each add up to -2 |
| `Lottery.FirstHolderAlwaysRuns` | proc.c:340-356 | with seven more they add up to 5, and whatever is drawn the first one runs |
| `Lottery.OneHolderTooMany` | proc.c:577-591 | one RUNNABLE process with 65537 tickets keeps the scheduler drawing for ever |
| `Lottery.WinsInRounds` | proc.c:348-356 | over whole rounds of tickets a process wins as often as it has tickets |
| `Lottery.ProportionalShare` | proc.c:340-373 | over all register states, process p is selected by the first draw floor(65536/total) * tickets(p) times, one fewer for the owner of ticket 0 |
| `FullPeriod.NextIsShift` | rand.c:5-11 | the register in numbers and in bits, with the four taps as exclusive or, take the same step |
| `FullPeriod.JumpPlus` | rand.c:5-11 | jumps of m and n steps make one of m + n, whose polynomial is the product of theirs modulo z^16 + z^5 + z^3 + z^2 + 1 |
| `FullPeriod.FullPeriod` | rand.c:3-11 | from any state but 0 the register comes back after 65535 draws and not before |
| `Lottery.AllDrawn` | rand.c:3-11 | so 65535 draws in a row yield every value but 0, once |
| `Lottery.RoundIsTurn` | proc.c:340-373 | the draws of one round of the scheduler count as one turn, for the process it runs |
| `Lottery.TurnsPlus` | proc.c:335-375 | turns add up over the draws of rounds that follow each other |
| `Lottery.LongRunShare` | proc.c:340-373 | of any 65535 draws in a row, rejected ones included, exactly floor(65536/total) * tickets(p) select process p, one fewer for the owner of ticket 0 |
| `Lottery.Starves` | proc.c:340-373 | a process with tickets is never selected exactly if it has one ticket, that is number 0, and there are more than 32768 |
| `ShellGrammar.RoundTrip` | sh.c:327-446 | printing any command tree of at most nine words per command and parsing the tokens gives the tree back |
| `ShellGrammar.LineTrip` | sh.c:344-359 | the same for a line followed by anything that may follow one |
| `ShellGrammar.ExecTrip` | sh.c:399-446 | the same for a command or a block in parentheses |
| `ShellGrammar.AppendIsWrite` | sh.c:374-397 | every line has the same tree, open modes included, or the same error as the line with > for each >> |
| `ShellSyntax.MixtureParses` | sh.c:415-446 | words and redirections in any order: all the words and all the redirections, each in their order, or the error for what comes instead |
| `ShellSyntax.LongestMixture` | sh.c:430-442 | every token list begins with such a mixture, so the law covers all plain commands |
| `ShellSyntax.ParsesExactly` | sh.c:327-446 | the parser gives a tree exactly for the lines of the grammar, and the tree that the grammar gives them |
| `ShellSyntax.OneTree` | sh.c:327-446 | no line has two trees, and one is refused exactly when it has none |
| `ShellSyntax.Unbalanced` | sh.c:335-339 | a parenthesis too many is left over, and one too few is missed |
| `ShellLexer.CutsExactly` | sh.c:265-308 | a line is cut into given tokens exactly when it is those tokens with blanks between, at least where two would run together |
| `ShellLexer.TokensProper` | sh.c:265-308 | words are never empty and hold no blank and no symbol |
| `ShellLexer.RenderTrip` | sh.c:265-308 | a line with its tokens set apart by blanks is cut back into them |
| `ShellLexer.LineRoundTrip` | sh.c:265-446 | writing a tree as a line and parsing the line gives the tree back |
| `ShellLexer.AppendLine` | sh.c:265-397 | the same for the characters of the line |
| `Shell.Parser.Gettoken` | sh.c:265-308 | returns the next token and its place, and moves past it |
| `Shell.Parser.Peek` | sh.c:310-320 | skips blanks and tells whether the next character is one of those given |
| `Shell.Parser.Parseredirs` | sh.c:374-397 | agrees with the grammar, including a missing file name |
| `Shell.Parser.Parseexec` | sh.c:415-446 | agrees with the grammar, including its errors |
| `Shell.Parser.Parseblock` | sh.c:399-413 | agrees with the grammar, including a missing parenthesis |
| `Shell.Parser.Parsepipe` | sh.c:361-372 | agrees with the grammar |
| `Shell.Parser.Parseline` | sh.c:344-359 | agrees with the grammar; the mutual recursion ends on every input |
| `Shell.Nulterminate` | sh.c:449-493 | exactly the characters after the words of the tree become NUL |
| `Shell.WordsStand` | sh.c:449-493 | each word is then a C string with exactly its text: no NUL falls inside another word |
| `Shell.ParseWhatWasPrinted` | sh.c:265-446 | run over the line a tree prints as, the parser returns that tree and stops at the end |
| `Shell.Parsecmd` | sh.c:327-342 | the one tree that the grammar gives the line, or the error exactly when it gives none; every word NUL-terminated, and nothing else changed in the buffer |

## Left out

- Hardware: ide.c, console, interrupts, segments, cr3, context switches and all assembly; the disk is the contract of memide.c.
- Spinlocks and sleeplocks: mutual exclusion is the step model; only the hand-over of locks inside sleep is spelled out.
- System call dispatch, exec, directories, path names and the user programs other than sh.c.
- Log.RedoLog: one process at a time; interleavings of many processes are in the protocol of LogProtocol.dfy, which LogRefinement.dfy ties to it for commit and recovery.
- LogSafety.LogNeverOverruns: a process logs blocks inside an operation of its own. The one caller that may not is a read of a file with a hole; it is not a step of the protocol, and `LogReservation.StrayBlocksOverrun` shows that it would break the bound. The same goes for LogSafety.SafeAllowance.
- FileSystem.Fs: works on blocks as the log layer shows them, so a log_write is an update of the block plus a note in `dirty`, and other processes appear only in the number of open operations; iget, ilock, the inode cache's reference counts and concurrent use of two inodes are not modelled, and iput's valid flag and reference count are parameters.
- FileSystem.Fs.Readi: device files are passed to a driver that is not modelled; the size of the file must not exceed the maximum file size, which writei keeps.
- FileSystem.Fs.Balloc: a panic is a result, and nothing is said of the state after one.
- FileSystem.Fs.Bmap: between having no room for what it has to log and five free slots, whether it panics depends on which of the blocks are in the log already, and is not stated. Readi and Writei likewise between too few slots for the data blocks and room for all they may log.
- FileSystem.Fs.constructor: the image before mkfs adds files; of what it adds only the root directory of `FileSystem.RootDirectoryHole` is modelled, with writei in the place of iappend.
- FileLayer.OpenFile.Write: pipes and devices behind a file are not modelled here.
- CrashedWrite.WholeChunksAfterCrash: no other process has an operation open when the filewrite begins or during it; the log_writes of a chunk are any list of writes with the effect of the chunk.
- Lottery.LongRunShare: counts draws while the tickets do not change and the total is at most 65536; a round that starts within the 65535 draws and ends beyond them is counted by the draws inside.
- Umalloc.Allocator.Malloc: after a request of 2 GB or more the model follows the books; that a store outside the memory of the process faults, and that addresses wrap around at 2^32, is not modelled. Between calls the program does not call sbrk itself, and freeing a pointer twice is outside the precondition as it is outside the source's.
- Kvm.Vm: pages are known by number, and a free page's link holds the next page's number instead of its kernel address.
- Kvm.Vm.Allocuvm: nothing is said of the state after the panic of mappages.
- Kvm.Vm.Copyuvm: nothing is said of the state after a panic.
- Kvm.Vm.Mappages: expects a range that does not wrap around the address space, and in the user part a single page that is in hand, as its callers pass.
- inituvm, loaduvm, clearpteu, uva2ka and copyout: they map or free no page in a way the members above do not, and only copy bytes, clear a flag or look an address up.
- Mailbox: the bytes of a message are copied in one step under the lock.
- ShellSyntax.ParsesExactly: which of its errors a refused line gets is stated for plain commands and for unbalanced parentheses only.
- ProcTable.Ptable.Allocproc: the contents of the kernel stack, and the wrap of pids after 2^31 forks, are not modelled.
- ProcTable: sleep, wakeup1 and the rest run as single steps under ptable.lock; the lock hand-over inside sleep is in Mailbox.dfy.
- Rand.Generator.RandomAtMost: the loop is watched for a number of draws given by the caller, since it need not end.
- Lottery.Scheduler.Pick: the loop of random_at_most is watched for a number of draws given by the caller.
- Shell.Parser.Parseexec: argv is collected in a sequence and put in the tree at the end instead of being filled in through a pointer; the fixed buffer of 100 characters and runcmd are not modelled.
