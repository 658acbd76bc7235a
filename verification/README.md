# xv6, modelled and proved in Dafny

A model of the parts of an xv6 kernel and its user programs whose correctness is not evident
from one function at a time, with proofs for all inputs, all runs and all interleavings.
`dafny verify dfyconfig.toml` checks the whole project.

## What is modelled

**Storage, from the disk up.**
`BufferCache` gives bio.c as steps on a cache value and proves that every run shows the newest
contents of a flat store, `BufferAge` that it recycles the buffer released longest ago;
`BufferList` is bget and brelse in place on the doubly linked ring.
`CrashLog` proves crash atomicity of the redo log over all crash points, with any number of
further crashes inside recovery; `Log` runs log.c on the cache, block by block, while other
processes read as they like (`LogOthers`), and shows that the disks it passes through are
exactly those crash points; `LogRoom` says when bget cannot fail there, exactly where commit runs
by itself, and `LogRuns` leads from one commit to the next. `GroupCommit` is begin_op, end_op and
log_write as a protocol of any number of processes, and `LogCapacity` settles when its log stays
inside its region.
`Fs`, `FsCount`, `FsWrite`, `FsTrunc` and `FsFile` are the free map, inodes with an indirect
block, bmap, readi, writei, itrunc and filewrite: who owns which block, files as flat byte
arrays, and what a transaction logs; `FsCrash` joins them to the log, so that the writes of
a transaction are atomic under crashes, also where they interleave turn by turn. `Mkfs` builds
the image these invariants start from, and `FsHoles` follows the hole it can leave.
`Links`, `LinkCounts`, `LinkOps`, `LinkRuns`, `LinkStale` and `MkfsLinks` are directories and link
counts under create, link with its undo, and unlink: when each succeeds, where every name leads
afterwards, and that the counts stay right. `InodeRefs` is the inode cache, from ialloc to iput, as a
protocol of any number of processes, `InodeCounts` what its calls give and take, and `InodeOrphans`
settles which inodes iput never frees.

**Processes.** `Proc`, `ProcTree` and `ProcRuns` are the process table as a transition system
with one step per critical section, `ProcSteps` what each step does, `ProcFair` bounded waiting over
every run, `ProcTable` the loops in place. `SleepLock` is acquiresleep and releasesleep down to single
lock operations; `Pipe` and `PipeRuns` are the ring buffer with wrapping counters and its sleepers,
and `PipeCalls` follows the bytes of every call.

**Memory.** `Umalloc` and `UmallocHeap` are the K&R allocator (section 8.7 of The C Programming
Language, 2nd edition), as an ordered list and as headers in memory. `Kalloc` is the page free
list, `Vm`, `VmCount`, `VmAlloc`, `VmDealloc`, `VmFree`, `VmCopy`, `VmSpace` and `VmShort` the
two-level page tables, with exact counts of the frames they take.

**Two user programs.** `Grep` is the regular expression matcher against a declared language;
`ShellTokens`, `ShellGrammar`, `ShellTrees`, `ShellMeaning` and `Shell` are the parser of sh.c, proved
to return exactly when the line means a tree, and then that tree, and nulterminate.

Classes hold what the source changes in place. Their methods are proved against functions and
predicates on values, and the laws are lemmas about those.

## Where a property fails

What holds instead is stated and proved.

- log.c tests the capacity before it takes log.lock, so two operations can both pass. The log
  stays inside its region in every run if and only if log.size is at most 1 or larger than
  LOGSIZE (`LogCapacity.StaysInRegionIff`); mkfs makes it equal to LOGSIZE.
- The capacity panic of log_write can meet an operation that keeps to MAXOPBLOCKS. With a log
  larger than LOGSIZE this happens if and only if the operation has logged MAXOPBLOCKS blocks
  and writes one of them again, which would be absorbed; with the log of mkfs also at the tenth
  block (`LogCapacity.PanicIff`, for every size).
- A killed writer leaves pipewrite without waking the reader of the bytes it put in. That is
  the only way to lose a wakeup (`PipeRuns.StepKeepsSleepers`, `PipeRuns.KilledWriterLosesWakeup`).
- create and link in a directory that is no longer linked break the link counts, and nothing
  else does (`LinkRuns.OpKeepsInv`, `LinkRuns.CreateNeedsLinkedParent`,
  `LinkRuns.LinkNeedsLinkedDir`; runs in `LinkStale.CreateInUnlinkedDir` and
  `LinkStale.LinkInUnlinkedDir`).
- iput reads ref, and lowers it later under the lock again, so two iputs can both see 2 and
  neither frees an inode without links, against the comment above iput. An inode is lost this
  way if and only if an iput gives up the last live pointer to it having read more than 1
  (`InodeOrphans.OrphanIff`, `InodeOrphans.TwoPutsFreeNothing`).
- The ".." of an unlinked directory is not counted in nlink, and can name a freed inode though
  all counts are right (`LinkStale.StaleDotDot`); a lookup through it then locks an inode that is
  not allocated (`InodeOrphans.StaleNameReachesFreeInode`). A lookup is safe if and only if its
  inode is allocated, not half-way through ialloc and not about to be freed
  (`InodeRefs.LookupIsSafeIff`); an entry that nlink counts, or a pointer the process has already,
  is enough (`InodeRefs.NamedIsGettable`, `InodeRefs.HeldIsGettable`).
- mkfs rounds up the size of the root directory and leaves a hole in it if and only if the
  entries fill their last block (`Mkfs.RootIsFixed`, `Mkfs.ThirtyFilesLeaveAHole`).
- A failed allocuvm also unmaps pages that were in the new range before; the mapping is as it
  was if and only if there were none (`VmSpace.Machine.Allocuvm`, `VmShort.FailedGrowthUnmaps`).
- copyuvm loses the frame it has just taken when mappages fails: if and only if the frames left
  after setupkvm are 1025 * k + 1 for a k with 1024 * k below the number of pages
  (`VmSpace.Machine.Copyuvm`, `VmShort.CopyLosesAFrame`).
- writei writes the inode only when the file has grown. The inode on disk is right afterwards if
  and only if the file grew, or bmap had no address to store in the inode: every direct block of
  the range was there, and the indirect block where the range reaches it
  (`FsFile.FileSystem.Writei`, `FsWrite.InodeIsRightIff`). Without holes that is always so
  (`FsWrite.StaysWhole`). In the root directory that mkfs makes for 30 files it is not: the next
  entry linked there is lost on disk (`Mkfs.ThirtyFilesLeaveAHole`, `FsHoles.Dirlink`).
- readi allocates and logs where it meets a hole, and fileread calls it outside a transaction. It
  changes nothing if and only if no block of the range is a hole (`FsFile.FileSystem.Readi`,
  `FsHoles.FindFree`).

## Model

| member | source | states |
|---|---|---|
| Grep.Match | xv6/user/grep.c:72-82 | match returns 1 exactly when some suffix of the text, or only the whole text after a leading ^, begins with a string that the declared pattern language accepts |
| Grep.MatchHere | xv6/user/grep.c:85-96 | matchhere returns 1 exactly when the text begins with a string in the language of the pattern, with a final $ meaning the end; it terminates on every pattern and text |
| Grep.MatchStar | xv6/user/grep.c:99-106 | matchstar returns 1 exactly when the text splits into a run of c (or anything for .) and a rest that the remaining pattern accepts |
| Grep.OnePattern | xv6/user/grep.c:91-94 | a pattern that is not starred and not $ accepts exactly texts whose first character it accepts and whose rest the rest accepts |
| Grep.StarPattern | xv6/user/grep.c:89-90 | the star test comes first, so $* and a leading * mean what the order of the tests makes of them |
| Grep.DollarPattern | xv6/user/grep.c:91-92 | a lone $ accepts exactly the empty text |
| BufferCache.EveryRunRefines | xv6/kernel/bio.c:39-142 | in every run of bget, fill, modify, log_write, bwrite and brelse from binit the cache shows the newest contents of every block of a flat store |
| BufferCache.StepRefines | xv6/kernel/bio.c:62-142 | each cache operation keeps the invariant (list a permutation, one buffer per key other than (0,0), clean buffers equal to the disk) and does to the flat store what it should |
| BufferCache.BootRefines | xv6/kernel/bio.c:39-57 | binit satisfies the invariant over any disk |
| BufferCache.NeverRecycled | xv6/kernel/bio.c:62-94 | a buffer with refcnt > 0 or B_DIRTY keeps its key, its valid contents and its pin through every operation of anybody else |
| BufferCache.ChooseIsRight | xv6/kernel/bio.c:62-94 | bget returns the buffer of the key if there is one, else an unused clean one |
| BufferAge.OldestIsRecycled | xv6/kernel/bio.c:62-94 | in every run from binit, a bget of a block that is not cached takes over, of the buffers that nobody uses and that are clean, the one released longest ago, and changes no other |
| BufferAge.ListIsByAge | xv6/kernel/bio.c:121-142 | in every run the list is ordered by the time of the last release |
| BufferCache.GetKeepsInv | xv6/kernel/bio.c:62-94 | recycling a buffer keeps one buffer per key and loses no newer contents |
| BufferCache.MoveToFrontPermutes | xv6/kernel/bio.c:121-142 | moving a released buffer to the front keeps the list a permutation of all buffers |
| BufferList.BCache.constructor | xv6/kernel/bio.c:39-57 | binit links the buffers into one doubly linked ring whose value is the boot cache |
| BufferList.BCache.FindCached | xv6/kernel/bio.c:70-79 | the forward walk finds the first buffer of the key along next |
| BufferList.BCache.FindRecyclable | xv6/kernel/bio.c:79-93 | the backward walk finds the least recently used buffer that is unused and clean |
| BufferList.BCache.BGet | xv6/kernel/bio.c:62-94 | bget on the linked list is the choice and update of the cache value; it panics exactly when no buffer fits |
| BufferList.BCache.MoveToFront | xv6/kernel/bio.c:130-139 | the six pointer writes leave next and prev spelling the list with the buffer in front |
| BufferList.BCache.BRelse | xv6/kernel/bio.c:121-142 | brelse on the linked list is unlock and put of the cache value |
| BufferList.UnlinkSpells | xv6/kernel/bio.c:133-134 | taking a node out of the ring leaves next and prev spelling the rest |
| BufferList.PushSpells | xv6/kernel/bio.c:135-138 | putting a node behind the head leaves next and prev spelling it in front |
| CrashLog.CrashAtomicity | xv6/kernel/log.c:69-122 | a crash after any block write of commit, then any number of crashes inside recovery, then a complete recovery leaves all home blocks old or all new, according to whether the header had been written |
| CrashLog.CommitCanCrash | xv6/kernel/log.c:177-202 | recovery after one crash inside commit gives the old or the new home blocks, never a mixture |
| CrashLog.RecoveryCanCrash | xv6/kernel/log.c:69-122 | every disk that recovery passes through can be recovered again with the same outcome |
| CrashLog.ChainRecovers | xv6/kernel/log.c:115-122 | any chain of interrupted recoveries ends with the home blocks one uninterrupted recovery gives |
| CrashLog.InstallAgain | xv6/kernel/log.c:69-82 | installing a log again after a partial install gives the same home blocks |
| CrashLog.RecoverDeterministic | xv6/kernel/log.c:115-122 | recovery determines the home blocks |
| CrashLog.CommittedRecovers | xv6/kernel/log.c:177-202 | once the header names the list, recovery puts exactly the logged contents at home |
| CrashLog.CommitPointRecoverable | xv6/kernel/log.c:192-202 | every disk that commit passes through can be recovered |
| CrashLog.HeadRoundTrip | xv6/kernel/log.c:85-113 | read_head gives back the list that write_head stored |
| CrashLog.TxnIsAtomic | xv6/kernel/log.c:192-202 | a transaction with any crashes is all or nothing |
| CrashLog.HistoryIsAtomic | xv6/kernel/log.c:115-202 | over every history of transactions and crashes the home blocks are those of an ideal store that applies exactly the durable ones |
| Log.Store.BRead | xv6/kernel/bio.c:97-107 | bread by commit, with any reads of other processes before and between its steps and waiting while the block is locked, returns the newest contents in a locked buffer and changes no pin; bget finds a buffer whenever the block is pinned or there are more buffers than pinned blocks and handles |
| Log.Store.BWrite | xv6/kernel/bio.c:110-117 | bwrite puts the buffer on disk and unpins it, and no other block changes, whatever others read meanwhile |
| Log.Store.Copy | xv6/kernel/log.c:74-80 | the loop body copies the newest contents of one block over the other on disk, unpins that one and no other, under any interleaving with readers, who may hold either block before and after |
| Log.Store.WriteHead | xv6/kernel/log.c:101-113 | write_head makes the disk name exactly the list and changes nothing else, under any interleaving with readers |
| Log.Store.ReadHead | xv6/kernel/log.c:85-96 | read_head loads exactly the list the disk names |
| Log.Store.WriteLog | xv6/kernel/log.c:177-190 | under any interleaving with readers write_log copies the newest contents of the listed blocks into the log, each disk on the way being a log step; alone, with the listed blocks pinned, it finishes if and only if the list is empty or a buffer is free |
| Log.Store.InstallTrans | xv6/kernel/log.c:69-82 | under any interleaving with readers install_trans copies the logged blocks home, each disk on the way being an install step |
| Log.Store.Commit | xv6/kernel/log.c:192-202 | under any interleaving with readers every disk on the way is a commit point, and in the end home equals the newest contents, the log is clean and nothing is pinned; bget never panics if all listed blocks are pinned and there are more buffers than listed blocks and reader handles; alone it finishes if and only if the list is empty or a buffer is not pinned |
| Log.Store.RecoverFromLog | xv6/kernel/log.c:115-122 | recovery passes only through recoverable disks and ends clean and recovered; bget never panics with two buffers more than there are other handles |
| Log.Store.LogWrite | xv6/kernel/log.c:213-233 | log_write absorbs or appends the block, pins its buffer, and keeps every listed block pinned |
| Log.Store.constructor | xv6/kernel/log.c:53-66 | a machine that boots on any disk starts with an empty list, nothing pinned and the disk as its contents |
| Log.FillHead | xv6/kernel/log.c:104-110 | the loop stores the count and the numbers in the header words |
| Log.DrainHead | xv6/kernel/log.c:89-94 | the loop loads as many numbers as the header counts |
| Log.CommitIsNewest | xv6/kernel/log.c:192-202 | after a commit the disk and the newest contents agree outside the log |
| Log.UnpinnedIsOnDisk | xv6/kernel/log.c:224-233 | a block that is not pinned is on the disk |
| Log.Absorb | xv6/kernel/log.c:224-230 | absorption keeps the list free of duplicates and adds exactly the block |
| Log.RoomToCommit | xv6/kernel/log.c:192-202 | more buffers than listed blocks are the room that commit needs |
| LogOthers.ReadBystands | xv6/kernel/file.c:97-112 | a read of another process changes no pin, no disk block, and neither the block nor the contents of any buffer that commit has |
| LogOthers.RoomIsThere | xv6/kernel/bio.c:79-93 | with more buffers than pinned blocks and handles together bget finds one, each handle having at most one buffer |
| LogOthers.StepKeepsCrowd | xv6/kernel/bio.c:62-142 | no step gives a handle a second buffer |
| LogRuns.StepKeepsListed | xv6/kernel/log.c:213-233 | any step of an operation or a reader keeps log.lh the list of exactly the pinned blocks, each once and none in the log |
| LogRuns.RunsLeadToCommit | xv6/kernel/log.c:204-233 | after any interleaved run of bread, modify, log_write and brelse by any number of processes, commit can start once nobody is in the middle of a change and the list fits; all blocks outside the list are on the disk already |
| LogRuns.RunsLeaveRoom | xv6/kernel/log.c:192-202 | and with more buffers than listed blocks everything is there that commit needs not to panic |
| LogRuns.RoomIff | xv6/kernel/param.h:11-12 | after any run of operations a buffer is left for commit if and only if there are more buffers than listed blocks; with NBUF equal to LOGSIZE, if and only if the list is not full |
| LogRuns.RunKeepsCrowd | xv6/kernel/bio.c:62-142 | such a run leaves buffers only to the handles that took part, each at most one |
| LogRoom.FewPinned | xv6/kernel/bio.c:79-93 | with more buffers than pinned blocks one buffer is free |
| LogRoom.FreeIff | xv6/kernel/bio.c:79-93 | if the pinned blocks are exactly the listed ones, one buffer is free if and only if there are more buffers than these |
| LogRoom.AllPinnedIsStuck | xv6/kernel/bio.c:79-93 | bget panics for an uncached block when every buffer is pinned |
| LogRoom.RecyclableIsFound | xv6/kernel/bio.c:79-93 | bget finds a buffer whenever one is unused and clean |
| GroupCommit.GroupCommitIsSafe | xv6/kernel/log.c:126-174 | over every interleaving: entries plus unused reservations stay within LOGSIZE, commit runs only with nothing outstanding, an idle log is empty, the list has no duplicates |
| GroupCommit.StepKeepsInv | xv6/kernel/log.c:126-233 | each critical section of begin_op, log_write, end_op and commit keeps that invariant |
| GroupCommit.BeginKeepsInv | xv6/kernel/log.c:126-141 | begin_op admits an operation only when its reservation fits |
| GroupCommit.AppendKeepsInv | xv6/kernel/log.c:213-233 | an append by an operation stays within its reservation |
| GroupCommit.EndKeepsInv | xv6/kernel/log.c:145-174 | end_op hands over to one committer exactly when it was the last |
| GroupCommit.CommitKeepsInv | xv6/kernel/log.c:145-174 | committing empties the list and wakes the waiters with the invariant kept |
| GroupCommit.NoProtocolPanic | xv6/kernel/log.c:126-174 | no begin_op succeeds during a commit, an active operation is counted and sees no commit, and whoever is asleep in begin_op still has to wait, for an active operation or a commit that will wake it |
| LogCapacity.StaysInRegionIff | xv6/kernel/log.c:213-233 | entries stay inside the log region in every run if and only if log.size is at most 1 or larger than LOGSIZE: the capacity test is made before the lock is taken |
| LogCapacity.RaceOverflows | xv6/kernel/log.c:213-233 | for every size from 2 to LOGSIZE a run of three processes that fills the region and one entry more |
| LogCapacity.PanicIff | xv6/kernel/log.c:218-230 | for every log size and every number k of blocks an operation has logged, exactly when some run brings it to the capacity panic, on a block it logged before or on a new one: with a log larger than LOGSIZE if and only if k is MAXOPBLOCKS and the block would be absorbed, with the size of mkfs also at k = 9 |
| LogCapacity.PanicNeeds | xv6/kernel/log.c:218-221 | the panic in a run needs k at least the capacity less the reservations of the others, and at most the capacity |
| LogCapacity.PanicRun | xv6/kernel/log.c:213-233 | and for each such k there is a run of three operations that meets it |
| FsFile.FileSystem.Balloc | xv6/kernel/fs.c:56-78 | balloc takes the first block whose bit is clear, zeroes it, logs both blocks, and fails only when every bit is set |
| FsFile.FileSystem.Bmap | xv6/kernel/fs.c:373-401 | bmap returns the n-th block of the file across the direct and indirect half, allocates only what is missing, fills it with zeros, keeps ownership, moves no block of any file, logs all and only what it changed, and leaves the inode alone if and only if its address was there |
| FsFile.FileSystem.Writei | xv6/kernel/fs.c:482-512 | for every file, with holes or without: writei replaces exactly [off, off+n) of the flat file, size becomes the maximum, other files and bytes are unchanged, no hole appears, every changed block is logged; the inode on disk is afterwards the one in memory if and only if the file grew, or every direct block of the range was there and the indirect block too where the range reaches it; a chunk-sized write logs at most 4 data, 4 bitmap, the indirect and the inode block, and a fifth bitmap block only if it starts inside a hole; -1 exactly for the three rejected ranges |
| FsFile.FileSystem.WriteLoop | xv6/kernel/fs.c:497-505 | the loop writes every byte of the range, holes included, and counts what it logs and which addresses it stores in the inode |
| FsFile.FileSystem.WriteBlock | xv6/kernel/fs.c:498-503 | one turn writes its bytes into one block of the file and nothing else |
| FsFile.FileSystem.SetSize | xv6/kernel/fs.c:507-511 | iupdate is called exactly when the file grew; otherwise the disk inode is left as it was, whatever bmap did to the one in memory |
| FsFile.FileSystem.Readi | xv6/kernel/fs.c:453-477 | for every file, with holes or without: readi returns exactly the bytes of the flat file from off up to the end and no file reads differently afterwards; nothing at all has changed, and nothing has been logged, if and only if no block of the range was a hole |
| FsFile.FileSystem.Bfree | xv6/kernel/fs.c:81-96 | bfree clears one bit and panics exactly when it was clear |
| FsFile.FileSystem.Itrunc | xv6/kernel/fs.c:408-436 | itrunc frees exactly the blocks that the inode owned, never reaches the freeing-free-block panic, logs every change, leaves the inode empty in memory and on disk and every other file as it was |
| FsFile.FileSystem.WriteTxn | xv6/kernel/file.c:141-146 | each transaction of filewrite logs every block of the disk that it changes; in a file without holes whose inode is on disk it logs at most MAXOPBLOCKS blocks and both stay true, in any other file one more |
| FsFile.FileSystem.FileWrite | xv6/kernel/file.c:134-153 | filewrite writes all bytes, or stops only at the file-size limit; the file is the old one with the written prefix in place; in a file without holes no transaction logs more than MAXOPBLOCKS, in one with holes none logs more than one more |
| FsHoles.FindFree | xv6/kernel/fs.c:562-571 | dirlink looking for a free entry in the root directory that mkfs makes for 30 files: the entry reads as zeros, and the read has allocated a block and logged |
| FsHoles.Dirlink | xv6/kernel/fs.c:552-580 | the new entry is then in the directory in memory, the inode on disk is unchanged and differs from it, and the directory as it is on disk still reads zeros there |
| Fs.AllocDirect | xv6/kernel/fs.c:380-384 | allocating a block for an inode address gives it one owner and disturbs no file |
| Fs.AllocEntry | xv6/kernel/fs.c:387-397 | allocating a block for an indirect entry gives it one owner and disturbs no file |
| Fs.AllocKeepsInv | xv6/kernel/fs.c:56-78 | a block whose bit is clear is owned by nobody and is no metadata |
| Fs.WordSet | xv6/kernel/fs.c:391-395 | a word stored in an indirect block is read back, and the other words are unchanged |
| Fs.GrowAndFill | xv6/kernel/fs.c:497-505 | bmap and the copy together write exactly the chunk |
| Fs.WriteIsReplace | xv6/kernel/fs.c:482-512 | block writes and the new size make the flat file with the bytes in place |
| Fs.OtherFileSame | xv6/kernel/fs.c:482-512 | a file that shares no block reads the same |
| Fs.GrowsIsQuiet | xv6/kernel/fs.c:373-401 | blocks that bmap adds change the contents of no file |
| Fs.ReadBack | xv6/kernel/fs.c:453-512 | reading the written range of a written file gives the written bytes |
| FsCount.FewBlocks | xv6/kernel/file.c:128-139 | a chunk at any offset logs at most 4 data blocks, 4 bitmap blocks, the indirect block and the inode block, and a fifth bitmap block only if it starts inside a block that is not there |
| FsCount.FewTurns | xv6/kernel/file.c:128-139 | a chunk takes at most 4 turns, and at most 3 if it starts at a block boundary |
| FsWrite.WriteIsDone | xv6/kernel/fs.c:497-511 | the loop and the size update replace the range and keep every other file |
| FsWrite.InodeIsRightIff | xv6/kernel/fs.c:507-511 | a disk inode that was right is right after writei if and only if the file grew or bmap stored no address in the inode |
| FsWrite.StaysWhole | xv6/kernel/fs.c:482-512 | in a file without holes it always stays right |
| FsWrite.ReadIff | xv6/kernel/fs.c:453-477 | a read changes the file system, and logs, if and only if it meets a hole; what every file reads stays the same in any case |
| FsWrite.ReadMore | xv6/kernel/fs.c:468-475 | one more turn of the read fills at most the hole it meets |
| FsWrite.KeptNext | xv6/kernel/fs.c:497-505 | one more turn stores an address in the inode if and only if the one it needs is missing |
| FsWrite.WroteAll | xv6/kernel/file.c:134-153 | the chunks of filewrite together are one replacement |
| FsWrite.IsModest | xv6/kernel/file.c:128-139 | what a chunk-sized call has logged fits in MAXOPBLOCKS, or in one more if it starts inside a hole |
| FsWrite.WriteChangesLogged | xv6/kernel/fs.c:482-512 | every block of the disk that a write changes, bitmap and inode blocks included, is logged; these are all its changes if the inode on disk is the one in memory |
| FsWrite.BothLogged | xv6/kernel/log.c:213-233 | what two operations of a transaction logged together covers what they changed together |
| FsCrash.UnloggedIsSame | xv6/kernel/log.c:204-234 | a disk block that the transaction did not log holds the same bytes before and after, for data, bitmap and inode blocks and any encoding of them |
| FsCrash.NewIsStored | xv6/kernel/log.c:69-82 | installing the logged blocks on a disk that stores the old file system gives one that stores the new |
| FsCrash.ChangeIsAtomic | xv6/kernel/log.c:177-202 | a transaction of any operations that logs what they change leaves, after a crash at any block write of commit and any number of crashes in recovery, exactly the file system before or the one after |
| FsCrash.WritesAreAtomic | xv6/kernel/file.c:141-146 | so any number of writes to any files, joined by group commit and crashed anywhere, leave every file with all of its writes, in order, or with none |
| FsCrash.WritesMeans | xv6/kernel/file.c:141-146 | writes one after the other compose: contents, shape, and what has been logged together |
| FsCrash.CallsMean | xv6/kernel/fs.c:482-512 | however the turns of any number of writei calls interleave, each file reads as if its own calls had run by themselves |
| FsCrash.MoveMeans | xv6/kernel/fs.c:497-511 | one turn of one call, or its new size, leaves what every call has still to make of its file |
| FsCrash.MovesAreCovered | xv6/kernel/fs.c:497-511 | what interleaved turns logged together covers what they changed together |
| FsCrash.CallsAreAtomic | xv6/kernel/file.c:141-146 | calls of one group commit that interleave turn by turn leave, after a crash anywhere, every file with all of its writes or with none |
| InodeRefs.FindSlot | xv6/kernel/fs.c:250-262 | the loop of iget returns the slot in use for the inode, else the first unused one, else none |
| InodeRefs.FindIsRight | xv6/kernel/fs.c:242-273 | what iget returns is the slot of the inode or, when no slot in use has it, an unused one; it panics only when every slot is in use and none is of the inode |
| InodeRefs.StepKeepsInv | xv6/kernel/fs.c:195-353 | each critical section of ialloc, iget, idup, ilock, iunlock, iput and of the link count changes, by any process, keeps ref equal to the pointers, one slot per inode, cached nlink equal to the disk, and live pointers on allocated inodes |
| InodeRefs.PointersAreSafe | xv6/kernel/fs.c:242-313 | in every run of any number of processes from boot whose lookups are safe, ref is the number of pointers, no inode has two slots in use, and whoever has a pointer meets neither the ref panic nor the no-type panic of ilock |
| InodeRefs.FreeingIsSafe | xv6/kernel/fs.c:332-353 | in every such run, a process in iput that has decided to truncate and free has the only pointer to the inode, which has no link and no entry, although it let go of icache.lock after reading ref |
| InodeRefs.DropIsEnabled | xv6/kernel/fs.c:350-352 | the decrement that ends iput never takes ref below 0 |
| InodeRefs.GotKeepsInv | xv6/kernel/fs.c:242-273 | iget of an inode that is allocated, not between the halves of ialloc and not about to be freed keeps the invariant, even when the slot still belongs to a finishing iput |
| InodeRefs.FreeKeepsInv | xv6/kernel/fs.c:341-346 | freeing the inode on disk leaves no live pointer to a free inode |
| InodeRefs.DoomedIsAlone | xv6/kernel/fs.c:336-346 | every pointer to the inode that is about to be freed is the one pointer of the process that frees it |
| InodeRefs.LookupIsSafeIff | xv6/kernel/fs.c:525-549 | following a directory entry keeps the invariant if and only if the inode is allocated, not half-way through ialloc and not about to be freed |
| InodeRefs.NamedIsGettable | xv6/kernel/fs.c:525-549 | an inode that an entry counted by nlink names is such an inode, in every state that satisfies the invariant |
| InodeRefs.HeldIsGettable | xv6/kernel/fs.c:525-549 | an inode to which the process already has a live pointer is such an inode too |
| InodeCounts.PointersAreCounted | xv6/kernel/fs.c:242-353 | in every run from boot, a process has exactly the pointers to an inode that iget and idup gave it and that it has not put, whichever slots the inode was in |
| InodeCounts.StepCounts | xv6/kernel/fs.c:242-353 | each step changes how many pointers to an inode a process has by that much, and no other step does |
| InodeCounts.LinksAreCounted | xv6/kernel/sysfile.c:118-239 | while an inode lasts, its nlink on disk is what it was plus the links made and less those taken away by all processes, although they are written from the copy in memory; likewise its names |
| InodeCounts.StepLinks | xv6/kernel/fs.c:195-353 | one step at a time, with ialloc and the freeing in iput |
| InodeCounts.LockExcludes | xv6/kernel/fs.c:288-313 | after ilock its caller has a true copy and nobody may lock the inode |
| InodeCounts.UnlockAdmits | xv6/kernel/fs.c:316-324 | after iunlock everybody with a pointer may |
| InodeOrphans.OrphanIff | xv6/kernel/fs.c:325-353 | after any step an inode is allocated, unlinked and without anybody left to free it if and only if it was before and this is no lookup of it, or this step is an iput that gives up the last live pointer after reading ref above 1 (or an inode never read) |
| InodeOrphans.NeverFreedIff | xv6/kernel/fs.c:325-353 | over every run from boot an unlinked inode is left with nobody to free it if and only if some iput discarded it in that way and nobody has looked it up since |
| InodeOrphans.TwoPutsFreeNothing | xv6/kernel/fs.c:332-353 | a run in which two iputs of an unlinked file both read ref 2 and neither frees it |
| InodeOrphans.OneByOneFrees | xv6/kernel/fs.c:332-353 | the same run with one iput after the other frees it |
| InodeOrphans.StaleNameReachesFreeInode | xv6/kernel/fs.c:242-313 | a run after which a lookup of a freed number, such as .. has in LinkStale.StaleDotDot, leads a process to lock an inode that is not allocated |
| FsTrunc.TruncKeepsInv | xv6/kernel/fs.c:408-436 | clearing the bits of one inode keeps ownership exact for all the others |
| FsTrunc.NextIsInUse | xv6/kernel/fs.c:408-436 | the next block itrunc frees is still marked in use |
| FsTrunc.ClearNext | xv6/kernel/fs.c:408-436 | freeing one more place clears one more bit |
| Mkfs.Build | xv6/user/mkfs.c:39-140 | the finished image satisfies the ownership invariant, its free map is exact, every file reads as its host file did, every byte of the root is that of its entry and the bytes behind the entries are zero; it succeeds if and only if no file or directory is too large and the blocks needed, indirect blocks included, fit in the image and in one block of free map |
| Mkfs.RootHasEntry | xv6/user/mkfs.c:92-122 | byte by byte, entry j of the root is its inode number, low byte first, and its name, cut or filled up with zeros to DIRSIZ |
| Mkfs.RootIsFixed | xv6/user/mkfs.c:130-135 | rounding up the size of the root leaves a hole if and only if the number of entries is a multiple of 32 |
| Mkfs.RoundingIff | xv6/user/mkfs.c:130-135 | rounding a size up leaves a hole exactly when it was a multiple of the block size |
| Mkfs.ThirtyFilesLeaveAHole | xv6/user/mkfs.c:130-135 | with 30 files the root claims two blocks and has the first; reading or writing the next entry meets the hole |
| Mkfs.RoomForThirty | xv6/user/mkfs.c:39-140 | and 30 files without indirect blocks are built into any image with 361 blocks behind the metadata |
| Mkfs.LackingIs | xv6/user/mkfs.c:240-257 | the blocks that one turn of iappend takes are the difference between what the file needs before and after |
| Mkfs.Image.IAppend | xv6/user/mkfs.c:227-269 | iappend appends exactly the data, takes exactly the blocks that the longer file needs, in order, changes no other file, and fails only for want of blocks or beyond MAXFILE |
| Mkfs.Image.Place | xv6/user/mkfs.c:240-257 | the next free block is used exactly where the file has none, and the count of blocks taken is exact |
| Mkfs.Image.CopyIn | xv6/user/mkfs.c:124-125 | the copy loop makes the file equal to the host file |
| Mkfs.Image.AddFile | xv6/user/mkfs.c:102-128 | one argument adds one entry to the root and one file |
| Mkfs.Image.AddData | xv6/user/mkfs.c:124-127 | the data of a file behind its entry, with the blocks they take |
| Mkfs.Image.constructor | xv6/user/mkfs.c:66-84 | an image of zeros satisfies the invariant |
| Mkfs.Balloc | xv6/user/mkfs.c:209-223 | the bitmap block has exactly the first used bits set |
| LinkRuns.LinkCountsAreRight | xv6/kernel/sysfile.c:118-284 | over every sequence of create, link with its undo, unlink and release by any number of processes that makes no entry in an unlinked directory, from any state with right counts, nlink equals the number of live entries other than . that name the inode, plus links in progress |
| LinkRuns.OpKeepsInv | xv6/kernel/sysfile.c:118-284 | each operation, in linked and unlinked directories, keeps counts and directories right if and only if it makes no entry in an unlinked directory; which of them succeed, and what they do, is LinkOps |
| LinkOps.UnlinkDoneIff | xv6/kernel/sysfile.c:184-239 | unlink in a linked directory succeeds if and only if the name is neither dot nor dotdot, a used entry has it, and the inode it names is no directory or one with nothing behind its first two entries; otherwise it is refused, never a panic |
| LinkOps.UnlinkDoes | xv6/kernel/sysfile.c:203-239 | afterwards the name is gone, every other name of every directory leads where it did, the inode has one link less, and so has the parent of a directory |
| LinkOps.CreateDoneIff | xv6/kernel/sysfile.c:241-284 | create succeeds if and only if the name is new, an inode is free and the directory can grow; it is refused if and only if the name is taken |
| LinkOps.CreateDoes | xv6/kernel/sysfile.c:241-284 | then the name leads to the lowest free inode, of that kind and with one link; every other name leads where it did; a new directory has its dots and its parent one link more |
| LinkOps.LinkBeginDoes | xv6/kernel/sysfile.c:118-142 | the first half of link is refused exactly for directories and else only raises the count |
| LinkOps.LinkEndDoes | xv6/kernel/sysfile.c:143-165 | the second half: with the name taken the count is lowered again and nothing else changes, else the name leads to the inode and every other name where it did; a panic exactly if the directory cannot grow |
| LinkOps.LinkUndoDoes | xv6/kernel/sysfile.c:158-165 | the undo path lowers the count and changes nothing else |
| LinkOps.ReleaseDoes | xv6/kernel/fs.c:341-346 | freeing an inode leaves every other inode and its names alone |
| LinkRuns.CreateKeepsInv | xv6/kernel/sysfile.c:241-284 | create of a file or directory in a linked directory keeps every count |
| LinkRuns.CreateNeedsLinkedParent | xv6/kernel/sysfile.c:241-284 | create keeps the counts if and only if the parent is still linked |
| LinkRuns.LinkBeginKeepsInv | xv6/kernel/sysfile.c:118-142 | sys_link counts the link before it exists |
| LinkRuns.LinkEndKeepsInv | xv6/kernel/sysfile.c:144-151 | the new entry takes up the counted link |
| LinkRuns.LinkNeedsLinkedDir | xv6/kernel/sysfile.c:144-151 | the second half of sys_link keeps the counts if and only if the directory is still linked or has the name already |
| LinkRuns.LinkUndoKeepsInv | xv6/kernel/sysfile.c:158-165 | the undo path takes it back |
| LinkRuns.UnlinkKeepsInv | xv6/kernel/sysfile.c:184-239 | unlink keeps every count equal to the entries that name the inode, for directories the parent count too, in every directory |
| LinkRuns.DeadDirRefuses | xv6/kernel/sysfile.c:184-239 | there is nothing to unlink in an unlinked directory |
| LinkRuns.UnlinkNeverPanics | xv6/kernel/sysfile.c:184-239 | unlink: nlink < 1 is never reached, in any directory |
| LinkRuns.ReleaseKeepsInv | xv6/kernel/fs.c:332-353 | iput of an unlinked inode frees one that nothing names |
| LinkRuns.ImageInv | xv6/user/mkfs.c:89-128 | the root directory with files that mkfs writes satisfies the invariant if and only if the names it is called with are different and none is . or .. |
| LinkRuns.FromImage | xv6/kernel/sysfile.c:118-284 | so from a new file system on every count is right in every such run |
| LinkStale.CreateInUnlinkedDir | xv6/kernel/sysfile.c:241-284 | a run from the image in which a directory is made and removed, and a create inside it loses the invariant |
| LinkStale.LinkInUnlinkedDir | xv6/kernel/sysfile.c:144-151 | the same run with a link of a file into the removed directory |
| LinkStale.StaleDotDot | xv6/kernel/sysfile.c:184-239 | a run from the image, with right counts throughout, after which .. of an unlinked directory names a free inode |
| MkfsLinks.RootIsImage | xv6/user/mkfs.c:89-122 | read back as struct dirents, up to the first zero of a name, the root directory of a finished image is exactly the directory that Links.Image starts from, for names of at most DIRSIZ bytes without zeros, and only free entries come behind |
| LinkCounts.EmptyDirHasOneLink | xv6/kernel/sysfile.c:168-181 | a directory that isdirempty accepts has one link |
| LinkCounts.ParentHasTwoLinks | xv6/kernel/sysfile.c:221-224 | the parent of a linked directory has two links |
| Links.DirLookup | xv6/kernel/fs.c:525-549 | dirlookup returns the first used entry of the name |
| Links.DirLink | xv6/kernel/fs.c:552-579 | dirlink refuses a present name and otherwise fills the first free entry or appends one |
| Links.DirIsEmpty | xv6/kernel/sysfile.c:168-181 | isdirempty is true exactly when nothing follows the first two entries |
| ProcRuns.FromBoot | xv6/kernel/proc.c:80-577 | in every reachable state: parents are alive with smaller pids, a process asleep in wait has a child and no zombie child, CPUs and RUNNING processes match one to one, no pid is reaped twice, no panic is reachable; what each step does is ProcSteps |
| ProcRuns.EveryRunIsSafe | xv6/kernel/proc.c:80-577 | every run keeps the invariant and every enabled step succeeds |
| ProcRuns.StepKeepsInv | xv6/kernel/proc.c:80-577 | each critical section keeps the invariant |
| ProcRuns.ForkAllocKeepsInv | xv6/kernel/proc.c:80-99 | allocproc in fork keeps the invariant |
| ProcRuns.ForkNextKeepsInv | xv6/kernel/proc.c:207-219 | setting the parent, or giving up, keeps it |
| ProcRuns.ForkDoneKeepsInv | xv6/kernel/proc.c:232-241 | making the child RUNNABLE keeps it |
| ProcRuns.ExitKeepsInv | xv6/kernel/proc.c:246-287 | exit hands its children to init, wakes the right parents and becomes a zombie |
| ProcRuns.WaitKeepsInv | xv6/kernel/proc.c:291-331 | wait reaps one zombie child, or fails, or sleeps only with a live child |
| ProcRuns.AncestorsEndAtInit | xv6/kernel/proc.c:246-287 | the chain of parents of every process ends at init |
| ProcRuns.BootInv | xv6/kernel/proc.c:139-173 | the table after userinit satisfies the invariant |
| ProcRuns.YieldKeepsInv | xv6/kernel/proc.c:465-472 | yield keeps the invariant |
| ProcRuns.IdleKeepsInv | xv6/kernel/proc.c:440-462 | the idle case keeps the invariant |
| ProcTree.SchedKeepsInv | xv6/kernel/proc.c:370-417 | sched from any state it can be called in succeeds and matches CPUs and RUNNING processes again; whom it picks is ProcSteps.SchedSwitches |
| ProcSteps.SwitchingStep | xv6/kernel/proc.c:246-577 | every step that calls sched, in exit, wait, sleep, yield or the clock interrupt, leaves the caller as it should be and then switches: the CPU idles if and only if nobody is RUNNABLE, else it runs the first RUNNABLE process behind rrindex, which rrindex becomes, and no other entry changes |
| ProcSteps.SchedSwitches | xv6/kernel/proc.c:370-417 | sched does that switch from every table |
| ProcSteps.PicksFirst | xv6/kernel/proc.c:425-437 | roundrobin finds nobody if and only if nobody is RUNNABLE, else the one that is least far behind rrindex going round |
| ProcSteps.ForkAllocStep | xv6/kernel/proc.c:80-99 | allocproc fails if and only if no slot is unused; else the first unused one becomes an EMBRYO with the next pid, and nothing else changes |
| ProcSteps.ForkSteps | xv6/kernel/proc.c:199-241 | the rest of fork gives the slot back, or sets the parent, or makes the child RUNNABLE, and changes no other entry |
| ProcSteps.WaitReturns | xv6/kernel/proc.c:291-331 | wait without sleeping reaps the first exited child and frees its slot, or returns with nothing changed, having no child or having been killed |
| ProcSteps.WakeupStep | xv6/kernel/proc.c:537-554 | wakeup makes every sleeper on the channel RUNNABLE, nobody else, and changes nothing else |
| ProcSteps.KillStep | xv6/kernel/proc.c:559-577 | kill marks the first process with the pid and makes it RUNNABLE if it sleeps, and changes nothing else; without such a process nothing changes |
| ProcFair.BoundedWaiting | xv6/kernel/proc.c:370-437 | in every run, a process that is RUNNABLE at its start is put on a CPU by one of the first NPROC steps that call sched, on whatever CPUs |
| ProcFair.NobodyStarves | xv6/kernel/proc.c:139-577 | so it is in every state reachable from boot |
| ProcFair.SwitchGetsCloser | xv6/kernel/proc.c:370-437 | a RUNNABLE process that sched passes over is strictly less far behind rrindex afterwards |
| ProcTree.RelabelAndSched | xv6/kernel/proc.c:497-532 | a process that gives up its state and then calls sched keeps the invariant |
| ProcTree.WakingKeepsInv | xv6/kernel/proc.c:537-577 | wakeup1 and kill keep the invariant |
| ProcTable.BoundedWaiting | xv6/kernel/proc.c:425-437 | a process that stays RUNNABLE is chosen within NPROC calls of roundrobin, whatever else changes between them |
| ProcTable.SkippedGetsCloser | xv6/kernel/proc.c:425-437 | each call that skips it brings rrindex strictly closer |
| ProcTable.PTable.PickNext | xv6/kernel/proc.c:425-437 | roundrobin returns the first RUNNABLE process behind rrindex and moves rrindex there |
| ProcTable.PTable.Wakeup1 | xv6/kernel/proc.c:537-545 | wakeup1 makes exactly the sleepers on the channel RUNNABLE |
| ProcTable.PTable.AllocProc | xv6/kernel/proc.c:80-99 | allocproc takes the first UNUSED entry and the next pid |
| ProcTable.PTable.AbandonChildren | xv6/kernel/proc.c:274-281 | the loop gives every child to init and wakes init for zombies |
| ProcTable.PTable.ScanChildren | xv6/kernel/proc.c:300-320 | the scan finds the first zombie child, or whether there is a child |
| ProcTable.PTable.Kill | xv6/kernel/proc.c:559-577 | kill marks the first process with the pid and wakes it if it sleeps |
| SleepLock.NoLostWakeup | xv6/kernel/sleeplock.c:22-42 | for any number of processes and every interleaving of single lock operations, with kills: with lk free a sleeper implies a held lock, the holder is unique, and somebody awake will wake the sleepers |
| SleepLock.StepKeepsInv | xv6/kernel/proc.c:497-554 | each step of acquiresleep, releasesleep, sleep and wakeup keeps the lock discipline |
| SleepLock.RunKeepsInv | xv6/kernel/sleeplock.c:22-42 | so does every run, without a bound on the number of processes |
| SleepLock.AcquireReturnsHolding | xv6/kernel/sleeplock.c:22-32 | in every run, kills included, a process that has come out of acquiresleep took the lock on the way |
| SleepLock.OwnerKeepsLock | xv6/kernel/sleeplock.c:34-42 | an owner is without the lock only after giving it up in releasesleep |
| SleepLock.StepKeepsCall | xv6/kernel/sleeplock.c:22-42 | what one step, of the process or of another, makes of a call |
| PipeRuns.PipeIsFifo | xv6/kernel/pipe.c:78-121 | in every run, kills included, the bytes delivered are a prefix of the bytes accepted and at most PIPESIZE are in flight, also across the wrap-around of the 32-bit counters; whose bytes they are is PipeCalls.CallsMoveBytes |
| PipeRuns.StepKeepsFifo | xv6/kernel/pipe.c:59-121 | each critical section keeps the ring equal to the bytes in flight |
| PipeRuns.StepKeepsSleepers | xv6/kernel/pipe.c:59-121 | a step keeps every sleeper with a reason to sleep if and only if it is not a killed writer that returns while a reader sleeps on bytes it put in |
| PipeRuns.NoLostWakeup | xv6/kernel/pipe.c:59-121 | when nobody is killed a sleeping reader means empty and open, a sleeping writer full and open, and reader and writer never sleep both |
| PipeRuns.KilledReturns | xv6/kernel/pipe.c:84-111 | in every run whoever has been killed is not asleep on the pipe, and the next turn of its call ends the call |
| PipeRuns.ClosedEnds | xv6/kernel/pipe.c:59-121 | in every run an end is open until it is closed; once the write end is closed nobody sleeps in a read and its next turn ends it, with what is there or with 0; once the read end is closed the next turn of a write ends it |
| PipeCalls.CallsMoveBytes | xv6/kernel/pipe.c:77-121 | in every run of a new pipe, call by call: what a write has put in, followed by what it has still to put in, is what it was called with; one that returns uninterrupted has put in all of it and returned its length; a read returns the next bytes of the stream, at most n, and fewer only if it left the pipe empty; the two streams are interleavings of what the calls moved |
| PipeCalls.StepKeepsBook | xv6/kernel/pipe.c:77-121 | each critical section keeps that record of the calls |
| PipeCalls.WriterDoes | xv6/kernel/pipe.c:83-97 | a turn of a writer puts a prefix of its rest behind what has been accepted, and returns only with all of it in or interrupted |
| PipeCalls.ReaderDoes | xv6/kernel/pipe.c:106-120 | a turn of a reader returns the next bytes in order, or -1 without any, or sleeps without any |
| PipeRuns.KilledWriterLosesWakeup | xv6/kernel/pipe.c:85-89 | a run in which a killed writer leaves a reader asleep on a full pipe |
| PipeRuns.Buffer.Put | xv6/kernel/pipe.c:84-94 | the loop of pipewrite puts bytes until the ring is full |
| PipeRuns.Buffer.Take | xv6/kernel/pipe.c:113-117 | the loop of piperead takes bytes until the ring is empty |
| Pipe.CounterTests | xv6/kernel/pipe.c:85-115 | the tests on wrapped counters mean full and empty |
| Pipe.PutSomeHolds | xv6/kernel/pipe.c:84-94 | what is put in is appended in order and stops only at full |
| Pipe.TakeSomeHolds | xv6/kernel/pipe.c:113-117 | what is taken out comes in order and stops only at empty |
| UmallocHeap.Heap.Malloc | xv6/user/umalloc.c:63-90 | malloc returns a block of exactly the rounded-up units with its header, apart from every live block, and keeps conservation; it asks sbrk for memory if and only if no free block is large enough, then for exactly that many units and at least 4096, and returns 0 if and only if that fails |
| UmallocHeap.Heap.Free | xv6/user/umalloc.c:24-44 | free takes exactly the block out of the live ones and links it in, coalesced with both neighbours |
| UmallocHeap.Heap.Morecore | xv6/user/umalloc.c:46-61 | morecore adds at least 4096 units to the free list, or changes nothing |
| UmallocHeap.Heap.FindPlace | xv6/user/umalloc.c:29-31 | the search loop of free ends at the one place below the block |
| UmallocHeap.Heap.Search | xv6/user/umalloc.c:74-89 | the search loop of malloc finds the first block behind freep that fits, or goes once round without one |
| UmallocHeap.Heap.CutOut | xv6/user/umalloc.c:76-83 | an exact fit is unlinked, else the tail is cut off |
| UmallocHeap.InsertEncodes | xv6/user/umalloc.c:32-42 | the pointer writes of free leave memory spelling the list with the block inserted and merged |
| UmallocHeap.CarveEncodes | xv6/user/umalloc.c:75-83 | the pointer writes of malloc leave memory spelling the list with the block carved off |
| Umalloc.FreeKeepsInv | xv6/user/umalloc.c:24-44 | freeing keeps the list ordered, disjoint and fully coalesced, and every unit free or live, not both |
| Umalloc.MallocKeepsInv | xv6/user/umalloc.c:63-90 | so does allocating |
| Umalloc.GrowKeepsInv | xv6/user/umalloc.c:46-61 | so does getting more from sbrk |
| Umalloc.UnitsAddUp | xv6/user/umalloc.c:24-90 | the sizes on the free list and the sizes of the live blocks add up to the units obtained from sbrk |
| VmSpace.Machine.WalkPgdir | xv6/kernel/vm.c:35-55 | walkpgdir finds the entry, making a page table only if asked and missing, for exactly one frame; it returns 0 exactly if the table is missing and not to be made or no frame is free; no mapping changes |
| VmSpace.Machine.MapPage | xv6/kernel/vm.c:60-80 | mappages sets exactly the one entry; remap exactly when it was present; -1 exactly when its page table is missing and no frame is free |
| VmSpace.Machine.Allocuvm | xv6/kernel/vm.c:228-256 | allocuvm adds exactly the pages, every byte of them zero, of [PGROUNDUP(oldsz), newsz); in an empty range it returns 0 exactly when there are fewer free frames than pages and missing page tables; it panics exactly when the frames last beyond the first page of the range that is there; a failure leaves that range empty and all else as before, so the mapping is as it was if and only if the range was empty; no frame is lost |
| VmShort.FailedGrowthUnmaps | xv6/kernel/vm.c:228-256 | a call of allocuvm that fails and takes away a page that was there before |
| VmAlloc.EndsAsFated | xv6/kernel/vm.c:238-254 | the turn that ends the loop ends it as the free frames at the call decide |
| VmCount.NeedNext | xv6/kernel/vm.c:44-53 | mapping one page takes a frame, and another if its page table is missing, off what the rest of the range needs |
| VmSpace.Machine.Deallocuvm | xv6/kernel/vm.c:262-286 | deallocuvm with its directory skip leaves the same state as visiting every page |
| VmSpace.Machine.DeallocTurn | xv6/kernel/vm.c:272-284 | a turn that skips a missing page table stands for all the visits it saves |
| VmDealloc.SkipIsVisit | xv6/kernel/vm.c:272-275 | without a page table visiting up to the next directory entry does nothing |
| VmDealloc.VisitAllKeepsInv | xv6/kernel/vm.c:262-286 | visiting every page unmaps exactly those pages and frees exactly their frames |
| VmSpace.Machine.Freevm | xv6/kernel/vm.c:290-305 | freevm frees every user page, page table and the directory of the space exactly once, no other frame, and no other space changes |
| VmFree.AllFreed | xv6/kernel/vm.c:290-305 | the frames freed by the three stages are exactly those of the space |
| VmSpace.Machine.Setupkvm | xv6/kernel/vm.c:118-136 | setupkvm builds a space with exactly the pages of kmap and exactly their page tables, or returns 0 with everything as before, exactly when there are fewer free frames than one and those page tables; it never panics on disjoint regions |
| VmCopy.KmapTables | xv6/kernel/vm.c:105-115 | the regions of kmap do not overlap and take 64 page tables |
| VmCopy.KernelStuck | xv6/kernel/vm.c:129-134 | a region that stops for want of a page table started with fewer frames than all regions take |
| VmSpace.Machine.Copyuvm | xv6/kernel/vm.c:322-350 | copyuvm gives a space with equal bytes and flags on its own frames and the parent unchanged, or 0 with every space as before, exactly when there are fewer free frames than directory, page tables and pages; a frame is lost exactly when the frames left after setupkvm are 1 more than a multiple k of 1025 with 1024 * k below the pages |
| VmSpace.Machine.CopyTurn | xv6/kernel/vm.c:333-345 | a turn copies one page; it leaves a frame over exactly when that was the last one and the page table is missing |
| VmShort.CopyLosesAFrame | xv6/kernel/vm.c:338-349 | with the kernel regions of vm.c, a call of copyuvm with 66 free frames loses one |
| VmCount.LosesFrameIff | xv6/kernel/vm.c:333-345 | where the frames end decides whether one is lost, in terms of the frames at the start |
| VmCopy.PagesAreDisjoint | xv6/kernel/vm.c:322-350 | no two pages of one or two spaces share a frame |
| Vm.MapKeepsInv | xv6/kernel/vm.c:60-80 | mapping a frame that nothing uses keeps one use per frame |
| Vm.UnmapKeepsInv | xv6/kernel/vm.c:275-284 | unmapping leaves the frame without a use |
| Vm.AddTabKeepsInv | xv6/kernel/vm.c:44-53 | a new page table changes no mapping |
| Kalloc.Kmem.KAlloc | xv6/kernel/kalloc.c:82-95 | kalloc takes the head of the linked list, which is then not free any more, or 0 exactly when the list is empty |
| Kalloc.Kmem.KFree | xv6/kernel/kalloc.c:59-77 | kfree puts the frame at the head, and panics exactly for an address that is no frame |
| Kalloc.Kmem.FreeRange | xv6/kernel/kalloc.c:46-53 | freerange frees every whole page of the range in order |
| Kalloc.PagesAre | xv6/kernel/kalloc.c:46-53 | these are the aligned pages inside the range, each once |
| Kalloc.LinksPop | xv6/kernel/kalloc.c:88-90 | following the link of the head leaves a list without it |
| Kalloc.LinksPush | xv6/kernel/kalloc.c:70-73 | no frame is on the list twice |
| Shell.ParseCmd | xv6/user/sh.c:327-342 | parsecmd returns if and only if the token sequence of the line means a tree (ShellMeaning), and then that tree, which is the only one; every argument and file string is exactly its token, argv is never full; it terminates on every line |
| Shell.Parser.ParseLine | xv6/user/sh.c:344-359 | parseline consumes what the grammar function consumes and builds its tree |
| Shell.Parser.ParsePipe | xv6/user/sh.c:361-372 | parsepipe likewise; that what is before a bar is the left part is ShellMeaning.TreeMeans |
| Shell.Parser.ParseExec | xv6/user/sh.c:415-446 | parseexec likewise, with argc below MAXARGS |
| Shell.Parser.ParseArgs | xv6/user/sh.c:429-444 | the argument loop collects words and redirections in any order |
| Shell.Parser.ParseBlock | xv6/user/sh.c:399-413 | parseblock likewise |
| Shell.Parser.ParseRedirs | xv6/user/sh.c:374-397 | parseredirs wraps the redirections around the command |
| Shell.NulTerminate | xv6/user/sh.c:449-493 | nulterminate zeroes the byte behind every string of the tree and no other |
| Shell.StringsSurvive | xv6/user/sh.c:449-493 | after nulterminate every string is exactly its token |
| ShellMeaning.TreeMeans | xv6/user/sh.c:344-446 | the tree of a derivation is one that its tokens mean: split at the first semicolon into a ListCmd, at each ampersand into a BackCmd of what is before it, at the first bar into a PipeCmd of what is before and what is behind, and the redirections around their command, the first innermost, with fd 0 for reading and fd 1 for writing |
| ShellMeaning.MeansOnce | xv6/user/sh.c:344-446 | and no tokens mean two trees: a tree that they mean is the one of their derivation, which the parser finds |
| ShellMeaning.TokensAreRight | xv6/user/sh.c:265-308 | the tokens come in order, each a word as long as it can be, a double > or one symbol, and nothing but white space lies between them |
| ShellMeaning.LineReads | xv6/user/sh.c:344-446 | the arguments read off the tree from left to right are the words of the line in order, but for the files of redirections |
| ShellMeaning.LineNodes | xv6/user/sh.c:344-446 | the tree has a PipeCmd for each bar, a ListCmd for each semicolon and a BackCmd for each ampersand |
| Shell.ZeroIsOutside | xv6/user/sh.c:449-493 | no zeroed byte lies inside a word |
| ShellGrammar.LineSound | xv6/user/sh.c:344-446 | what the parser returns is a derivation of the tokens it consumed |
| ShellGrammar.LineComplete | xv6/user/sh.c:344-446 | the parser finds every derivation, so no token sequence has two |
| ShellTokens.GetToken | xv6/user/sh.c:265-308 | gettoken returns the next token and leaves the cursor at the rest |
| ShellTokens.Peek | xv6/user/sh.c:310-320 | peek tells by the first character of the next token and moves over white space only |
| ShellTokens.WordsApart | xv6/user/sh.c:265-308 | two words never touch |
| ShellTrees.ExecIs | xv6/user/sh.c:415-446 | storing arguments while redirections wrap the command builds the tree of the derivation |
| ShellTrees.LineNames | xv6/user/sh.c:344-446 | the strings of a tree are words of the line, and argv is never full |

## Left out

- FsFile.FileSystem.Writei: not the T_DEV branch; the size is at most MAXFILE blocks, which it keeps, and behind which bmap panics; the bitmap is a sequence of bits, not of bytes, and balloc's m = 1 << (bi % 8) is that bit.
- FsFile.FileSystem.Readi: not the T_DEV branch; the size is at most MAXFILE blocks, behind which bmap panics.
- FsFile.FileSystem.Itrunc: no bound on how many bitmap blocks one call logs, since the source promises none.
- FsFile.FileSystem.FileWrite: begin_op and end_op only delimit transactions here; that the log applies them whole is FsCrash, for any list that names the logged blocks. The bound of MAXOPBLOCKS is for files without holes, which are the only ones that reach it: mkfs leaves none but in the root directory, writei makes none, and sys_open gives no directory for writing.
- FsFile.FileSystem.WriteTxn: the same bound, for the same reason one more in a file with holes.
- FsHoles.Dirlink: the free entry is the first one behind the full block, as it is while no entry of the first block has been erased.
- FsCrash.CallsAreAtomic: a turn of writei's loop, bmap with its copy and log_write, is one step.
- Mkfs.Build: requires an inode slot for every file, which mkfs.c does not test; file names come without the leading underscore it strips.
- LinkRuns.LinkCountsAreRight: the runs make no entry in an unlinked directory, which by LinkRuns.OpKeepsInv is necessary; nlink has no 16-bit limit; create and unlink are one step each, link is two; directories do not move blocks, which is FsFile.
- ProcRuns.FromBoot: exit of init is not a step; kill(1) followed by the exit in trap.c reaches panic("init exiting"). Pids are unbounded; fork's copying of memory and files and the kernel stack are not part of the step.
- PipeRuns.PipeIsFifo: the sleeping processes and the ring are modelled, not the memory they copy from and to.
- UmallocHeap.Heap.Malloc: sizes do not overflow; sbrk returns memory above everything it returned before, possibly with a gap.
- VmSpace.Machine.MapPage: one page, as allocuvm and copyuvm call mappages; its loop over several pages is modelled for the kernel regions.
- VmSpace.Machine.Deallocuvm: requires oldsz <= KERNBASE, as all callers have it; above the last directory entry the skip would wrap to address 0.
- VmSpace.Machine.Copyuvm: requires the pages below sz to be present, where the source panics.
- Shell.ParseCmd: the execcmd inside a chain of redirections is updated by value, not through a second pointer.
- Kalloc.Kmem.KFree: the junk fill of a freed page is not modelled; a frame that is free already must not be freed, which kfree does not test.
- Log.Store.Commit: that a lock somebody else holds is released in the end is not claimed; where the schedule of the others ends while commit waits, the steps stop.
- Log.Store.LogWrite: after its capacity and transaction tests, which are GroupCommit and LogCapacity.
- InodeRefs.StepKeepsInv: ref and nlink have no width; the search of ialloc is any free inode; clearing valid is one step with the write that frees the inode, since valid is read only under the lock that iput holds.
- namex, skipelem, filealloc, filedup and fileclose: path splitting and a simpler reference count, which would only add easier members.
- copyout, loaduvm, inituvm, clearpteu and switchuvm.
- mmap and munmap: unfinished in the source.
- The interrupt flag and memory model under spin locks: acquire and release delimit atomic sections, except in SleepLock where they are steps.
- Devices, boot code, console, time and date, the other system calls and user programs.
