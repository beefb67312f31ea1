# Models of the xv6 kernels and the MapReduce library

This project models the parts of the repository that carry real invariants and proves, for all
inputs, runs or reachable states, what they are for.

- **Redo log** (`LogMachine`, `LogSafety`, `LogSpace`, `Log`): log.c as a machine of single block
  writes with a crash possible between any two, and as a class whose methods take the machine's
  steps. Crash safety of whole runs, restartable recovery, and the exact limit on the blocks an
  operation may log.
- **Sleep and wakeup** (`SleepWakeup`, `SleepLock`, `LogAdmission`): the two-lock hand-off for any
  number of processes in any interleaving, with sleep locks and log admission as its clients.
- **File system** (`FreeMap`, `FsTree`, `FsBlocks`, `Fs`, `FsOps`, `FsLog`, `Icache`, `Links`,
  `FsLinks`, `Bio`): the block bitmap against ownership, file contents as byte sequences, the new
  blocks a write takes and the blocks each transaction logs, the inode cache, link counts against
  directory entries, directories as the bytes of their files, and the buffer cache against a simple
  store.
- **Page tables** (`VmTables`, `VmFrames`, `Vm`): address spaces as the frames they own; growth,
  copy, rollback and release conserve frames, and fail exactly when there are too few.
- **User allocator** (`Umalloc`) and **guard-page allocator** (`GuardAlloc`).
- **Multi-level queue scheduler** (`MlqMachine`, `MlqSlices`, `Mlq`): the run of a one-CPU machine
  with its linked queues, exact slices and bounded waiting.
- **MapReduce** (`HashMap`, `MapReduce`, `ReduceOrder`, `MapReduceJob`): emit, sort, index and
  reduce of one partition, the hash map under it, the reducers' ordering protocol, and the whole
  job over all partitions and workers.
- **Shell and grep** (`ShellGrammar`, `ShellSpelling`, `ShellLex`, `Shell`, `Grep`): a parser that
  accepts exactly what its grammar spells and inverts printing, down to the buffer and its NULs, and
  a matcher that decides the denotation of its patterns.

Code that changes state is a class, or a method over the fields it changes, proved against a
specification function or machine; lemmas about that specification carry the main results. Linked
structures keep their links as the code does, in indexed fields.

Where the code and its comments or intent differ, the model follows the code:

- log.c's comment lets an operation log MAXOPBLOCKS (10) blocks. `LogSpace.LimitIsExact` shows that
  three operations that do so can reach the panic, and that 9 is the exact limit. A call whose path
  lookups free more than a few unlinked directories goes beyond it (`FsOps`).
- `sort_partition` never fills its index when a partition has one distinct key
  (`MapReduce.Partition.SortPartition`).
- `rm_from_q` does not move `q_tail` when it removes the last node of a longer queue
  (`Mlq.TailKept`); on one CPU without `setpri` it never does.
- `create` and `link` in a directory that has been unlinked, but is still someone's current
  directory, break the link counts (`Links.CurrentGoneBreaks`).
- `malloc`'s rounding can wrap around (`Umalloc.UnitsSuffice`).

To check the project: `dafny verify dfyconfig.toml`, with `--resource-limit 2000000`.

## Model

| member | source | states |
|---|---|---|
| LogMachine.DecodeEncode | 02_New_SysCall/log.c:84-113 | read_head reads back the block list that write_head wrote |
| LogMachine.RecoveredAt | 02_New_SysCall/log.c:68-82 | recovery puts each listed block's logged copy home, empties the header and leaves every other block alone |
| LogMachine.RecoveredDependsOn | 02_New_SysCall/log.c:115-122 | recovery ignores the home blocks the header lists, so a half-done install does not change its outcome |
| LogMachine.RecoveryRestartable | 02_New_SysCall/log.c:115-122 | a crash after any number of install writes of recovery, and recovering again, ends in the disk one whole recovery gives |
| LogMachine.RecoveryIdempotent | 02_New_SysCall/log.c:115-122 | recovering a recovered disk changes nothing |
| LogSafety.StepKeeps | 02_New_SysCall/log.c:125-233 | every atomic step of begin_op, log_write, end_op, commit, recovery, the cache and a crash keeps the log invariant |
| LogSafety.InvHolds | 02_New_SysCall/log.c:125-233 | the invariant holds after every run, crashes and interrupted recoveries included |
| LogSafety.CrashSafety | 02_New_SysCall/log.c:125-202 | after any run, a crash and recovery leave in every home block the result of the committed groups, whole and in order, and of nothing else |
| LogSafety.AllOldOrAllNew | 02_New_SysCall/log.c:192-202 | at every write of a commit, crash and recovery give the home blocks before the group or after all of it |
| LogSafety.HistoryIsRun | 02_New_SysCall/log.c:125-174 | from any point of any run until the next crash the committed groups followed by the open one gain exactly the operations' events in order, so no operation is split |
| LogSafety.CrashHistory | 02_New_SysCall/log.c:115-174 | a crash loses the open group and nothing else; the next boot's history is its own operations' |
| LogSafety.Durable | 02_New_SysCall/log.c:143-174 | in any boot, once the open group is empty, all that was done and kept so far survives whatever follows, crashes included |
| LogSafety.ReadsAreLatest | 02_New_SysCall/log.c:204-233 | while operations run, reading a home block gives the value left by all committed groups and the open group's writes |
| LogSafety.QuiescentDisk | 02_New_SysCall/log.c:192-202 | with no operation and no commit under way the log is empty and the disk is up to date |
| LogSafety.ReachedRuns | 02_New_SysCall/log.c:125-233 | the state a log object reaches is one the machine's runs reach |
| LogSpace.LogNeverFull | 02_New_SysCall/log.c:126-141 | if every operation logs at most 9 distinct blocks, no run lets lh.n pass 28, so the panic "too big a transaction" is unreachable |
| LogSpace.LimitIsExact | 02_New_SysCall/log.c:213-219 | the panic is reachable by operations that keep to a limit exactly when the limit is above 9 (the header takes one of the LOGSIZE blocks; MAXOPBLOCKS is 10) |
| LogSpace.BuffersSuffice | 02_New_SysCall/bio.c:77-91 | such runs never pin more than 28 of the 30 buffers, and bget is then sure to find one exactly when at most one clean buffer is held |
| LogSpace.StepRoomy | 02_New_SysCall/log.c:126-141 | each step keeps the reservation: listed blocks plus what running operations may still add fit |
| Log.CommitEffect | 02_New_SysCall/log.c:192-202 | a commit leaves on disk in every home block the value readers saw before it, and an empty log |
| Log.RecoveryEffect | 02_New_SysCall/log.c:115-122 | a boot-time recovery leaves the recovered home blocks and keeps the committed groups |
| Log.RedoLog.WriteLog | 02_New_SysCall/log.c:176-190 | the loop of block copies is a run of CopyBlock steps of the machine that commits nothing |
| Log.RedoLog.InstallTrans | 02_New_SysCall/log.c:68-82 | the loop of install writes is a run of InstallBlock steps |
| Log.RedoLog.WriteHeadCommit | 02_New_SysCall/log.c:98-113 | the header write is the step that adds the open group to the committed ones |
| Log.RedoLog.Commit | 02_New_SysCall/log.c:192-202 | afterwards every home block on disk has the value readers saw before, nothing is dirty and the log is empty |
| Log.RedoLog.RecoverFromLog | 02_New_SysCall/log.c:115-122 | every home block on disk ends as in the specification of recovery and the committed groups stay |
| Log.RedoLog.PowerCycle | 02_New_SysCall/log.c:50-66 | memory is lost, the disk and the committed groups are not |
| Log.RedoLog.TryBeginOp | 02_New_SysCall/log.c:125-141 | an operation is admitted exactly when nothing is committing and the log has room for it at MAXOPBLOCKS a running operation, which is the test of the LogAdmission machine |
| Log.RedoLog.FinishOp | 02_New_SysCall/log.c:143-174 | the last operation's end commits the group; others only end |
| Log.RedoLog.LogWriteBlock | 02_New_SysCall/log.c:204-233 | the two panics happen exactly when the log is full and outside an operation; otherwise the block is pinned and listed once |
| SleepWakeup.MoveKeeps | 02_New_SysCall/proc.c:412-470 | each step of sleep and wakeup under its two locks keeps: whoever sleeps while unblocked has a wakeup on its way |
| SleepWakeup.KillKeeps | 02_New_SysCall/proc.c:472-493 | kill's wakeup keeps it too |
| SleepWakeup.ClientKeeps | 02_New_SysCall/proc.c:412-470 | so does any client step that wakes the sleepers after it unblocks them |
| SleepWakeup.HoldersMove | 02_New_SysCall/proc.c:412-470 | a process inside sleep or wakeup that holds a lock can always take its next step |
| SleepLock.InvHolds | 02_New_SysCall/sleeplock.c:22-42 | for any number of processes and any interleaving lk->pid names the one owner |
| SleepLock.MutualExclusion | 02_New_SysCall/sleeplock.c:22-32 | at most one process holds a sleep lock |
| SleepLock.NoLostWakeup | 02_New_SysCall/sleeplock.c:34-42 | when lk->lk is free, a process asleep on the lock means it is locked, by a process that will release it |
| SleepLock.NeverStuck | 02_New_SysCall/sleeplock.c:22-42 | while some process is not idle, one that is not idle can take a step |
| LogAdmission.InvHolds | 02_New_SysCall/log.c:125-174 | log.outstanding and log.committing are what the processes' places say, in every run |
| LogAdmission.NoLostWakeup | 02_New_SysCall/log.c:125-141 | when log.lock is free, a process asleep on &log means a commit is under way, or admission is refused and another operation is still to end |
| LogAdmission.CommitsAlone | 02_New_SysCall/log.c:145-174 | outstanding counts the operations under way; at most one process commits, and only when there are none |
| LogAdmission.EndNeverPanics | 02_New_SysCall/log.c:150-153 | end_op never finds log.committing set |
| LogAdmission.NeverStuck | 02_New_SysCall/log.c:125-174 | refusing admission never stops everyone |
| FreeMap.MarkedBits | 02_New_SysCall/fs.c:56-78 | setting a block's bit in the bitmap blocks marks that block and no other |
| FreeMap.ClearedBits | 02_New_SysCall/fs.c:80-96 | clearing it frees that block and no other |
| FreeMap.BlockMap.constructor | 02_New_SysCall/mkfs.c:237-253 | the first bitmap marks exactly the metadata blocks |
| FreeMap.BlockMap.Scan | 02_New_SysCall/fs.c:63-76 | the scan of a bitmap block finds its first clear bit in range, or shows there is none |
| FreeMap.BlockMap.Take | 02_New_SysCall/fs.c:56-78 | the lowest free block becomes used and nothing else changes; "out of blocks" exactly when all are used |
| FreeMap.BlockMap.Release | 02_New_SysCall/fs.c:80-96 | the block becomes free and nothing else changes; "freeing free block" exactly when it was free |
| FsTree.WordSet | 02_New_SysCall/fs.c:395 | writing one word of an indirect block leaves the other 127 as they read |
| FsTree.OwnGrow | 02_New_SysCall/fs.c:371-399 | giving an empty slot a block no one owns keeps: each block is reached through exactly one slot of one inode |
| FsTree.OwnShrink | 02_New_SysCall/fs.c:406-434 | so does emptying a slot |
| FsTree.BitmapIsOwnership | 02_New_SysCall/fs.c:56-96 | a bitmap bit is set exactly for metadata blocks and blocks some inode reaches, and no block is reached through two slots |
| FsTree.AllocAddress | 02_New_SysCall/fs.c:376-386 | a fresh zeroed block in a direct address, or as indirect block, keeps trees, ownership and bitmap in step |
| FsTree.AllocLeaf | 02_New_SysCall/fs.c:387-396 | a fresh block in a word of the indirect block does too |
| FsTree.WriteData | 02_New_SysCall/fs.c:471-500 | overwriting a data block changes no tree |
| FsTree.ContentFrame | 02_New_SysCall/fs.c:450-466 | a file whose data blocks are untouched reads the same |
| Fs.OtherFilesKept | 02_New_SysCall/fs.c:471-500 | what an operation on one inode may change leaves every other file's bytes alone |
| Fs.RoundWritten | 02_New_SysCall/fs.c:484-491 | one round of writei's loop extends the written part, keeps all other bytes, and maps no block the file does not need |
| Fs.RoundByte | 02_New_SysCall/fs.c:484-491 | byte by byte: inside the copied range the source's, elsewhere as before, also in a newly allocated block |
| Fs.WrittenContent | 02_New_SysCall/fs.c:484-499 | when all is written the file is the old bytes with the source spliced in at the offset |
| Fs.WriteEnds | 02_New_SysCall/fs.c:493-499 | setting the size once at the end leaves no hole, and without growth the inode did not change, so disk and memory agree |
| Fs.TruncEnds | 02_New_SysCall/fs.c:406-434 | truncation frees exactly the inode's blocks and no other file is touched |
| Fs.ReleaseOne | 02_New_SysCall/fs.c:412-427 | the block in a slot being released is marked used, so freeing it cannot panic |
| Fs.FootprintSmall | 02_New_SysCall/file.c:132-151 | with one bitmap block, writing up to 1536 bytes at any offset logs at most 7 distinct blocks |
| Fs.FileSystem.constructor | 02_New_SysCall/mkfs.c:84-116 | the file system before any inode is allocated meets the invariant |
| Fs.FileSystem.Balloc | 02_New_SysCall/fs.c:56-78 | the lowest block not in use, zeroed and marked; fails exactly without one |
| Fs.FileSystem.Address | 02_New_SysCall/fs.c:376-386 | finds or allocates one of the 13 addresses, and says how the whole state changes |
| Fs.FileSystem.Leaf | 02_New_SysCall/fs.c:390-396 | finds or allocates a word of the indirect block, and says how the whole state changes |
| Fs.FileSystem.Bmap | 02_New_SysCall/fs.c:371-402 | the block of the file's n-th block; a mapped one is found with nothing changed, a missing one is allocated zeroed; in range it fails only if fewer blocks are free than it and its indirect block take |
| Fs.FileSystem.Readi | 02_New_SysCall/fs.c:450-466 | exactly the bytes off to min(off+n, size), with no allocation and no change; -1 exactly past the end or on wrap-around |
| Fs.FileSystem.Writei | 02_New_SysCall/fs.c:471-500 | the file becomes the old one with src spliced at off, others unchanged, no holes, disk and memory inodes equal; -1 exactly past the end, on wrap-around or beyond MAXFILE; panics exactly when fewer blocks are free than the write takes new ones, so never within the file |
| FsBlocks.TooFew | 02_New_SysCall/fs.c:484-491 | where the blocks run out in the middle of a write, fewer were free at its start than the data blocks and the indirect block of its range that the file does not have |
| FsBlocks.Enough | 02_New_SysCall/fs.c:484-491 | where they do not, that many were free |
| Fs.FileSystem.Itrunc | 02_New_SysCall/fs.c:406-434 | the inode is empty and the bitmap loses exactly its blocks; "freeing free block" does not happen |
| Fs.FileSystem.Ialloc | 02_New_SysCall/fs.c:194-213 | the lowest free inode from 1, emptied, typed and logged; panics only when there is none |
| Fs.FileSystem.Iput | 02_New_SysCall/fs.c:332-354 | exactly the last reference to a loaded inode without links frees it and its blocks; all that changed is logged |
| Fs.FileSystem.WriteChunk | 02_New_SysCall/file.c:139-150 | one transaction around one writei: it logs all that changed and, with one bitmap block, at most 7 blocks; panics exactly when writei does |
| Fs.FileSystem.Filewrite | 02_New_SysCall/file.c:120-156 | stores a prefix of the bytes that is all of them exactly when they fit; otherwise stops at the 1536-byte chunk that does not; panics, if they fit, exactly when fewer blocks are free than all the bytes take new ones; the transactions that end lead from the old state to the new, one a chunk, each logs every block it changes and, with one bitmap block, at most 7 |
| FsOps.WriteEntry | 02_New_SysCall/fs.c:546-574 | writing one directory entry logs the bitmap, the inode, one data block and, in a file that has one, the indirect block; panics only beyond the largest file, or where the entry begins a new block and none is free |
| FsOps.EntryTakes | 02_New_SysCall/fs.c:546-574 | an entry takes a new block only at the end of a file that fills its blocks |
| FsOps.Lookup | 02_New_SysCall/fs.c:619-665 | the iputs of a path lookup inside a transaction free the directories that were unlinked meanwhile, and each of these costs its inode's block |
| FsOps.LinkOp | 02_New_SysCall/sysfile.c:118-165 | the whole of link, its path lookups and iputs included, is one transaction that logs all it changes and, with one bitmap block, at most 5 + k blocks, k being the inodes its lookups free; panics only if the name is new and there is no room for its entry |
| FsOps.UnlinkOp | 02_New_SysCall/sysfile.c:183-238 | so is unlink, freeing the inode included: at most 5 + k blocks; the panic "unlink: writei" cannot happen |
| FsOps.CreateOp | 02_New_SysCall/sysfile.c:240-283 | so is create: at most 5 + k blocks for a file and 6 + k for a directory, whose file is then its two entries; panics only without a free inode, without room for the entry, or without a block for a directory |
| FsOps.FailOp | 02_New_SysCall/sysfile.c:231-234 | so is a call that finds nothing to do: at most 2 + k |
| FsOps.CloseOp | 02_New_SysCall/file.c:58-88 | the iput of a closed file is one of at most 2 |
| FsLinks.NameSame | 02_New_SysCall/fs.c:513-517 | two names have the same 14 bytes exactly when they are the same |
| FsLinks.EntryWritten | 02_New_SysCall/fs.c:546-574 | writing an entry's 16 bytes at its place in a directory's file sets that entry |
| FsLinks.Format | 02_New_SysCall/mkfs.c:117-130 | an image with the root directory's file alone represents the tree with the root alone |
| FsLinks.Dirlookup | 02_New_SysCall/fs.c:520-544 | reading the file entry by entry finds the name's slot, or -1 exactly when no used entry has it |
| FsLinks.FindSlot | 02_New_SysCall/fs.c:557-565 | reading it finds the first empty entry, or the end |
| FsLinks.Isdirempty | 02_New_SysCall/sysfile.c:167-181 | reading it from the third entry on tells whether the directory is empty |
| FsLinks.SweptKeeps | 02_New_SysCall/fs.c:332-354 | the inodes that lookups free had no links, so the tree without them is right |
| FsLinks.Link | 02_New_SysCall/sysfile.c:118-165 | if the files represent a right tree, link leaves files that represent that tree with one more name and link, right again under the condition of Links.LinkKeeps; nothing changes for a name that is taken; panics only for a new name in a directory without an empty entry that cannot grow |
| FsLinks.Unlink | 02_New_SysCall/sysfile.c:183-238 | unlink leaves files that represent the right tree without the name, or, exactly when it has a reason to refuse, the same tree; it never panics |
| FsLinks.Create | 02_New_SysCall/sysfile.c:240-283 | create leaves files that represent the tree with the new inode, right again under the condition of Links.CreateKeeps, or finds the file there is; panics only for a new name, when every inode is allocated, the directory has no empty entry and cannot grow, or a new directory gets no block |
| FsLog.ChunksFit | 02_New_SysCall/file.c:132-151 | every transaction of filewrite is within the 9 blocks that the log allows |
| FsLog.OneFits | 02_New_SysCall/sysfile.c:118-283 | so is every one of create, link, unlink and close whose lookups free at most 3, 4, 4 and 7 inodes |
| FsLog.TransactionsDiscipline | 02_New_SysCall/log.c:126-141 | a run of the log in which each operation logs only what a transaction of the file system's history logs keeps to 9 blocks an operation |
| FsLog.NeverTooBig | 02_New_SysCall/log.c:213-219 | so in no such run, whatever the interleaving and the crashes, does log_write panic |
| Icache.OneEntry | 02_New_SysCall/fs.c:249-257 | two pointers to one inode are the same cache entry, so they share its lock and its copy |
| Icache.NoLeak | 02_New_SysCall/fs.c:332-354 | an allocated inode without links, unless it was so at boot or its last pointer went before it was ever locked, is pointed to by an entry that is loaded, so that the last iput frees it, or whose inode ialloc has just made |
| Icache.WriteThrough | 02_New_SysCall/fs.c:215-235 | changing a loaded inode and writing it through keeps the cache and the disk in agreement, with at most one entry for an inode |
| Icache.AwaitedWrite | 02_New_SysCall/fs.c:215-235 | so no inode is lost by a change of its links, which needs its entry loaded |
| Icache.InodeCache.Iget | 02_New_SysCall/fs.c:237-271 | the inode's one entry with one more reference, else the first free entry; the panic "no inodes" exactly when all entries are referenced and none is the inode's |
| Icache.InodeCache.Ilock | 02_New_SysCall/fs.c:284-311 | afterwards the entry shows the inode on disk; the panic "no type" exactly when it is free there |
| Icache.InodeCache.Ialloc | 02_New_SysCall/fs.c:194-213 | the lowest free inode becomes typed, and pointed to by an entry not yet loaded |
| Icache.InodeCache.Iput | 02_New_SysCall/fs.c:332-354 | the inode is freed exactly when the last pointer to it goes, it has no links and it was loaded; then no entry stands for it; no inode is lost, unless its entry was never locked since ialloc, and create locks it at once |
| Links.CreateCounts | 02_New_SysCall/sysfile.c:240-283 | create keeps every inode's link count equal to the entries naming it exactly when the parent is linked, given room in its 16-bit count for a directory's link |
| Links.CreateKeeps | 02_New_SysCall/sysfile.c:240-283 | under those conditions create keeps counts, unique names, "." and ".." in the first two slots, and the tree in which every linked directory reaches the root by ".." |
| Links.LinkCounts | 02_New_SysCall/sysfile.c:118-165 | link keeps the counts exactly when the directory is linked, given room in the inode's 16-bit count |
| Links.LinkKeeps | 02_New_SysCall/sysfile.c:118-165 | under those conditions link keeps the whole invariant |
| Links.CurrentGoneBreaks | 02_New_SysCall/sysfile.c:118-283 | making a directory, staying in it and unlinking it is a run of these calls after which a create or a link in it leaves a count wrong |
| Links.RootedStill | 02_New_SysCall/sysfile.c:118-283 | what these operations change of other directories leaves every linked directory a way to the root by ".." |
| Links.EmptyDirOneLink | 02_New_SysCall/sysfile.c:167-181 | an empty linked directory has exactly one link, its entry in its parent |
| Links.ParentTwoLinks | 02_New_SysCall/sysfile.c:220-223 | a directory that has any child directory has at least two links, so dropping one leaves it linked |
| Links.UnlinkKeeps | 02_New_SysCall/sysfile.c:183-238 | unlink of a file's name or an empty directory keeps the invariant, and the panic "nlink < 1" is unreachable |
| Links.FreeKeeps | 02_New_SysCall/fs.c:332-354 | freeing an inode without links keeps it: no entry names it |
| Links.Tree.constructor | 02_New_SysCall/mkfs.c:117-130 | the root directory alone meets the invariant |
| Links.Tree.Dirlookup | 02_New_SysCall/fs.c:520-544 | finds a slot with the name, or -1 exactly when no used slot has it |
| Links.Tree.Dirlink | 02_New_SysCall/fs.c:546-574 | refuses a name that is taken; otherwise the first empty slot, or one more, holds the entry |
| Links.Tree.Isdirempty | 02_New_SysCall/sysfile.c:167-181 | true exactly when every slot from the third on is empty |
| Links.Tree.Create | 02_New_SysCall/sysfile.c:240-283 | for a name that is taken, its inode exactly when a file is asked for and it is a file, else 0; a new one gives the created state; panics only without free inodes |
| Links.Tree.Link | 02_New_SysCall/sysfile.c:118-165 | -1, with the count put back, for a directory or a taken name; otherwise one more entry and link |
| Links.Tree.Unlink | 02_New_SysCall/sysfile.c:183-238 | -1 with nothing changed exactly for ".", "..", a missing name or a directory that is not empty; otherwise the entry is cleared, the counts drop, and the last link's inode is freed |
| Bio.CycleCut | 02_New_SysCall/bio.c:129-132 | unlinking a buffer leaves a doubly linked cycle of the others in the same order |
| Bio.CycleInsert | 02_New_SysCall/bio.c:48-54 | linking it behind the head leaves a doubly linked cycle |
| Bio.BufChange | 02_New_SysCall/bio.c:60-140 | a change to one buffer keeps: valid buffers show the store, clean blocks are on disk, no block has two buffers |
| Bio.NoBuffersBound | 02_New_SysCall/bio.c:77-91 | with at most d buffers dirty and h others held bget cannot fail exactly when d + h is below NBUF |
| Bio.Cache.constructor | 02_New_SysCall/bio.c:38-55 | binit links all NBUF buffers into one doubly linked cycle |
| Bio.Cache.Lookup | 02_New_SysCall/bio.c:67-75 | the forward walk finds the block's buffer, or shows there is none |
| Bio.Cache.Unused | 02_New_SysCall/bio.c:77-90 | the backward walk finds the least recently used buffer that is neither held nor dirty, or shows there is none |
| Bio.Cache.Bget | 02_New_SysCall/bio.c:57-92 | the block's own buffer if cached; else an unheld clean one is recycled, the least recently used; it waits exactly when another process has the buffer locked; panics exactly when all are held or dirty |
| Bio.Cache.Iderw | 02_New_SysCall/ide.c:133-165 | a dirty buffer goes to disk, an invalid one is read; either way it then shows the store |
| Bio.Cache.Bread | 02_New_SysCall/bio.c:94-105 | the locked buffer holds the last value logged or written for the block, else the disk's, unless it must wait for the lock; no held or dirty buffer is lost |
| Bio.Cache.BreadAwake | 02_New_SysCall/bio.c:94-105 | after the wait the buffer holds the last value logged or written for the block |
| Bio.Cache.LogWrite | 02_New_SysCall/log.c:204-233 | a change marked dirty becomes the block's value for every later reader |
| Bio.Cache.Bwrite | 02_New_SysCall/bio.c:107-115 | the value is on disk and is the block's value; panics exactly when the buffer is not locked |
| Bio.Cache.Brelse | 02_New_SysCall/bio.c:117-140 | the last reference moves the buffer to the front and keeps the order of the others; panics exactly when it is not locked |
| VmTables.SpaceFrame | 02_New_SysCall/vm.c:82-115 | an address space does not depend on frames other than its directory and tables |
| VmTables.TableAdded | 02_New_SysCall/vm.c:41-53 | a zeroed table in an empty directory slot changes no mapping and is owned once |
| VmTables.PageMapped | 02_New_SysCall/vm.c:69-73 | setting an absent user entry maps that page only and owns its frame once |
| VmTables.PageCleared | 02_New_SysCall/vm.c:269-276 | clearing it unmaps that page only and detaches its frame |
| Vm.MapStep | 02_New_SysCall/vm.c:66-78 | one round of mappages extends the mapping by one page and accounts for every frame |
| Vm.NoTable | 02_New_SysCall/vm.c:266-268 | a directory entry that is not present maps none of its 1024 pages |
| Vm.UnmapSkip | 02_New_SysCall/vm.c:265-268 | so deallocuvm's skip to the next directory entry misses no mapped page |
| Vm.UnmapStep | 02_New_SysCall/vm.c:269-276 | freeing a page's frame and clearing its entry unmaps it and nothing else |
| Vm.FreeingDone | 02_New_SysCall/vm.c:291-297 | after the tables and the directory, all frames of the address space are free |
| Vm.GrowUndone | 02_New_SysCall/vm.c:235-246 | undoing a failed allocuvm leaves every mapping as before; only page tables stay |
| Vm.CopyStep | 02_New_SysCall/vm.c:325-339 | one more page of the child has the parent's flags and contents in a fresh frame |
| Vm.OtherSpaceKept | 02_New_SysCall/vm.c:315-345 | building another address space changes no frame, mapping or owner of this one |
| Vm.Machine.Kalloc | 02_New_SysCall/kalloc.c:79-94 | a free frame leaves the free set; 0 exactly when there is none |
| Vm.Machine.Walkpgdir | 02_New_SysCall/vm.c:35-55 | the table of the page; 0, with nothing changed, exactly when it is absent and not to be or not possible to allocate |
| Vm.Machine.Mappages | 02_New_SysCall/vm.c:57-80 | exactly the pages asked for map exactly those frames, or a prefix of them when frames run out at the next page's table; "remap" only if one was mapped before; frames are conserved, one taken for each table that was missing |
| Vm.Machine.Setupkvm | 02_New_SysCall/vm.c:117-138 | the kernel half maps exactly the four kernel ranges and the user half nothing, in frames taken from the pool; fails exactly with fewer than 65 free frames, which are then as before |
| VmFrames.KernelTables | 02_New_SysCall/vm.c:99-138 | the kernel ranges touch exactly 64 directory slots, all above the user half |
| VmFrames.SpaceTables | 02_New_SysCall/vm.c:313-340 | a child of n pages takes one directory, 64 kernel tables, a table for each 1024 pages, and n pages |
| Vm.Machine.Deallocuvm | 02_New_SysCall/vm.c:251-279 | exactly the pages in the range are unmapped and exactly their frames freed |
| Vm.Machine.Freevm | 02_New_SysCall/vm.c:281-298 | the free frames grow by exactly the frames the address space owned |
| Vm.Machine.Allocuvm | 02_New_SysCall/vm.c:219-249 | on success zeroed fresh frames, writable by the user, behind exactly the new pages; fails exactly when fewer frames are free than the new pages and their missing tables take, and the mappings are then as before |
| Vm.Machine.Copyuvm | 02_New_SysCall/vm.c:313-345 | the child has the same flags and contents for every page below sz in fresh frames disjoint from the parent's, and the kernel half; fails exactly when fewer frames are free than the child takes, and they are then as before; panics exactly when frames last until a page that is missing; the parent is untouched |
| Umalloc.UnitsSuffice | 02_New_SysCall/umalloc.c:69 | malloc's unit count holds a header and the bytes exactly when the rounding does not wrap around |
| Umalloc.SplicedLinks | 02_New_SysCall/umalloc.c:30-42 | splicing a block into the circular list keeps it linked |
| Umalloc.JoinKeepsList | 02_New_SysCall/umalloc.c:33-42 | joining with both neighbours keeps the list address-ordered with no two adjacent free blocks |
| Umalloc.JoinUnits | 02_New_SysCall/umalloc.c:33-42 | joining conserves the free units |
| Umalloc.FreeKeepsHeap | 02_New_SysCall/umalloc.c:24-44 | free keeps the heap: circular ordered list, disjoint from live blocks, free plus live units equal those from sbrk |
| Umalloc.TakeWholeList | 02_New_SysCall/umalloc.c:76-77 | taking a whole block keeps the list |
| Umalloc.CutList | 02_New_SysCall/umalloc.c:78-82 | cutting a block's tail keeps the list |
| Umalloc.TakeUnits | 02_New_SysCall/umalloc.c:75-85 | taking a block moves its units from free to live |
| Umalloc.GrowKeepsHeap | 02_New_SysCall/umalloc.c:46-61 | new memory from sbrk keeps the heap |
| Umalloc.Allocator.FindPlace | 02_New_SysCall/umalloc.c:30-32 | the search from anywhere in the circle stops, at the block the freed one belongs after |
| Umalloc.Allocator.Join | 02_New_SysCall/umalloc.c:33-42 | the pointer and size writes give the joined list |
| Umalloc.Allocator.Free | 02_New_SysCall/umalloc.c:24-44 | the block leaves the live set and the heap invariant holds |
| Umalloc.Allocator.Morecore | 02_New_SysCall/umalloc.c:46-61 | asks sbrk once, for at least 4096 units; they join the free list, or, exactly when it refuses, nothing changes |
| Umalloc.Allocator.Take | 02_New_SysCall/umalloc.c:75-85 | the block handed out has the units asked for and is live |
| Umalloc.Allocator.Malloc | 02_New_SysCall/umalloc.c:63-90 | a live block of the size asked for, disjoint from the others; sbrk is asked, once, exactly when no free block is big enough, and the result is 0 exactly when it then refuses; otherwise the block is the top of the next fit from freep; the search stops |
| Grep.HereCons | 02_New_SysCall/grep.c:85-96 | a regular expression with one more item matches at a place exactly when the item matches a prefix and the rest what follows |
| Grep.HereLit | 02_New_SysCall/grep.c:93-94 | a literal or "." takes exactly one fitting character |
| Grep.HereStar | 02_New_SysCall/grep.c:98-106 | a starred item takes any number of fitting characters |
| Grep.MatchHere | 02_New_SysCall/grep.c:84-96 | true exactly when some prefix of the text is in the denotation |
| Grep.MatchStar | 02_New_SysCall/grep.c:98-106 | true exactly when some run of fitting characters followed by a match of the rest begins the text |
| Grep.Match | 02_New_SysCall/grep.c:72-82 | true exactly when the text is in the denotation of the pattern, with ^ and a final $ |
| Grep.PatternReads | 02_New_SysCall/grep.c:85-91 | a sequence of items in which no literal is followed by '*' or is a last '$' is what its pattern reads as |
| Grep.ItemsReadable | 02_New_SysCall/grep.c:85-91 | every pattern reads as such a sequence |
| Grep.SpellingReads | 02_New_SysCall/grep.c:72-91 | a regular expression is the meaning of some pattern exactly when it is spellable, and then its spelling is such a pattern |
| GuardAlloc.HeadPair | 05_xv6_memory_safe_allocation/src/v1a-sort/kalloc.c:147-158 | a free list that starts in the guarded region starts with an odd frame and the even one below it |
| GuardAlloc.SortedListUnique | 05_xv6_memory_safe_allocation/src/v1a-sort/kalloc.c:84-104 | a descending list is determined by its frames |
| GuardAlloc.TakenOk | 05_xv6_memory_safe_allocation/src/v1a-sort/kalloc.c:140-160 | handing out a frame keeps the invariant: pairs, guards, pg2pid and allocated_count |
| GuardAlloc.PutBackOk | 05_xv6_memory_safe_allocation/src/v1a-sort/kalloc.c:110-135 | so does taking it back |
| GuardAlloc.NoTwoAdjacent | 05_xv6_memory_safe_allocation/src/v1a-sort/kalloc.c:23-27 | no two frames handed out in the guarded region are adjacent, and the guard between is not free |
| GuardAlloc.Kmem.InsertFreelist | 05_xv6_memory_safe_allocation/src/v1a-sort/kalloc.c:84-104 | the list stays strictly descending and linked, with the page in it |
| GuardAlloc.Kmem.Kfree | 05_xv6_memory_safe_allocation/src/v1a-sort/kalloc.c:110-135 | the frame, and its guard, are free again; panics exactly for a bad address |
| GuardAlloc.Kmem.Kalloc | 05_xv6_memory_safe_allocation/src/v1a-sort/kalloc.c:140-160 | the highest free frame, and its guard leaves the list with it |
| GuardAlloc.Kmem.KallocKfree | 05_xv6_memory_safe_allocation/src/v1a-sort/kalloc.c:106-160 | freeing what was just handed out restores the list exactly |
| GuardAlloc.Kmem.Kinit1 | 05_xv6_memory_safe_allocation/src/v1a-sort/kalloc.c:59-82 | the list holds exactly the whole frames between the kernel's end and 4 MB |
| GuardAlloc.Kmem.Kinit2 | 05_xv6_memory_safe_allocation/src/v1a-sort/kalloc.c:67-82 | the list gains exactly the frames from 4 MB to PHYSTOP and the invariant begins |
| MlqMachine.RefreshSorts | 04_xv6_scheduling/src/proc.c:458-485 | after refresh_q a process is in a queue exactly when it is RUNNABLE, exactly once, in its priority's, with slice left |
| MlqMachine.RefreshOneQueued | 04_xv6_scheduling/src/proc.c:461-484 | each round of refresh_q keeps the queues' invariant, and changes a queue only by a process joining its tail, leaving its front, or both |
| MlqMachine.PickIsRunnable | 04_xv6_scheduling/src/proc.c:510-517 | the pick is a RUNNABLE process at the front of its priority's queue with slice left |
| MlqMachine.PickIsHighest | 04_xv6_scheduling/src/proc.c:510-517 | no RUNNABLE process has a higher priority than the pick |
| MlqMachine.EventKeeps | 04_xv6_scheduling/src/proc.c:319-409 | yielding, sleeping, exiting, waking, forking and reaping between turns keep the invariant |
| MlqMachine.TurnKeeps | 04_xv6_scheduling/src/proc.c:501-532 | a turn of the scheduler keeps it |
| MlqMachine.InvHolds | 04_xv6_scheduling/src/proc.c:473-484 | in every run no process exceeds its slice of (5-pri)*4 ticks |
| MlqMachine.WaitTurn | 04_xv6_scheduling/src/proc.c:473-517 | a turn that serves someone else in p's queue uses up one of the picks ahead of p |
| MlqMachine.BoundedWaiting | 04_xv6_scheduling/src/proc.c:473-517 | while nothing of higher priority is served, a process at position k of its queue is picked after at most k*(5-pri)*4 picks of others |
| MlqSlices.RefreshOrder | 04_xv6_scheduling/src/proc.c:458-485 | refresh_q as a whole: each queue loses its front if that has stopped running or had (5-pri)*4 ticks, and gains at the tail, in table order and with a new slice, the RUNNABLE processes that were not in it or had those ticks |
| MlqSlices.FrontStays | 04_xv6_scheduling/src/proc.c:473-484 | a RUNNABLE front stays in front exactly when its ticks are not (5-pri)*4, or it is alone and no process before it in the table joins |
| MlqSlices.EventQueues | 04_xv6_scheduling/src/proc.c:319-409 | at the next refresh a process that yielded, was woken or was started is in the queue of its priority, one that slept or exited is in none, and the others are where they would have been |
| MlqSlices.CountersCount | 04_xv6_scheduling/src/proc.c:412-517 | over a run ticks[pri] of a process counts the turns that pick it at priority pri, and qtail[pri] those that put it at that queue's tail |
| MlqSlices.SliceIsExact | 04_xv6_scheduling/src/proc.c:473-517 | between two moves to its queue's tail, without leaving the queue, a process is picked exactly (5-pri)*4 times |
| Mlq.TailKept | 04_xv6_scheduling/src/proc.c:430-456 | rm_from_q leaves q_tail right exactly when the node removed is not the last of a queue of two or more |
| Mlq.PutTailChains | 04_xv6_scheduling/src/proc.c:412-428 | the pointer writes of put_tail_q append the node to its queue and leave the others |
| Mlq.Ptable.PutTailQ | 04_xv6_scheduling/src/proc.c:412-428 | the linked queue gains the process at its tail, with a new slice |
| Mlq.Ptable.RmFromQ | 04_xv6_scheduling/src/proc.c:430-456 | the linked queue loses the process wherever it is; what becomes of the tail pointer |
| Mlq.Ptable.RefreshQ | 04_xv6_scheduling/src/proc.c:458-485 | the linked queues and records after it are those of the specification, which MlqSlices.RefreshOrder gives whole |
| Mlq.Ptable.SchedulerTurn | 04_xv6_scheduling/src/proc.c:501-524 | picks and charges the process the specification picks; -1 when nothing is RUNNABLE |
| Mlq.Ptable.Allocproc | 04_xv6_scheduling/src/proc.c:129-194 | the first UNUSED process with a free queue node of its own; fails only without a process or a kernel stack |
| Mlq.Ptable.ReapProc | 04_xv6_scheduling/src/proc.c:382-398 | the zombie's record and queue node can be used again |
| HashMap.BucketPush | 06_Map-Reduce/mapreduce.c:111-115 | adding a node to its bucket adds its pair to the map the buckets hold |
| HashMap.StringMap.Getref | 06_Map-Reduce/mapreduce.c:153-166 | finds the key's node exactly when the key is in the map |
| HashMap.StringMap.Get | 06_Map-Reduce/mapreduce.c:183-186 | the key's value, or none exactly when it has none |
| HashMap.StringMap.Resize | 06_Map-Reduce/mapreduce.c:117-151 | holds the same map over the new number of buckets, or the old one without memory |
| HashMap.StringMap.Set | 06_Map-Reduce/mapreduce.c:188-211 | the map with the key's value set, with no more keys than buckets; unchanged exactly when the key is new and there is no memory for its node, or for more buckets when they are due |
| HashMap.StringMap.Remove | 06_Map-Reduce/mapreduce.c:213-222 | the map without the key |
| MapReduce.GroupsAreKeys | 06_Map-Reduce/mapreduce.c:408-421 | in a sorted list the number of key changes is the number of distinct keys |
| MapReduce.EndsAgree | 06_Map-Reduce/mapreduce.c:411-433 | the first and last keys of a sorted list agree exactly when there is one key, which is when the second loop fills nothing |
| MapReduce.FillNew | 06_Map-Reduce/mapreduce.c:433-444 | a new key extends the index by a group |
| MapReduce.RangeHoldsValues | 06_Map-Reduce/mapreduce.c:454-466 | a key's index range holds all its values, in order |
| MapReduce.StartIsBegin | 06_Map-Reduce/mapreduce.c:430-449 | the g-th group of a finished index begins after exactly g keys |
| MapReduce.SortKeepsValues | 06_Map-Reduce/mapreduce.c:406-407 | sorting leaves each key the same values |
| MapReduce.DeliveredOnce | 06_Map-Reduce/mapreduce.c:496-503 | reducing a sorted list delivers exactly the keys in it, each once, with exactly the values emitted for it |
| MapReduce.Partition.Emit | 06_Map-Reduce/mapreduce.c:316-350 | the pair joins the end of the list and no pair is lost when the list doubles |
| MapReduce.Partition.FillIndex | 06_Map-Reduce/mapreduce.c:430-449 | the index is right when there are several keys and untouched when there is one |
| MapReduce.Partition.SortPartition | 06_Map-Reduce/mapreduce.c:402-452 | num_keys is the number of distinct keys; the index is right exactly when that is not one |
| MapReduce.Partition.Get | 06_Map-Reduce/mapreduce.c:454-466 | the key's next value in its range, then NULL |
| MapReduce.Partition.Drain | 06_Map-Reduce/mapreduce.c:454-466 | calling Get until NULL gives each of the key's values once |
| MapReduce.Partition.ReduceAll | 06_Map-Reduce/mapreduce.c:496-503 | the calls are the sorted list's keys in turn, each with all its values |
| MapReduce.Partition.SortAndReduce | 06_Map-Reduce/mapreduce.c:468-508 | with no key or several, the keys emitted and no others are reduced, once each, with each emitted value once |
| MapReduce.SortedPartitionOrder | 06_Map-Reduce/mapreduce.c:308-314 | MR_SortedPartition keeps the order of 32-bit keys and stays below the number of partitions |
| ReduceOrder.StepKeeps | 06_Map-Reduce/mapreduce.c:468-509 | every step of every worker keeps the protocol's invariant |
| ReduceOrder.ClaimedOnce | 06_Map-Reduce/mapreduce.c:478-486 | for any number of workers each partition is claimed once, and finished with each key reduced once |
| ReduceOrder.SentInOrder | 06_Map-Reduce/mapreduce.c:491-507 | before partition j's first reduce every earlier partition has passed its wait and reduced a key or found none |
| ReduceOrder.NeverStuck | 06_Map-Reduce/mapreduce.c:476-508 | while a partition is not finished some worker can take a step |
| MapReduceJob.CalledOnce | 06_Map-Reduce/mapreduce.c:476-508 | in a run of any number of workers each key of a finished partition is called for by exactly one step |
| MapReduceJob.ReducedOnce | 06_Map-Reduce/mapreduce.c:316-508 | over all partitions and workers, when no partition has a single key, each emitted key is reduced by exactly one call, with each of its emitted values once |
| MapReduceJob.OnlyEmitted | 06_Map-Reduce/mapreduce.c:316-508 | and no call is for a key that was not emitted |
| ShellSpelling.ParsesWhatSpells | 02_New_SysCall/sh.c:325-444 | the parser accepts exactly the token sequences that spell a tree, with redirections anywhere among at most 9 words and parentheses around any line, and yields that tree |
| ShellSpelling.RoundTrip | 02_New_SysCall/sh.c:325-444 | parsing the tokens printed for any tree with at most 9 arguments a command gives the tree back |
| ShellSpelling.ExecBack | 02_New_SysCall/sh.c:397-444 | a command, bare or in parentheses where needed, with its redirections reads back |
| ShellSpelling.InnerBack | 02_New_SysCall/sh.c:342-370 | a list, background command or pipe reads back as a line |
| ShellGrammar.LineSound | 02_New_SysCall/sh.c:429-440 | every parse that succeeds yields a tree the round trip covers |
| ShellLex.LexIsExact | 02_New_SysCall/sh.c:257-306 | a text lexes to exactly the tokens that it spells out, with any white space that is enough between two words and between > and > |
| Shell.Gettoken | 02_New_SysCall/sh.c:263-306 | returns the first token of what is left and moves the cursor past exactly it |
| Shell.Peek | 02_New_SysCall/sh.c:308-318 | says whether the next token is one of the symbols and loses no token |
| Shell.Parseredirs | 02_New_SysCall/sh.c:372-395 | reads the redirections the grammar reads; panics exactly on a missing file |
| Shell.Parseexec | 02_New_SysCall/sh.c:413-444 | agrees with the grammar on tree, rest and panics |
| Shell.Parseblock | 02_New_SysCall/sh.c:397-411 | agrees with the grammar on tree, rest and panics |
| Shell.Parsepipe | 02_New_SysCall/sh.c:359-370 | agrees with the grammar on tree, rest and panics |
| Shell.Parseline | 02_New_SysCall/sh.c:342-357 | agrees with the grammar on tree, rest and panics |
| Shell.Nulterminate | 02_New_SysCall/sh.c:446-491 | writes a NUL at the end of every word of the command and nowhere else |
| Shell.WordReads | 02_New_SysCall/sh.c:446-491 | a word then reads as exactly its token: no other word's NUL falls inside it |
| Shell.Parsecmd | 02_New_SysCall/sh.c:325-340 | succeeds exactly when the tokens of the text, all of them, spell a tree, and the command's pointers then read that tree |
| Shell.LexBack | 02_New_SysCall/sh.c:263-306 | lexing printed text gives its tokens back |
| Shell.TextRoundTrip | 02_New_SysCall/sh.c:325-444 | parsing the text of any tree with at most 9 arguments a command and clean words gives the tree back |
| Shell.ParsePrinted | 02_New_SysCall/sh.c:325-491 | the same through the buffer, the cursor and the NULs |

## Left out

- Hardware and boot code: ide.c's request queue, uart.c, kbd.c, lapic.c, ioapic.c, mp.c, bootmain.c and trap.c. A disk request is one atomic block read or write.
- Context switching and spin locks inside: swtch, xchg and barriers. A spin lock is an atomic lock.
- Bio.Cache.Bread: stops where it must wait for a buffer's lock, and `Bio.Cache.BreadAwake` is the rest; the waiting in between is `SleepLock`'s.
- Fs.FileSystem.Iput: takes the reference count, and whether the inode is loaded, as parameters; `Icache` keeps both.
- Fs.FileSystem.Filewrite: asks for an offset at least one chunk below 2^32, which every offset inside a file is.
- Umalloc.Allocator.Malloc: asks that the rounded size is below 2^31 bytes, because sbrk takes a signed int and a larger one would shrink the heap.
- GuardAlloc.Kmem.Kalloc: asks for a free list that is not empty, because the code follows a null pointer there; the second list advance, outside the lock, is part of the same step.
- MapReduce.Partition.SortPartition: takes map_set to succeed, because sort_partition does not look at its result; `HashMap.StringMap.Set` and `Resize` model failure.
- Disk blocks as typed values: the log machine's blocks are sequences of words, the file system keeps the bitmap, the inodes and the data blocks in separate fields, and bytes are integers.
- The inode cache under file contents: `Icache` has the entries, references and copies, `Fs` keeps one in-core copy for every inode and takes the count as a parameter of `Iput`. A step of `Icache` is one call; the wait for an inode's sleep lock is `SleepLock`'s.
- Devices: readi and writei of a T_DEV inode call a driver.
- Path lookup (skipelem, namex): `Links` and `FsLinks` start from the directory the path leads to. Names are strings that are already cut to DIRSIZ.
- The order of concurrent file-system calls: `Fs` and `Links` run one call at a time, as the inode locks do for one inode; `LogMachine` interleaves operations.
- LogAdmission.InvHolds: log.lh.n grows without bound in this machine, because its bound is `LogSpace.LogNeverFull`'s.
- The capacity of the buffer cache in the log machine: any clean buffer may leave at any time and any block may enter; `LogSpace.BuffersSuffice` says when the real cache has one to spare.
- FsOps.Lookup: the inodes that a lookup puts are given, not found by walking a path; those the call goes on to use are not put for the last time by it. So in FsLinks.Link, FsLinks.Unlink and FsLinks.Create.
- Links.CreateCounts: room in the 16-bit nlink is a guard of the model; an image as large as mkfs makes cannot hold the entries to fill it.
- FsLinks.Link: starts from an inode that is not a directory; sys_link's refusal of one is `Links.Tree.Link`'s.
- Links as heap pointers: linked lists of the scheduler, the allocators and the buffer cache are index fields; hash buckets and the kernel's frame free list are sequences.
- qsort, pthreads, semaphores and strcmp's bytes above 127 are taken as given: a sorted permutation, atomic locks, counting semaphores, an order on strings. map_control's hand-out of input files is one locked counter.
- The bit pattern of `hash & (nbuckets - 1)`: the bucket is the remainder, which is the same for the powers of two that `StringMap` keeps.
- Scheduling with several CPUs, with setpri, or after a failed fork: the queue code does not keep its queues there, as `Mlq.TailKept` shows for removal.
- inituvm, loaduvm, clearpteu, uva2ka and copyout of vm.c; exec and the trap frame.
- runcmd and the process calls of sh.c; getcmd's buffer.
- grep's line buffer: only the matcher is modelled.
- 07_xv6_File_System (symlink lookup, fscheck), 03_Shell/mysh.c, 01_UNIX_Utilities, pipe.c, string.c and the small user programs.
