# A verified model of the xv6 kernel and its user programs

This project models the parts of an extended xv6 (double-indirect files, symbolic links,
password-protected files with per-process unlocking) where correctness is hardest to see, and
proves what they are for.  `dafny verify dfyconfig.toml` checks all of it.

Each part has a specification file, with the state, the invariants and the theorems, and
mostly a `…Code` file with the C code as classes and methods with loops, proved against the
specification.  Concurrent parts are step relations over any number of processes.  `Options`,
`Counting` and `Sealed` hold what several parts share.

| part | files | main results |
|---|---|---|
| redo log (log.c) | `Blocks`, `Log`, `LogCode` | after any sequence of transactions and crashes, also inside recovery, the disk is the fold of the transactions that survived, and every committed one survived |
| log on the cache (log.c, bio.c) | `Buffers`, `Storage`, `StorageCode` | a transaction through the cache, with the buffers its calls hold, runs out of buffers or of log exactly when a count of sectors says so; else it makes exactly the disk writes of the crash theorem, in that order, and sees its own changes |
| files (fs.c, file.c) | `Files`, `FileBytes`, `FileSteps`, `DiskInodes`, `FileOps`, `FilesCode` | the three-level block tree refines one flat byte array per file; every used block has exactly one owner |
| files on the log (fs.c, file.c, sysfile.c, log.c) | `FileLog`, `FileTrail`, `TruncLog`, `TruncTrail`, `TxnBound`, `TxnTooBig`, `DropTxn`, `DropTooBig`, `DropNoBuffer`, `FileCrash` | what a call logs and which buffers it holds is known before it; when a chunk, an unlink or a close fits the log and the buffers, exactly; across any crashes and panics every system call is all there or not at all, and the disk is the one the log leaves behind |
| files, log and cache together | `CachedFiles` | a system call through the cache goes through or panics as counted, and leaves its files or the old ones |
| names (fs.c) | `Names`, `NamesCode` | symbolic links are rewritten away without changing what a path means, into the shortest path that means it |
| directories (fs.c, sysfile.c) | `Dirs`, `DirTree`, `DirsCode`, `DirCrash` | over any run link counts are exact, names unique, linked directories a tree; which runs break the counts, exactly; a crash in create, link or unlink leaves the tree from before or after it, and all else of the files as it was |
| buffer cache (bio.c) | `Cache`, `CacheCode` | readers see the last bytes written through any evictions; the ring is in order of release |
| disk driver (ide.c, memide.c) | `Ide`, `IdeCode`, `CacheDriver` | the interrupt-driven queue refines the immediate transfer, first in first out; the cache on top of the queue is coherent under every interleaving |
| sleep and wakeup (proc.c, spinlock.c) | `SleepWakeup` | no lost wakeup, no wakeup for nothing, mutual exclusion |
| processes (proc.c) | `Procs`, `ProcsCode` | parents are alive, zombies are reaped once and nobody waits beside one; a process is killed exactly from kill to wait |
| pipes (pipe.c) | `Pipe`, `PipeCode` | first in first out under 32-bit counters; over any run a write call puts exactly its bytes into the pipe, however often it sleeps; when readers can be stranded, exactly |
| memory (vm.c, kalloc.c) | `Vm`, `FrameCount`, `VmCode` | page tables refine a contiguous map of byte addresses, copies are disjoint; how many frames each call needs, exactly, and which it loses |
| allocator (umalloc.c) | `Umalloc`, `UmallocCode` | the free list is ordered, separated and circular; no unit is lost or shared |
| shell parser (sh.c) | `Shell`, `ShellText`, `ShellGrammar`, `ShellCode` | the parser accepts exactly the lines of a grammar and finds what they stand for; printing and parsing are inverse; cutting words in place leaves them whole |
| matcher (grep.c) | `Grep` | true exactly when the text can be cut into pieces for the pattern |
| unlock table (fs.c, proc.c) | `UnlockTable`, `UnlockRuns` | over any run of the process table neither panic can happen, and an inode is unlocked for a process exactly if it or the process that forked it unlocked it |

A `panic` in the C code is an outcome that is proved unreachable where the code guarantees it,
and a result (`ok == false`, `OutOfBlocks`, `None`) where a caller can bring it about.

## What the code does not do

Seven properties one would expect are false.  Each has a member with an input that breaks it
and one that says exactly when it holds.

- A writer that is killed while the pipe is full returns -1 without waking the readers
  (pipe.c:85-88): `Pipe.StrandedReader`, `Pipe.ReadersKeptIff`.
- `create` and `link` add entries to a directory that has been unlinked (sysfile.c:265-277).
  A new directory makes its grandparent's link count wrong at once; for a file the count is
  wrong once the unlinked directory is dropped: `DirTree.LostFile`, `DirTree.CreateKeepsIff`,
  `DirTree.LinkKeepsIff`, and over runs `DirTree.RunSafeIff`.
- `filereadlink` fails on a path of nothing but slashes, and on one that ends in a link to
  such a path, although both name the root (fs.c:853-856): `Names.BarePaths`,
  `Names.MeaningAgrees`.
- A chunk of `filewrite` can be too big for the log (file.c:127-133).  On the disk that mkfs
  lays out (mkfs.c:15-20) an unaligned chunk over file blocks 137 to 140 whose new blocks have
  their bits in two sectors has nine sectors in the log when it fills the first entry of the new
  second-level block, and the log_write of that block (fs.c:513), which is one of the nine, panics:
  `TxnTooBig.TooBig`.  With buffers enough a transaction commits exactly when its sectors lie below
  the log and those before its last log_write are fewer than the log holds.  It panics exactly when
  the log is full before a sector of the log is reached, or when no block is free; a sector of the
  log itself is not tested for (log.c:164-167) and is a third case: `TxnBound.EndingIff`.  A writei
  always has buffers enough, if there is one more than the log holds: `TxnBound.WriteEnds`.  Which
  sectors are logged follows from the disk before the call: `FilesCode.FileSystem.ChunkTxn`.
- `unlink` frees the blocks of the file in the same transaction (sysfile.c:192-224), which logs each
  sector of the free map that has their bits, and its last log_write panics when the log is full
  although the sector is in it.  On mkfs's disk a file of seven blocks that lie far apart
  cannot be unlinked: `DropTooBig.CannotUnlink`; when it can, exactly: `DropTxn.UnlinkEnds`, and for
  the last close of a file without links `DropTxn.CloseEnds`.
- `itrunc` holds one or two pointer blocks while bfree logs the free map (fs.c:542-573), and logged
  sectors keep their buffers too, so bget can panic while the log has room.  On mkfs's disk, with
  the ten buffers of param.h, the largest file, written from block 4000 on, cannot be unlinked:
  `DropNoBuffer.RunsOut`.  There are buffers enough exactly when, at the bfree of each block, the
  sectors logged so far, with the one that has its bit, and the pointer blocks above it leave a
  buffer: `TruncTrail.TreeSegment`, and in `DropTxn.UnlinkEnds`.
- `allocuvm` ignores the result of mappages (vm.c:240).  When it is one frame short and the last
  page needs a page table of its own, it reports success with that page missing and its frame
  lost: `VmCode.FalseSuccess`, `VmCode.Memory.AllocUvm`.

Where code and comments disagree the model follows the code: `>>` in the shell opens its file
just as `>` does (sh.c:389-394), and `deallocuvm` is right only for sizes that cover all
mapped pages, although its comment allows any (vm.c:245-248).

## Model

| member | source | states |
|---|---|---|
| `Log.CrashAtomicity` | log.c:69-181 | for every list of transactions, each committed or cut off by a crash at any of its disk writes and followed by any number of crashed recoveries, the home sectors are those of the transactions that survived, applied in order |
| `Log.EventDisk` | log.c:115-181 | one transaction with its crash and recoveries ends with a clean log and either all of its writes or none, all if it committed |
| `Log.CrashInTxn` | log.c:135-181 | a crash after any number of the writes of a transaction leaves a disk that recovery turns into the old state before the header write and the new state after it |
| `Log.CrashInRecovery` | log.c:115-122 | a crash after any write of recovery is recovered to the same disk |
| `Log.Retry` | log.c:115-122 | any number of recoveries that crash leaves a disk with the same recovery |
| `Log.RecoveryRealizes` | log.c:69-82 | recovering a log that holds a transaction gives the disk with the transaction applied |
| `Log.LogPhaseHolds` | log.c:159-181 | after any number of log_write calls, with absorption, the log slots hold the last data of each sector written |
| `Log.CommittedIsClean` | log.c:135-150 | commit leaves an empty log and the transaction on its home sectors |
| `LogCode.TransactionLog.Boot` | log.c:53-66 | booting recovers the image |
| `LogCode.TransactionLog.InstallTrans` | log.c:69-82 | the loop makes exactly the install writes, in order, and leaves the log alone |
| `LogCode.TransactionLog.ReadHead` | log.c:85-96 | the in-memory header becomes the one on disk |
| `LogCode.TransactionLog.WriteHead` | log.c:101-113 | one disk write, after which the header on disk is the one in memory |
| `LogCode.TransactionLog.RecoverFromLog` | log.c:115-122 | the writes of recovery, ending in a clean log |
| `LogCode.TransactionLog.LogWrite` | log.c:159-181 | absorbs or appends, with one disk write to the slot; fails exactly outside a transaction or when the log is full, and keeps the log readable for every sector that is not one of its own |
| `LogCode.TransactionLog.CommitTrans` | log.c:135-150 | the writes of the commit phase, or none for an empty transaction |
| `LogCode.TransactionLog.RunTransaction` | log.c:124-181 | a whole transaction makes the writes that the crash theorem is about, and takes effect |
| `Buffers.RunIff` | bio.c:61-93 | a call, as its nested breads, log_writes and brelses, is stopped by no panic if and only if the log takes its log_writes and there are buffers for all of it |
| `Buffers.RoomsIff` | bio.c:61-93 | no bget of a call that ends with a log_write panics if and only if at every log_write the sectors logged so far, the held ones and this one leave a buffer for the log's own sector |
| `Buffers.NeverAstray` | log.c:159-181 | a call that logs home sectors only is stopped by no third thing besides the two panics |
| `Storage.NoneLeftIff` | bio.c:61-93 | bget panics if and only if the sectors that are logged or held and the one asked for are more than there are buffers |
| `Storage.InstalledShows` | log.c:69-82 | when the slots hold what readers see of the logged sectors, installing them makes the disk what readers see |
| `StorageCode.CachedLog.Get` | bio.c:96-105 | bread does not wait and returns the last bytes of the sector, or panics, exactly as counted |
| `StorageCode.CachedLog.LogSlot` | log.c:159-179 | while any set of sectors is held: one disk write, to the slot; the panic of log_write exactly when the log is full, and else that of bget exactly when no buffer is left besides those of logged and held sectors |
| `StorageCode.CachedLog.Perform` | bio.c:61-138 | the nested breads, log_writes and brelses of a call, through the cache: it goes through or is stopped where and by what the trail says; each log_write finds in its sector what the transaction wrote there before, and the disk is the one the log model says for the log_writes so far |
| `StorageCode.CachedLog.Changes` | log.c:159-181 | a transaction up to commit_trans goes through if and only if the log takes its log_writes and there are buffers for all of it |
| `StorageCode.CachedLog.InstallTrans` | log.c:69-82 | through pinned buffers the loop makes exactly the install writes, unpins each buffer, and changes nothing a reader sees |
| `StorageCode.CachedLog.RunTransaction` | log.c:124-181 | stopped exactly as counted, and then what has been logged is on the disk and the header is not; else the disk writes are those of the crash theorem, in that order, the disk is what they make of it and what everyone sees, and no buffer is pinned |
| `StorageCode.Attach` | param.h:6 | the kernel's ten buffers, idle, over a disk that needs no recovery |
| `CachedFiles.CachedCall` | sysfile.c:192-231 | any writes, truncations and inode updates of one call through the cache: it commits exactly when the count of sectors and buffers says so, and then disk and readers have its files; if it panics, recovery finds the files from before |
| `Files.SlotsDisjoint` | fs.c:468-521 | two places of two block trees never name the same block: bmap is injective |
| `Files.SlotRound` | fs.c:460-520 | file blocks lie in the direct slots, then the single-indirect ones, then those of each second-level block, in order |
| `Files.UsedMeansOwned` | fs.c:54-97 | a bit in the data area is set exactly when some slot of some inode names the block |
| `Files.AllocSound` | fs.c:468-521 | filling an empty slot with a free block keeps pointers, bits, owners and block kinds in agreement |
| `FileBytes.WriteHolds` | fs.c:621-651 | writing part of a block splices the bytes into the file's contents |
| `FileBytes.ExtendsHolds` | fs.c:468-521 | allocation changes no file's contents |
| `FileSteps.TruncAll` | fs.c:528-578 | truncation clears exactly the bits the inode owned and leaves the other files as they were |
| `TruncLog.TruncOk` | fs.c:81-97 | itrunc frees no block twice, so the panic on a free block cannot happen |
| `TruncTrail.BitsCleared` | fs.c:528-578 | the sectors of the free map that itrunc logs are those with the bits of the blocks the inode owns |
| `TruncTrail.TreeSegment` | fs.c:528-578 | after any log_writes, a buffer is left at each log_write of itrunc if and only if, for each block of the inode, one is left besides those of the sectors logged before, of its bit's sector and of the pointer blocks above it |
| `TruncTrail.DropRooms` | fs.c:430-449 | the same for the whole of iput's last part, for every bget |
| `TruncTrail.TreeCalm` | fs.c:542-573 | itrunc never asks for a buffer that it holds |
| `FileTrail.WriteFair` | fs.c:468-521 | a pointer block that bmap holds while balloc logs is logged itself after that, so a writei that the log takes finds a buffer at every bread, if there is one more than the log holds |
| `FileOps.OpsAgree` | fs.c:302-651 | the log_writes in the trail of any calls are those of their log |
| `TruncLog.TruncListed` | fs.c:528-578 | they come in the order of the tree, and then the inode's sector |
| `FileOps.OpsApplied` | fs.c:302-651 | what any sequence of writei, itrunc and iupdate does to the disk is exactly what it hands to log_write |
| `FilesCode.FileSystem.Balloc` | fs.c:54-78 | the lowest clear bit is taken and the block zeroed; failure means no bit is clear |
| `FilesCode.FileSystem.Bfree` | fs.c:81-97 | clears the bit, and fails exactly on a free block |
| `FilesCode.FileSystem.Bmap` | fs.c:468-521 | the address of a block of a file, made if missing from the lowest free blocks; nothing changes when it is there; out of range exactly from MAXFILE on, out of blocks only when every bit is set |
| `FilesCode.FileSystem.ReadI` | fs.c:593-617 | the bytes of the flat contents, nothing allocated, and one buffer held at a time |
| `FilesCode.FileSystem.WriteI` | fs.c:621-651 | splices into the flat contents, fails exactly past the end or above the maximal size, and never meets the out-of-range panic; the inode on disk is the one in memory |
| `FilesCode.FileSystem.FreeAll` | fs.c:528-578 | the loops of itrunc free every block of the tree and none twice |
| `FilesCode.FileSystem.Itrunc` | fs.c:528-578 | the file is empty, exactly its blocks are free, the others keep contents and blocks; disk and logged writes are those of a function of the state before |
| `FilesCode.FileSystem.RunOps` | fs.c:302-651 | any sequence of writes, truncations and inode updates does to the tree what it does to flat files, unless all blocks are used; disk, inodes, logged writes and the buffers it holds are a function of the state before, also when it runs out of blocks; it never asks for a buffer that it holds |
| `FilesCode.FileSystem.Iupdate` | fs.c:302-323 | the inode, with its type, device, link count and password, is in its place in its sector, and the others in that sector stay |
| `FilesCode.FileSystem.SetMeta` | fs.c:302-323 | new metadata changes neither blocks nor bytes of any file |
| `FilesCode.FileSystem.constructor` | fs.c:374-402 | a file system from what its disk says |
| `DiskInodes.SoundElsewhere` | fs.c:468-521 | soundness depends on nothing but the bits and the owned blocks |
| `DiskInodes.FreshSound` | mkfs.c:90-104 | the empty disk that mkfs starts with is sound, whatever its size |
| `TxnBound.TxnOkIff` | log.c:159-181 | no log_write of a transaction panics and all are for home sectors if and only if all sectors lie below the log and the distinct ones before the last write are fewer than the log holds |
| `TxnBound.EndingIff` | log.c:159-181 | a transaction commits if and only if no block is missing, the log takes it and there are buffers for it; with buffers, from the sectors alone: when it commits, when which panic comes, and when it reaches a sector of the log; without, bget panics if the log takes it |
| `TxnBound.WriteEnds` | file.c:139-147 | with one buffer more than the log holds a writei commits if and only if no block is missing and the log takes it |
| `TxnBound.ChunkFits` | file.c:127-152 | one chunk touches at most 4 data and 3 pointer sectors, the sectors with the bits of the blocks it takes, and then its inode; with room for these no log_write panics |
| `TxnBound.TakenFew` | file.c:127-133 | a chunk takes at most seven blocks |
| `TxnBound.TakenBetween` | fs.c:54-78 | when no block below one bound is free, the blocks that are taken lie between it and another bound if and only if that many are free below the other, and then these are gone |
| `FileLog.WriteApplied` | fs.c:621-651 | what writei does to the disk is exactly what it hands to log_write |
| `FileLog.LogIs` | fs.c:621-651 | the turns of writei's loop, however it ends, are the function AfterWrite of the state before |
| `TxnTooBig.SoundNow` | mkfs.c:15-20 | the root directory and two files written one after the other on mkfs's disk, up to two blocks before the second sector of the free map, are sound |
| `TxnTooBig.TooBig` | file.c:127-152 | on that disk, with its log clean and ten buffers, the next chunk of the first file panics in log_write, and not in bget, whatever its bytes |
| `DropTxn.CloseEnds` | file.c:56-80 | with one buffer more than the log holds, the last close of a file without links commits if and only if the sectors with its bits and the one with its inode are fewer than the log holds, and else panics |
| `DropTxn.UnlinkEnds` | sysfile.c:192-224 | unlink commits if and only if the sectors of the entry, of the parent's inode for a directory, and, when the file goes, of its inode and its bits, are fewer than the log holds, and, when the file goes, there is a buffer at the bfree of each of its blocks; else it panics, in bget when the log has room |
| `DropTxn.UnlinkFits` | sysfile.c:192-224 | so it commits when five more sectors than those with the file's bits fit |
| `DropTooBig.CannotUnlink` | sysfile.c:192-224 | on mkfs's disk with ten buffers, a sound file system with a file whose unlink panics in log_write |
| `DropNoBuffer.RunsOut` | fs.c:542-573 | on mkfs's disk with ten buffers, a sound file system with a file whose unlink panics in bget while its sectors are fewer than the log holds |
| `FilesCode.FileSystem.ChunkTxn` | file.c:139-147 | disk, inodes and logged writes are those of AfterWrite on the state before; it runs out of blocks exactly when that does, and its transaction is accepted exactly when the sectors AfterWrite logs are few enough; the buffers it holds are those of AfterWrite's trail |
| `FileCrash.Remounts` | log.c:115-122 | a disk with the same home sectors holds the same sound file system and the same files |
| `FileCrash.LastsIff` | log.c:136-181 | a call lasts if and only if no block is missing, the log takes its sectors, there is a buffer for each request and the machine does not stop before the header is written |
| `FileCrash.AstrayIff` | log.c:159-181 | the case nothing is said about needs a log_write for a sector of the log while the log has room, before the machine stops; with buffers enough it is exactly that |
| `FileCrash.CrashingCall` | log.c:115-181 | a system call of any writes, truncations and inode updates, cut off at any disk write or by a panic, with any number of crashed recoveries: the disk is the one the log leaves behind for that event, the file system read back from it is sound, and the files are those before the call or all of it; all exactly when blocks, log and buffers suffice and the header was written; nothing is promised only after a log_write for a sector of the log |
| `FileCrash.FreshMount` | mkfs.c:90-104 | mkfs's disk without files can be used so |
| `FileCrash.RunCalls` | log.c:53-181 | over any number of system calls, crashes and panics: each call meets the disk the one before has left, every disk is the one the log leaves behind, and at the end the file system is sound and the files are what the lasting calls make of them |
| `FilesCode.FileSystem.WriteChunk` | file.c:139-147 | one chunk is one transaction; with room seen before the call (free blocks below the log, few enough sectors of the free map) it is accepted, and uses up at most the room of one chunk; it runs out of blocks only when every bit is set |
| `FilesCode.FileSystem.FileWrite` | file.c:117-155 | the chunks together splice the data into the file; it fails exactly past the end or when the data goes above the maximal size, and then the file has exactly the whole chunks that stay below it; with room for all chunks before the call all transactions are accepted; it runs out of blocks only when every bit is set |
| `Names.MeaningAgrees` | fs.c:853-856 | filereadlink finds a meaning for a path exactly when a link-following resolver does and the path neither is made of slashes only nor ends in a link that is; then it is the same inode |
| `Names.BarePaths` | fs.c:853-856 | a path of each kind on which they differ |
| `Names.ParentAgrees` | fs.c:941-1037 | leaving the last element alone is resolving the parent and looking the element up |
| `Names.ParentIff` | fs.c:941-1037 | leaving the last element alone leads to a directory if and only if the other elements resolve to one; it is that one, and the last element is the same |
| `Names.ElemsConcat` | fs.c:735-760 | path elements of a string joined at a slash |
| `Names.PlainWalk` | fs.c:763-796 | a walk over directories only is the same for both resolvers |
| `Names.PlainFollow` | fs.c:815-937 | a path without links means itself |
| `NamesCode.SkipElem` | fs.c:735-760 | the first element and a rest without leading slashes, or none left |
| `NamesCode.Namei` | fs.c:763-803 | the inode the path names when links are not followed |
| `NamesCode.NameiParent` | fs.c:763-809 | the directory that all elements but the last lead to, and the last element; fails exactly when there is no element or no such directory |
| `NamesCode.ParentLookup` | fs.c:763-809 | a path names what its last element names in its parent |
| `NamesCode.RewriteKeepsMeaning` | fs.c:882-895 | splicing a link's target into the path keeps its meaning with one link less |
| `NamesCode.WrittenShortest` | fs.c:897-936 | the path written out has the elements of the meaning, and no path with these elements from the same start is shorter |
| `NamesCode.ReadPass` | fs.c:841-936 | one pass ends with the written-out path the meaning asks for, or with none because there is none, or with one link rewritten and the same meaning |
| `NamesCode.FileReadlink` | fs.c:815-937 | the result is exactly the link-free path that the meaning of the original with at most 15 links is written as, the shortest one, if there is one and the buffer holds it with its NUL, and else failure; namei reaches from it what a link-following resolver reaches |
| `NamesCode.FileReadlinkI` | fs.c:941-1037 | the same with the last element left as it is; there is a meaning exactly when the other elements resolve to a directory |
| `DirTree.NamedIsLinked` | sysfile.c:204-205 | the panic of unlink on an inode without links cannot happen |
| `DirTree.SingleLink` | sysfile.c:206-222 | an empty directory has exactly one link |
| `DirTree.CreateKeeps` | sysfile.c:234-283 | create keeps link counts, unique names and the tree |
| `DirTree.LinkKeeps` | sysfile.c:115-160 | link keeps them |
| `DirTree.UnlinkKeeps` | sysfile.c:179-231 | unlink keeps them, and an unlinked directory has no links left |
| `DirTree.FreeKeeps` | fs.c:430-449 | so does giving back an inode without links |
| `Dirs.CreatedMeans` | sysfile.c:260-278 | create adds the name, and for a directory its dot names; the new inode has the kind asked for and one link; no other name, kind or link count changes but the parent's link for a directory |
| `Dirs.LinkedMeans` | sysfile.c:135-147 | link adds one name and one link |
| `Dirs.UnlinkedMeans` | sysfile.c:208-222 | unlink takes away the name and its link, and for a directory the parent's link, and nothing else |
| `DirTree.CreateKeepsIff` | sysfile.c:234-283 | after create the link counts are right, and stay right when any inode without links is dropped, if and only if the directory is still linked |
| `DirTree.LinkKeepsIff` | sysfile.c:115-160 | the same for link |
| `DirTree.RevivedParent` | sysfile.c:269-275 | mkdir in an unlinked directory makes its grandparent's count wrong at once |
| `DirTree.RunKeeps` | sysfile.c:115-283 | any run of create, link, unlink and last iputs that adds to no unlinked directory keeps link counts, unique names and the tree |
| `DirTree.RunSafeIff` | sysfile.c:115-283 | the counts are right and stay right in every state of a run if and only if no step of it adds to an unlinked directory |
| `DirTree.LostFile` | sysfile.c:265-277 | a run that leaves a file with a link no entry accounts for |
| `DirTree.LeadsToRoot` | sysfile.c:265-272 | from every linked directory ".." leads to the root |
| `DirCrash.EntryRound` | fs.h:58-61 | a directory entry is read back from its 16 bytes |
| `DirCrash.PutEntry` | fs.c:704-717 | writing 16 bytes into a directory puts their entry into its slot and changes no other |
| `DirCrash.CreateShows` | sysfile.c:260-278 | the inode updates and writes of create do to the disk's directories what create does to the tree |
| `DirCrash.LinkShows` | sysfile.c:135-147 | so do those of link |
| `DirCrash.UnlinkShows` | sysfile.c:211-222 | so do those of unlink with the last iput |
| `DirCrash.CallShows` | sysfile.c:115-283 | and the tree keeps its link counts and its shape; the metadata of every inode, with its password, is as before but for the link count, unless the inode is new, without a password, or dropped; and the bytes of no file but those and one slot of the directory change |
| `DirCrash.CrashingDirCall` | sysfile.c:115-283 | a create, link or unlink cut off at any disk write or by a panic, with any number of crashed recoveries: the disk has the directory tree from before it or from after it, after it exactly when the header was written, the tree's link counts and shape are in order, and metadata and bytes that the call is not about are as they were |
| `DirsCode.DirTable.Dirlookup` | fs.c:664-688 | a slot with the name, or the name is absent |
| `DirsCode.DirTable.Dirlink` | fs.c:691-718 | the entry goes into the first empty slot; fails exactly when the name is there |
| `DirsCode.DirTable.IsDirEmpty` | sysfile.c:163-176 | no entry besides the two dots |
| `DirsCode.DirTable.Ialloc` | fs.c:275-297 | the lowest free inode |
| `DirsCode.DirTable.constructor` | mkfs.c:106-118 | a file system with the root directory and its dot names only is in order |
| `DirsCode.DirTable.Create` | sysfile.c:234-283 | a new inode, the lowest free one, under the name, with no other name changed; or the file of that name, when files are asked for and no password is in the way; or failure exactly otherwise; and when the counts are safe, exactly |
| `DirsCode.DirTable.Link` | sysfile.c:115-160 | one more name and one more link and nothing else, or the old tree on failure; and when the counts are safe, exactly |
| `DirsCode.DirTable.Unlink` | sysfile.c:179-231 | the tree without the name and its link and nothing else gone, or the old one for dots, absent names and full directories |
| `Cache.PushFront` | bio.c:49-57 | linking a node behind the head keeps the ring |
| `Cache.Unlink` | bio.c:127-128 | taking a node out keeps the ring |
| `Cache.MoveToFront` | bio.c:127-132 | the ring stays a permutation of the buffers in order of last release |
| `Cache.ReadCoherent` | bio.c:96-105 | a sector that is not cached is up to date on disk |
| `Cache.RecycleCoherent` | bio.c:82-91 | reusing a clean idle buffer loses no bytes |
| `Cache.WriteCoherent` | bio.c:108-114 | new bytes are what the next reader sees, written or pinned |
| `CacheCode.BufferCache.constructor` | bio.c:38-58 | the loop builds a ring of all buffers |
| `CacheCode.BufferCache.FindCached` | bio.c:69-80 | the buffer of the sector, or no buffer has it |
| `CacheCode.BufferCache.FindFree` | bio.c:83-85 | the least recently released buffer that is idle and clean |
| `CacheCode.BufferCache.Bget` | bio.c:61-93 | a hit, a wait, a recycled buffer that was neither busy nor dirty, or the panic when none is left |
| `CacheCode.BufferCache.Bread` | bio.c:96-105 | the caller sees the last bytes given to bwrite or log_write for the sector; it sleeps only on a busy buffer of that sector, and finds no buffer only when none has the sector and all are busy or dirty |
| `CacheCode.BufferCache.Bwrite` | bio.c:108-114 | the bytes are on disk and seen by all |
| `CacheCode.BufferCache.Pin` | log.c:180 | the bytes are seen by all and the buffer is pinned, without a disk write |
| `CacheCode.BufferCache.Brelse` | bio.c:119-138 | the buffer is idle and first in the ring |
| `Ide.DriverRefines` | ide.c:91-155 | every interleaving of requests, interrupts and owners' changes ends where the immediate driver ends, once the queue is carried out; requests finish in order |
| `Ide.StepRefines` | memide.c:36-58 | a request is the immediate transfer, an interrupt is nothing |
| `Ide.SettledAgrees` | ide.c:150-152 | a buffer out of the queue is as after the immediate transfer; one in it is unfinished, so its caller waits |
| `CacheDriver.StepKeeps` | bio.c:61-138 | every step of a process on the cache, with its request to the driver, and every interrupt keeps the buffers coherent with what the disk will hold |
| `CacheDriver.RunKeeps` | ide.c:125-155 | under every interleaving of processes and interrupts, who holds a valid buffer and does not wait sees the last bytes of its sector, and with an empty queue the disk and the dirty buffers hold what readers see |
| `IdeCode.Driver.Append` | ide.c:138-142 | the walk along qnext appends the buffer |
| `IdeCode.Driver.Iderw` | ide.c:125-147 | a request, and the disk started if it was idle |
| `IdeCode.Driver.Ideintr` | ide.c:91-120 | the first request is finished, and the next one started |
| `SleepWakeup.NoLostWakeup` | proc.c:370-425 | in every reachable state, for a process that sleeps while its condition is true some process still owes the wakeup or has not reached the sleeper yet |
| `SleepWakeup.QuietSleepersWait` | sleep1.p:61-133 | when no wakeup is owed or under way, every sleeper's condition is false |
| `SleepWakeup.MutualExclusion` | spinlock.c:24-64 | at most one process is inside a lock |
| `SleepWakeup.PendingKept` | proc.c:408-425 | only the step that looks at the sleeper ends its pending wakeup |
| `SleepWakeup.WokenIff` | proc.c:408-448 | a sleeper is woken exactly by kill or when a wakeup on its own channel comes to its entry |
| `Procs.ProcessTreeSafe` | proc.c:131-258 | in every reachable state a recorded parent is neither unused nor zombie, a zombie has a parent, and that parent does not sleep in wait |
| `Procs.ReapedOnce` | proc.c:219-258 | no process id is reaped twice, and only a zombie's parent reaps it |
| `Procs.InvKept` | proc.c:131-448 | every step of fork, exit, wait, kill, sleep and the scheduler keeps the process tree in order |
| `Procs.EntryKept` | proc.c:131-448 | what a step may change of each entry's id, parent, killed flag and sleep |
| `Procs.StateDiagram` | proc.c:37-448 | the ways from one state of an entry to another: there are no others, and a step takes its own entry along one |
| `Procs.ExitMeans` | proc.c:173-214 | after exit the process is a zombie, its children are init's, exactly the sleepers on the parent, and on init if it gets a zombie, are woken, and nothing else has changed |
| `Procs.KilledIff` | proc.c:219-258 | over any run a process is killed exactly if kill was called for its entry since that was last reaped |
| `ProcsCode.ProcTable.Wakeup1` | proc.c:408-416 | exactly the sleepers on the channel become runnable |
| `ProcsCode.ProcTable.AllocProc` | proc.c:37-53 | the first unused entry gets the next id and nothing else changes, or there is none |
| `ProcsCode.ProcTable.Exit` | proc.c:173-214 | the critical section of exit: parent woken, children handed to init, init woken for zombies |
| `ProcsCode.ProcTable.Wait` | proc.c:219-258 | the first zombie child is reaped, its entry free without id, parent and killed flag, or the caller sleeps because it has children and no zombie among them, or it returns |
| `ProcsCode.ProcTable.Kill` | proc.c:430-448 | the first entry with the id is marked, and woken if it slept; it keeps id and parent, and the others are unchanged |
| `Pipe.FifoAlways` | pipe.c:77-120 | in every reachable state the bytes read are the first bytes written, at most 512 wait, and a sleeping writer has a full ring |
| `Pipe.HistoryGrows` | pipe.c:77-120 | nothing written or read is taken back |
| `Pipe.WritesItsBytes` | pipe.c:77-97 | over any run, what the turns of one write call put into the pipe, one after the other, is what it was given: all of it when it returns without an error, a part from the start while it sleeps or when it fails |
| `Pipe.ReadsNextBytes` | pipe.c:99-120 | over any run, a read call that returns gets the first bytes nobody has got, as many as it asked for or all there are, and none only if it asked for none or the writers have closed |
| `Pipe.SleepersWoken` | pipe.c:55-120 | whom each step wakes, exactly, and that only its own turn puts a process to sleep |
| `Pipe.ReadersKeptIff` | pipe.c:77-120 | a step leaves a reader asleep beside bytes if and only if it is a writer giving up after storing some |
| `Pipe.NoDeadlock` | pipe.c:77-120 | without such a step, readers sleep only beside an empty ring and never together with writers |
| `Pipe.StrandedReader` | pipe.c:84-90 | a run in which a writer killed inside its call leaves a reader asleep beside a full ring |
| `PipeCode.Ring.WriteTurn` | pipe.c:77-97 | pipewrite up to its sleep or return appends the bytes of its buffer from where it was to where it is, stops only at the end or with a full ring, and fails there exactly if the readers have closed or it is killed; that is the system's step |
| `PipeCode.Ring.ReadTurn` | pipe.c:99-120 | piperead returns the next bytes in the ring, as many as asked for or all, or sleeps or fails on an empty one; that is the system's step |
| `Vm.AddTable` | vm.c:45-65 | a new page table keeps every frame in one place and changes no mapping |
| `Vm.WriteEntry` | vm.c:70-89 | so does mapping a frame of its own or removing a page |
| `Vm.NothingAbove` | vm.c:260-262 | deallocuvm's skip of a missing table passes no page that is there |
| `Vm.PageUp` | vm.c:231-232 | the least number of pages that hold the bytes |
| `Vm.OwnedElsewhere` | vm.c:309-336 | what happens outside its frames does not touch a space |
| `FrameCount.NeedStep` | vm.c:45-89 | the frames that a range of pages needs, page by page |
| `FrameCount.NeedFresh` | vm.c:309-336 | a space without user tables needs a frame for each page and each table |
| `FrameCount.RunsShort` | vm.c:231-240 | when the frames run out, and whether it is at the last page |
| `VmCode.Memory.constructor` | kalloc.c:30-51 | every frame of the range is free, once |
| `VmCode.Memory.Walk` | vm.c:45-65 | the table of an address, made if asked and a frame is free; mappings stay |
| `VmCode.Memory.MapPage` | vm.c:70-89 | one page is mapped, the others stay, and the remap panic cannot happen; it fails exactly when a table is missing and no frame is free |
| `VmCode.Memory.GrowPage` | vm.c:232-240 | a new page takes one frame and one for a missing table; with one frame only and no table, the frame is lost |
| `VmCode.Memory.SetupKvm` | vm.c:128-143 | a space with the kernel's rows mapped and no user page, exactly when there are frames for the directory and the tables the rows need; when it fails the free list is used up |
| `VmCode.Memory.AllocUvm` | vm.c:220-243 | with frames for the pages and the missing tables every address below the new size is backed, the old bytes are the same, the new ones 0, and no page starts at the new size or above; one short, when the last page needs a table of its own, success is reported with that page missing; otherwise it fails and no page is new; at most one frame is lost |
| `VmCode.FalseSuccess` | vm.c:220-243 | with any kernel map, and one frame more than a new space takes, the space grows by a page, and the page is not there |
| `VmCode.Memory.DeallocUvm` | vm.c:249-273 | the pages that start from the new size up to the old one go, the others stay, and no frame is lost |
| `VmCode.Memory.FreeVm` | vm.c:277-292 | every frame of the space is back on the free list once |
| `VmCode.Memory.CopyUvm` | vm.c:309-336 | succeeds exactly when there are frames for the directory, the kernel's tables, the pages and their tables, and then every address below the size is backed in the child with the parent's byte, in frames of its own, and none from the size on; the parent is unchanged; after setupkvm a failure loses at most one frame |
| `Umalloc.BlocksDisjoint` | umalloc.c:24-90 | no two blocks, live or free, overlap |
| `Umalloc.FreeSound` | umalloc.c:24-44 | linking a block in, joined with its neighbours or not, keeps the list and the accounts |
| `Umalloc.TakeSound` | umalloc.c:76-77 | taking a whole free block keeps them |
| `Umalloc.SplitSound` | umalloc.c:78-82 | so does cutting off its tail |
| `Umalloc.GrowSound` | umalloc.c:46-61 | so does new memory |
| `UmallocCode.Heap.Free` | umalloc.c:24-44 | the block is no longer live; all units are still accounted for |
| `UmallocCode.Heap.FindLink` | umalloc.c:30-32 | the search ends at the place where the block belongs |
| `UmallocCode.Heap.Morecore` | umalloc.c:46-61 | exactly the units from sbrk are added, and a block of the size exists |
| `UmallocCode.Heap.Search` | umalloc.c:74-86 | the first block after freep that is large enough, or none is, after one time round |
| `UmallocCode.Heap.Malloc` | umalloc.c:63-90 | a new block of the right size apart from all live ones; 0 exactly when no free block is large enough and sbrk refuses |
| `Shell.LineBack` | sh.c:345-448 | every tree that fits is the tree its printed tokens parse to |
| `Shell.AtomBack` | sh.c:375-448 | redirections after a command or a block come back in order |
| `ShellText.RoundTrip` | sh.c:266-448 | writing a command tree as text and parsing the text gives the tree |
| `ShellText.LexShow` | sh.c:266-308 | tokens survive being written as text |
| `ShellText.PrintInjective` | sh.c:345-448 | different trees are written differently |
| `ShellGrammar.LexIff` | sh.c:266-308 | a text spells, with white space anywhere between, exactly the tokens that gettoken finds in it: words as long as they go, and '>' with a '>' behind it as one |
| `ShellGrammar.ParsesIff` | sh.c:345-448 | a token list parses to a tree if and only if the grammar says it stands for it: redirections before, among and after words, input exactly for '<' |
| `ShellGrammar.OneMeaning` | sh.c:345-448 | a line stands for one command only |
| `ShellGrammar.LineIff` | sh.c:266-448 | so a line of text parses to a tree if and only if it stands for it |
| `ShellCode.GetToken` | sh.c:266-308 | the next token and a longest run of word characters |
| `ShellCode.TextKeeps` | sh.c:266-308 | the tree of spans and the tree of words have one shape, with each word in the place of its span |
| `ShellCode.ParseRedirsCode` | sh.c:375-398 | the redirections, or the panic for a missing file |
| `ShellCode.ParseArgsCode` | sh.c:428-446 | the words and redirections of one command, or a panic |
| `ShellCode.ParseExecCode` | sh.c:400-448 | a command or a block |
| `ShellCode.ParsePipeCode` | sh.c:362-372 | a pipeline |
| `ShellCode.ParseLineCode` | sh.c:345-359 | a line |
| `ShellCode.ParseCmd` | sh.c:328-338 | the command that the line stands for by the grammar, or a panic exactly when it stands for none |
| `ShellCode.EndsOutside` | sh.c:450-494 | the end of a word is never inside a word |
| `ShellCode.EndsIff` | sh.c:450-494 | the ends that are cut at are those of all words of the tree, files of redirections with them |
| `ShellCode.NulTerminate` | sh.c:450-494 | NULs are put at the ends of the tree's words and nowhere else |
| `ShellCode.ParseAndCut` | sh.c:328-342 | afterwards every word of that command's tree is a C string in the buffer, and nothing else in it has changed |
| `Grep.HereItem` | grep.c:84-105 | matching one item and then the rest, from the meaning of the whole |
| `Grep.MatchHere` | grep.c:84-95 | true exactly when the text can be cut into pieces for the pattern here |
| `Grep.MatchStar` | grep.c:98-105 | true exactly when some number of repetitions leads to a match |
| `Grep.Match` | grep.c:71-81 | true exactly when the pattern matches somewhere, or at the start after '^' |
| `UnlockTable.PlaceLeft` | fs.c:188-198 | a row that lacks one of at most NPROC ids has an empty place |
| `UnlockTable.AddedOk` | fs.c:188-198 | taking the first empty place adds the one pair to the relation |
| `UnlockTable.DroppedOk` | fs.c:201-214 | clearing an id removes its pairs and no others |
| `UnlockTable.UnlockHas` | fs.c:188-198 | unlock_inode adds one pair to the relation |
| `UnlockTable.CopyHas` | fs.c:241-256 | fork_pids gives the child exactly what the parent has |
| `UnlockTable.Table.UnlockInode` | fs.c:177-199 | afterwards the inode is unlocked for the process, and nothing else has changed; panics exactly when the id is not in the row and the row has no empty place |
| `UnlockTable.Table.IsInodeUnlocked` | fs.c:216-232 | whether the pair is in the relation |
| `UnlockTable.Table.FreeInodeLocks` | fs.c:201-214 | the id is in no row, and the others are where they were |
| `UnlockTable.Table.ForkPids` | fs.c:234-259 | the child has unlocked what it had and what the parent has, and nobody else anything new; panics exactly when a row of the parent has no empty place |
| `UnlockRuns.InvKept` | proc.c:131-258 | every step of the process table, of unlock_inode, of fork_pids between parent and RUNNABLE, and of free_inode_locks before ZOMBIE keeps the ids in the rows among those of living processes |
| `UnlockRuns.NeverPanics` | fs.c:177-259 | in no state of any run from the first process on can unlock_inode or fork_pids panic |
| `UnlockRuns.UnlockedForLiving` | proc.c:131-214 | an inode is only ever unlocked for exactly one process table entry, which can run and has not passed free_inode_locks or is about to be started by fork |
| `UnlockRuns.ReapedForgotten` | proc.c:219-258 | an id that wait has returned is in no row |
| `UnlockRuns.UnlockedIff` | proc.c:131-214 | in every state of every run, an inode is unlocked for a process if and only if it has unlocked it, or was forked by one for which it was unlocked, and has not exited since |
| `UnlockRuns.StaysUnlocked` | fs.c:177-214 | after unlock_inode the inode is unlocked for the process in every later state until it exits |
| `UnlockRuns.ChildInherits` | proc.c:151-154 | a run in which a child has unlocked what its parent had |

## Left out

- Units: the 32-bit overflow of a byte count near 2^32 is not modelled.
- Pin: log_write is taken to be given a buffer that bread has filled.
- Malloc: the loop that malloc enters again after morecore is written as a second search.
- FileReadlink: MAXPATH and DIRSIZ buffers are unbounded strings, and references and locks of inodes are not modelled.
- ReadI: device files are not modelled.
- WriteI: device files are not modelled.
- Create: which files have a password is an argument, and devices and symbolic links are told from files only.
- CopyUvm: permission bits are not modelled.
- DeallocUvm: what is left is said to be contiguous only when the old size covers the mapped pages, as all callers see to.
- RunCalls: a system call is a given list of writei, itrunc and iupdate calls; the lists of create, link, unlink and close are in `DirCrash` and `DropTxn`, without the lookups before them, which hold one buffer at a time.
- UnlinkFits: asks for five more sectors, and not four as the log alone would, because up to two pointer blocks are held too; one way only, the exact condition is that of `DropTxn.UnlinkEnds`.
- UnlinkEnds: there is at least one buffer more than the log holds, as with NBUF and LOGSIZE in param.h; so too in `DropTxn.CloseEnds` and `TxnBound.WriteEnds`.
- CrashingDirCall: a create or link in a directory that has the largest size, where dirlink panics, is not modelled, and neither are the steps that link takes back when it fails.
- ParseArgsCode: the C code fills an execcmd that redirections already point to; here the tree is built when its words are complete.
- Kalloc: the free list is a sequence instead of links in the free pages.
- SleepWakeup: timer preemption and the interrupt flag of pushcli and popcli are not modelled; stores that a process makes to its own entry under ptable.lock are one step.
- Procs: the process id counter does not wrap, and open files and memory of processes are not modelled.
- Log: two processes inside one transaction and the wait in begin_trans are not modelled.
- RunTransaction: other processes hold no buffer while the transaction runs through the cache.
- Pipe: what happens to the memory of a pipe that both sides have closed is not modelled.
- CachedCall: a transfer and the wait for it are one step, as `CacheDriver.RunKeeps` shows they can be seen; a call that runs out of blocks is left to `FileCrash`.
- Boot code, traps, system call arguments, the console, the scheduler's fairness, exec, mkfs and the small user programs: they have little state of their own.
