# Verified models of a Raspberry Pi kernel and its encoder

The repository is a Unix-like teaching kernel for the Raspberry Pi with a userland.  This project models its
cores in Dafny and proves what they are for:

- **Redo log** (`RedoLog`, `BufferCache`, `Log`, `LogProtocol`): crash atomicity of a group commit at every single
  block write, idempotent recovery, a buffer cache that always shows the latest contents and keeps uncommitted
  blocks pinned, when a commit gets stuck, and the whole protocol with any number of processes, crashes and crashing
  recoveries: the disk always recovers to exactly what the committed operations wrote.
- **Timer wheel** (`TimerWheel`): five cascading vectors refine a queue of timers with expiry ticks, under any calls
  that callbacks and other processors make meanwhile.
- **v6 files** (`BlockTree`, `V6`): block trees stay disjoint, reads and writes refine byte sequences, and every
  transaction fits its reservation.
- **Allocator** (`Kmalloc`): the first-fit ring stays ordered, disjoint, coalesced and conserves its units.
- **Address spaces** (`PageTable`, `Vm`, `Fork`): four-level tables refine a map from pages to frames; fork copies it.
- **ext2 directories** (`DirRecords`, `Ext2Dir`): variable-length records in bytes refine a map from names to files.
- **Sleep locks** (`SleepLock`) and **pipes** (`Pipe`): no lost wakeup, mutual exclusion, calls that return with what
  they are for, and FIFO order over all interleavings.
- **Encoder** (`Codec`, `Basenc`): base16, base2 and z85 with streaming decoders.
- **Calendar** (`Rtc`): seconds to dates and back.

`Common` holds what the modules share.  Code that updates objects in place is a class with methods proved against
functions on values; interleavings are state machines whose steps lie between two operations on a lock.  A call that
sleeps or panics is an outcome of the method that makes it.  Clocks, what callbacks do, the contents of newly allocated
disk blocks, the list of memory-mapped regions and the splitting of input into reads are parameters.

`dafny verify dfyconfig.toml` checks the whole project.

Where a promise does not hold of the code, the exact condition is proved instead; where the failure takes several
calls or a large state, a method or lemma reaches it:

- `Log.Commit`: a log of LOGSIZE blocks pins all NBUF buffers, which are as many, so `write_log` finds none for its first
  block and panics.  With no buffer held, a commit finishes if and only if the log is shorter than NBUF.  `FillLog`
  reaches the panic from an empty log; `LogProtocol.CommitStarts` shows that it takes a last operation that has used up
  its reservation, which `filewrite` never does.
- `FindFree`: `v6_balloc` searches only the bitmap blocks that start below the number of inodes, so it panics if and only
  if those are full; `FullTooEarly` is a bitmap with free blocks beyond, as a file system with 1024 inodes and 100000
  blocks comes to have.
- `Wheel.AddTimer`, `Wheel.ModTimer`: a timer more than 2^32-1 ticks ahead is not filed at all.
- `FileSystem.Writei`: the file size is a 32-bit field, so a write that ends at or beyond 2^32 does not give the
  spliced contents; `WrapToEmpty` turns a file of 2^32-1 bytes into an empty one by writing one byte.
- `Pipe.WriteOn`: a writer with more than 512 bytes to write that is killed, or whose read end is closed, fills the ring
  and gives up, and leaves readers asleep beside unread bytes; `ForgetReader` does so on a new pipe.
- `TmToTime`: the days of the years are multiplied in an unsigned int, so the result is right up to the year 11767033.
- `TimeToTm`: the seconds of whole days are computed in an unsigned int, so from 8 February 2106 on the result is no
  time of day.
- `IgnoreGarbage`: the filter of `do_decode` keeps `=`, and for z85 the NUL that `strchr` finds, so a text with such a
  character is refused where its digits alone decode; `GarbageKept` is an example.
- `StaleBread`: before first use all buffers carry the address (0,0), for which the cache keeps no promise: starting
  from `binit`, block 0 of device 0 is read stale.

Where the code and its comments disagree, the model follows the code: `brelse` is said to move a buffer to the head of
the list of recently used ones, but it moves it to the end from which `bget` recycles.

## Model

| member | source | states |
|---|---|---|
| RedoLog.HeadRoundTrip | kern/log.c:99-131 | reading the header block back after it was written returns the block list, for every list of at most LOGSIZE blocks |
| RedoLog.RecoveredBlocks | kern/log.c:82-111 | what recovery makes of the blocks on disk, word by word: word 0 of the header counts the entries, word i+1 is a block number, the i-th block behind the header its contents; of two entries for a block the later counts, a block not listed stays |
| RedoLog.InstalledLast | kern/log.c:82-96 | the install loop leaves in a block what the last entry listing it holds |
| RedoLog.RecoveryIdempotent | kern/log.c:82-142 | a crash after any number k of recovery's block writes leaves a disk that recovers to the same home blocks; a recovery that ran to its end left those home blocks and an empty log |
| RedoLog.CrashingBoots | kern/log.c:82-142 | any sequence of boots whose recoveries crash at any write keeps the disk recoverable, with unchanged recovered home blocks |
| RedoLog.RecoverySurvivesCrashes | kern/log.c:82-142 | after any number of crashing recoveries one complete recovery gives the home blocks of an uninterrupted one, and an empty log |
| RedoLog.AtCommitPoint | kern/log.c:208-238 | right after the header write, recovery replays exactly the group, and what commit still has to write is exactly what recovery would write |
| RedoLog.CommitAtomic | kern/log.c:224-238 | after k of commit's 2n+2 block writes recovery yields all old home blocks if k <= n and all new ones if k > n: the switch is the first header write |
| RedoLog.CommitComplete | kern/log.c:224-238 | a commit that runs to its end leaves the new home blocks and an empty log |
| BufferCache.LoadKeepsViews | kern/bio.c:57-104 | handing out a buffer for a block keeps one buffer per block, the logical contents of every block and the set of pinned blocks, and the buffer holds the latest logical contents |
| BufferCache.FreshLoad | kern/bio.c:57-104 | a buffer handed out for a block that is not pinned holds what the disk holds |
| BufferCache.PinnedLoad | kern/bio.c:57-104 | a pinned block is handed out in the buffer that pins it, never reread from disk |
| BufferCache.LoadFetches | kern/bio.c:95-104 | a buffer after bread holds the latest logical contents, and those of the disk unless it is pinned |
| BufferCache.PinCount | kern/bio.c:82-85 | as many blocks are pinned as buffers, so that all buffers are pinned exactly if NBUF blocks are |
| BufferCache.SecondBread | kern/log.c:208-222 | with one block taken, another can still be had if it is pinned or nothing is, and nobody else is slept on |
| BufferCache.MovedKeeps | kern/bio.c:118-134 | moving a buffer to the end keeps every buffer in the list once |
| BufferCache.Cache.Bget | kern/bio.c:57-93 | the first buffer of the list that has the block is returned, or slept on if it is busy; without one the last buffer of the list that is neither busy nor dirty is recycled; panics if and only if no buffer has the block and every one is busy or dirty |
| BufferCache.Cache.Devrw | kern/dev.c:91-142 | a dirty buffer is written to its block and becomes clean; a clean one is filled from the disk; nothing else changes |
| BufferCache.Cache.Bread | kern/bio.c:95-104 | returns the latest logical contents of the block, whatever was evicted, without changing any logical contents or pin; sleeps if and only if somebody holds the block, panics if and only if it is not cached and every buffer is busy or dirty |
| BufferCache.Cache.Bwrite | kern/bio.c:106-116 | exactly one disk write, of the held block; logical contents stay, the block is no longer pinned |
| BufferCache.Cache.Modify | kern/bio.c:57-134 | a holder's change to the data changes the logical contents of that block only |
| BufferCache.Cache.Brelse | kern/bio.c:118-134 | releasing a buffer that was logged or written back changes no logical contents and moves it to the end of the list |
| BufferCache.Cache.BreadBoth | kern/log.c:84-96 | two buffers locked one after the other both hold the latest contents, with everything else unchanged; sleeps only if somebody held one of the blocks, panics only with every buffer busy or dirty, and succeeds whenever nobody holds a buffer, one is unpinned and the second block is pinned or nothing is |
| BufferCache.Cache.CopyBlock | kern/log.c:208-222 | copying a block through the cache writes the source's logical contents to the destination, unpins the destination only and touches no held buffer; stops under the same conditions |
| BufferCache.Cache.Transfer | kern/log.c:217-220 | of two held blocks the second becomes a copy of the first, on disk too, and both are released |
| BufferCache.GoAround | kern/bio.c:57-134 | one round of reading block (0,0) takes the front of the list and moves it to the end |
| BufferCache.StaleBread | kern/bio.c:38-134 | a run from binit on that ends in a bread of (0,0) whose data differ from the disk though nothing is pinned |
| Log.BreadKeepsPins | kern/log.c:250-273 | every block listed in the uncommitted log stays cached, valid and dirty through any bread |
| Log.GroupAtomic | kern/log.c:224-238 | for every group and every prefix of the writes that commit issues for it, recovery finds none or all of the group |
| Log.CommitKeepsViews | kern/log.c:224-238 | committing rewrites home blocks with what they already hold logically, so no reader sees a change |
| Log.MarkPins | kern/log.c:250-273 | recording a held block keeps the list free of duplicates and equal to the set of dirty buffers |
| Log.PinsLeave | kern/log.c:208-222 | a log shorter than NBUF leaves a buffer to read into; one of NBUF blocks leaves none, and no log block is cached then |
| Log.LogSetSize | kern/log.c:250-273 | a list without duplicates pins as many blocks as it is long |
| Log.CommitSplits | kern/log.c:224-238 | from its first header write on, a commit issues the writes of a recovery |
| Log.NewHomeBlocks | kern/log.c:224-238 | the home blocks after a commit: every block of the group has its logical contents on disk, every other home block is as before |
| Log.InstallRoomy | kern/log.c:82-96 | at every round of the install loop there is room for both blocks |
| Log.IndexOf | kern/log.c:264-267 | the absorption search finds the block's index in the list, or the list's length exactly when it is absent |
| Log.ReadHead | kern/log.c:99-111 | the copy loop yields the block list of the header block |
| Log.FillHead | kern/log.c:118-131 | the copy loop writes count and block numbers into the header and leaves the rest of the block |
| Log.Log.LogWrite | kern/log.c:250-273 | for a buffer of the log's device it panics exactly when the list is full or no operation is open; otherwise it pins the buffer and appends the block to the list unless it is listed already; other buffers are left alone; logical contents stay |
| Log.Log.Store | kern/log.c:240-249 | changing, logging and releasing a held block makes the data its logical contents, lists it and pins it, if and only if the list has room and an operation is open |
| Log.Log.Update | kern/log.c:240-249 | the documented use of log_write: the data become the logical contents of the block, listed once, nothing reaches the disk and no held buffer is touched; with no buffer held it succeeds if and only if the list has room and an operation is open |
| Log.Log.WriteLogBlock | kern/log.c:208-222 | one round of the loop issues exactly the next log block write; with no buffer held it does so if the log is shorter than NBUF and panics otherwise; it sleeps only on a held block of the group and panics only with every buffer busy or dirty |
| Log.Log.WriteLog | kern/log.c:208-222 | issues a prefix of the log block writes, all of them if it is not stopped, each with the cached contents; stops as one round does, and with a full log and no buffer held before its first write |
| Log.Log.WriteHead | kern/log.c:118-131 | issues the one header write for the in-memory list; sleeps if and only if the header is held, panics only with every buffer busy or dirty, succeeds whenever nobody holds a buffer and one is unpinned |
| Log.Log.InstallBlock | kern/log.c:88-95 | one round of the loop issues exactly the next install and unpins that block |
| Log.Log.InstallTrans | kern/log.c:82-96 | issues a prefix of the installs in list order and unpins exactly the installed blocks; sleeps only on a held block of the group, panics only with every buffer busy or dirty, finishes whenever nobody holds a buffer, one is unpinned and the pins are the group's or none |
| Log.Log.WriteGroup | kern/log.c:224-232 | log blocks first, then the header: on completion the disk is at the commit point; with no buffer held it completes if and only if the log is shorter than NBUF |
| Log.Log.InstallAndClear | kern/log.c:82-142 | issues a prefix of exactly the writes that recovery performs on that disk; on completion the list is empty; stops as the install loop does |
| Log.Log.CommitGroup | kern/log.c:224-238 | the block writes issued are a prefix of commit's list, all of it if it is not stopped, and then nothing is pinned; with no buffer held it is not stopped if the log is shorter than NBUF, and panics before its first write otherwise |
| Log.Log.Commit | kern/log.c:224-238 | whatever stops it and wherever, recovery finds none or all of the group; a completed commit leaves an empty log, no pinned buffer, every logical home block unchanged, on disk the logical contents of every block of the group, and every other home block as it was; it sleeps only on a held block of the group and panics only with every buffer busy or dirty; with no buffer held it completes if and only if the log is shorter than NBUF |
| Log.Log.LoadHead | kern/log.c:98-111 | reads the list of the header on disk; with no buffer held it always succeeds |
| Log.Log.RecoverFromLog | kern/log.c:133-142 | issues a prefix of the recovery writes; every stop leaves the same recovered home blocks, completion installs them and empties the log; sleeps only on a held block it needs, and completes whenever no buffer is held |
| Log.Log.BeginOp | kern/log.c:145-167 | waits exactly while a commit runs or one more reservation of MAXOPBLOCKS could overflow the log, else counts the operation |
| Log.Log.EndOp | kern/log.c:173-206 | only the last open operation commits, all or nothing and stopped exactly as commit is; it panics if a commit is already running; the disk is untouched otherwise |
| Log.FillLog | kern/log.c:145-238 | three operations of 42 blocks each, from an empty log on, end in a panic of the commit with nothing written |
| LogProtocol.StepKeeps | kern/log.c:145-273 | every step of any process, crash or recovery step keeps the protocol invariant |
| LogProtocol.RunInv | kern/log.c:145-273 | the invariant holds in every state of every run, over all interleavings, crashes and reboots |
| LogProtocol.StepView | kern/log.c:240-273 | a step without a crash changes the logical contents by exactly the log_write calls it ends, told from the places of the processes alone |
| LogProtocol.ViewIsWritten | kern/log.c:240-273 | over any stretch of any run without a crash the logical contents become those before it with every log_write of the stretch applied in order, absorbed or not |
| LogProtocol.HeaderStep | kern/log.c:224-238 | a committing process gets past the header of its group only by the step that writes it, when all log blocks are written |
| LogProtocol.RecoversWritten | kern/log.c:82-273 | in every state of every run the disk recovers to the first home blocks with exactly the log_write calls of the committed groups applied in order, and readers see that with the calls since; a crash loses exactly the latter |
| LogProtocol.CrashSafety | kern/log.c:118-142 | in every state of every run the disk recovers to the contents some earlier quiescent state of that run had: whole groups, never a part of one |
| LogProtocol.HeaderIsCommitPoint | kern/log.c:224-238 | in every run, a step after which the disk recovers to something else is the committer's first header write, made while no operation is open; what is recovered is then the current logical contents |
| LogProtocol.OnlyCommitMovesDurable | kern/log.c:224-238 | no other kind of step changes what the disk recovers to |
| LogProtocol.HeaderMakesDurable | kern/log.c:224-238 | every first header write of a commit makes the logical contents what the disk recovers to |
| LogProtocol.CommitEndsDurable | kern/log.c:173-206 | when a commit ends, the disk recovers to everything logged so far and the log is empty and open again |
| LogProtocol.RebootResumes | kern/log.c:66-80 | after a crash and any number of crashing recoveries the system resumes with exactly what the disk recovered to and an empty log |
| LogProtocol.LogProtocolSafe | kern/log.c:145-273 | in every reachable running state: committing implies no open operation; an idle log is empty; the list has no duplicates and fits; an operation that has added fewer than MAXOPBLOCKS blocks meets no panic in log_write |
| LogProtocol.CommitGoesOn | kern/log.c:208-238 | in every reachable state a commit can take its next step if and only if its group leaves a buffer unpinned |
| LogProtocol.CommitStarts | kern/log.c:145-206 | while some operation has not used up its reservation the log is shorter than NBUF, so the commit of the last one to end goes through |
| LogProtocol.WakeupToCome | kern/log.c:145-206 | a process asleep in begin_op always has another process inside an operation or committing whose end will wake it |
| TimerWheel.StillPending | kern/timer.c:103-254 | in every legal history an armed timer that was neither disarmed nor fired is still pending with its expiry, and the clock has not passed it |
| TimerWheel.FiresOnTime | kern/timer.c:218-254 | a timer fires exactly at its expiry tick, or at the tick at which it was armed if the expiry was already past |
| TimerWheel.NeverMissed | kern/timer.c:218-254 | in every legal history a timer whose expiry the clock has passed was run or disarmed before |
| TimerWheel.QuietRun | kern/timer.c:218-254 | when callbacks do nothing, the reference scheduler has run exactly the timers due before the clock |
| TimerWheel.ModEffect | kern/timer.c:168-179 | in the reference queue, mod_timer is del_timer followed by filing, with both effects spelled out |
| TimerWheel.OpsInOrder | kern/timer.c:144-191 | in the reference queue, two sequences of calls have the effects and events of the first and then of the second |
| TimerWheel.OneOp | kern/timer.c:144-191 | and a sequence of one call has those of that call |
| TimerWheel.CascadeMovesDown | kern/timer.c:193-216 | a timer in the slot being cascaded is due within the stretch that just began, so it is re-filed into a finer vector, never into the slot being emptied |
| TimerWheel.PlacedByDistance | kern/timer.c:103-142 | the slot computed from the distance to the expiry is one from which the timer will be cascaded or run in time |
| TimerWheel.NothingDue | kern/timer.c:218-254 | when the current slot has been emptied, no pending timer anywhere in the wheel is due, and all are placed correctly for the next tick |
| TimerWheel.ChooseSlot | kern/timer.c:103-142 | files the timer if and only if it is at most 2^32-1 ticks ahead, in a slot from which it will run at its tick |
| TimerWheel.Wheel.InternalAddTimer | kern/timer.c:103-142 | adds exactly this timer to the pending map, or none if it is beyond the horizon; every other slot is unchanged |
| TimerWheel.Wheel.DetachTimer | kern/timer.c:159-166 | removes exactly this timer from its slot and from the pending map |
| TimerWheel.Wheel.FileTimer | kern/timer.c:103-142 | an unlinked timer becomes pending with its expiry, and the history grows by its arming, if and only if it is within the horizon |
| TimerWheel.Wheel.AddTimer | kern/timer.c:144-157 | refuses a timer that is linked already and then changes nothing; otherwise the pending map gains exactly that timer with that expiry and the history its arming, if and only if the expiry is at most 2^32-1 ticks ahead |
| TimerWheel.Wheel.DelTimer | kern/timer.c:181-191 | the pending map loses exactly that timer; the result tells whether it was linked; the history grows by a disarming exactly if it was pending |
| TimerWheel.Wheel.ModTimer | kern/timer.c:168-179 | the pending map has the timer with the new expiry if that is at most 2^32-1 ticks ahead and lacks it otherwise, with all others as before; the history grows by the disarming of a pending timer and by the arming of a filed one; the result tells whether it was linked |
| TimerWheel.Wheel.RefileFront | kern/timer.c:193-216 | re-filing one timer of the slot loses, duplicates and changes nothing and does not put it back |
| TimerWheel.Wheel.CascadeTimers | kern/timer.c:193-216 | the slot is emptied, the pending map is unchanged, and the index advances by one modulo 64 |
| TimerWheel.Wheel.CascadeAll | kern/timer.c:218-254 | all vectors whose stretch begins at this tick are cascaded, with the pending map unchanged |
| TimerWheel.Wheel.FireFront | kern/timer.c:218-254 | the timer that is run is pending and due at the current tick, and is detached first |
| TimerWheel.Wheel.RunOps | kern/timer.c:144-191 | a sequence of calls of add_timer, mod_timer and del_timer has the effects and events of the calls one after the other |
| TimerWheel.Wheel.RunFront | kern/timer.c:232-243 | one round takes one timer that is pending and due out of the pending map, records that it fired, and then does exactly what its callback does |
| TimerWheel.Wheel.RunSlot | kern/timer.c:218-254 | runs due timers and their callbacks, as the reference scheduler does, until the current slot is empty; the history grows by exactly these events |
| TimerWheel.Wheel.EndTick | kern/timer.c:218-254 | the tick ends with every pending timer due later; the history grows by the tick |
| TimerWheel.Wheel.RunTick | kern/timer.c:218-254 | one tick: cascades change nothing, then due timers are run until none is left, then the clock advances |
| TimerWheel.Wheel.RunTimerList | kern/timer.c:218-254 | for every number of ticks and whatever callbacks do, the wheel does what a scheduler on a plain queue may do: at each tick due timers run until none is left, each followed by its callback, and the history grows by exactly these events; with idle callbacks exactly the timers with expiry up to now have run |
| BlockTree.MarkOnly | kern/v6.c:236-261 | marking a block in the bitmap changes the mark of that block and of no other |
| BlockTree.MarkedBit | kern/v6.c:246-259 | the mark of a block is bit b % 8, from the low end, of byte b / 8 of its bitmap block |
| BlockTree.WordPut | kern/v6.c:486-541 | storing a pointer into an indirect block changes that entry only |
| BlockTree.WordBytes | kern/v6.c:486-541 | an entry of an indirect block is four bytes, the lowest first |
| BlockTree.PtrMapsTo | kern/v6.c:486-541 | the pointers of the tree are those of the layout on disk: the first NDIRECT numbers in the inode, the next NINDIRECT in the block its next number names, entry n % NINDIRECT of the block that entry n / NINDIRECT names for the rest |
| BlockTree.ContentBytes | kern/v6.c:586-611 | byte k of a file is byte k % BSIZE of the block to which those numbers lead for k / BSIZE |
| BlockTree.HangMovesOne | kern/v6.c:486-541 | hanging a fresh zeroed block into an empty pointer slot makes exactly that pointer appear |
| BlockTree.HangKeepsTree | kern/v6.c:486-541 | afterwards all non-zero pointers of all inodes are still pairwise distinct, in range and marked in the bitmap |
| BlockTree.HangExtends | kern/v6.c:486-541 | existing pointers and file data stay; the new block reads as zeros |
| BlockTree.LeafInjective | kern/v6.c:486-541 | different block indices of a file use different pointer slots |
| BlockTree.SpliceTwice | kern/v6.c:617-647 | writing two adjacent pieces is writing their concatenation |
| BlockTree.PatchKeepsTree | kern/v6.c:617-647 | copying bytes into a data block moves no pointer |
| BlockTree.PatchBytes | kern/v6.c:617-647 | copying bytes into the block of one file changes exactly those bytes, of that file only |
| BlockTree.WriteStep | kern/v6.c:617-647 | one round of the write loop splices its piece into the file and backs the file that far |
| BlockTree.WriteStepOther | kern/v6.c:617-647 | one round of the write loop changes no other file |
| V6.SizeUpdate | kern/v6.c:617-647 | after the loop, the size update turns the spliced bytes into the file's contents, exactly when off + n stays below 2^32 |
| V6.WrittenBytes | kern/v6.c:617-647 | after a write each byte is in the block to which the block numbers on disk lead |
| V6.ChunkFacts | kern/v6.c:627-637 | copying into the block that bmap returned completes one round: this file spliced, every other file and every existing block kept |
| V6.FindFree | kern/v6.c:236-261 | returns an unmarked block below the file system's size in the range it scans; panics if and only if all blocks in that range are marked |
| V6.FullTooEarly | kern/v6.c:246-259 | with at most as many inodes as a bitmap block has bits, the search gives up once the first bitmap block is full, whatever is free beyond |
| V6.ChunkSpan | kern/file.c:257-263 | every chunk of filewrite touches at most 4 blocks, at any offset |
| V6.ChunkSpanTight | kern/file.c:257-263 | 4 is reached |
| V6.FileSystem.Balloc | kern/v6.c:236-273 | marks and zeroes exactly the returned, previously unmarked block, with two log writes; panics, without any change, if and only if the scanned range is full |
| V6.FileSystem.Ensure | kern/v6.c:486-541 | a missing pointer gets a fresh zeroed block, an existing one is returned without any change; all else is only extended; at most 3 log writes; panics if and only if the pointer is missing and the scanned range is full |
| V6.FileSystem.Bmap | kern/v6.c:486-541 | returns the block of index bn, found by the block numbers of inode, indirect block and doubly indirect blocks; the same one when it exists already and never one of the metadata blocks; keeps the tree invariant and only adds zeroed blocks; at most 8 log writes; panics beyond MAXFILE and else only with the scanned range full |
| V6.FileSystem.BmapSingle | kern/v6.c:486-541 | the single indirect case of bmap; panics only with the scanned range full |
| V6.FileSystem.BmapDouble | kern/v6.c:486-541 | the double indirect case of bmap; panics only with the scanned range full |
| V6.FileSystem.Readi | kern/v6.c:586-611 | returns exactly the slice of the file's contents, cut at its end, each byte from the block to which the block numbers on disk lead; never allocates or changes anything; fails exactly if off is beyond the size or off + n overflows |
| V6.FileSystem.WriteChunk | kern/v6.c:617-647 | one round of the loop with its bmap call, as a splice of the file, within 9 log writes; panics only with the scanned range full, and never where the blocks exist |
| V6.FileSystem.WriteLoop | kern/v6.c:617-647 | all rounds: the file's bytes are the splice and no other file changes; panics only with the scanned range full, and never where the blocks exist |
| V6.FileSystem.Writei | kern/v6.c:617-647 | replaces exactly bytes [off, off+n) of the file and no other file's bytes, if and only if off + n < 2^32; fails, without any change, exactly on the three size conditions; panics only with the scanned range full and a block missing; at most 9 log writes per block plus one |
| V6.FileSystem.WrapToEmpty | kern/v6.c:617-647 | one byte written behind a file of 2^32 - 1 bytes succeeds and leaves the file empty |
| V6.FileSystem.WriteTransaction | kern/file.c:257-276 | each chunk is one transaction of at most 37 log writes, within the reservation of 42; panics only with the scanned range full |
| V6.FileSystem.Filewrite | kern/file.c:239-282 | the chunks written so far are exactly the prefix of the data at consecutive offsets; every transaction stays within 37 < MAXOPBLOCKS log writes; success exactly if all was written; panics only with the scanned range full |
| Kmalloc.FreedHeap | kern/kmalloc.c:25-45 | returning a block at its place, with either or both merges, keeps the ring address-ordered, disjoint, fully coalesced, apart from live blocks and within its pages, and conserves the units |
| Kmalloc.TakeWhole | kern/kmalloc.c:67-100 | unlinking a whole free block keeps all of that |
| Kmalloc.TakeTail | kern/kmalloc.c:67-100 | carving the tail off a free block keeps all of that |
| Kmalloc.PageReady | kern/kmalloc.c:51-65 | a new page of 256 units can be returned to the ring like a freed block |
| Kmalloc.Units | kern/kmalloc.c:77-77 | the units are enough for the bytes and a header, and one unit less would not be |
| Kmalloc.Allocator.Search | kern/kmalloc.c:31-33 | the search for the place of a freed block ends, at the unique place in address order, wherever freep points |
| Kmalloc.Allocator.Release | kern/kmalloc.c:25-45 | linking and merging keeps the heap invariant |
| Kmalloc.Allocator.Relink | kern/kmalloc.c:34-44 | the four cases of merging up and down yield exactly the specified ring and sizes |
| Kmalloc.Allocator.Kmfree | kern/kmalloc.c:25-45 | exactly the freed block is no longer live; all other live blocks keep place and size; free plus live units stay 256 per page |
| Kmalloc.Allocator.AddPage | kern/kmalloc.c:51-65 | the page's 256 units enter the ring |
| Kmalloc.Allocator.Morecore | kern/kmalloc.c:51-65 | takes one page and makes it available, or fails exactly if there is none |
| Kmalloc.Allocator.Carve | kern/kmalloc.c:67-100 | the block handed out has exactly the requested units and overlaps nothing |
| Kmalloc.Allocator.Probe | kern/kmalloc.c:67-100 | one round of the search: hand out a block, take a page only after a full turn over blocks that are all too small, or go on with fewer nodes left to visit |
| Kmalloc.Allocator.Allocate | kern/kmalloc.c:67-100 | the search ends; it returns nothing only if every free block is too small and no page is left; at most one page is taken if the request fits a page, and none while some free block is large enough |
| Kmalloc.Allocator.Kmalloc | kern/kmalloc.c:67-100 | panics exactly above 4096 bytes; else adds one live block of the right size and disturbs none; no page is taken while some free block is large enough; up to 4080 bytes at most one page is taken and NULL means kalloc failed |
| PageTable.LeafPokeTables | kern/vm.c:171-190 | writing a leaf entry moves no table of any address space |
| PageTable.LeafPokeEntry | kern/vm.c:171-190 | writing a leaf entry changes that entry of that address space and no other |
| PageTable.GrownTables | kern/vm.c:34-55 | hanging a zeroed frame into an empty entry makes exactly one new table appear, in one place |
| PageTable.GrownLeaves | kern/vm.c:34-55 | and changes no leaf entry of any address space |
| PageTable.GrowSpace | kern/vm.c:34-55 | an allocating step of the walk keeps the address spaces, their mappings and all data frames |
| PageTable.PokeSpace | kern/vm.c:171-190 | setting a leaf entry to a data frame changes the mapping of one page and nothing else |
| PageTable.UserEntry | inc/mmu.h:40-68 | the entry made of a frame and PTE_UDATA has that frame and, bit by bit, maps a page of normal shareable memory that the user may read and write |
| PageTable.HardwareEntry | kern/vm.c:34-55 | the leaf entry of the model is the one the processor finds by four 9-bit indices of the address, following bits 47 to 12 of each valid entry |
| PageTable.RootSpace | kern/vm.c:18-27 | a new zeroed root is an empty address space and disturbs no other |
| Vm.IndexIs | kern/vm.c:38-54 | the index extracted by shift and mask is the digit of the page number at that level |
| Vm.DistinctSlots | kern/vm.c:34-55 | distinct pages below 2^48, of one or two address spaces, reach distinct leaf slots |
| Vm.MissingEntry | kern/vm.c:34-55 | where a table on the way is missing, the page has no valid entry |
| Vm.MappedPages | kern/vm.c:171-190 | every page mapped so far has an entry of the right frame with the attributes of a user page, bit by bit |
| Vm.MappedBytes | kern/vm.c:171-190 | so the walk of the processor reaches the right frame from every address of the range, also from the first and last pages in part |
| Vm.Machine.Kalloc | kern/mm.c:129-143 | takes the first free frame, gives it one reference and counts down, or fails exactly if none is left |
| Vm.Machine.Descend | kern/vm.c:38-53 | one level of the walk keeps all mappings, data and tables; a table that was missing is created if asked to, empty, and the entry that leads to it is its address with the two bits of a table |
| Vm.Machine.PgdirWalk | kern/vm.c:34-55 | returns the leaf slot of the page; creating tables changes no mapping and no data, also when memory runs out half way; without alloc nothing changes at all |
| Vm.Machine.MapPage | kern/vm.c:178-187 | maps one page if its entry was invalid and memory sufficed; else no mapping changes |
| Vm.Machine.UvmMap | kern/vm.c:171-190 | maps a prefix of the requested pages, all of them exactly on success, to consecutive frames, with entries that let the user read and write; on success the processor's walk finds every byte of the range there; none of the pages was mapped before; every other entry of every address space and all data stay; failure means no memory or a mapped page; panics exactly for pa >= 2^48 |
| Fork.FindShared | kern/mmap.c:720-731 | tells whether the first region of the list that holds the address is MAP_SHARED |
| Fork.CopyStart | kern/vm.c:18-27 | the copy starts from an empty child with all other address spaces unchanged |
| Fork.ReadyShared | kern/vm.c:97-99 | a shared page takes the parent's frame with exactly one more reference |
| Fork.ReadyPrivate | kern/vm.c:100-108 | a private page takes a free frame that no other page has, with the parent's bytes |
| Fork.CopyMapped | kern/vm.c:109-116 | mapping the prepared frame completes one page of the child and keeps the pages copied before |
| Fork.NothingBelow | kern/vm.c:64-80 | skipping an invalid entry skips no page |
| Fork.VmInit | kern/vm.c:18-27 | a zeroed frame becomes a root, or nothing happens if none is left |
| Fork.CopyPage | kern/vm.c:80-117 | one page of the child, or failure only when memory has run out, with all other address spaces intact |
| Fork.CopyTable | kern/vm.c:64-120 | the nested loops copy every page below a table, in order, while the tables of the child grow in the same memory |
| Fork.UvmCopy | kern/vm.c:57-122 | on success the child maps exactly the parent's pages: those whose first region is MAP_SHARED to the parent's frame with its count raised once for each page, all others to fresh frames of their own with equal bytes; the parent and every other address space are untouched; failure means memory ran out; every page of the child again passes the assertion on its entry, so that it can be forked in turn |
| Fork.ForkedShares | kern/vm.c:93-108 | parent and child have a page in the same frame if and only if the first region that holds it is MAP_SHARED |
| Fork.SharersCount | kern/vm.c:97-99 | the references a frame gains are as many as the child's pages that share it |
| Fork.ForkedPages | kern/vm.c:84-112 | every page of the child is the user's to read and write, and an absent page has entry 0 |
| Fork.ForkedNormal | kern/vm.c:84-86 | the assertion that uvm_copy makes of a parent holds of every child |
| Fork.ForkTwice | kern/vm.c:57-122 | a child is forked in turn; that fails only when memory has run out |
| Fork.ForkedView | kern/vm.c:57-122 | after a fork parent and child both see at every page what the parent saw |
| Fork.ForkedApart | kern/vm.c:57-122 | the frame of a private page of the child is reached from no other page of any process, so writes to it stay private |
| DirRecords.ReachesAligned | inc/ext2.h:20-28 | every record of a tiled block starts at a multiple of 4 |
| DirRecords.RecBytes | inc/ext2.h:258-264 | a record byte by byte: inode, rec_len, name_len, file_type and name, lowest bytes first |
| DirRecords.ReachesOrdered | kern/ext2.c:566-600 | of two records of a block the earlier ends at or before the later |
| DirRecords.SplitAt | kern/ext2.c:566-600 | a tiled block falls into the records before and after any record that stepping by rec_len reaches |
| DirRecords.Inserted | kern/ext2.c:1816-1902 | one more binding of a new name adds exactly it to the map |
| DirRecords.Removed | kern/ext2.c:1952-1992 | one binding less removes exactly it from the map |
| Ext2Dir.FilledRec | kern/ext2.c:1878-1890 | writing name, length, inode and type makes exactly that record and leaves all bytes outside it |
| Ext2Dir.CutRec | kern/ext2.c:1872-1877 | cutting a record leaves its inode and name and makes room behind it |
| Ext2Dir.MergedRec | kern/ext2.c:1981-1986 | giving a record to the one before it leaves that one's inode and name |
| Ext2Dir.Replaced | kern/ext2.c:1816-1992 | changing the bytes between two record boundaries replaces those records, keeps all others and keeps the tiling |
| Ext2Dir.FillGains | kern/ext2.c:1859-1890 | reusing an unused record adds one binding to the block |
| Ext2Dir.CutGains | kern/ext2.c:1861-1890 | splitting a record adds one binding to the block and keeps the record's own |
| Ext2Dir.NewBlockHas | kern/ext2.c:1844-1851 | a new block holds one record over its whole length |
| Ext2Dir.MergeLoses | kern/ext2.c:1974-1986 | unlinking into the record before removes exactly one binding |
| Ext2Dir.KillLoses | kern/ext2.c:1986-1986 | unlinking the first record of a block removes exactly one binding |
| Ext2Dir.MergeRoom | kern/ext2.c:1981-1986 | a record given to the one before it leaves room there for one like it; the lengths add up |
| Ext2Dir.KillRoom | kern/ext2.c:1986-1986 | the first record of a block, marked unused, leaves room for one like it |
| Ext2Dir.DirGains | kern/ext2.c:1816-1902 | gaining a binding in one block adds exactly it to the directory's map |
| Ext2Dir.DirLoses | kern/ext2.c:1952-1992 | losing a binding in one block removes exactly it from the directory's map |
| Ext2Dir.FindSlot | kern/ext2.c:1843-1864 | finds the first record of the block with room, unused and long enough or long enough beyond its own name; none is found only if no record has room |
| Ext2Dir.LinkRecord | kern/ext2.c:1871-1890 | the block gains exactly the new binding and stays tiled |
| Ext2Dir.FindPrevious | kern/ext2.c:1971-1979 | the loop finds the record directly before, or none exactly for the first record |
| Ext2Dir.UnlinkRecord | kern/ext2.c:1965-1986 | the block loses exactly the binding of the record and stays tiled; unless it is the first, the record before it grows by its length; a record like it finds room again |
| Ext2Dir.Directory.DirLookup | kern/ext2.c:566-600 | finds a name exactly if the map binds it, with its inode, type and the offset of its record |
| Ext2Dir.Directory.Unlink | kern/ext2.c:1952-1992 | removes exactly the binding at that offset; all other names resolve as before; blocks stay tiled; the name finds room again |
| Ext2Dir.Directory.ScanBlock | kern/ext2.c:1921-1943 | nothing but . and .. in use up to the end of the block, or another name is bound |
| Ext2Dir.Directory.IsDirEmpty | kern/ext2.c:1904-1950 | true exactly if the map binds no name but .. and, to the directory itself, . |
| Ext2Dir.Directory.FindBlock | kern/ext2.c:1835-1867 | the first block with room is found, and a new block is asked for exactly if none has any |
| Ext2Dir.Directory.DirLink | kern/ext2.c:1816-1902 | refuses exactly the names that are bound; else adds exactly the binding of the name to inode and type, keeps the tiling and grows the directory, by one block, exactly if no record of it has room for the name; panics exactly for a type other than file or directory |
| SleepLock.ThoseAre | kern/proc.c:276-290 | the processes wakeup picks are exactly those of the queue whose channel matches, without duplicates |
| SleepLock.Wakeup1 | kern/proc.c:276-290 | one pass moves the matching sleepers to the run queue, in order, and leaves the others in order |
| SleepLock.WokenAre | kern/proc.c:276-299 | wakeup makes runnable exactly the processes asleep on that channel, whatever else hashes to the same queue |
| SleepLock.WokenQueues | kern/proc.c:276-299 | wakeup keeps every process in exactly the queue its state calls for |
| SleepLock.StepInv | kern/proc.c:185-299 | every step of any process or processor keeps the invariant |
| SleepLock.RunInv | kern/proc.c:185-299 | the invariant holds in every state of every interleaving, for any number of processes, locks and processors |
| SleepLock.SleepLockSafe | kern/sleeplock.c:14-45 | in every reachable state at most one process holds a sleep lock, the one in its pid field; if the lock and its spinlock are free nobody sleeps on it or is about to; no process is in two queues |
| SleepLock.CallStep | kern/sleeplock.c:14-34 | in the middle of a call, a step of any process leaves the caller in it, with the locks it must hold there, or returns with those it was to get |
| SleepLock.CallReturns | kern/sleeplock.c:14-45 | in every run, a call of acquiresleep that returns has the lock, with its pid in it; one of releasesleep has it no longer; these and yield leave the caller's other locks alone |
| SleepLock.SomeStep | kern/proc.c:185-299 | in every reachable state in which some process is in the middle of a call and not asleep, some call or processor can go on |
| SleepLock.QueueStep | kern/proc.c:185-299 | a step takes from the run queue at its front and adds at its end |
| SleepLock.RunsInOrder | kern/proc.c:185-299 | in every run the processes that became runnable, in order, are those that were run, in order, followed by the run queue |
| Pipe.Counters | kern/pipe.c:70-116 | the wrapped 32-bit counters tell full and empty exactly, and index the same ring slots as unwrapped ones |
| Pipe.Pipe.Fill | kern/pipe.c:70-116 | nwrite - nread modulo 2^32 is the number of buffered bytes, at most 512 |
| Pipe.Pipe.Put | kern/pipe.c:87-87 | appends one byte to the stream without overwriting an unread one |
| Pipe.Pipe.Get | kern/pipe.c:111-111 | takes the oldest unread byte |
| Pipe.Pipe.WriteOn | kern/pipe.c:70-92 | between two points where the lock is given up, exactly as many consecutive bytes are written as there are and fit; no writer sleeps beside room; all readers are woken unless the call fails; sleeping readers are forgotten if and only if more than the ring holds was to be written and the writer is killed or the read end closed |
| Pipe.Pipe.ReadOn | kern/pipe.c:94-116 | bytes read continue the stream in order; a read of positive length returns nothing only if the pipe is empty and the write end closed; it sleeps only on an empty open pipe; a read that returns wakes all writers; nobody is forgotten |
| Pipe.Pipe.Close | kern/pipe.c:51-68 | closing an end wakes the other side; the pipe is freed exactly when both ends are closed |
| Pipe.ForgetReader | kern/pipe.c:70-116 | on a new pipe: a reader falls asleep, a killed writer of 513 bytes gives up, and the reader still sleeps beside a full ring |
| Codec.TablesAgree | coreutils-8.32/src/basenc.c:594-697 | encoding and decoding tables are inverse to each other for every scheme |
| Codec.DecimalSymbols | coreutils-8.32/src/basenc.c:503-503 | the first ten symbols of base16 and z85 and the two of base2 are the decimal digits |
| Codec.Base16Symbols | coreutils-8.32/src/basenc.c:503-503 | the base16 alphabet |
| Codec.Z85Lower | coreutils-8.32/src/basenc.c:594-598 | z85 symbols 10 to 35 |
| Codec.Z85Upper | coreutils-8.32/src/basenc.c:594-598 | z85 symbols 36 to 61 |
| Codec.Z85Marks | coreutils-8.32/src/basenc.c:594-598 | z85 symbols 62 to 84 |
| Codec.Rfc4648 | coreutils-8.32/src/basenc.c:505-516 | the test vector foobar of section 10 of RFC 4648 |
| Codec.ZeroMq32 | coreutils-8.32/src/basenc.c:600-652 | the test vector HelloWorld of ZeroMQ specification 32 |
| Codec.MsbVector | coreutils-8.32/src/basenc.c:797-812 | 0x61 is 01100001 |
| Codec.LsbVector | coreutils-8.32/src/basenc.c:814-829 | 0x61 is 10000110 with the least significant bit first |
| Codec.NumberRound | coreutils-8.32/src/basenc.c:600-652 | digits taken by repeated division give the number back |
| Codec.DigitsRound | coreutils-8.32/src/basenc.c:662-697 | a digit sequence is the only one of its length with its value |
| Codec.GroupRound | coreutils-8.32/src/basenc.c:505-968 | decoding the encoding of a group returns its bytes, for all four schemes |
| Codec.GroupCanonical | coreutils-8.32/src/basenc.c:505-968 | a group that decodes is the encoding of its bytes |
| Codec.GroupFits | coreutils-8.32/src/basenc.c:744-764 | the only groups rejected are the z85 groups whose value needs more than 32 bits |
| Codec.FeedConcat | coreutils-8.32/src/basenc.c:528-929 | how a text is cut into chunks makes no difference to what the decoder writes, keeps and accepts |
| Codec.FeedStrip | coreutils-8.32/src/basenc.c:546-550 | newlines make no difference |
| Codec.FeedGroup | coreutils-8.32/src/basenc.c:528-929 | the symbols of a group, fed one by one, come out as its bytes |
| Codec.RoundTrip | coreutils-8.32/src/basenc.c:505-968 | any text that is the encoding but for newlines decodes to the data |
| Codec.FeedCanonical | coreutils-8.32/src/basenc.c:528-929 | at every point the text so far is the encoding of the output so far and the digits kept |
| Codec.Canonical | coreutils-8.32/src/basenc.c:528-929 | every accepted text is the encoding of what it decodes to, but for newlines |
| Basenc.Base16Encode | coreutils-8.32/src/basenc.c:505-516 | computes the base16 encoding |
| Basenc.MsbByte | coreutils-8.32/src/basenc.c:803-808 | shifting the bits out at the top gives the eight binary digits in order |
| Basenc.Base2MsbEncode | coreutils-8.32/src/basenc.c:797-812 | computes the base2 encoding, most significant bit first |
| Basenc.LsbByte | coreutils-8.32/src/basenc.c:820-825 | shifting the bits out at the bottom gives them in reverse order |
| Basenc.Base2LsbEncode | coreutils-8.32/src/basenc.c:814-829 | computes the base2 encoding, least significant bit first |
| Basenc.QuadSymbols | coreutils-8.32/src/basenc.c:628-649 | the digit loop writes the five radix-85 digits of the quad |
| Basenc.Z85Encode | coreutils-8.32/src/basenc.c:600-652 | computes the z85 encoding, and dies exactly if the length is no multiple of 4 |
| Basenc.WrapWrite | coreutils-8.32/src/basenc.c:935-968 | writes the text with a newline before every character that would exceed the wrap column, continuing the column across calls |
| Basenc.WrappedConcat | coreutils-8.32/src/basenc.c:935-968 | writing two texts one after the other is writing their concatenation |
| Basenc.WrappedStrip | coreutils-8.32/src/basenc.c:935-968 | wrapping only adds newlines |
| Basenc.LayoutLines | coreutils-8.32/src/basenc.c:935-1013 | the wrapped text is lines of exactly the wrap column's length and one with the rest, each ended by a newline |
| Basenc.DoEncode | coreutils-8.32/src/basenc.c:970-1013 | for input of any length the output is the wrapped encoding of the whole, independent of the block size; it dies exactly if z85 input does not fill its quads |
| Basenc.WrappedRoundTrip | coreutils-8.32/src/basenc.c:505-968 | decoding the wrapped encoding returns the data, for every wrap column |
| Basenc.Context.Char16 | coreutils-8.32/src/basenc.c:552-572 | a nibble is kept or completes an octet, as one step of the specified decoder |
| Basenc.Context.CharLsb | coreutils-8.32/src/basenc.c:864-879 | a bit is put at the next higher place, as one step of the specified decoder |
| Basenc.Context.CharMsb | coreutils-8.32/src/basenc.c:908-925 | a bit is put at the next lower place, as one step of the specified decoder |
| Basenc.Context.Char85 | coreutils-8.32/src/basenc.c:730-777 | five symbols make four bytes unless they overflow, as one step of the specified decoder |
| Basenc.Group85 | coreutils-8.32/src/basenc.c:744-764 | the overflow test on the high digit and the low value is exact |
| Basenc.Context.DecodeCtx | coreutils-8.32/src/basenc.c:528-929 | one call decodes its chunk from the digits kept so far; the flush call accepts exactly if none are kept |
| Basenc.WantedDigits | coreutils-8.32/src/basenc.c:1045-1045 | the filter keeps the digits of the scheme and, besides, = or for z85 NUL |
| Basenc.DropGarbage | coreutils-8.32/src/basenc.c:1041-1050 | the loop that closes gaps in the buffer leaves exactly the characters to keep, in order |
| Basenc.FillBlock | coreutils-8.32/src/basenc.c:1034-1057 | filtering read by read is filtering the whole |
| Basenc.IgnoreGarbage | coreutils-8.32/src/basenc.c:1041-1050 | only the digits of the text count, as the option promises, if and only if no = or, for z85, NUL is in it or its digits alone are no encoding |
| Basenc.GarbageKept | coreutils-8.32/src/basenc.c:1041-1050 | an encoding with one such character appended is refused though its digits decode |
| Basenc.DoDecode | coreutils-8.32/src/basenc.c:1015-1084 | for every split into blocks and reads, with or without the option to ignore garbage: succeeds exactly if what the filter leaves of the whole input is a valid encoding and then writes the decoded data; on failure it has written what precedes the error |
| Rtc.YearsClosed | kern/rtc.c:13-13 | days to a year counted year by year, forward or back from 1970, equal the closed form with LEAPS_THRU_END_OF |
| Rtc.LeapYears | kern/rtc.c:15-18 | the years 1900, 2000, 2023, 2024, 2100 and 2400 |
| Rtc.FourCenturies | kern/rtc.c:13-18 | any 400 years have 146097 days and 97 leap days |
| Rtc.KnownSeconds | kern/rtc.c:40-57 | the seconds of four known dates, from the Epoch to the last of a signed 32-bit time |
| Rtc.Shifted | kern/rtc.c:46-53 | the formula with the year starting in March counts the days to every month of every year from 1 on |
| Rtc.TmToTime | kern/rtc.c:40-57 | equals the seconds counted day by day in the Gregorian calendar, before and after 1970, if and only if the days of the years fit an unsigned int |
| Rtc.SplitYear | kern/rtc.c:72-79 | the year and the day in it are right if and only if the one-year correction makes up for the leap days ignored |
| Rtc.SplitMonth | kern/rtc.c:83-90 | the month loop finds the month and the day in it |
| Rtc.TimeToTm | kern/rtc.c:59-100 | yields a date and time of day if and only if the days times 86400 fit an unsigned int, and then exactly those of that second; the day of the week and of the year with them |
| Rtc.EstimateFine | kern/rtc.c:72-79 | up to the last day that can be converted the year is off by one at most, so the correction suffices |
| Rtc.Until2100 | kern/rtc.c:25-38 | the seconds of 1970 through 2099 are exactly those of dates that rtc_valid_tm accepts, and all of them can be converted |
| Rtc.OneDate | kern/rtc.c:40-100 | a second belongs to one date only, so the two conversions are inverse both ways |

## Left out

- Device drivers, interrupts, boot code and the system call layer: hardware access and argument plumbing.
- The order of timers due at the same tick.
- Truncation of v6 files, v6 directories and inode allocation.
- ext2 block and inode allocation, and ext2 file data.
- Fork.UvmCopy: the clean-up after running out of memory (`vm_free`) is not modelled, a failed copy ends before it; region bounds do not wrap around at 2^64.
- Ext2Dir.Directory.DirLink: names of 1 to 255 bytes and inode numbers other than 0; the directory size is not bounded by 32 bits.
- Vm.Machine.UvmMap: address ranges that end above 2^48 wrap around in the walk and are excluded; so are frames that serve as page tables or are free.
- `sleep` with `ptable.lock` itself as the lock, as `wait4` uses it, and wakeups by signals.
- RedoLog.CommitAtomic: a single block write is atomic; torn writes are not modelled.
- base32 and base64 of basenc.c, and the other coreutils.
- Rtc.TmToTime: months 0 to 11 and days below 2^31; the year 0 is excluded.
- Rtc.TimeToTm: beyond the last convertible day the model keeps the mathematical hour; the signed overflow that follows there is not modelled.
- Log.Log.LogWrite: one log; the buffers of a second device with a log are not logged here, and the log's own blocks are never passed.
- Log.Log.Commit: other processes hold the same buffers throughout the call; a sleeping commit is not resumed.
