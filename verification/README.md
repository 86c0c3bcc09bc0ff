# Verified model of xv6's storage, memory, process and user-space core, and of the machine under it

The repository holds an x86 emulator written in Go and the xv6 kernel and user programs that it runs.
This project models their most intricate parts in Dafny 4.11 and proves what they promise. Code that works
by changing things is modelled by classes whose methods run the same loops over the same fields; every such
method is proved against a specification function or invariant. Protocols between processes are
state machines, and the claims about them hold for every interleaving. `dafny verify dfyconfig.toml` checks
the whole project.

| file | models |
|---|---|
| `LittleEndian.dfy` | bytes and 32-bit words |
| `RedoLog.dfy` | the on-disk redo log: the block writes of commit and recovery, and a crash between any two of them |
| `BufferCache.dfy` | the buffer cache over the synchronous disk: LRU ring, reference counts, sleep locks, pinning |
| `LogLayer.dfy` | log.c run on that cache while other processes read through it: its block writes are those of `RedoLog` |
| `GroupCommit.dfy` | begin_op, log_write and end_op of any number of processes, interleaved |
| `Operations.dfy` | those runs joined to the disk: what a crash keeps of the operations of all processes |
| `Journal.dfy` | the methods of `LogLayer` with the updates of operations beside them: what log and cache hold is what `Operations` says |
| `FileSystem.dfy` | free map, inode blocks, block map, readi, writei and itrunc on the block map that the cache refines |
| `FileRecovery.dfy` | filewrite across crashes: files as the blocks of the recovered disk hold them |
| `Heap.dfy` | malloc and free |
| `Paging.dfy`, `Vm.dfy` | page allocator, page tables, the ledger of page owners, and the emulator's page walker |
| `Process.dfy` | the process table under ptable.lock |
| `SleepLock.dfy` | sleep locks, with sleep and wakeup step by step |
| `ShellGrammar.dfy`, `Shell.dfy` | the shell's parser as functions on strings, and on the line buffer |
| `ShellSyntax.dfy` | the language that the shell's users type, independent of the parser |
| `Grep.dfy` | the regular expression matcher |
| `Pipe.dfy` | the pipe's ring buffer and its 32-bit counters |
| `BootLoader.dfy` | readseg through disk ports, rep prefix and insd |
| `ModRM.dfy` | 32-bit memory operands |

## How it fits together

* A block write is one sector and therefore atomic. `RedoLog` works with sequences of such writes.
  `LogLayer.Log.Commit` proves that log.c, running on the buffer cache, issues exactly the sequence for which
  `RedoLog.CrashAtomicity` holds; `LogLayer.Log.CommitSurvivesCrashes` puts the two together, and `LogLayer.Boot`
  closes the circle: a new cache and log over whatever disk the crash left come up with the promised contents.
* Between any two sections of commit other processes may take any steps of bread and brelse
  (`BufferCache.Bcache.Others`). They may keep commit waiting or leave it without a buffer; the writes issued until
  then are still a leading part of the commit's writes, so that case is one more crash.
* `Operations.OperationAtomicity` is about system calls: it joins the interleavings of `GroupCommit` to the writes of
  `RedoLog` and says that after any run, crash and recovery every operation is there as a whole or not at all. It needs
  that no commit writes behind the log, which holds of the kernel's sizes (`GroupCommit.CommitFitsExactly`): there a
  commit with more blocks than the log takes panics before its first write, and that is one more crash.
* `Journal.GroupLog` carries the same groups of updates along the methods of `LogLayer`: `Record` and `Commit` move log,
  cache and disk exactly as `Operations` moves its groups.
* `FileRecovery.FilewriteChunk` goes from bytes to crashes. Every block that writei changes has been handed to
  `log_write` (`FileSystem.AllLogged`), so the transaction is the whole change (`FileRecovery.OpTxIsChange`), and a file read
  from the recovered disk, inode block and all, is the old one or the new one. `FileRecovery.Filewrite` strings the chunks
  together: a crash anywhere leaves a whole number of chunks.
* `Operations.Durability` reads off the steps of a run which log_writes are safe at any moment, and the recovered disk is
  the old one with exactly these in it.
* `FileRecovery.FileBytes` and `RedoLog.HeaderBytes` say byte by byte where on the disk size, block numbers, contents and
  log header are, so the layout is mkfs's and not merely one that reads back what it wrote.
* `ShellSyntax` defines well-formed lines with their white space and the command each stands for;
  `ShellSyntax.ParserIsGrammar` proves that the parser accepts exactly these and gives exactly that command.
* The state machines come with progress beside safety: who waits in begin_op or for a sleep lock gets there by a run of
  the processes that are there already (`GroupCommit.WaiterGetsThrough`, `SleepLock.CanHold`).
* A method of `BufferCache`, `Pipe` or `Process` is what one process does between taking a spin lock and
  giving it up, so whatever every method keeps holds in every interleaving.
* `FileSystem`, `Heap` and `Vm` carry a ghost map from every block, heap unit or page to its one owner. That every
  operation keeps the map consistent is what makes "reached once", "tiles the arena" and "exactly one owner" hold.
* A panic is an outcome of its own, and each contract says exactly when it happens.

## Where the code does not do what one would expect

Each of these is proved, with the exact condition.

* `commit` needs a buffer for the log block while every logged block is pinned. With LOGSIZE = NBUF = 30 it
  panics whenever 30 blocks are logged, before its first write, mkfs's log of 30 blocks included (`LogLayer.Log.Commit`;
  with no reader in the way it returns if and only if n < NBUF).
* `log_write` tests for a full log before it looks whether the block is already listed, and stops one block
  early, while mkfs makes the log exactly LOGSIZE blocks long. Operations are never stopped by a panic of log_write,
  end_op or commit if and only if the log has more than LOGSIZE blocks, the cache has more than LOGSIZE buffers and every
  operation calls `log_write` at most MAXOPBLOCKS times (`GroupCommit.PanicFreeExactly`, with a panicking run for every
  other case in `GroupCommit.CanPanic`). The kernel has NBUF = LOGSIZE, so no log size and no discipline of the
  operations is enough (`GroupCommit.NeverPanicFree`).
* The test of `log_write` is made before log.lock is taken, so two writers may pass it for one free place. The list
  fits the log in every run if and only if the log has more than LOGSIZE blocks or nothing but its header
  (`GroupCommit.FitsExactly`; `GroupCommit.Overrun` gives a run for every other size, mkfs's LOGSIZE included). With a
  list that does not fit and a buffer to be had, `write_log` overwrites the first block behind the log
  (`LogLayer.Log.WriteLog`). No run gets that far if and only if the log has more than LOGSIZE blocks, or at most its
  header, or at least as many blocks as there are buffers (`GroupCommit.CommitFitsExactly`). The kernel has as many
  buffers as mkfs's log has blocks, so in it the panic for want of a buffer comes first.
* filewrite's chunk of 1536 bytes keeps an operation within MAXOPBLOCKS distinct blocks (`FileSystem.FileSystem.Writei`,
  `FileSystem.WithinBudget`) but calls `log_write` up to 16 times (`FileSystem.CallsBound`, `FileSystem.ChunkIsNotFrugal`), so
  ordinary writes break the third condition for freedom from panics.
* `kill` finds pid 0 in unused slots, and stale pids in slots that allocproc gave back, and allocproc does not clear the
  mark: a child can be born killed (`Process.BornKilled`). Unused slots stay unmarked throughout a run if and only if no kill
  hits one and no killed embryo is given back (`Process.UnmarkedExactly`).
* `malloc` rounds in 32 bits: the block is large enough if and only if nbytes + 7 does not wrap
  (`Heap.EnoughBytes`). `morecore` hands `sbrk` a product that is read as signed: it asks for what it needs if and
  only if fewer than 2^28 units are wanted (`Heap.SbrkArgIsRight`), and `Heap.Allocator.Malloc` says for every call which
  of block, null pointer or undefined behaviour comes out.
* `copyuvm` drops a page when `mappages` fails. With f free pages and n pages to copy it loses one if and only if
  f - 66 is a multiple k * 1025 with 1024 * k < n (`Vm.Machine.CopyUvm`, `Vm.Loses`). In every other failure all
  pages are back where they were. It panics if and only if a page is missing and there was memory for all before it.
* `allocuvm` fails if and only if fewer pages are free than the range and the tables it lacks need, counted up to the
  first page that is mapped already, and panics there otherwise (`Vm.Machine.AllocUvm`).
* The `>>` redirection parses to the same command as `>`: any line parses as the line with `>` for every `>>`
  (`ShellGrammar.AppendIsWrite`).
* An 8-bit displacement of -128 is added instead of subtracted: the emulator's address is the effective address
  if and only if that case does not arise, and is off by 256 if it does (`ModRM.AddressIsRight`).
* The disk ports hold 29 bits of a sector number: `readsect` reads sector number modulo 2^29
  (`BootLoader.Machine.Readsect`).

## Model

| member | source | states |
|---|---|---|
| RedoLog.HeaderRoundTrip | xv6-public/log.c:91-118 | a header block that write_head wrote has the right count and reads back as the list of blocks |
| RedoLog.HeaderBytes | xv6-public/log.c:37-40 | a header lists these blocks exactly if its first four bytes hold their number and the following fours the block numbers, lowest byte first |
| RedoLog.HeaderFrame | xv6-public/log.c:107-118 | write_head changes no byte behind the list |
| RedoLog.TransactionEffect | xv6-public/log.c:75-87 | installing a transaction gives every listed block its logged contents and changes no other |
| RedoLog.CrashInCommit | xv6-public/log.c:182-207 | after any number of commit's writes the log is either empty over the old blocks, or holds the whole transaction, or is empty over the new blocks, and which of these is decided by the header write |
| RedoLog.CrashInRecovery | xv6-public/log.c:121-127 | recovery stopped anywhere leaves the transaction recoverable; completed, it leaves all new blocks and an empty header |
| RedoLog.CrashAtomicity | xv6-public/log.c:74-127 | commit stopped after any number of block writes, then any number of recoveries each stopped anywhere: the next boot finds a header read_head can read, and a recovery that completes leaves the blocks outside the log all old or all new and the count 0 |
| RedoLog.CrashInHistory | xv6-public/log.c:182-207 | the same for any sequence of commits and a crash anywhere in it: what survives is exactly the transactions whose header had been written |
| BufferCache.Links | xv6-public/bio.c:34-36 | in the ring, following next and prev from the i-th buffer gives its neighbours |
| BufferCache.Unlink | xv6-public/bio.c:135-136 | unlinking a buffer leaves a ring of the others in the same order |
| BufferCache.PushFront | xv6-public/bio.c:137-140 | linking a buffer behind the head gives a ring with it in front |
| BufferCache.Replace | xv6-public/bio.c:84-88 | a buffer may take on new fields without breaking uniqueness, counts or agreement with the last released contents |
| BufferCache.Publish | xv6-public/log.c:236-237 | when contents are written through or pinned, they become what the cache will give out |
| BufferCache.UnreadIsBacked | xv6-public/memide.c:39-60 | for a block that no buffer has read, the disk holds the last released contents |
| BufferCache.Bcache.constructor | xv6-public/bio.c:40-57 | binit: a ring of NBUF unused buffers over a disk |
| BufferCache.Bcache.LinkFront | xv6-public/bio.c:50-55 | one round of binit's loop puts the buffer in front of the ring |
| BufferCache.Bcache.Find | xv6-public/bio.c:70-78 | bget's first scan finds the buffer of a block if and only if there is one |
| BufferCache.Bcache.FindUnused | xv6-public/bio.c:80-84 | bget's second scan finds a buffer that is neither referenced nor dirty if and only if there is one, and it is the least recently used |
| BufferCache.Bcache.Bget | xv6-public/bio.c:63-95 | a block never gets a second buffer, recycling takes no referenced or dirty buffer, and "no buffers" happens exactly when none can be had |
| BufferCache.Bcache.AcquireSleep | xv6-public/bio.c:75-76 | only an unlocked buffer is locked, by a process that already holds a reference |
| BufferCache.Bcache.Iderw | xv6-public/memide.c:39-60 | which of its panics iderw hits, and otherwise the exact effect on disk and buffer |
| BufferCache.Bcache.Fill | xv6-public/bio.c:104-107 | an unread buffer gets the last released contents of its block |
| BufferCache.Bcache.Bread | xv6-public/bio.c:99-109 | bread gives a locked buffer with the last contents released after bwrite or log_write, or sleeps exactly if somebody has the block's buffer locked, or runs out of buffers, or is asked for no block of the disk, each exactly when |
| BufferCache.Bcache.Modify | xv6-public/log.c:190 | a locked buffer's data may be overwritten without touching what the cache promises |
| BufferCache.Bcache.Bwrite | xv6-public/bio.c:113-119 | the block goes to disk and becomes the released contents, whether the buffer was read before or not; panics exactly if the buffer is not locked or names no block of the disk |
| BufferCache.Bcache.Pin | xv6-public/log.c:236 | a dirty buffer's contents become the released contents without a disk write |
| BufferCache.Bcache.ReleaseSleep | xv6-public/bio.c:129 | unlocking keeps the reference, and keeps the cache coherent if and only if the contents were written or logged |
| BufferCache.Bcache.DropRef | xv6-public/bio.c:131-143 | the last reference moves the buffer to the front of the ring, any other leaves the ring alone |
| BufferCache.Bcache.MoveToFront | xv6-public/bio.c:133-141 | the pointer updates of brelse reorder the ring as described and lose no buffer |
| BufferCache.Bcache.Brelse | xv6-public/bio.c:124-144 | lock and reference are given up together; panics exactly if the buffer is not locked; the cache stays coherent if and only if the contents were written or logged |
| BufferCache.OneStep | xv6-public/bio.c:63-144 | what another process does to one buffer leaves our locks, our reference, the pins and the published contents alone |
| BufferCache.OwnWrite | xv6-public/bio.c:113-119 | writing out a held buffer publishes it, drops its pin and leaves everybody else's contents published |
| BufferCache.Bcache.OtherStep | xv6-public/bio.c:63-144 | any section of bread or brelse by any other process keeps the cache coherent and disturbs none of our locks, references, pins or the disk; what it does to the one buffer it is about, step by step |
| BufferCache.Bcache.Others | xv6-public/bio.c:63-144 | so does any sequence of such sections |
| BufferCache.Bcache.Await | xv6-public/sleeplock.c:22-31 | acquiresleep while others run: when it gets the lock the buffer still holds the block asked for, with released contents |
| BufferCache.Bcache.Lock | xv6-public/bio.c:63-95 | bget while others run: a locked buffer of the block, a wait that does not end, or no buffer exactly when none can be had |
| BufferCache.Bcache.Fetch | xv6-public/bio.c:99-109 | bread while others run: the block's last released contents in a buffer only we hold; in a quiet cache it never waits |
| BufferCache.Bcache.WriteOut | xv6-public/bio.c:113-119 | bwrite while others run: one block write, contents published, the other held buffers as before |
| BufferCache.Bcache.Release | xv6-public/bio.c:124-144 | brelse while others run: the cache stays coherent and quiet if it was |
| LogLayer.AbsorbLists | xv6-public/log.c:229-235 | after absorption the list has exactly the old blocks and the new one |
| LogLayer.SomeClean | xv6-public/log.c:182-195 | with fewer than NBUF logged blocks some buffer is not pinned |
| LogLayer.FullCache | xv6-public/log.c:182-195 | with NBUF logged blocks every buffer is pinned and none can be had for the log |
| LogLayer.ViewOfTxn | xv6-public/log.c:198-207 | after commit the disk and the cache agree outside the log |
| LogLayer.OverrunHits | xv6-public/log.c:187-194 | copying a list as long as the log writes the first block behind it |
| LogLayer.Log.constructor | xv6-public/log.c:57-69 | initlog up to recovery: an empty log over a cache with nothing pinned |
| LogLayer.Log.CopyBlock | xv6-public/log.c:188-193 | bread, bread, memmove, bwrite, brelse, brelse with other processes in between: one block write with the source's contents and its pin dropped, or no write and the reason; in a quiet cache with room it succeeds |
| LogLayer.Log.WriteLog | xv6-public/log.c:183-195 | in every interleaving the writes issued are a leading part of the copies of the logged blocks, all of them on return; with NBUF logged blocks no buffer and no write, whatever the size of the log; with no reader in the way it returns if and only if fewer are logged; a list that does not fit overwrites the block behind the log |
| LogLayer.Log.WriteHead | xv6-public/log.c:107-118 | one write, the header with the list of blocks, or none |
| LogLayer.Log.HeaderData | xv6-public/log.c:112-115 | the loop that fills in the header computes its specification |
| LogLayer.Log.InstallTrans | xv6-public/log.c:75-87 | in every interleaving the writes issued are a leading part of the installs, all of them on return, and then nothing stays pinned |
| LogLayer.Log.Commit | xv6-public/log.c:198-207 | in every interleaving with readers the block writes are a leading part of the redo log's, all of them on return; with NBUF logged blocks it panics before the first, in mkfs's log of LOGSIZE blocks too; with no reader in the way it returns if and only if fewer are logged |
| LogLayer.Log.CommitSurvivesCrashes | xv6-public/log.c:198-207 | whether commit returns, panics or never wakes up, a stop after any write it issued and any number of interrupted recoveries leave all of the transaction or none; on return disk, cache and earlier view agree; with NBUF logged blocks the disk is untouched |
| LogLayer.Log.ReadHead | xv6-public/log.c:91-101 | the list in memory is the one in the header block, and nothing is written |
| LogLayer.Log.LoadHead | xv6-public/log.c:96-99 | the loop that reads the header computes its specification |
| LogLayer.Log.RecoverFromLog | xv6-public/log.c:121-127 | its block writes are a leading part of the redo log's recovery, all of them on return, and at boot it returns |
| LogLayer.InitLog | xv6-public/log.c:57-71 | on any disk with a good header a new cache and log complete recovery with exactly the redo log's writes |
| LogLayer.Boot | xv6-public/log.c:57-71 | after any crash and any interrupted recoveries a new cache and log come up with an empty header and the promised contents |
| LogLayer.Log.LogAppend | xv6-public/log.c:228-237 | the locked part: the list absorbs the block and the buffer is pinned with its contents, whatever has happened since the tests |
| LogLayer.Log.LogWrite | xv6-public/log.c:219-238 | both parts without another log_write in between: which panic or success, and the list still fits the log |
| LogLayer.Log.Append | xv6-public/log.c:229-235 | the scan of log_write keeps the list without duplicates |
| GroupCommit.ActKeepsInv | xv6-public/log.c:131-179 | every step of any process keeps the protocol's invariant |
| GroupCommit.RunKeepsInv | xv6-public/log.c:131-179 | so does every interleaving |
| GroupCommit.GroupCommitSafety | xv6-public/log.c:131-179 | in every interleaving: no operation is open while a commit runs, no block is listed twice, listed blocks and unused reservations fit LOGSIZE, and whoever sleeps on the log still has to wait |
| GroupCommit.ListFrozenInCommit | xv6-public/log.c:198-207 | while a commit runs only commit changes the list |
| GroupCommit.SleeperHasWaker | xv6-public/log.c:131-146 | whenever somebody sleeps, somebody else is in an operation or a commit and will wake all |
| GroupCommit.BeginEnters | xv6-public/log.c:131-146 | in every reachable state begin_op gets through exactly if no process is in a commit and the list and ten blocks for each operation and the new one fit LOGSIZE, and else sleeps; nothing else changes |
| GroupCommit.EndOpEnds | xv6-public/log.c:151-168 | in every reachable state end_op of the last operation starts a commit, of any other it wakes everybody; nothing else changes and it does not panic |
| GroupCommit.CommitEmpties | xv6-public/log.c:198-207 | commit empties the list or panics for want of a buffer exactly when, and a kill wakes just its sleeper |
| GroupCommit.EndCommitWakes | xv6-public/log.c:174-177 | in every reachable state the end of a commit reopens the log: nobody commits, nobody sleeps, the list is empty and begin_op would get through |
| GroupCommit.WaiterGetsThrough | xv6-public/log.c:131-179 | from every reachable state a process waiting in begin_op gets its operation by a run in which nobody new begins, nothing more is logged and nobody is killed, unless a commit panics for want of a buffer; with more than LOGSIZE buffers without exception |
| GroupCommit.NoPanic | xv6-public/log.c:131-238 | no run panics if the log has more than LOGSIZE blocks, the cache more than LOGSIZE buffers and operations keep to MAXOPBLOCKS calls |
| GroupCommit.CommitPanics | xv6-public/log.c:183-195 | with LOGSIZE buffers or fewer three operations fill the list and commit finds no buffer |
| GroupCommit.CanPanic | xv6-public/log.c:131-238 | in every case not covered by NoPanic there is a run that panics |
| GroupCommit.PanicFreeExactly | xv6-public/log.c:131-238 | the two together: no run panics if and only if the three conditions hold |
| GroupCommit.NeverPanicFree | xv6-public/param.h:11-12 | with the kernel's NBUF some run panics, whatever the log size and the operations' discipline |
| GroupCommit.BothAdd | xv6-public/log.c:223-235 | two processes that pass the test in the same state both add their block, and nothing else changes |
| GroupCommit.Overrun | xv6-public/mkfs.c:25 | for every log of 2 to LOGSIZE blocks a run without a panic that lists as many blocks as the log has, header included |
| GroupCommit.FitsExactly | xv6-public/log.c:223-235 | the list fits the log in every run if and only if the log has more than LOGSIZE blocks or just its header |
| GroupCommit.WritesBehind | xv6-public/log.c:187-194 | in every case not covered below a run in which commit has a buffer and a list as long as the log |
| GroupCommit.CommitFitsExactly | xv6-public/log.c:131-207 | in every run each commit that gets a buffer has a list that fits the log, if and only if the log has more than LOGSIZE blocks, or at most its header, or at least as many blocks as there are buffers |
| Operations.TxIsUpdates | xv6-public/log.c:228-237 | the transaction commit writes has the effect of the operations' log_writes, one after the other |
| Operations.DiskSettled | xv6-public/log.c:198-207 | after any number of whole commits the disk outside the log is what readers see |
| Operations.DoKeepsNumbers | xv6-public/log.c:131-179 | every step keeps operations that are open or in the open group out of all committed groups |
| Operations.RunKeepsWorld | xv6-public/log.c:131-238 | in every interleaving the list is what absorption makes of the open group, and every committed group is one the log can take, for every log whose commits never write behind it, the kernel's included |
| Operations.CommittedFits | xv6-public/log.c:198-207 | a commit that returns has written a group that fits the log |
| Operations.GroupSurvives | xv6-public/log.c:182-207 | stopped anywhere, the commit of the open group after any committed ones recovers to the groups with or without it, decided by the header write |
| Operations.CrashKeeps | xv6-public/log.c:121-207 | a stop in any such state, anywhere in a running commit, recovers to the kept groups |
| Operations.WholeOrNothing | xv6-public/log.c:12-15 | the kept groups hold all updates of an operation or none |
| Operations.OperationAtomicity | xv6-public/log.c:9-21 | after any interleaving, crash and recovery the disk outside the log holds exactly the updates of the kept groups; each operation is there whole or not at all, and one still open not at all |
| Operations.RunIsRecorded | xv6-public/log.c:131-238 | committed and open groups together are all log_writes of the run in their order, each under the number of its operation, and the committed ones are those made before the last commit that returned |
| Operations.Durability | xv6-public/log.c:9-21 | after any interleaving, crash and recovery the disk outside the log is the old one with exactly the log_writes made before the last returned commit, and from a running commit's header write on those of that commit too |
| Operations.SavedGrows | xv6-public/log.c:198-207 | what is safe stays safe: it is the first part of what is safe later |
| Journal.GroupLog.constructor | xv6-public/log.c:57-71 | after initlog nothing is committed and nothing logged |
| Journal.GroupLog.TxnIsGroup | xv6-public/log.c:182-195 | the transaction that commit takes from the cache is the one of the open group over the committed ones |
| Journal.GroupLog.Record | xv6-public/log.c:228-237 | log_write on the cache adds one update to the open group, and list, cache and disk stay those of the groups |
| Journal.GroupLog.Commit | xv6-public/log.c:198-207 | commit on the cache closes the open group when it returns; whatever its outcome, a stop after any of its writes recovers to the committed groups, the open one among them exactly from the header write on; with NBUF logged blocks it panics over an untouched disk |
| Journal.GroupApplied | xv6-public/log.c:75-87 | the transaction applied to the disk is the group applied to what readers see |
| FileSystem.BitOfWith | xv6-public/fs.c:68-71 | setting or clearing one bit of a byte changes that bit only |
| FileSystem.MarkOfPut | xv6-public/fs.c:84-98 | setting or clearing one block's bit of the free map changes that block's bit only |
| FileSystem.MarkBytes | xv6-public/fs.c:68-72 | block b's bit is the digit of weight 2^(b mod 8) of byte b mod 4096 / 8 of block bmapstart + b / 4096, and setting it changes no other byte and no other bit |
| FileSystem.InodeRoundTrip | xv6-public/fs.c:225-240 | an inode that iupdate stored reads back, and no other inode of its block changes |
| FileSystem.InodeBytes | xv6-public/fs.c:303-310 | the size of inode i is in bytes 64 * (i mod 8) + 8 to 11 of its block and address k in the four bytes from 64 * (i mod 8) + 12 + 4 * k on |
| FileSystem.InodeStored | xv6-public/fs.c:230-238 | iupdate puts size and addresses in those bytes and changes no byte of the block outside 64 * (i mod 8) + 8 to 63 |
| FileSystem.SlotBytes | xv6-public/fs.c:393-397 | entry j of the indirect block is in its bytes 4 * j to 4 * j + 3, for reading and for writing, and writing it changes no other byte |
| FileSystem.PlaceKeepsOwned | xv6-public/fs.c:377-404 | giving a free block to an empty place of a file keeps the ownership of all blocks |
| FileSystem.RemoveKeepsOwned | xv6-public/fs.c:412-439 | clearing a place and freeing its block keeps the ownership of all others |
| FileSystem.FreeMapIsExact | xv6-public/fs.c:58-98 | bits are set exactly for metadata blocks and blocks reachable from inodes, and no block is reached twice |
| FileSystem.TakenFree | xv6-public/fs.c:59-80 | taking a block leaves exactly one free block fewer |
| FileSystem.FreedFree | xv6-public/fs.c:84-98 | giving a file's block back leaves exactly one free block more |
| FileSystem.FileSystem.Balloc | xv6-public/fs.c:59-80 | the first free block, zeroed and marked, with its two log_writes, or none exactly if all are marked |
| FileSystem.FileSystem.Bfree | xv6-public/fs.c:84-98 | clears the bit; "freeing free block" exactly if it is clear |
| FileSystem.FileSystem.BmapDirect | xv6-public/fs.c:382-386 | a direct place is looked up or filled with a block nobody owned |
| FileSystem.FileSystem.BmapTable | xv6-public/fs.c:391-392 | the indirect table is there or made, changing no place of any file |
| FileSystem.FileSystem.BmapSlot | xv6-public/fs.c:393-400 | an indirect place is looked up or filled with a block nobody owned |
| FileSystem.FileSystem.Bmap | xv6-public/fs.c:377-404 | the block of a place, never zero, with ownership kept; out of space exactly if fewer blocks are free than the place and its table need, else exactly so many are taken; which blocks it logs; out of range exactly from MAXFILE on |
| FileSystem.ChunkNeeds | xv6-public/fs.c:502-508 | what one round of writei's loop needs is what the file's block count grows by |
| FileSystem.RecordGrows | xv6-public/fs.c:502-508 | one round adds its exact number of log_writes, each for a block of the range, its bitmap block, the table or the table's bitmap block |
| FileSystem.FileSystem.WriteChunk | xv6-public/fs.c:502-508 | one round of writei's loop splices a chunk into the contents and leaves all other files alone |
| FileSystem.FileSystem.WriteLoop | xv6-public/fs.c:502-508 | the loop splices the whole source, or fails exactly if the growth needs more blocks than are free |
| FileSystem.FileSystem.WriteSize | xv6-public/fs.c:510-514 | the size follows in memory and in the bytes of the inode on disk exactly if the file grew, no other byte of the disk changes, the contents have no hole and every inode on disk is the one in memory |
| FileSystem.FileSystem.SetSize | xv6-public/fs.c:225-240 | the inode block is the one block logged, of all bytes on disk only those of the inode change and they hold it, and no file's contents, no owner and no free block changes |
| FileSystem.FileSystem.WriteAll | xv6-public/fs.c:502-515 | writei behind its tests: contents, number of log_writes and blocks taken, or out of blocks, exactly when |
| FileSystem.WithinBudget | xv6-public/file.c:127-133 | one chunk of filewrite logs at most MAXOPBLOCKS distinct blocks |
| FileSystem.CallsBound | xv6-public/file.c:127-133 | and calls log_write at most 16 times |
| FileSystem.ChunkIsNotFrugal | xv6-public/file.c:127-133 | which a chunk across the end of the direct blocks does |
| FileSystem.FileSystem.Writei | xv6-public/fs.c:486-515 | refused exactly when the code refuses; out of blocks if and only if fewer are free than the new blocks and a new table need, else exactly so many are taken; the flat contents have exactly [off, off+n) replaced or extended, other inodes are untouched, every byte below the size is backed by a block, inodes on disk are those in memory, and every changed block was logged; the number of its log_writes, and for one chunk of filewrite at most MAXOPBLOCKS distinct blocks |
| FileSystem.FileSystem.ReadChunk | xv6-public/fs.c:473-478 | one round of readi's loop returns its slice |
| FileSystem.FileSystem.ReadLoop | xv6-public/fs.c:473-478 | the loop returns the whole slice |
| FileSystem.FileSystem.Readi | xv6-public/fs.c:457-480 | refused exactly when the code refuses; else exactly the requested slice clipped to size, and nothing changes |
| FileSystem.FileSystem.TruncDirect | xv6-public/fs.c:418-423 | a direct block is freed, which it always can be |
| FileSystem.FileSystem.TruncSlot | xv6-public/fs.c:428-431 | a block behind the table is freed, which it always can be, and one more is free exactly if there was one |
| FileSystem.FileSystem.TruncSlots | xv6-public/fs.c:428-431 | the loop over the table frees exactly the blocks behind it |
| FileSystem.FileSystem.TruncTable | xv6-public/fs.c:425-435 | the table and all blocks behind it are freed, exactly so many more are free |
| FileSystem.FileSystem.Itrunc | xv6-public/fs.c:412-439 | the file is empty and owns nothing, other files are untouched, "freeing free block" is unreachable, and exactly the blocks a file of its size has, table included, become free |
| FileRecovery.FileIsOnStore | xv6-public/fs.c:457-480 | a file in memory is the file that the blocks hold, found from nothing but its inode block |
| FileRecovery.FileBytes | xv6-public/fs.c:374-404 | a file has the size in its inode's bytes, and byte p of it is byte p mod 512 of the block whose number is in the inode's or its table's bytes |
| FileRecovery.FileElsewhere | xv6-public/mkfs.c:20-21 | blocks before the inodes, the log among them, hold no part of any file |
| FileRecovery.OpTxIsChange | xv6-public/log.c:182-195 | the blocks an operation logged, as they are at its end, make a transaction the log takes and that turns the old store into the new one |
| FileRecovery.OpSurvives | xv6-public/log.c:198-207 | its commit stopped anywhere and recovered leaves from the inode blocks on the old store or the new one |
| FileRecovery.OldOrNew | xv6-public/log.c:9-21 | so every file on the recovered disk is the old one up to the header write and the new one from it on |
| FileRecovery.FilewriteChunk | xv6-public/file.c:136-145 | one chunk of filewrite: refused or out of blocks exactly when, no block lost, and after a crash anywhere in its commit and any interrupted recoveries every file read from the disk is the old one, or, from the header write on, the new one |
| FileRecovery.FilewriteTurn | xv6-public/file.c:135-152 | one turn of the loop writes the next chunk, all of the rest if it is shorter |
| FileRecovery.Filewrite | xv6-public/file.c:117-156 | all bytes are written if and only if the write begins within the file, ends within MAXFILE blocks and there are blocks for it; otherwise a whole number of chunks is; a crash anywhere in any of its commits leaves a whole number of chunks too |
| Heap.InsertSound | xv6-public/umalloc.c:36-42 | linking a block at its place keeps the ordered ring and the tiling |
| Heap.MergeSound | xv6-public/umalloc.c:33-40 | joining two blocks that touch keeps them too |
| Heap.FreeAtSound | xv6-public/umalloc.c:25-44 | after free the list is one ring in address order, blocks tile the arena, and no two free blocks touch |
| Heap.TakeAllSound | xv6-public/umalloc.c:76-77 | taking a whole free block keeps all that |
| Heap.TakeTailSound | xv6-public/umalloc.c:78-82 | taking the tail of a free block keeps all that |
| Heap.ExtendSound | xv6-public/umalloc.c:47-61 | so does a new region from sbrk |
| Heap.BlocksAreDisjoint | xv6-public/umalloc.c:64-90 | two blocks, free or allocated, share no unit |
| Heap.StopsThere | xv6-public/umalloc.c:30-32 | free's search stops at the block's place in the ring and nowhere else |
| Heap.EnoughBytes | xv6-public/umalloc.c:69 | the block holds nbytes if and only if the rounding does not wrap, and wastes less than a unit |
| Heap.SbrkArgIsRight | xv6-public/umalloc.c:52-54 | sbrk is asked for the wanted bytes if and only if fewer than 2^28 units are wanted |
| Heap.Allocator.constructor | xv6-public/umalloc.c:21-22 | before the first call there is no list |
| Heap.Allocator.Search | xv6-public/umalloc.c:30-32 | the loop ends at the block's place |
| Heap.Allocator.Link | xv6-public/umalloc.c:33-42 | the stores of free in their order make the specified headers |
| Heap.Allocator.Free | xv6-public/umalloc.c:25-44 | the block is free, every other allocated block keeps its address and size, the arena is the same, and the heap is sound and coalesced |
| Heap.Allocator.AddRegion | xv6-public/umalloc.c:57-59 | the region joins the arena and leaves a free block of at least its size |
| Heap.Allocator.Morecore | xv6-public/umalloc.c:47-61 | no memory, undefined behaviour or a grown arena, each exactly when |
| Heap.Allocator.Take | xv6-public/umalloc.c:75-84 | a block of exactly the wanted size that nobody had |
| Heap.Allocator.FirstFit | xv6-public/umalloc.c:74-89 | the circular search ends, with at most one morecore, and misses no fitting block |
| Heap.Allocator.Malloc | xv6-public/umalloc.c:64-90 | a block if and only if one fits or a fitting region was granted; it was in nobody's use, all others keep theirs, and the heap stays sound |
| Paging.TablesDecide | xv6-public/vm.c:36-58 | writing to a page that is neither directory nor table changes no translation |
| Paging.LinkTableKeeps | xv6-public/vm.c:46-54 | hanging in a zeroed table changes no translation and keeps the ledger |
| Paging.SetEntryWalk | xv6-public/vm.c:76 | writing a table entry changes that one translation in all address spaces |
| Paging.MapUser | xv6-public/vm.c:252 | a held page mapped at an empty user page is owned by that mapping |
| Paging.UnmapUser | xv6-public/vm.c:281-286 | clearing a user mapping gives the page back |
| Paging.NewDir | xv6-public/vm.c:127-129 | a zeroed page is a directory that maps nothing |
| Paging.RetireDir | xv6-public/vm.c:302-308 | a directory without user pages can be taken out of use with its tables |
| Vm.PopFree | xv6-public/kalloc.c:93-105 | taking the head of the free list leaves the list of the other free pages |
| Vm.PushFree | xv6-public/kalloc.c:75-84 | the junk-filled page becomes the head of the list |
| Vm.Machine.constructor | xv6-public/kalloc.c:31-37 | before kinit1 nothing is free |
| Vm.Machine.FreeRange | xv6-public/kalloc.c:50-61 | exactly the whole pages of the range become free; panics exactly if one lies outside the allocatable ones |
| Vm.Machine.Kalloc | xv6-public/kalloc.c:93-105 | a free page, or none exactly if none is free; nobody's translation changes |
| Vm.Machine.Kfree | xv6-public/kalloc.c:68-87 | the page is free, filled with ones but for the link to the old head; panics exactly outside the allocatable pages |
| Vm.Machine.WalkPgdir | xv6-public/vm.c:37-58 | the table of a page, made if wanted and possible; null exactly if missing and not to be had; no translation changes |
| Vm.Machine.MapOne | xv6-public/vm.c:72-76 | one page mapped, with remap and out-of-table exactly when |
| Vm.Machine.MapPages | xv6-public/vm.c:64-83 | the range maps to consecutive frames modulo 2^32 up to where it stopped, all other translations and pages are as before, and one table is used per newly covered slot |
| Vm.MappedTranslates | xv6-public/vm.c:64-83 | after mappages the emulator's walker sends every address of the range to its physical address modulo 2^32 |
| Vm.MappedKeeps | xv6-public/vm.c:64-83 | and every address that was mapped before, in every address space, where it went |
| Vm.LoadEntry | emulator.go:1977-1984 | the walker's byte loops read the word the guest stored |
| Vm.V2p | emulator.go:1975-1985 | the 4 KB branch computes the walk, and stops exactly when a table lies outside memory |
| Vm.WalkerAgrees | emulator.go:1975-1985 | for a mapped page the walker finds the frame of the guest's entry |
| Vm.KernelPart | xv6-public/vm.c:113-118 | what the four lines of kmap map, as one formula |
| Vm.KernelTranslates | xv6-public/vm.c:113-118 | the walker sends kernel addresses to physical memory and device addresses, up to the top of the address space, to themselves |
| Vm.Machine.SetupKvm | xv6-public/vm.c:122-143 | a directory with exactly the kernel part, if and only if 65 pages are free; otherwise every page has the owner it had |
| Vm.Machine.UnmapOne | xv6-public/vm.c:277-287 | one round of deallocuvm's loop |
| Vm.Machine.DeallocUvm | xv6-public/vm.c:267-290 | exactly the user pages of the range are unmapped and free, although it skips slots without a table |
| Vm.Machine.AddPage | xv6-public/vm.c:245-252 | a new page mapped, or why not |
| Vm.FilledFree | xv6-public/vm.c:245-252 | filling a range took one page for each page of it and one for each table that was missing |
| Vm.NoPageFor | xv6-public/vm.c:246-250 | where kalloc has no page left, fewer were free than the whole range wants |
| Vm.NoPageForTable | xv6-public/vm.c:252-257 | where mappages has no page left for a table, too |
| Vm.Machine.AllocUvm | xv6-public/vm.c:233-260 | success maps fresh zeroed pages over the range; fails if and only if fewer pages are free than pages and missing tables up to the first mapped page need, panics if and only if it gets to a mapped one; both failure exits leave the range unmapped and every page it added given back, tables excepted |
| Vm.AllocReads | xv6-public/vm.c:245-252 | after allocuvm the walker finds zero at every address of the range, in a page the user may read and write |
| Vm.Machine.FreeTables | xv6-public/vm.c:302-307 | the loop gives back every table once |
| Vm.Machine.FreeVm | xv6-public/vm.c:295-309 | exactly the directory, its tables and its user pages become free, and no other address space changes |
| Vm.FramesDistinct | xv6-public/vm.c:326-349 | two user mappings never share a frame |
| Vm.CopyReads | xv6-public/vm.c:326-349 | below sz the child reads the parent's byte, with the parent's flags, from a frame of its own |
| Vm.Machine.CopyOne | xv6-public/vm.c:337-347 | one round of copyuvm's loop, with its failures |
| Vm.Machine.CopyUvm | xv6-public/vm.c:327-354 | a full copy, a failure or a panic, each if and only if the stated counts of free pages and of pages up to the first missing one say so; nothing else changed; on failure every page is back, except that one is lost exactly if the stated arithmetic condition on the free pages holds |
| Process.ForkSteps | xv6-public/proc.c:184-225 | the steps of fork, including the stores made without the lock, keep the process tree |
| Process.ExitKeeps | xv6-public/proc.c:231-271 | exit, with its wakeups and reparenting, keeps the process tree |
| Process.ReapKeeps | xv6-public/proc.c:290-302 | so does reaping a zombie |
| Process.LeaveKeeps | xv6-public/proc.c:394-463 | so does giving up the processor by yield or sleep |
| Process.WakingKeeps | xv6-public/proc.c:469-508 | so do wakeups and kill |
| Process.ScheduleKeeps | xv6-public/proc.c:339-349 | so does picking a process to run |
| Process.StepKeepsInv | xv6-public/proc.c:184-508 | every step of the process table keeps the invariant |
| Process.RunKeepsInv | xv6-public/proc.c:184-508 | so does every interleaving |
| Process.ProcessTree | xv6-public/proc.c:184-508 | in every reachable state: processes other than init have a parent that is neither unused nor a zombie, nobody sleeps in wait over a zombie child, and a process runs exactly if it is the current process of one and only one processor |
| Process.ExitEffect | xv6-public/proc.c:253-269 | slot by slot: the process is a zombie off its processor, its children are init's, a parent in wait is runnable and so is init in wait if a child was a zombie, and nothing else has changed |
| Process.SleepEffects | xv6-public/proc.c:394-487 | slot by slot: wakeup makes exactly the sleepers on the channel runnable, yield and sleep take their process off its processor, and nothing else changes |
| Process.ForkEffects | xv6-public/proc.c:193-222 | slot by slot: what giving back, adopting and starting the new process change |
| Process.StepKeepsPids | xv6-public/proc.c:92-93 | every step keeps pids other than 0 distinct and those of used slots from being 0 |
| Process.PidsDistinct | xv6-public/proc.c:184-508 | so does every interleaving |
| Process.ForkExitWait | xv6-public/proc.c:184-313 | fork, exit of the child and wait of the parent bring the table back: the slot is unused, the parent runs, one pid has been used, and no other slot has changed |
| Process.MarksExactly | xv6-public/proc.c:92-93 | one step marks an unused slot exactly if it is a kill of one or gives back a killed embryo |
| Process.UnmarkedExactly | xv6-public/proc.c:491-508 | a run keeps marks off unused slots if and only if it has no such step |
| Process.BornKilled | xv6-public/proc.c:491-508 | kill(0) and then fork: a child that starts with the mark |
| Process.Ptable.constructor | xv6-public/proc.c:124-157 | after userinit the table holds init alone, the invariant holds and pids are distinct |
| Process.Ptable.AllocProc | xv6-public/proc.c:82-95 | the first unused slot becomes an embryo with the next pid, keeping parent, channel and mark, and no other slot changes; none exactly if no slot is unused |
| Process.Ptable.Wakeup1 | xv6-public/proc.c:469-476 | the scan wakes exactly the sleepers on the channel |
| Process.Ptable.PassOn | xv6-public/proc.c:259-265 | the scan passes all children to init and wakes it if one is a zombie |
| Process.Ptable.Exit | xv6-public/proc.c:253-269 | the locked section of exit: a zombie, its children init's, the right sleepers awake, and nothing else changed |
| Process.Ptable.Wait | xv6-public/proc.c:283-313 | a pass of wait reaps if and only if there is a zombie child, fails exactly without children or when killed, and sleeps otherwise; what each does to the table and that it does nothing else |
| Process.Ptable.Kill | xv6-public/proc.c:491-508 | the first slot with the pid is marked, runnable if it was asleep and otherwise in the state it was in, with pid, parent and channel as before, and no other slot or processor changes; none exactly if no slot has the pid, and with pid other than 0 there is just one |
| Process.Ptable.Scheduler | xv6-public/proc.c:339-349 | the first runnable process from a slot on runs on the processor, and nothing else changes |
| SleepLock.StepKeepsInv | xv6-public/sleeplock.c:22-43 | every step of acquiresleep and releasesleep keeps the lock's invariant |
| SleepLock.RunKeepsInv | xv6-public/sleeplock.c:22-43 | so does every interleaving |
| SleepLock.SleepLockSafety | xv6-public/sleeplock.c:22-43 | at most one holder, and a process sleeps on the lock only while it is held or a releaser has yet to finish its wakeup |
| SleepLock.Path | xv6-public/sleeplock.c:22-43 | each step takes its process one place on through acquiresleep and releasesleep, which it leaves with the sleep lock exactly if it was free, and no step moves a lock that is not its process's |
| SleepLock.TestTakes | xv6-public/sleeplock.c:27-32 | in every reachable state the test takes a free lock: its process is the one holder, the spin lock is free and nobody else moves; a held lock sends it to sleep |
| SleepLock.AcquireSleeps | xv6-public/sleeplock.c:26-29 | acquiresleep of a held lock ends asleep with both spin locks free |
| SleepLock.ReleaseWakes | xv6-public/sleeplock.c:38-42 | in every interleaving, after a releaser's wakeup the lock is free and nobody is asleep on it or about to be |
| SleepLock.ReleaseFrees | xv6-public/sleeplock.c:38-42 | releasesleep leaves the lock free and everybody who slept back at the loop of acquiresleep |
| SleepLock.CanHold | xv6-public/sleeplock.c:22-43 | from every reachable state some run without kills and without anybody else beginning brings any given process to hold the lock |
| ShellGrammar.RoundTrip | xv6-public/sh.c:327-446 | every command within the argument limit has a printed form that parses back to it |
| ShellGrammar.ParseRange | xv6-public/sh.c:327-446 | a command is the parse of some line if and only if it is within the argument limit and its words are words |
| ShellGrammar.ArrowLine | xv6-public/sh.c:345-359 | parsing commutes with writing > for every >> |
| ShellGrammar.AppendIsWrite | xv6-public/sh.c:388-393 | any line parses to the same command with > for every >> |
| ShellSyntax.SimpleParses | xv6-public/sh.c:416-446 | words with redirections before, between and after them parse to the words under the redirections, the last of the text outermost |
| ShellSyntax.PipelineParses | xv6-public/sh.c:362-372 | a | b | c nests to the right |
| ShellSyntax.LineParses | xv6-public/sh.c:345-359 | ampersands wrap the pipeline before them and semicolons nest to the right |
| ShellSyntax.TypedParses | xv6-public/sh.c:328-342 | every well-formed line, white space and all, parses to the command it stands for |
| ShellSyntax.LineOf | xv6-public/sh.c:345-446 | whatever parseline accepts is a well-formed line that stands for the command it gives |
| ShellSyntax.ParserIsGrammar | xv6-public/sh.c:328-446 | the parser gives a command for a line if and only if the line is a well-formed text of it |
| Shell.Parser.constructor | xv6-public/sh.c:333 | the cursor starts at the first character of a NUL-terminated line |
| Shell.Parser.SkipSpace | xv6-public/sh.c:272-273 | the loops over white space |
| Shell.Parser.Peek | xv6-public/sh.c:311-320 | peek moves to the next character that is no space and tells if it is one of the given |
| Shell.Parser.TakeWord | xv6-public/sh.c:297-298 | the loop over a word stops at a break |
| Shell.Parser.GetToken | xv6-public/sh.c:266-308 | gettoken returns the grammar's token, and for a word a stretch that ends at a break |
| Shell.Parser.ParseRedirs | xv6-public/sh.c:375-397 | the redirections the grammar says, or an error exactly when it says |
| Shell.Parser.ParseArgs | xv6-public/sh.c:429-445 | the words and redirections the grammar says |
| Shell.Parser.ParseExec | xv6-public/sh.c:416-446 | as the grammar |
| Shell.Parser.ParseBlock | xv6-public/sh.c:400-413 | as the grammar |
| Shell.Parser.ParsePipe | xv6-public/sh.c:362-372 | as the grammar, and it ends |
| Shell.Parser.ParseBacks | xv6-public/sh.c:350-353 | the loop over & wraps as the grammar says |
| Shell.Parser.ParseLine | xv6-public/sh.c:345-359 | as the grammar, and it ends |
| Shell.Terminated | xv6-public/sh.c:450-493 | no NUL lands inside a word, because words end at breaks |
| Shell.Parser.NulTerminate | xv6-public/sh.c:450-493 | NULs are written exactly where words of the command end |
| Shell.Parser.ParseCmd | xv6-public/sh.c:328-342 | on every line it ends with the grammar's command or an error, and then every argument and file name is a C string that is exactly its word of the line |
| Grep.HereFirst | xv6-public/grep.c:85-96 | a pattern matches here exactly if its first atom matches some characters and the rest matches behind them |
| Grep.MatchHere | xv6-public/grep.c:85-96 | true if and only if some prefix of the text, all of it under a final dollar, belongs to the language of the pattern |
| Grep.MatchStar | xv6-public/grep.c:99-106 | true if and only if some run of matching characters is followed by a match |
| Grep.Match | xv6-public/grep.c:73-82 | true if and only if some suffix matches here, or the whole text under a caret |
| Pipe.WrapSlot | xv6-public/pipe.c:93 | a wrapped counter picks the right slot, because 512 divides 2^32 |
| Pipe.WrapTests | xv6-public/pipe.c:85-114 | the wrapped counters decide full and empty correctly |
| Pipe.Pipe.constructor | xv6-public/pipe.c:23-57 | an empty pipe, open at both ends |
| Pipe.Pipe.Store | xv6-public/pipe.c:93 | a byte is appended to the stream without overwriting an undelivered one |
| Pipe.Pipe.Fetch | xv6-public/pipe.c:116 | the oldest undelivered byte is delivered |
| Pipe.Pipe.Write | xv6-public/pipe.c:79-98 | as many bytes as fit are stored in order, and why it then stops; delivered stays a prefix of stored and the backlog at most 512 |
| Pipe.Pipe.Read | xv6-public/pipe.c:101-121 | as many bytes as there are, up to n, are delivered in order, and why none |
| Pipe.Pipe.Close | xv6-public/pipe.c:60-75 | the page is freed exactly when both ends are closed |
| BootLoader.PortsAddUp | io.go:83-102 | the port writes of readsect seek to the sector modulo 2^29 |
| BootLoader.Machine.In8 | io.go:39-64 | the data port delivers the image byte by byte, and the status port is always ready |
| BootLoader.Machine.In32 | io.go:66-72 | four bytes of the image, little endian |
| BootLoader.Machine.Insd | emulator.go:526-535 | four bytes of the image at edi, the rest of memory unchanged |
| BootLoader.Machine.ExecPlain | emulator.go:446-468 | the byte behind the prefix decides whether insd is what is repeated |
| BootLoader.Machine.RepStep | emulator.go:446-468 | one execution of the rep branch, which repeats the instruction behind it and comes back to itself exactly while ecx is above 1 |
| BootLoader.Machine.Insl | emulator.go:446-468 | the rep loop loads exactly 4 * cnt bytes, because the code bytes stay intact |
| BootLoader.Machine.Readsect | xv6-public/bootmain.c:60-74 | 512 bytes of sector number modulo 2^29, the rest of memory unchanged |
| BootLoader.Machine.Readseg | xv6-public/bootmain.c:79-96 | memory[pa+k] is image byte 512+offset+k for all k below count, and nothing outside the whole sectors changes |
| ModRM.Emulator.ParseModRM | emulator.go:2270-2324 | the fields of the operand, and eip advanced by exactly its encoded length |
| ModRM.StartOf | emulator.go:2219-2251 | getSib is the base plus scaled index part of the address |
| ModRM.AddressIsRight | emulator.go:1877-1916 | the computed address is the effective address of section 2.1.5 of Intel SDM Vol. 2A modulo 2^32 if and only if there is no 8-bit displacement of -128 |

## Left out

- BufferCache.Bcache.Bread: when it sleeps is not exact for device 0, the number that unused buffers carry and no caller uses.
- LogLayer.Log.Commit: requires that no buffer holds unpublished changes, which GroupCommit proves (no operation is open while a commit runs), and that the list fits the log or has NBUF blocks; GroupCommit.CommitFitsExactly says when every commit that gets a buffer has a list that fits. A wait that never ends is an outcome, and whether readers let commit go on is not claimed.
- LogLayer.Log.CommitSurvivesCrashes: the same.
- LogLayer.Log.WriteLog: a list that overruns the log and names the very blocks it is copied over is not modelled.
- LogLayer.Log.InstallTrans: requires a list that fits the log; commit gets to it with no other unless write_log has already written behind the log.
- LogLayer.Log.constructor: takes the log's place as a parameter; recovery is LogLayer.Log.RecoverFromLog, and LogLayer.InitLog joins the two.
- LogLayer.InitLog: the superblock is a parameter, not read from block 1; requires a header that read_head can read, as after every crash.
- LogLayer.Log.RecoverFromLog: requires that the header on disk lists at most LOGSIZE blocks outside the log, which every header after a crash does; read_head has no test for a corrupt one and would write past its array.
- LogLayer.Log.ReadHead: the same.
- LogLayer.Log.LoadHead: the same.
- LogLayer.Log.LogAppend: requires room in the array or a block already listed; the code has no such test, and GroupCommitSafety shows that begin_op's reservations see to it.
- LogLayer.Log.Append: the same.
- GroupCommit.PanicFreeExactly: commit's panic is the one for want of buffers that the log itself has pinned; processes that hold buffers can make any bget panic earlier.
- GroupCommit.NoPanic: the same.
- Operations.OperationAtomicity: requires log_writes of blocks outside the log and a log behind which no commit writes (GroupCommit.CommitFitsExactly), as the kernel's is; an update is the whole block as log_write finds it.
- GroupCommit.Act: begin_op, log_write and end_op are steps of a state machine on the shared fields, not methods that sleep.
- FileSystem.FileSystem.Writei: device inodes are left out; after balloc's panic nothing is promised about the file.
- FileSystem.FileSystem.Readi: device inodes are left out.
- FileSystem.FileSystem.WriteSize: of an inode on disk size and addresses are modelled; the words for type, device numbers and links are left as they are.
- FileRecovery.FilewriteChunk: the operation is the only one in its group; what a group of several operations keeps is Operations.OperationAtomicity. After balloc's panic nothing is promised about the files in memory.
- FileRecovery.Filewrite: nobody else writes between its chunks, where the source gives up the inode; pipes, files not open for writing and a negative count are left out.
- Heap.Allocator.Malloc: addresses are counted in 8-byte units, so a region from sbrk that is not aligned to 8 bytes is not modelled; sbrk's answer is a parameter.
- Vm.Machine.MapPages: covers what its callers ask for, a range of the kernel half or one page of the user half, with an aligned physical address; an empty range, for which the loop would run through the whole address space, is not modelled.
- Vm.Machine.FreeRange: requires an end below the last page of the address space, where PGROUNDUP wraps.
- Vm.Machine.Kfree: requires a page that its caller owns; the code does not notice a page freed twice.
- Vm.Machine.DeallocUvm: requires the old size to be at most KERNBASE, as its callers see to.
- Vm.V2p: the 4 MB branch is not modelled.
- Process.Ptable.AllocProc: pids are unbounded numbers; kernel stacks, contexts and open files of a process are not modelled.
- Shell.Parser.ParseExec: nodes are values, not allocated records; the words of a command and the redirections around it are collected side by side and put together at the end.
- Pipe.Pipe.constructor: file allocation and the failure exits of pipealloc are left out.
- Pipe.Pipe.Write: claims order and bounds only; a writer that returns early does not wake the reader, so no claim is made about wakeups.
- BootLoader.Machine.In8: the disk's data and status ports only.
- BootLoader.Machine.ExecPlain: insd is the only instruction modelled behind the prefix.
- ModRM.Emulator.ParseModRM: 32-bit mode only; code bytes are a function of the address, without page walks.
- Spin locks are atomic sections; memory ordering is not modelled.
- The interrupt-driven disk driver, consoles, interrupt controllers and timers.
- Path lookup, directories, exec, system call argument fetching and the other user programs.
- Most opcode handlers and the flags of the emulator; 16-bit mode; memory-mapped interrupt controllers.
- The host programs, the browser build and the user interface of the emulator.
