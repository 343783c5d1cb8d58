# TecnicoFS: a verified model

TecnicoFS is a small in-memory file system that comes in two versions.

* `tfs` keeps files of up to 266 blocks: ten direct blocks and one block of block numbers. `tfs_write` and `tfs_read`
  walk a stretch of bytes over the direct blocks and then over the others.
* `tfs_server` keeps files of one block under one global lock, with a request server on top: clients write requests into
  one pipe, a receiver stores them in the slots of their sessions, and a worker for each session serves them.

The Dafny project models both and proves what they are for.

**Multi-block files** (`Bytes`, `AllocationTable`, `Disk`, `Directory`, `HandleTable`, `Indexed*`, `Appends`). A file is
a sequence of bytes, a write is a splice and a read is a slice. The state is a value (`IndexedState.Fs`); every block,
whether it holds data, block numbers or the directory, comes from one numbered space, so that they stay apart is a
theorem and not an assumption. The class `IndexedFileSystem.FileSystem` keeps the source's loops over arrays and is
proved equal to the functions the theorems are about. The source departs from the splice and the slice in a few lines;
`Variant` chooses between the source as written and the source with those lines repaired, each marked `REPAIR` where it
stands:

| lines | as written | repaired |
|---|---|---|
| `tfs/fs/operations.c:159,194,256,287` | the offset advances by all the bytes moved so far | by the bytes of the chunk |
| `tfs/fs/operations.c:275-276` | the chunk of an indirect read is cut to the whole length asked for | to what is left of it |
| `tfs/fs/operations.c:151-155,186-190` | leaving on a full disk does not store the size | it stores it |
| `tfs/fs/state.c:202-227` | erasing works on a copy of the inode, whose direct block numbers go on dangling | on the inode |
| `tfs/fs/operations.c:129-135` | the offset of an append is taken before the lock | under the lock |

For the repaired lines the splice and the slice are proved for every offset inside the file, every length and buffer, on
a full disk too, and `IndexedMap.RunMaps` puts them together: every run within three rules that a caller can check is a
run of a map from names to bytes, reply for reply. How much room is left is told to the map with every call. It is read
off the tables alone, whatever the call then does: `IndexedMap.RoomExact` says for every number of bytes when they have
room, and `IndexedOpenLaw.OpenLaw` when a file has.

For the lines as written it is proved exactly when the source still does what it should, on every file, also one whose
size and blocks have drifted apart (`IndexedDrift`): a write or read is right if and only if it stays in one block;
records read back with the lengths they were written with if and only if the clamp is right at every chunk, which in the
direct blocks it always is; truncation keeps ownership if and only if the file is empty or names no direct block, and in
the runs that start from the initial state the second comes to the first (`IndexedTruncation`); a run of appends loses
nothing if and only if no locked section has bytes to write and an offset that is no longer the end.
`IndexedAliasing.TruncationAliases` is a run of four calls after which a byte written to one file overwrites the block
numbers of another.

**One-block files** (`OneBlock*`). `OneBlockSpec` is the file system its users think of: a map from names to bytes, and
handles that stand at an offset of a named file. `OneBlockRuns.RunRefines` shows that every run within three rules that
a caller can check is a run of that map, reply for reply; `OneBlockRuns.OpenExact` shows for `tfs_open` that the rules
are exactly what is needed for the state, the reply and every read that may follow. The rules: reads and writes go
through open handles; a file is not truncated while a handle stands past its start; a created file has a path of a slash
and at most 39 characters. Neither table can fill up, which takes a pigeonhole over the 23 entries of the directory.
Nothing is repaired here. `OneBlockFileSystem.FileSystem` is the source's tables in place, and its method `Serve` is
proved against the map.

**Shutdown** (`Shutdown`, `ShutdownProgress`). `tfs_destroy_after_all_closed` against any number of threads that open,
close and write, step by step: the closing flag read before the lock as written, or under it. Every call returns in a
bounded number of steps, the destroyer's too unless files stay open (`ShutdownProgress.CallsReturn`, `RestExact`).

**Requests** (`SessionTable`, `RequestRing`, `RequestServer`, `RequestInvariant`, `RequestRuns`, `RequestLocks`,
`RequestDeadlock`, `RequestExit`, `RequestHistory`, `RequestFiles`). Clients, receiver, workers and the main thread as one machine, for
any number of sessions and any number of slots, with the locks of the sessions, `server_lock`, the lock of the session
table and the global lock of the file system, condition variables and unasked wakeups, and the wait of a shutdown until
no file is open. A pipe is a queue for each session: the receiver may take from any, which covers every order in which
clients can have written. There is no cyclic wait for locks. A shutdown holds the lock of its session while it waits,
and `RequestLocks.StuckExact` says when the receiver is stuck behind it: never with the one slot of the source, and with
more of them exactly when the client has another request outstanding that is in no slot.

**Wire** (`Wire`, `Transfers`). The bytes of requests, of streams of requests and of replies, and the loops that move
them through a pipe that takes and gives any positive number of bytes at a time.

Where the code and its documentation disagree the code is followed. `tfs_server/fs/operations.h:39` asks for an absolute
path name; the code does not check the path before it creates, so `xname` makes a file called `name`
(`OneBlockRuns.OpenExact`, `OneBlockCreate.CreatedDirectoryExact`). `tfs_server/fs/tfs_server.h` says that
`addClientPipe` returns 0 when it succeeds and that `check_server_open` returns 0 for an open server; the code returns
the session id and 1.

## Model

| member | source | states |
|---|---|---|
| AllocationTable.FirstFree | tfs/fs/state.c:333-347 | the scan finds the lowest FREE entry, and none if and only if all are TAKEN |
| AllocationTable.TakeFirstFree | tfs_server/fs/state.c:260-272 | the allocating loop marks exactly that entry and nothing else |
| AllocationTable.CountFreeZero | tfs_server/fs/state.c:260-272 | no FREE entry is left exactly when allocation fails |
| AllocationTable.CountFreeUpdate | tfs_server/fs/state.c:309-335 | marking one entry changes the number of FREE entries by exactly its own change |
| AllocationTable.TakenCount | tfs_server/fs/state.c:309-335 | the TAKEN entries number the table less the FREE ones |
| Disk.StoredName | tfs_server/fs/state.c:216-217 | a stored name is the name if and only if that has at most 39 characters |
| Disk.ValidPathExact | tfs/fs/operations.c:25-27 | a path is valid if and only if it is a slash before a name that is not empty, and the name is what follows the slash |
| Disk.FindEntry | tfs_server/fs/state.c:247-253 | the first used entry with the name, and none if and only if no used entry has it |
| Disk.FirstUnused | tfs_server/fs/state.c:213-222 | the first unused entry, and none if and only if the directory is full |
| Disk.ScanName | tfs_server/fs/state.c:231-254 | the scanning loop of find_in_dir returns the inode number of that entry |
| Disk.ScanUnused | tfs_server/fs/state.c:213-222 | the scanning loop of add_dir_entry returns that entry |
| Disk.SameName | tfs_server/fs/state.c:249 | strncmp over 40 characters says equal exactly for equal names |
| IndexedOwnership.StoreChunkOwned | tfs/fs/operations.c:147-159 | storing one chunk, with the allocation it may need, keeps every block with one owner and leaves every other inode alone |
| IndexedOwnership.EnsureBlockFull | tfs/fs/state.c:333-347 | a slot stays without a block exactly when it had none and the disk is full |
| IndexedWrite.WriteLoopOwned | tfs/fs/operations.c:141-160 | a whole write loop keeps ownership and changes only its own file, in either variant |
| IndexedWrite.WriteLoopKeeps | tfs/fs/operations.c:141-195 | no byte outside the stretch from the start of the write to the offset it ends at changes, in either variant |
| IndexedWrite.WriteLoopVisits | tfs/fs/operations.c:141-195 | which slots a loop has gone through, that all of them have blocks, and how many blocks it has taken |
| IndexedWrite.WriteLoopSplit | tfs/fs/operations.c:141-176 | a loop may be cut at any slot, as the source cuts it at the tenth |
| IndexedWriteLaw.WriteAtOneLoop | tfs/fs/operations.c:139-204 | the direct loop followed by the indirect loop is one loop over all slots |
| IndexedWriteLaw.RepairedWriteSplices | tfs/fs/operations.c:107-205 | repaired: the contents become the splice with the first k bytes, the offset moves by k, k is returned, nothing else changes |
| IndexedWriteLaw.RepairedWriteAmount | tfs/fs/operations.c:139-204 | repaired: k is the largest number of bytes that fit in the largest file and have blocks; if that is not all, the disk is full and the write ends at the edge of a block |
| IndexedWriteLaw.RepairedLoopReach | tfs/fs/operations.c:141-195 | repaired: for every k that fits, the loops write k bytes or more if and only if there are blocks for k bytes |
| IndexedWriteLaw.AsWrittenSplicesExact | tfs/fs/operations.c:139-204 | as written, in the terms of contents: on a file that has not drifted the write is the splice if and only if the bytes fit in the block of the offset and that block is there or can be had |
| IndexedState.AsInt32 | tfs/fs/operations.c:114-117 | the cast to int keeps the number mod 2^32 in the range of an int, and is negative exactly when that remainder is 2^31 or more |
| IndexedDrift.AsWrittenWriteExact | tfs/fs/operations.c:139-204 | as written, on any file and at any offset: the bytes that fit are put at the offset, all else is left alone and offset, size and result are right, if and only if they fit in the block of the offset and it is there or can be had |
| IndexedDrift.RepairedLoopPuts | tfs/fs/operations.c:141-195 | repaired: what is written is put at the offset also in a file that has drifted |
| IndexedWriteLaw.SecondBlockDrifts | tfs/fs/operations.c:158-159 | as written: reaching into a second block stops short or leaves the offset too far on |
| IndexedWriteLaw.SameInodeSameContents | tfs/fs/operations.c:107-205 | what leaves an inode and its blocks alone leaves the contents of the file alone |
| IndexedReadLaw.RepairedReadSlices | tfs/fs/operations.c:208-292 | repaired: exactly the contents from the offset on, for every offset and length, over the border to the indirect blocks |
| IndexedReadLaw.AsWrittenSlicesExact | tfs/fs/operations.c:225-292 | as written, in the terms of contents: on a file that has not drifted the read is the slice if and only if the bytes lie in the block of the offset |
| IndexedDrift.AsWrittenReadExact | tfs/fs/operations.c:225-292 | as written, on any file: the bytes at the offset are handed back and the offset moves past them if and only if they lie in the block of the offset and it is there |
| IndexedReadLaw.RepairedWritesSplice | tfs/fs/operations.c:107-205 | repaired: records written in turn are one splice with their concatenation |
| IndexedReadLaw.RepairedReadsSlice | tfs/fs/operations.c:208-292 | repaired: reads in turn give one slice, however it is cut |
| IndexedReadLaw.RepairedReadUndoesWrite | tfs/fs/operations.c:107-292 | repaired: reading through a handle that was open undoes any sequence of writes however the two are cut into calls |
| IndexedReadback.WritesLay | tfs/fs/operations.c:139-195 | as written: after any sequence of complete writes every record still lies where its write put it; no later write lands on it |
| IndexedReadback.ReadsOfLaid | tfs/fs/operations.c:238-288 | as written: reads with the lengths of the records return them if and only if the clamp is right at every chunk |
| IndexedReadback.AsWrittenReadback | tfs/fs/operations.c:139-288 | as written: complete writes read back with the same lengths through a handle that was open return the same bytes although both offsets drift, if and only if the clamp is right at every chunk |
| IndexedReadback.DirectAgrees | tfs/fs/operations.c:244-245 | in the direct blocks the clamp is always right |
| IndexedReadback.DirectReadback | tfs/fs/operations.c:139-257 | as written: whatever is written in the direct blocks, in any number of calls, reads back with the same lengths |
| IndexedReopen.AsWrittenReopened | tfs/fs/operations.c:41-288 | as written: the same through a handle that is opened after the writes |
| IndexedReopen.RepairedReopened | tfs/fs/operations.c:41-292 | repaired: a handle opened after the writes reads back everything, however the reads are cut |
| IndexedRuns.CreateOwned | tfs/fs/state.c:150-174 | creating the inode of a file keeps ownership, also when its index block cannot be had |
| IndexedRuns.RepairedEraseOwned | tfs/fs/state.c:202-227 | repaired: erasing the blocks of a file keeps ownership |
| IndexedRuns.DeleteOwned | tfs/fs/state.c:182-198 | deleting an inode frees exactly the blocks it named, in either variant |
| IndexedRuns.RollbackRestores | tfs/fs/operations.c:85-89 | when the directory is full, undoing the creation restores the live inodes and the TAKEN blocks |
| IndexedRuns.AddToRootOwned | tfs/fs/state.c:261-295 | entering a name changes the directory's block and no other |
| IndexedRuns.WriteKeepsOthers | tfs/fs/operations.c:107-205 | in either variant a write changes no other file, no index block of another file and not the directory |
| IndexedRuns.InitialConsistent | tfs/fs/operations.c:8-18 | the state tfs_init makes is consistent |
| IndexedRuns.RunsKeepOwnership | tfs/fs/operations.c:41-292 | in every state a run reaches the TAKEN blocks are the disjoint union of the blocks of the live inodes: as written if no file with bytes is truncated, repaired for all runs |
| IndexedTruncation.AsWrittenTruncateExact | tfs/fs/operations.c:60-68 | as written, on any file: truncation keeps ownership if and only if the file is empty or names no direct block |
| IndexedTruncation.RunsKeepFirst | tfs/fs/operations.c:107-292 | as written: until a file with bytes is truncated, a file with bytes or with a handle past its start has its first block |
| IndexedTruncation.FirstTruncationBreaks | tfs/fs/operations.c:41-102 | as written: in every state of such a run from the start, emptying a file keeps ownership if and only if it is empty already |
| IndexedAliasing.TruncationAliases | tfs/fs/state.c:202-227 | as written: a run of four calls from the start after which the block numbers of /b are in the first direct block of /a, and one more byte written to /a overwrites them |
| IndexedOpenLaw.OpenEither | tfs/fs/operations.c:41-102 | as written and repaired: a file found is emptied if asked and opened at its end or its start, the handle marked append if asked; one not found is made if asked and if there is room, and opened at its start without the mark; anything else fails and changes nothing; no other file, handle or entry changes |
| IndexedOpenLaw.OpenLaw | tfs/fs/operations.c:41-102 | repaired: a file found is emptied if asked and opened at its end or start, one not found is made if asked and if there is room, anything else fails and changes nothing; no other file, handle or entry changes |
| IndexedOpenTables.OpenFound | tfs/fs/operations.c:50-74 | in either variant and on any tables, also after a truncation as written: where the handle stands and how it is marked, that truncation leaves size 0 and fails exactly on a file with bytes and no index block, and that without it no inode and no block changes |
| IndexedOpenTables.NoSlash | tfs/fs/operations.c:25-47 | in either variant a path without a leading slash, or with nothing behind it, is not found and not opened, and nothing changes |
| IndexedOpenTables.SlashName | tfs/fs/operations.c:30-38 | what follows the slash is the name: lookup gives the inode number of the first entry used for it, and -1 if and only if there is none |
| IndexedOpenTables.NotOpened | tfs/fs/operations.c:49-57 | what is not found is not opened without TFS_O_CREAT, nor is an entry that names no inode, and nothing changes |
| IndexedFailures.Refused | tfs/fs/operations.c:107-123 | a handle that is not one, or a length the cast makes negative, is answered with -1 and changes nothing |
| IndexedFailures.NoIndexBlock | tfs/fs/operations.c:162-167 | a file without an index block cannot be written or read, not even in its direct blocks |
| IndexedFailures.FullDisk | tfs/fs/operations.c:151-155 | as written a write that runs into a full disk returns what it has written and moves the offset, but the file does not get longer; any other write stores the offset it ends at; it runs into a full disk exactly when it stops at a slot without a block |
| IndexedFailures.CreateFails | tfs/fs/state.c:150-166 | inode_create fails if and only if no inode or no block is free; without a block the inode stays TAKEN |
| IndexedFailures.CreateDirectoryFails | tfs/fs/state.c:130-150 | for a directory the inode is given back |
| IndexedFailures.DeleteExact | tfs/fs/state.c:182-198 | inode_delete succeeds if and only if the inode is TAKEN and has an index block; what it frees, and what it leaves otherwise |
| IndexedFailures.AddToRootExact | tfs/fs/state.c:261-295 | a name is entered if and only if inode, name and directory are what they should be and an entry is unused; otherwise nothing changes |
| IndexedOpenTables.TwentyFromStart | tfs/fs/state.c:384-399 | from the start, opens of a new name give out the handles 0 to 19 and from then on fail |
| IndexedSizes.RoomAtStart | tfs/fs/config.h:5-15 | at the start 49 inodes, 1023 blocks, 20 handles and 23 entries of the directory are free |
| IndexedSizes.RoomyWrite | tfs/fs/operations.c:139-204 | repaired: with 266 blocks free a write is cut at byte 272384 and nowhere else |
| IndexedSizes.FirstWrite | tfs/fs/operations.c:41-205 | repaired: from the start, the first write to the first file makes it the first 272384 bytes of the buffer |
| IndexedMap.WriteMaps | tfs/fs/operations.c:107-205 | repaired: a write is the splice of the map at the end or at the handle, and changes no other file |
| IndexedMap.WriteFillsRoom | tfs/fs/operations.c:139-204 | repaired: a write replies as many bytes as it has and the tables have room for, and no fewer |
| IndexedMap.ReadMaps | tfs/fs/operations.c:208-292 | repaired: a read is the slice of the map |
| IndexedMap.OpenMaps | tfs/fs/operations.c:41-102 | repaired: within the rules an open is the open of the map |
| IndexedMap.RoomExact | tfs/fs/operations.c:139-204 | repaired: the map is told that there is room for k bytes, for every k that fits in the largest file, if and only if there are blocks for them |
| IndexedMap.StepMaps | tfs/fs/operations.c:41-292 | repaired: every call within the rules takes the map's step and replies as the map does |
| IndexedMap.RunMaps | tfs/fs/operations.c:41-292 | repaired: every run within the rules is a run of the map |
| IndexedMap.RunsFromStart | tfs/fs/operations.c:8-18 | repaired: and from the start, that is from the empty map |
| IndexedMapSpec.StepWellFormed | tfs/fs/operations.c:41-292 | within the rules every handle stays inside a file of the map |
| Directory.ListedName | tfs/fs/state.c:303-327 | lookup succeeds if and only if the directory has the name, and finds a file listed under it |
| Directory.AddedKeeps | tfs/fs/state.c:261-295 | a new name for a new file keeps names and inode numbers distinct |
| Directory.AddedFinds | tfs/fs/state.c:261-327 | the new file is found under its name and every other name as before |
| IndexedOpenLaw.OpenNewLaw | tfs/fs/operations.c:76-97 | in either variant a file is made exactly when an inode, a block and an entry are free, and starts empty |
| IndexedOpenLaw.TruncateLaw | tfs/fs/operations.c:59-68 | in either variant the truncated file is empty and no other has changed; repaired, every block keeps its one owner |
| IndexedOpenLaw.OpenGoodExact | tfs/fs/operations.c:59-75 | repaired: opening leaves every handle inside its file if and only if it does not truncate under a handle past the start |
| IndexedOpenLaw.WriteGood | tfs/fs/operations.c:107-205 | repaired: a write leaves every file and handle fit for the laws of reading and writing |
| IndexedOpenLaw.RunsStayGood | tfs/fs/operations.c:41-292 | repaired: in every state a run within the rules reaches, the laws of reading and writing hold for every open handle |
| IndexedFileSystem.FileSystem.constructor | tfs/fs/operations.c:8-18 | tfs_init leaves the tables in the initial state |
| IndexedFileSystem.FileSystem.DirectLoop | tfs/fs/operations.c:141-160 | the direct loop on the arrays does what the loop of the model does |
| IndexedFileSystem.FileSystem.IndirectLoop | tfs/fs/operations.c:166-195 | the indirect loop on the arrays does what the loop of the model does |
| IndexedFileSystem.FileSystem.Write | tfs/fs/operations.c:107-205 | the new tables and the result are those of the write the theorems are about, from any state; a consistent state stays so |
| IndexedFileSystem.FileSystem.Read | tfs/fs/operations.c:208-292 | the new tables, the bytes and the result are those of the read the theorems are about |
| IndexedOps.InitMakesRoot | tfs/fs/state.c:130-149 | the first inode_create for a directory makes the root, inode 0 in block 0 |
| IndexedFileSystem.FileSystem.InodeCreate | tfs/fs/state.c:117-174 | creation in place, directory and file, with the inode given back or leaked when no block is left |
| IndexedFileSystem.FileSystem.DatablocksErase | tfs/fs/state.c:202-227 | the two erasing loops free every block named and clear the index block, and as written leave the direct numbers |
| IndexedFileSystem.FileSystem.InodeDelete | tfs/fs/state.c:182-198 | deletion in place, error cases included |
| IndexedFileSystem.FileSystem.AddDirEntry | tfs/fs/state.c:261-295 | the first unused entry is filled, and -1 on every error the source knows |
| IndexedFileSystem.FileSystem.AddToOpenFileTable | tfs/fs/state.c:384-398 | the lowest free handle is taken |
| IndexedFileSystem.FileSystem.Close | tfs/fs/state.c:405-415 | exactly an open handle is freed |
| IndexedFileSystem.FileSystem.Lookup | tfs/fs/operations.c:30-39 | lookup in place is the lookup of the model |
| IndexedFileSystem.FileSystem.Open | tfs/fs/operations.c:41-102 | open in place is the open of the model, from any state; a consistent state stays so unless, as written, a file with bytes is emptied |
| IndexedOpenLocks.CreateLocksExact | tfs/fs/operations.c:76-94 | as written: making a file goes through its inode locks if and only if there is room for the file |
| IndexedOpenLocks.OpenLocksExact | tfs/fs/operations.c:41-102 | as written: an open goes through its inode locks and comes back with none if and only if it does not set out to make a file there is no room for |
| IndexedOpenLocks.OpenLocksAre | tfs/fs/operations.c:41-102 | as written: which inode locks an open takes and gives back, in order, in each of its cases |
| Appends.MoveKeeps | tfs/fs/operations.c:129-204 | every step keeps one owner of the lock, and no offset taken is past the end; an offset taken under the lock is the end |
| Appends.StartInv | tfs/fs/operations.c:107-127 | any distinct handles on one file are a start |
| Appends.StoreSplices | tfs/fs/operations.c:133-204 | a locked section lays its record over the file at the offset its handle holds |
| Appends.RunExact | tfs/fs/operations.c:129-204 | a run leaves the old contents followed by all records in lock order if and only if no locked section wrote at an offset no longer the end; otherwise bytes are missing |
| Appends.AppendsNeverOverwrite | tfs/fs/operations.c:129-204 | with the offset taken under the lock every interleaving appends |
| Appends.RecordExact | tfs/fs/operations.c:139-204 | a record is the longest start of the buffer that fits in the largest file and has blocks |
| Appends.RecordSome | tfs/fs/operations.c:139-204 | a locked section with room for a byte writes nothing only if it has nothing to write |
| Appends.AppendLost | tfs/fs/operations.c:129-135 | as written: from any state with room and two idle threads, seven steps after which the file is shorter than its old contents and the two records |
| OneBlockState.WriteCount | tfs_server/fs/operations.c:172-174 | as many bytes as fit in the block from the offset on |
| OneBlockState.ReadCountExact | tfs_server/fs/operations.c:224-227 | the unsigned subtraction gives what is left to read if and only if the offset is within the file, or nothing is asked |
| OneBlockInvariant.AtMost24Inodes | tfs_server/fs/state.c:97-140 | at most 24 inodes are live |
| OneBlockInvariant.AtMost24Blocks | tfs_server/fs/state.c:260-272 | at most 24 blocks are TAKEN |
| OneBlockInvariant.NeverFull | tfs_server/fs/operations.c:111-180 | so neither inode_create nor the allocation in tfs_write fails |
| OneBlockRefinement.EntryFound | tfs_server/fs/state.c:231-254 | an entry is found by its name, and its inode leads back to the name |
| OneBlockRefinement.NameFound | tfs_server/fs/state.c:231-254 | lookup succeeds if and only if the map has the name, and finds a live file of that name |
| OneBlockRefinement.FileNamed | tfs_server/fs/state.c:231-254 | every live file has a name that leads to it |
| OneBlockSteps.WriteShape | tfs_server/fs/operations.c:158-199 | a write is the update of one block, one inode and one handle, and the block is nobody else's |
| OneBlockSteps.WriteKeeps | tfs_server/fs/operations.c:158-199 | a write keeps ownership, directory, handles and count |
| OneBlockSteps.WriteRefines | tfs_server/fs/operations.c:158-199 | a write is the splice of the map, moves its handle, and changes no other file |
| OneBlockSteps.ReadRefines | tfs_server/fs/operations.c:211-243 | a read is the slice of the map and moves its handle |
| OneBlockSteps.StrayReads | tfs_server/fs/operations.c:223-240 | a handle past the end of its file reads as many bytes as it asks for, or fails, where the map has none |
| OneBlockSteps.ReadsAgreeExact | tfs_server/fs/operations.c:211-243 | every read through every open handle is answered as the map answers it if and only if all handles stand inside their files |
| OneBlockSteps.CloseKeeps | tfs_server/fs/state.c:327-335 | closing keeps the invariant, with the count of open files |
| OneBlockSteps.CloseRefines | tfs_server/fs/operations.c:146-156 | closing removes exactly the handle, or refuses one that is not open |
| HandleTable.FirstFreeIsLeast | tfs_server/fs/state.c:309-320 | the handle given is the least unused one |
| OneBlockSteps.AddOpenRefines | tfs_server/fs/state.c:309-320 | the new handle is on the file's name, and nothing else changes |
| OneBlockSteps.TruncateOwned | tfs_server/fs/operations.c:93-101 | truncation keeps ownership and directory, as written |
| OneBlockSteps.TruncateExact | tfs_server/fs/operations.c:93-101 | after a truncation every read is answered as the map answers it if and only if no handle on the file stood past its start |
| OneBlockSteps.TruncatedStillReads | tfs_server/fs/operations.c:93-101 | a handle that did reads as many bytes as it asks for out of the empty file |
| OneBlockSteps.TruncateRefines | tfs_server/fs/operations.c:93-101 | the truncated file is empty and no other has changed |
| OneBlockCreate.NamesCount | tfs_server/fs/state.c:213-222 | a directory of distinct names has fewer names than entries if and only if one is unused |
| OneBlockCreate.RoomAgrees | tfs_server/fs/state.c:213-222 | the map has fewer than 23 files if and only if add_dir_entry finds an entry |
| OneBlockCreate.RollbackRestores | tfs_server/fs/operations.c:111-119 | when the directory is full, or the name empty, the same inodes and blocks are TAKEN as before and no file has changed |
| OneBlockCreate.CreatedDirectoryExact | tfs_server/fs/operations.c:108-120 | after a creation the directory is still a map if and only if the name, as stored, was not in it |
| OneBlockCreate.CreatedLookup | tfs_server/fs/state.c:215-218 | the new file is found under its name if and only if that has at most 39 characters, and no other lookup changes |
| OneBlockCreate.CreatedRefines | tfs_server/fs/operations.c:108-120 | a creation adds one empty file to the map |
| OneBlockSpec.StepWellFormed | tfs_server/fs/operations.c:81-243 | within the rules every handle stays inside a file of the map |
| OneBlockSpec.OthersUntouched | tfs_server/fs/operations.c:81-243 | no run changes a file it does not truncate or write to, and none loses a name |
| OneBlockSpec.WriteThenRead | tfs_server/fs/operations.c:158-243 | what was written is read back through any other handle at the same place |
| OneBlockRuns.LookupAgrees | tfs_server/fs/operations.c:61-70 | lookup follows the map |
| OneBlockOpen.NoSlash | tfs_server/fs/operations.c:40-63 | a path without a leading slash, or with nothing behind it, is not found, and without TFS_O_CREAT it is not opened and nothing changes |
| OneBlockOpen.SlashName | tfs_server/fs/operations.c:61-70 | what follows the slash is the name: lookup gives the inode number of the first entry used for it, and -1 if and only if there is none |
| OneBlockOpen.NotOpened | tfs_server/fs/operations.c:85-123 | what is not found is not opened without TFS_O_CREAT, nor is an entry that names no inode, and nothing changes |
| OneBlockOpen.OpenFound | tfs_server/fs/operations.c:84-107 | on any tables: a file found is opened at its end or its start and counted, truncation frees its block and fails exactly on a file with bytes and no block, and nothing is opened while the state is closing |
| OneBlockOpen.TwentyFromStart | tfs_server/fs/state.c:309-320 | from the start, opens of a new name give out the handles 0 to 19 and from then on fail |
| OneBlockFailures.Refused | tfs_server/fs/operations.c:158-169 | a handle that is not one, or on no inode, is answered with -1 and changes nothing |
| OneBlockFailures.WritesNothing | tfs_server/fs/operations.c:171-186 | a write of nothing or at the end of the block is 0; the first write to a file on a full disk is -1 and leaves the file without a block |
| OneBlockFailures.ReadsNothing | tfs_server/fs/operations.c:224-236 | a read at the end of the file is 0; one of a file with bytes and no block is -1 |
| OneBlockFailures.CreateFails | tfs_server/fs/state.c:97-140 | inode_create for a file fails if and only if no inode is free, and then changes nothing |
| OneBlockFailures.CreateDirectoryFails | tfs_server/fs/state.c:108-117 | for a directory it fails without a block too, and the inode is given back |
| OneBlockFailures.DeleteExact | tfs_server/fs/state.c:147-166 | inode_delete succeeds if and only if the inode is TAKEN and has a block if it has bytes; what it frees, and what it leaves otherwise |
| OneBlockFailures.AddToRootExact | tfs_server/fs/state.c:191-226 | a name is entered if and only if inode, name and directory are what they should be and an entry is unused; otherwise nothing changes |
| OneBlockRuns.OpenExact | tfs_server/fs/operations.c:81-144 | tfs_open is the open of the map, in state, reply and every read that may follow, if and only if the caller keeps the rules |
| OneBlockRuns.OpenKeepsExact | tfs_server/fs/operations.c:81-144 | and it keeps the invariant exactly then |
| OneBlockRuns.StepRefines | tfs_server/fs/operations.c:81-243 | every call within the rules keeps the invariant, takes the map's step and replies as the map does |
| OneBlockRuns.RunRefines | tfs_server/fs/operations.c:81-243 | every run within the rules is a run of the map |
| OneBlockRuns.RunsNeverFill | tfs_server/fs/state.c:97-140 | in every state a run reaches neither table is full, and open_files_number is the number of TAKEN entries |
| OneBlockRuns.InitialRefines | tfs_server/fs/operations.c:11-27 | the file system starts as the empty map |
| OneBlockRuns.RunsFromStart | tfs_server/fs/operations.c:11-27 | every run within the rules from the start is a run of the empty map |
| OneBlockState.InitMakesRoot | tfs_server/fs/state.c:110-130 | the first inode_create for a directory makes the root, inode 0 in block 0 |
| OneBlockRuns.LookupStable | tfs_server/fs/operations.c:61-70 | a name once found leads to the same inode in every later state |
| OneBlockFileSystem.FileSystem.constructor | tfs_server/fs/operations.c:11-27 | tfs_init leaves the tables in the initial state |
| OneBlockFileSystem.FileSystem.InodeCreate | tfs_server/fs/state.c:97-140 | creation in place, directory and file |
| OneBlockFileSystem.FileSystem.InodeDelete | tfs_server/fs/state.c:148-166 | deletion in place, error cases included |
| OneBlockFileSystem.FileSystem.AddDirEntry | tfs_server/fs/state.c:191-223 | the first unused entry is filled, and -1 on every error the source knows |
| OneBlockFileSystem.FileSystem.AddToOpenFileTable | tfs_server/fs/state.c:309-320 | the lowest free handle is taken and counted |
| OneBlockFileSystem.FileSystem.Close | tfs_server/fs/state.c:327-335 | exactly an open handle is freed and counted off |
| OneBlockFileSystem.FileSystem.Open | tfs_server/fs/operations.c:81-144 | open in place is the open of the model |
| OneBlockFileSystem.FileSystem.Write | tfs_server/fs/operations.c:158-209 | write in place is the write of the model, from any offset in a block |
| OneBlockFileSystem.FileSystem.Read | tfs_server/fs/operations.c:211-253 | read in place is the read of the model, also from past the end of the file, where it goes on through the blocks behind |
| OneBlockFileSystem.FileSystem.Serve | tfs_server/fs/tfs_server.c:379-485 | within the rules, what a worker is asked is done to the map and answered as the map answers |
| Shutdown.OpenAdds | tfs_server/fs/operations.c:81-132 | an open adds one TAKEN entry exactly when it succeeds, and the count follows |
| Shutdown.ZeroIsNone | tfs_server/fs/state.c:349-351 | the count is zero if and only if no entry is TAKEN |
| Shutdown.MoveKeeps | tfs_server/fs/operations.c:44-156 | every step keeps mutual exclusion, the count, and that a destroyer asleep has something to wait for |
| Shutdown.LeavesWhenNoneOpen | tfs_server/fs/operations.c:47-50 | when the destroyer leaves its loop no entry is TAKEN |
| Shutdown.NoLostWakeup | tfs_server/fs/operations.c:146-156 | with the lock free, a destroyer asleep means an open file; with none open the destroyer has a step to take |
| Shutdown.OpensAfterClosing | tfs_server/fs/operations.c:134-144 | once closing, the opens that succeed number at most the threads past the check as written, none with the check under the lock |
| Shutdown.OpenAfterDestroy | tfs_server/fs/operations.c:44-59 | after the destroyer has left, TAKEN entries never exceed those threads, and with the check under the lock there are none |
| Shutdown.OpenedAfterDestroy | tfs_server/fs/operations.c:134-144 | as written: a thread past the check opens its file after the destroyer is gone |
| Shutdown.PassedBeforeDestroy | tfs_server/fs/operations.c:134-138 | as written: that state is reached from the start |
| Shutdown.FileOpenAfterShutdown | tfs_server/fs/operations.c:44-144 | as written: a run from the start at the end of which the destroyer is gone and a file is open |
| ShutdownProgress.CallsReturn | tfs_server/fs/operations.c:44-58 | without further calls every run is at most as long as the rank of its first state, and four steps more for each unasked wakeup, whatever the order of the steps |
| ShutdownProgress.RestExact | tfs_server/fs/operations.c:44-58 | such a run has no step left if and only if every call has returned, but for a destroyer that sleeps while a file is open |
| ShutdownProgress.CountPastExact | tfs_server/fs/operations.c:134-140 | the bound on late opens is the number of threads between the check of the flag and their open |
| SessionTable.SessionFor | tfs_server/fs/tfs_server.c:546-567 | a mount is refused if and only if its path is present or all sessions are used, and otherwise gets the first free one |
| SessionTable.AddedDistinct | tfs_server/fs/tfs_server.c:546-567 | adding a path keeps the paths distinct |
| SessionTable.RunsKeepDistinct | tfs_server/fs/tfs_server.c:546-576 | live sessions have distinct paths after any mounts and unmounts |
| SessionTable.LeaveUndoesEnter | tfs_server/fs/tfs_server.c:546-576 | an unmount undoes its mount, and until then a second mount of the path is refused |
| SessionTable.ClientPipes.AddClientPipe | tfs_server/fs/tfs_server.c:546-567 | the two loops give that session and change that entry only |
| SessionTable.ClientPipes.RemoveClientPipe | tfs_server/fs/tfs_server.c:570-576 | one entry is emptied |
| RequestRing.AdvanceSlot | tfs_server/fs/tfs_server.c:619-624 | counters that wrap at n are the positions mod n |
| RequestRing.SlotsApart | tfs_server/fs/tfs_server.c:304-307 | positions less than a turn apart are different slots, and a turn leads back |
| RequestRing.StoreKeeps | tfs_server/fs/tfs_server.c:301-307 | with fewer than n waiting the producer's slot is free, and filling it queues the request |
| RequestRing.ClearKeeps | tfs_server/fs/tfs_server.c:167-171 | emptying the worker's slot takes the oldest request |
| RequestRing.RingInOrder | tfs_server/fs/tfs_server.c:136-171 | received is processed followed by what the worker finds in the slots from its counter on |
| RequestInvariant.StoreSlot | tfs_server/fs/tfs_server.c:358-376 | storing a request keeps slots, counters and what is pending of a session |
| RequestInvariant.ActedOn | tfs_server/fs/tfs_server.c:141-166 | serving the slot takes exactly its request off what is pending, and who has the session changes as the request says |
| RequestInvariant.UnmountKeeps | tfs_server/fs/tfs_server.c:346-355 | after an unmount nothing of its client is pending and the session can be given away, before the reply |
| RequestRuns.MoveKeeps | tfs_server/fs/tfs_server.c:60-178 | every step of any thread keeps the invariant of the server |
| RequestRuns.StartInv | tfs_server/fs/tfs_server.c:181-238 | the server starts in the invariant, for any numbers of sessions and slots |
| RequestRuns.NeverOverwrites | tfs_server/fs/tfs_server.c:284-376 | in every run the slot the receiver is about to fill is free |
| RequestRuns.ReceivedInOrder | tfs_server/fs/tfs_server.c:120-172 | in every state: received is processed then slots, in order; the counters are the numbers stored and consumed mod n; they differ by 0 to n |
| RequestRuns.NoLostWakeup | tfs_server/fs/tfs_server.c:133-140 | with its lock free a worker asleep has nothing to do |
| RequestRuns.MainNotAsleep | tfs_server/fs/tfs_server.c:46-52 | main is not asleep once the server is closed |
| RequestLocks.LockOrder | tfs_server/fs/tfs_server.c:120-178 | who waits for server_lock, the table's lock or the global lock has at most the lock of a session; who waits for a session's lock has none |
| RequestLocks.AtMostOneEach | tfs_server/fs/tfs_server.c:120-178 | a thread has at most one session's lock and at most one of the other three |
| RequestLocks.StepsUnderLocks | tfs_server/fs/tfs_server.c:60-178 | server_open, the session table, file operations, slots and counters are read and changed by the thread that has the lock that guards them |
| RequestLocks.NoCyclicWait | tfs_server/fs/tfs_server.c:28-178 | in no state of any run from the start do threads wait for each other's locks in a ring |
| RequestLocks.BusyMoves | tfs_server/fs/tfs_server.c:60-178 | a busy thread can go on unless another has the one lock it needs next or it waits in a shutdown for files to be closed |
| RequestLocks.HoldersMove | tfs_server/fs/tfs_server.c:60-178 | whoever has a lock is busy, and whoever has one of the three other locks can go on at once |
| RequestLocks.StuckExact | tfs_server/fs/tfs_server.c:507-517 | while a shutdown is served the receiver is or comes to be stuck behind it exactly when its client has another request outstanding that is in no slot |
| RequestLocks.OneSlotNeverStuck | tfs_server/fs/tfs_server.c:507-517 | with one slot, as in the source, that never happens in any run |
| RequestLocks.StuckForGood | tfs_server/fs/tfs_server.c:507-517 | with more slots, once more files are open than closes are in slots, no run frees the receiver |
| RequestDeadlock.ReceiverStuckForGood | tfs_server/fs/tfs_server.c:507-517 | with two slots a run from the start leads there: after it no run gets the receiver past the shutdown, with the close in its hands |
| RequestExit.PassedMove | tfs_server/fs/tfs_server.c:133-172 | after server_destroy has signalled a session only its worker's steps move it, each nearer to its exit, the taking of a lock included, but for the end of the wait of a further shutdown |
| RequestExit.WorkersExit | tfs_server/fs/tfs_server.c:241-253 | then it takes at most fourteen more steps, those that take a lock included, and three more for each time a further shutdown has waited |
| RequestExit.RankBounds | tfs_server/fs/tfs_server.c:133-172 | and it has none left exactly when it has exited |
| RequestRuns.ClosedByShutdown | tfs_server/fs/tfs_server.c:507-517 | the server closes for good, and only on a shutdown request that succeeded |
| RequestFiles.FilesCounted | tfs_server/fs/state.c:309-335 | in every run from the start the files open are the opens that succeeded less the closes that succeeded while one was open, both counted from the moves |
| RequestFiles.ShutdownWaits | tfs_server/fs/operations.c:44-50 | a shutdown goes through if and only if every file opened has been closed, and otherwise waits for exactly that |
| RequestRuns.MountExact | tfs_server/fs/tfs_server.c:546-566 | in the server too a mount is refused if and only if its path has a session or none is free, and otherwise gets the first free one |
| RequestRuns.MountsAnswered | tfs_server/fs/tfs_server.c:316-324 | a mount is answered on the path of the client that sent it, and live sessions have distinct paths |
| RequestHistory.ClientsInTurn | tfs_server/fs/tfs_server.c:284-355 | in every run from the start the requests of different clients never mix in a session: a mount comes first and right after each unmount, and nowhere else |
| Wire.LeRoundTrip | tfs_server/client/tecnicofs_client_api.c:101-108 | the bytes of a number give the number |
| Wire.OfLeRoundTrip | tfs_server/fs/tfs_server.c:361-369 | and any bytes are those of the number they give |
| Wire.RoundTrip | tfs_server/client/tecnicofs_client_api.c:93-228 | an encoded request comes back whatever follows it, and nothing of what follows is taken |
| Wire.DecodeExact | tfs_server/fs/tfs_server.c:284-500 | decoding returns a request if and only if it is valid and the bytes taken are its encoding |
| Wire.StreamRoundTrip | tfs_server/fs/tfs_server.c:60-117 | the stream of any list of requests decodes to the list with nothing left over |
| Wire.StreamsDiffer | tfs_server/fs/tfs_server.c:60-117 | two lists with the same bytes are the same list |
| Wire.StreamGrows | tfs_server/client/tecnicofs_client_api.c:231-242 | a request put behind a stream is one more request |
| Wire.PrefixIncomplete | tfs_server/fs/tfs_server.c:533-543 | a request that has not all arrived is never taken for another |
| Wire.EncodedLength | tfs_server/client/tecnicofs_client_api.h:9-15 | the sizes of the buffers |
| Wire.RequestBytes | tfs_server/common/common.h:16-25 | the bytes of all seven requests, opcode and fields |
| Wire.LeAt | tfs_server/client/tecnicofs_client_api.c:101-108 | every byte of a number: least significant first |
| Wire.IntBytesExact | tfs_server/client/tecnicofs_client_api.c:101-108 | the four bytes of an int, least significant first, in two's complement |
| Wire.SsizeBytesExact | tfs_server/fs/tfs_server.c:433-485 | the eight bytes of a count, likewise |
| Wire.NameSurvives | tfs_server/client/tecnicofs_client_api.c:105-106 | the server reads the name whatever lies behind it in the 40 bytes |
| Wire.ReplyRoundTrip | tfs_server/fs/tfs_server.c:379-485 | what the client takes from its pipe is what the worker put there |
| Transfers.WriteOnPipe | tfs_server/client/tecnicofs_client_api.c:231-242 | however the pipe cuts it, the whole buffer goes in, in order |
| Transfers.ReadFromPipe | tfs_server/fs/tfs_server.c:533-543 | however the pipe cuts it, exactly the next len bytes come out |
| Transfers.WriteReply | tfs_server/fs/tfs_server.c:316-515 | a worker's reply goes whole into the pipe of its client |
| Transfers.ClientApi.Mount | tfs_server/client/tecnicofs_client_api.c:15-57 | byte 1 and the path go into the pipe, the session is that of the reply, and -1 means refused |
| Transfers.ClientApi.Unmount | tfs_server/client/tecnicofs_client_api.c:60-90 | byte 2 and the session go into the pipe, the reply is returned and the session is given up |
| Transfers.ClientApi.Open | tfs_server/client/tecnicofs_client_api.c:93-118 | the buffer filled field by field is byte 3, session, name and flags, which is the encoding, goes into the pipe, and the handle replied is returned |
| Transfers.ClientApi.Close | tfs_server/client/tecnicofs_client_api.c:121-144 | likewise for close: byte 4, session and handle |
| Transfers.ClientApi.Write | tfs_server/client/tecnicofs_client_api.c:147-174 | likewise for write, byte 5 and the fields, with its payload and the count replied |
| Transfers.ClientApi.Read | tfs_server/client/tecnicofs_client_api.c:177-204 | likewise for read, byte 6 and the fields, with the count replied and as many bytes |
| Transfers.ClientApi.ShutdownAfterAllClosed | tfs_server/client/tecnicofs_client_api.c:207-228 | likewise for shutdown: byte 7 and the session |
| Transfers.ReadRequest | tfs_server/fs/tfs_server.c:71-113 | the receiver's reads, field by field, return the request that decoding the pipe gives and leave the rest |
| Transfers.ReadAll | tfs_server/fs/tfs_server.c:71-114 | the receiver gets the requests sent, in that order, however their bytes are cut |

## Left out

- Locks in the two file system classes: their methods run alone, as each does under its lock. `Appends` and `Shutdown`
  model the interleavings; in `Appends` a locked section of `tfs_write` is one step, since only its last line shows to
  threads outside the lock. Two threads that open or create at once in the multi-block version are not modelled. There an
  open that finds no room locks inode -1 or an inode it holds already (`IndexedOpenLocks.OpenLocksExact`); `IndexedOps.Open`
  takes those calls to return, with -1.
- The bytes of directory entries and of block numbers inside a block: a block is typed by its last use, and one that did
  not hold data reads as zeros until it is written. No theorem about contents depends on it. A block of block numbers that
  bytes have overwritten, which takes a truncation as written, has no numbers in the model.
- The bytes of a file between its size and the end of its block, and what an overlong read as written does to the
  caller's buffer: the model returns the bytes as a sequence.
- `IndexedReadback.WritesLay`: speaks of runs whose writes all return the length of their buffer, because after a short
  write the lengths of the records no longer say what was written.
- `IndexedMap.RunMaps`: like `IndexedOpenLaw.RunsStayGood` it does not cover runs that truncate a file under a handle past
  its start; a write through such a handle leaves a hole without blocks, which the source reads as the end of the file.
- `OneBlockState.Write`: does not model a write from an offset outside of a block, where the source copies past its tables;
  no handle gets there within the rules. What a read from past the end finds behind the last block reads as zeros.
- Names with a NUL inside, the empty path (the source reads past its end), `NULL` paths and buffers.
- `size_t` wrap-around on offsets and lengths beyond the model's 64-bit lengths, and `int` overflow of an offset cast to
  `int`: no file is large enough.
- Reads and writes through handles that were closed or never given out: the source does not check the TAKEN mark.
- `tfs_copy_to_external_fs`: almost all of it is calls to the host's file system.
- Two callers of shutdown at once, and a shutdown that fails: `Shutdown` has one destroyer.
- `Shutdown.NoLostWakeup`: says that a step is possible, not that it is taken; `ShutdownProgress` bounds the steps there are.
  That clients close their files and that the scheduler lets every thread run is not modelled.
- Creating, opening, closing and unlinking pipes, end of file on the server's pipe, failed system calls, `exit` on a bad
  opcode, `pthread_cancel`, allocation of memory, delays.
- A reply handed over in pieces: the client library reads it with a single call, which is taken to hand over all of it; a
  reply of -1 to a read, which it would take for a length.
- Requests of different clients mixed byte by byte in the server's pipe: a request is written as a whole, as the system
  promises for short writes.
- The wakeup that ends the wait of a shutdown: the request server lets it end when no file is open, and `Shutdown` models
  how it is signalled. Which files a call opens or closes is an outcome of the call there.
