# Verified models of the stateful cores

This Dafny project models parts of the repository as their own state machines and classes, and
proves what each is for.

**PebbleDB storage engine** (`Pebble*.dfy`). `PebbleEngine` is the engine as atomic actions over what
survives a crash (log files by number, table files by number, the manifest, the scratch manifest) and
what does not (MemTables, open tables, counters). Every append, publish, rotation and deletion is one
action, every action that can fail has a failing outcome, and a crash can come after any of them.
`PebbleGuarantees` states what holds of every run. `PebbleLedger` keeps an account of a run and says, for every
run, what recovery shows and exactly when it loses something; `PebbleTornFlush` has runs in which it does. `PebbleDatabase`, `PebbleMemTable` and
`PebbleDevice` are the classes: each change `DB` makes to the disk is one action of the machine, so the
statements about runs hold of the code at every point where it can be interrupted.

**PebbleDB file formats** (`Codec`, `WalFormat`, `WalFile`, `BloomFilter`, `TableFile`, `TableWriter`,
`ManifestFormat`). Log, table and manifest files as bytes. The writers and the readers are proved to be
inverses, over all bytes where the reader is concerned; much of what `PebbleDevice` assumes of the files
is proved here of their bytes.

**xv6-plus redo log and buffer cache** (`LogImage`, `LogSpace`, `BufferCache`, `RedoLog`). `LogImage`
sees the log as the disk does, as a sequence of block writes that can be cut anywhere, and recovery as
another. `LogSpace` is the reservation protocol of begin_op, log_write and end_op over all interleavings.
`BufferCache` and `RedoLog` are the classes, with reference counts accounted for to the last pin; the
disk writes of a commit are proved to be the sequence `LogImage` reasons about.

**xv6-plus user allocator and lottery scheduler** (`FreeList`, `Allocator`, `Lottery`, `Xorshift`). The
K&R allocator over a ring of headers in memory, against a list of disjoint blocks; the lottery draw,
its fairness over all generator states, and its retries when other harts change the process table.

**xv6-plus file system blocks** (`FileBlocks`, `FileSystem`, `OpenFile`). The free bitmap, inodes and
indirect blocks, with one owner for every block in use; reading, writing and truncating as operations on
byte sequences, also when the disk fills half-way; and write(2) in chunks that each fit the log.

**xv6-plus process lifecycle** (`LifeCycle`, `LifeCycleRun`). fork, exit, wait, sleep, wakeup, kill, yield and the
scheduler on any number of harts, as critical sections that interleave in every way.

**xv6-plus memory** (`PageTables`, `MemoryChanges`, `VirtualMemory`). The page allocator and Sv39 page-table
trees, with one owner for every page; mapping, growing, shrinking, faulting, forking and freeing, with
every out-of-memory path.

**ArcServe HTTP/1.1 parser** (`HttpParser`, `HttpSession`, `HttpGrammar`, `HttpRefusals`,
`HttpFields`, `HttpLimits`, `HttpRequestParser`). The
chunked parser, with every branch and cap, against a parser that reads one byte at a time, and against
the grammar of the lines it accepts.

**ArcServe server** (`ServerProtocol`, `ServerAnswers`, `ServerRuns`, `ServerConnection`). Connections, the
reactor's callbacks and the worker pool, interleaved in every way, down to shutdown; what each callback owes the
peer; and the connection as objects.

**FlashLite online softmax** (`OnlineSoftmax`). The tiled one-pass recurrences against the plain
definition, over reals.

Assumptions about what lies outside the model:

- PebbleDB: the sync policy is `kEveryWrite`. `AddRecord` makes the record durable, or leaves nothing, a part of
  it (a torn append), or all of it with its sync failed. `rename` publishes the manifest atomically. The log
  reader stops in front of the first torn bytes, and takes what follows for the rest of the torn record: a torn
  record while there are too few bytes to fill it, a corrupt one from then on. `WalFormat.ReplayBehindTorn`
  proves that of the bytes, for a record torn behind its header and no chance match of a checksum.
- PebbleDB files: the checksum is any function from bytes to 32 bits, extended piece by piece; `read` gives
  what is there or an error, and `write` all of it, or an error and perhaps some of it. Keys and values of a
  table are shorter than 2^32 bytes. The number of Bloom probes, which comes from a floating-point product, is
  any number from 1 to 30.
- xv6-plus: one disk device. The disk writes one block at a time, each wholly or not at all. A caller
  changes a buffer only while it holds it, passes it to log_write before releasing it, and an operation
  adds at most MAXOPBLOCKS different blocks to the log. `bget` is called with a buffer to give.
- File system: callers hold the inode's lock, the source of a write and the target of a read are mapped,
  and the bitmap takes at most three blocks. A block is seen as bytes or as addresses, as its owner sees it.
- Memory: a process stays below TRAPFRAME in size. A page is seen as entries or as bytes, as its owner sees
  it. Addresses that the source requires to be aligned are page numbers.
- Server: what the handler and the serializer return depends on their argument alone, and how many bytes
  the socket takes is arbitrary. A callback is one step: it shares one thing with the workers, the pool's
  queue, and looks at it once.
- Processes: a spin lock is free or held by one process; whoever finds it held waits, which is no step.
- Allocator: programs free only what malloc gave them, once, and stay inside their blocks. sbrk returns
  memory at or above the previous program break.
- Softmax: `exp` is any positive function that turns sums into products; scores are real or masked.

## Model

| member | source | states |
|---|---|---|
| PebbleGuarantees.RecoveryYieldsAcceptedWrites | projects/06-pebbledb/src/db.cpp:50-188 | After any run of writes, flushes, failures, crashes and reopens in which no recovery has cut away records stranded behind a torn append and no refused write is wholly in a log, a successful recovery shows exactly the map of all writes the log accepted, in order |
| PebbleGuarantees.ServesAcceptedWrites | projects/06-pebbledb/src/db.cpp:190-290 | Under the same condition, a running database shows the map of all accepted writes, except for one that is logged and not yet in the MemTable |
| PebbleGuarantees.CrashKeepsEverythingServed | projects/06-pebbledb/src/db.cpp:297-468 | Under the same condition, as long as no record is stranded and the log is not filled up behind a torn append, a crash after any step, followed by recovery, shows what was shown before, plus at most the write in flight |
| PebbleLedger.AccountIsRight | projects/06-pebbledb/src/db.cpp:50-468 | In every run, the account that is kept of it, from the actions alone, agrees with the log and the tables on disk and with every layer in memory |
| PebbleLedger.ServesTheAccount | projects/06-pebbledb/src/db.cpp:190-290 | In every run, without condition, a running database shows the map of the account: what it recovered and every write accepted since, except one in flight |
| PebbleLedger.RecoveryShows | projects/06-pebbledb/src/db.cpp:50-188 | In every run, without condition, a recovery shows the writes in listed tables and, replayed over them, those in the log |
| PebbleLedger.RecoveryShowsPrefixIff | projects/06-pebbledb/src/db.cpp:50-188 | A recovery shows the map of the first n writes served if and only if those n leave the keys in the log as the log does and all other keys as the tables do |
| PebbleLedger.RecoveryShowsAPrefixIff | projects/06-pebbledb/src/db.cpp:50-188 | And a map that the database has stood for before, if and only if there is such an n |
| PebbleLedger.ListedWritesShowIff | projects/06-pebbledb/src/db.cpp:318-413 | A recovery shows all the writes that are in tables if and only if none of them has given a key in the log another value than the log does |
| PebbleLedger.LogAloneShowsIff | projects/06-pebbledb/src/db.cpp:88-106 | A recovery shows no writes but those of the log, on top of what the tables held when the log was begun, if and only if the writes in tables since then have changed no other key |
| PebbleLedger.NothingIsLostIff | projects/06-pebbledb/src/db.cpp:50-188 | A recovery shows everything that was served if and only if every key in the log has its latest value there, and every other key in the tables |
| PebbleLedger.RecoveryYieldsSurvivors | projects/06-pebbledb/src/db.cpp:50-188 | As long as no stranded write is in a table, a recovery shows what the tables held when the log was begun and then the writes that the log still has, in order |
| PebbleLedger.ExactIsAccepted | projects/06-pebbledb/src/db.cpp:190-256 | Until a recovery finds something else in the log, what is served is exactly the accepted writes, in order |
| PebbleLedger.RefusedWriteAfterCrash | projects/06-pebbledb/src/wal/writer.cpp:38-54 | A write refused because its sync failed changes nothing in the process; a crash later it is the last write that recovery shows if the log was intact, and cut away if it was torn |
| PebbleLedger.RefusedNumberIsReused | projects/06-pebbledb/src/db.cpp:190-206 | The next write gets the refused one's sequence number, and both are in the log |
| PebbleTornFlush.TornFlushMixesUp | projects/06-pebbledb/src/db.cpp:318-413 | A run with a torn append, two writes behind it, a table publish and a crash before the rotation; recovery then shows a map that no prefix of the accepted writes stands for, and a lookup answers with an older write than a lower layer has |
| PebbleTornFlush.TornFlushMayLoseNothing | projects/06-pebbledb/src/db.cpp:318-413 | A run of the same shape, with writes to two keys, after which recovery shows all accepted writes |
| PebbleTornFlush.TornFlushMayLoseAListedWrite | projects/06-pebbledb/src/db.cpp:318-413 | And one with two writes to one key, after which recovery shows the first alone, although a table has the second |
| PebbleGuarantees.AcceptedWriteSurvivesIffLogIntact | projects/06-pebbledb/src/db.cpp:121-137 | After a crash right behind an accepted write the database opens again and has that write exactly when the log had not been left torn by an earlier failed append |
| PebbleTornFlush.WriteBehindTornAppendIsLost | projects/06-pebbledb/src/wal/writer.cpp:38-54 | A failed append, then an accepted write, then a crash: the recovered history is empty although the write was accepted |
| PebbleGuarantees.CautiousRunsLoseNothing | projects/06-pebbledb/src/db.cpp:190-256 | If nothing is written between a torn append and the next recovery or rotation, and no sync fails, no run ever loses an accepted write or jams the log |
| PebbleGuarantees.ReopenIsPossible | projects/06-pebbledb/src/db.cpp:50-188 | As long as the log is not filled up behind a torn append, recovery can follow a crash at any point and drops only records stranded there |
| PebbleGuarantees.OpensIffNotJammed | projects/06-pebbledb/src/db.cpp:107-143 | After a crash some attempt to open the database works if and only if the log has not been filled up behind a torn append |
| PebbleGuarantees.JammedStaysShut | projects/06-pebbledb/src/db.cpp:107-120 | Once it has, no sequence of attempts and crashes ever brings a process up |
| PebbleTornFlush.WriteBehindTornAppendShutsTheDatabase | projects/06-pebbledb/src/wal/writer.cpp:38-54 | A failed append that lacks no more bytes than the next, accepted write adds, and a crash: the database never opens again, earlier writes included |
| PebbleGuarantees.OnlyWritesChangeLookups | projects/06-pebbledb/src/db.cpp:318-453 | Freezing, building, publishing, rotating, deleting a log and giving up leave every merged lookup as it was |
| PebbleGuarantees.AnsweringLayerIsNewest | projects/06-pebbledb/src/db.cpp:258-282 | The layer that answers for a key holds the highest sequence number any layer has for it, also after a crash between publish and rotation, unless a refused write is wholly in a log or a recovery has cut stranded records that a saved manifest had counted |
| PebbleGuarantees.LiveCounterIsExact | projects/06-pebbledb/src/db.cpp:208-212 | The live-key counter is the number of visible keys plus the number of failed bookkeeping lookups on live keys |
| PebbleGuarantees.RotationIsFresh | projects/06-pebbledb/src/db.cpp:415-453 | A rotation moves to a strictly higher log number with an empty file, although the saved next file number equals that log number |
| PebbleGuarantees.PublishIsFresh | projects/06-pebbledb/src/db.cpp:366-404 | A published table has a number above every listed one and holds the whole oldest immutable MemTable |
| PebbleGuarantees.InvKept | projects/06-pebbledb/src/db.cpp:297-468 | Every action keeps the invariant on file numbers, references, log contents, layers and counter |
| PebbleGuarantees.AbsorbingIsWriting | projects/06-pebbledb/src/db.cpp:206-213 | The MemTable taking a logged write is, to a reader, the write itself |
| PebbleEngineProofs.ResumedSequence | projects/06-pebbledb/src/db.cpp:85-106 | Replay leaves the sequence counter right after the last accepted write |
| PebbleEngineProofs.PublishKeepsLayers | projects/06-pebbledb/src/db.cpp:376-405 | Publishing the oldest immutable MemTable as the newest table leaves the stack of layers as it was |
| PebbleEngineProofs.AbsorbCounts | projects/06-pebbledb/src/db.cpp:510-530 | The counter moves with the set of live keys; a failed lookup only ever overcounts |
| PebbleHistory.AgreeingLayersShowTheFold | projects/06-pebbledb/src/db.cpp:258-290 | Layers that answer with the latest write show exactly the plain map of the history |
| PebbleHistory.AnswerIsNewest | projects/06-pebbledb/src/db.cpp:266-282 | No layer holds a newer entry for a key than the one that answers |
| PebbleDatabase.DB.Get | projects/06-pebbledb/src/db.cpp:258-290 | A found key has the plain map's value; a missing key is not in it; a read failure is reported exactly when the search meets an unreadable table before the key |
| PebbleDatabase.DB.Put | projects/06-pebbledb/src/db.cpp:190-227 | An accepted put overwrites in the plain map and extends the accepted writes; below the threshold, by the exact cost of the MemTable with the entry, the answer is Ok and nothing else has changed; at or above it the MemTable is frozen, and Ok means that all layers are tables, in order, and the log new and empty; IOError means that a call of the device has failed. A refused put changes nothing in the process, and leaves in the log nothing, a part, or all of its record; one too large for the log is refused as such, and nothing is written |
| PebbleDatabase.DB.Delete | projects/06-pebbledb/src/db.cpp:229-256 | An accepted delete removes the key from the plain map; otherwise the same as for put, with a tombstone for the entry |
| PebbleDatabase.DB.FlushLocked | projects/06-pebbledb/src/db.cpp:297-468 | A flush changes neither what is visible nor what was accepted; on success all pending layers are tables, in order, and the log is new and empty; it fails only if a call of the device has failed; with nothing pending it does nothing, not even a rotation that failed before |
| PebbleDatabase.DB.PublishTable | projects/06-pebbledb/src/db.cpp:366-405 | From the rename on, process and manifest list the new table, also when the directory sync fails; before it neither does |
| PebbleDatabase.DB.RotateWal | projects/06-pebbledb/src/db.cpp:415-468 | On success the log number has grown and its file is empty; the superseded log may remain |
| PebbleDatabase.DB.SaveManifest | projects/06-pebbledb/src/manifest/manifest.cpp:62-119 | `published` is set exactly when the rename happened, which is when the manifest on disk changes |
| PebbleDatabase.DB.Recover | projects/06-pebbledb/src/db.cpp:50-188 | Success, after any run, shows the writes in tables and then those in the log, which is all accepted writes if none was stranded or refused after reaching the log; it fails only when a call of the device has failed or, with a report of corruption, when the log is filled up behind a torn append, and then it always fails; a failed recovery changes nothing of what the next one shows |
| PebbleDatabase.DB.Open | projects/06-pebbledb/src/db.cpp:34-48 | The same of a database opened after any earlier run, wherever it stopped |
| PebbleDatabase.DB.ComputeLiveKeyCount | projects/06-pebbledb/src/db.cpp:472-508 | The scan counts the keys whose merged lookup is a value |
| PebbleDatabase.DB.IsKeyCurrentlyLive | projects/06-pebbledb/src/db.cpp:510-530 | The answer is whether the merged lookup is a value, and false exactly when, besides, the search meets an unreadable table first |
| PebbleMemTable.MemTable.Put | projects/06-pebbledb/src/memtable/memtable.cpp:13-29 | The entry is inserted and the memory estimate stays the sum of all entry costs |
| PebbleMemTable.MemTable.Delete | projects/06-pebbledb/src/memtable/memtable.cpp:31-47 | A tombstone is inserted and the memory estimate stays the sum of all entry costs |
| PebbleMemTable.MemTable.Get | projects/06-pebbledb/src/memtable/memtable.cpp:49-62 | Found, deleted or not found, as the table says |
| PebbleMemTable.CostAfterInsert | projects/06-pebbledb/src/memtable/memtable.cpp:19-28 | Replacing an entry changes the sum of costs by the difference of the two costs |
| PebbleMemTable.MemTableList.Get | projects/06-pebbledb/src/memtable/memtable_list.cpp:15-27 | The newest MemTable that mentions the key answers |
| PebbleMemTable.MemTableList.Freeze | projects/06-pebbledb/src/memtable/memtable_list.cpp:29-34 | The active MemTable becomes the newest immutable one |
| PebbleMemTable.MemTableList.RemoveImmutable | projects/06-pebbledb/src/memtable/memtable_list.cpp:36-43 | Exactly the given MemTable leaves the list; an unknown one changes nothing |
| WalFormat.CutLogReplays | projects/06-pebbledb/src/wal/reader.cpp:31-111 | A log cut at any byte replays to exactly the records that lie wholly before the cut, in order, ends as a clean or a torn log and never as a corrupt one, and the valid prefix is where they end |
| WalFormat.GotIffEncoded | projects/06-pebbledb/src/wal/record.cpp:77-133 | For all bytes: a replay takes a record off the front exactly when they start with the bytes of that record, so none is made up from anything else |
| WalFormat.RecordIsRead | projects/06-pebbledb/src/wal/record.cpp:47-105 | A record within the bounds on key and value is read back, whatever follows it; beyond them its bytes count as corrupt |
| WalFormat.TruncateThenAppend | projects/06-pebbledb/src/db.cpp:120-143 | A torn log, cut back to its valid prefix and appended to, replays to the records that survived and then the new ones, to a clean end |
| WalFormat.ReplayBehindTorn | projects/06-pebbledb/src/wal/reader.cpp:57-94 | Bytes appended behind a torn record that was not cut off: the replay ends at it as torn while they are too few to fill it, and as corrupt from then on, unless they have the torn record's checksum |
| WalFormat.WholeIsMost | projects/06-pebbledb/src/wal/reader.cpp:31-94 | The records before a cut are as many as fit |
| WalFile.LogWriter.AddRecord | projects/06-pebbledb/src/wal/writer.cpp:21-65 | A record is refused, and nothing written, exactly when a reader would refuse it; success means that it is in the log and as durable as the policy says, with a sync exactly when the policy asks for one; there is an error exactly when an append or a sync has failed, and then the log is torn, or the record is in it and its sync has failed |
| WalFile.LogWriter.AfterCrash | projects/06-pebbledb/src/wal/writer.cpp:41-65 | A crash that leaves at least the synced bytes replays to a prefix of the records that lacks at most those since the last sync |
| WalFile.LogReader.ReadNext | projects/06-pebbledb/src/wal/reader.cpp:31-94 | The first record of the bytes not yet consumed, or why there is none; from then on the same end for good |
| WalFile.LogReader.ReplayAll | projects/06-pebbledb/src/wal/reader.cpp:96-111 | The replay of the file's bytes and its valid prefix; when a read fails, a prefix of the records and a corrupt end |
| Codec.PutFetch | projects/06-pebbledb/src/util/coding.cpp:5-35 | The bytes of an integer are read back as it, and all bytes are those of the integer they are read as |
| Codec.DecodeFixed64 | projects/06-pebbledb/src/util/coding.cpp:28-35 | The loop from the highest byte computes that integer |
| Codec.EntryIsDecoded | projects/06-pebbledb/src/sstable/format.cpp:46-92 | For all bytes: an entry is decoded exactly from its own bytes, and what follows them is what is left |
| Codec.StripIsFinish | projects/06-pebbledb/src/sstable/format.cpp:119-154 | A raw block is accepted, with these contents, exactly if it is what finishing these contents makes |
| Codec.DecodeEncodeFooter | projects/06-pebbledb/src/sstable/format.cpp:156-204 | A footer is read back |
| BloomFilter.BuildFilter | projects/06-pebbledb/src/bloom/bloom_filter.cpp:51-86 | The filter has the bits that the probes of its keys set and no others, and every one of its keys matches it, as long as its size in bits is not a multiple of 2^32 |
| BloomFilter.KeyMayMatch | projects/06-pebbledb/src/bloom/bloom_filter.cpp:88-113 | A key matches exactly if the filter is too short to be one or has the bits of all its probes |
| TableFile.FileIsReadBack | projects/06-pebbledb/src/sstable/reader.cpp:48-139 | A finished table opens to its index and filter, and going through its blocks gives exactly its entries, in order |
| TableFile.GetFinds | projects/06-pebbledb/src/sstable/reader.cpp:198-252 | Filter, binary search over last keys and search in one block find a key's entry exactly if the table has one |
| TableFile.RightBlock | projects/06-pebbledb/src/sstable/reader.cpp:212-218 | The block that the binary search picks is the only one that can have the key |
| TableFile.HandlesTile | projects/06-pebbledb/src/sstable/writer.cpp:50-72 | The block handles tile the data, without gap or overlap |
| TableFile.SearchesEntries | projects/06-pebbledb/src/sstable/reader.cpp:225-251 | Decoding no further than needed finds what a search of the whole block finds |
| TableFile.FindInBlock | projects/06-pebbledb/src/sstable/reader.cpp:225-251 | The loop over a block's bytes is that search, and fails exactly at bytes that are no entry |
| TableFile.ForEachEntry | projects/06-pebbledb/src/sstable/reader.cpp:254-273 | The loop visits what reading all blocks gives, and fails exactly if one cannot be read |
| TableWriter.Writer.Add | projects/06-pebbledb/src/sstable/writer.cpp:18-48 | An entry is refused exactly after Finish or when its key is not above the last one; otherwise it is one of the writer's entries, a tombstone without its value, and its block is flushed exactly if it has reached the target size; an error means that an append has failed |
| TableWriter.Writer.FlushCurrentBlock | projects/06-pebbledb/src/sstable/writer.cpp:50-72 | The block goes to the file and into the index; no entry is lost or doubled, whether the append succeeds or not |
| TableWriter.Writer.Finish | projects/06-pebbledb/src/sstable/writer.cpp:74-137 | If no append has failed, success means that the file is a finished table of exactly the entries added, and synced; an error means that an append or the sync has failed |
| TableWriter.FinishedFileReads | projects/06-pebbledb/src/sstable/reader.cpp:198-273 | What the writer finished, the reader reads: it opens, all entries come back in order, and a lookup finds a key exactly if it was added |
| ManifestFormat.SavedIsLoaded | projects/06-pebbledb/src/manifest/format.cpp:45-126 | A saved manifest is loaded exactly if it lists at most 2^20 tables, which nothing checks when saving |
| ManifestFormat.LoadedIffSaved | projects/06-pebbledb/src/manifest/format.cpp:65-126 | For all bytes: a manifest is loaded exactly from the bytes it is saved as |
| LogImage.CommitIsAtomic | projects/07-xv6plus/kernel/log.c:65-124 | A commit cut after any disk write, then any number of recoveries cut after any write: a completed recovery leaves the home blocks all new if the first header write landed and all old if not |
| LogImage.RecoveredDiskIsAPrefix | projects/07-xv6plus/kernel/log.c:194-204 | A run of transactions cut anywhere recovers to exactly those whose header write had landed, in order |
| LogImage.RecoveriesKeepMeaning | projects/07-xv6plus/kernel/log.c:117-124 | Cut recoveries can be repeated and never change what the home blocks stand for |
| LogImage.FullyRecovered | projects/07-xv6plus/kernel/log.c:117-124 | A recovery that completes installs what the log stands for and clears the header |
| LogImage.WholeCommit | projects/07-xv6plus/kernel/log.c:194-204 | A commit that is not cut overwrites the home blocks and leaves the log clear |
| LogImage.CommitIsHeaderThenRecovery | projects/07-xv6plus/kernel/log.c:194-204 | What a commit does after its header write is what a recovery would do |
| LogImage.WithHead | projects/07-xv6plus/kernel/log.c:103-115 | Writing the header makes reading it back give the same list |
| LogSpace.InvKept | projects/07-xv6plus/kernel/log.c:126-176 | Every step keeps the reservation within the log and keeps nobody asleep who could go ahead |
| LogSpace.LogWriteIsSafeIffBelowTheBound | projects/07-xv6plus/kernel/log.c:215-236 | An operation's next log_write, of a listed block too, is safe in every interleaving if and only if it has added fewer than MAXOPBLOCKS blocks |
| LogSpace.SafeBelowTheBound | projects/07-xv6plus/kernel/log.c:126-176 | In every interleaving, the log has room while some running operation has added fewer than MAXOPBLOCKS blocks |
| LogSpace.FullLog | projects/07-xv6plus/kernel/log.c:128-143 | A run in which three operations, each within its bound, fill the log |
| LogSpace.FullLogMeansAllSpent | projects/07-xv6plus/kernel/log.c:215-222 | The log is full only once every running operation has added MAXOPBLOCKS blocks |
| LogSpace.NoLostWakeup | projects/07-xv6plus/kernel/log.c:131-142 | Whoever sleeps in begin_op would still have to sleep; nobody sleeps while the log is idle |
| LogSpace.EndFindsNoCommit | projects/07-xv6plus/kernel/log.c:152-155 | end_op never finds a commit in progress |
| LogSpace.SleepersGetTheirTurn | projects/07-xv6plus/kernel/log.c:146-176 | Ending the running operations and the commit always wakes everybody |
| BufferCache.Cache.Bread | projects/07-xv6plus/kernel/bio.c:58-103 | bread gives the latest contents of the block; held and pinned buffers stay where they are; a recycled buffer is the unused one released longest ago |
| BufferCache.Cache.Brelse | projects/07-xv6plus/kernel/bio.c:114-137 | One holder less; a buffer that becomes unused becomes the most recently used |
| BufferCache.Cache.Bwrite | projects/07-xv6plus/kernel/bio.c:105-112 | The disk gets the block's latest contents |
| BufferCache.Cache.Bpin | projects/07-xv6plus/kernel/bio.c:139-144 | One reference more, nothing else |
| BufferCache.Cache.Bunpin | projects/07-xv6plus/kernel/bio.c:146-151 | One reference less, without moving the buffer in the list |
| BufferCache.Cache.Traffic | projects/07-xv6plus/kernel/bio.c:58-103 | Any number of reads by other processes leaves every held or pinned buffer and all contents as they are |
| BufferCache.FreeAndHeld | projects/07-xv6plus/kernel/bio.c:77-88 | Free buffers and held blocks add up to all buffers, so bget runs out exactly when as many blocks are held or pinned as there are buffers |
| RedoLog.Log.LogWrite | projects/07-xv6plus/kernel/log.c:215-236 | A block already listed is absorbed; a new one is listed last and pinned once; with a full log nothing happens and the panic is reported, listed block or not; an operation below MAXOPBLOCKS blocks never gets there |
| RedoLog.Log.BeginOp | projects/07-xv6plus/kernel/log.c:126-143 | The operation enters exactly when no commit runs and its reservation fits |
| RedoLog.Log.EndOp | projects/07-xv6plus/kernel/log.c:147-176 | The last operation to end performs exactly the disk writes of a commit of what was modified, gives back every pin and leaves the log idle; an earlier one writes nothing |
| RedoLog.Log.WriteLog | projects/07-xv6plus/kernel/log.c:179-192 | What is copied to the slots is what the operations left in the pinned buffers, however much the cache was used in between |
| RedoLog.Log.InstallTrans | projects/07-xv6plus/kernel/log.c:66-84 | Every slot reaches its home block; after a commit every pin is given back |
| RedoLog.Log.RecoverFromLog | projects/07-xv6plus/kernel/log.c:54-63 | Boot performs exactly the disk writes of a recovery and leaves an idle log |
| RedoLog.Log.RoomToCommit | projects/07-xv6plus/kernel/log.c:178-192 | With NBUF buffers and no other holder, commit finds a buffer unless the transaction fills the log |
| RedoLog.PinAccounted | projects/07-xv6plus/kernel/log.c:231-234 | References to a buffer are its holders plus one pin if it is listed |
| Allocator.Umalloc.Malloc | projects/07-xv6plus/user/umalloc.c:46-90 | The block returned was nobody's and is large enough. If a block fits, sbrk is not asked; otherwise it is asked once, for 16 bytes times the units needed, at least 4096: malloc fails exactly if that is refused, and if not, memory has grown by exactly what sbrk gave; the search ends |
| Allocator.Umalloc.Free | projects/07-xv6plus/user/umalloc.c:24-44 | Exactly the block's memory becomes free; free and live memory still make up all memory from sbrk, without overlap |
| Allocator.Umalloc.Morecore | projects/07-xv6plus/user/umalloc.c:46-61 | New memory is added to the free list, which then holds a block of the size asked for |
| Allocator.FreedIsSound | projects/07-xv6plus/user/umalloc.c:29-44 | After a free, the list is in address order, no two blocks touch, and every address from sbrk is free or live, not both |
| Allocator.TakenIsSound | projects/07-xv6plus/user/umalloc.c:74-85 | The same after taking a block or the tail of one |
| Allocator.GrownIsSound | projects/07-xv6plus/user/umalloc.c:46-61 | The same for memory fresh from sbrk |
| Allocator.FreeUndoesMalloc | projects/07-xv6plus/user/umalloc.c:24-90 | Freeing what was just allocated restores the very same free list |
| Allocator.RingJoinedUp | projects/07-xv6plus/user/umalloc.c:33-37 | Linking and joining upwards keeps the ring of headers in step with the list |
| Allocator.TestIsRight | projects/07-xv6plus/user/umalloc.c:30-32 | The loop's test holds at the right place in the ring and nowhere else, including at the wrap-around |
| Allocator.WentAround | projects/07-xv6plus/user/umalloc.c:86-89 | Back at freep, the search has seen every block |
| Allocator.RequestReachesSbrk | projects/07-xv6plus/user/umalloc.c:52-56 | The byte count survives the cut to an int exactly for requests up to 2^31 - 32 bytes |
| FreeList.SameCoverSameList | projects/07-xv6plus/user/umalloc.c:24-44 | What memory is free determines the free list: there is one address-ordered list without touching blocks |
| FreeList.FreedCovers | projects/07-xv6plus/user/umalloc.c:33-42 | Freeing adds exactly the block's addresses |
| FreeList.TakenCovers | projects/07-xv6plus/user/umalloc.c:75-83 | Allocating removes exactly the block's addresses |
| HttpSession.ChunkingDoesNotMatter | projects/05-arcserve/src/protocol/http_parser.cpp:8-50 | Below the caps, requests, first error and bytes used are those of the byte-by-byte reading, however the stream is cut |
| HttpSession.AnyTwoChunkingsAgree | projects/05-arcserve/src/protocol/http_parser.cpp:8-50 | Two ways to cut the same stream give the same session |
| HttpParser.FeedIsBytes | projects/05-arcserve/src/protocol/http_parser.cpp:8-115 | feed on any chunk, from any state, does what its bytes do one by one |
| HttpParser.HeadersAreBytes | projects/05-arcserve/src/protocol/http_parser.cpp:165-231 | The same for the header block, with line ends split between chunks |
| HttpParser.BodyIsBytes | projects/05-arcserve/src/protocol/http_parser.cpp:337-348 | The same for the body, which takes no byte beyond its length |
| HttpGrammar.RequestLineIsAcceptedIff | projects/05-arcserve/src/protocol/http_parser.cpp:117-157 | A request line is accepted if and only if it is GET or POST, a space, a target that begins with '/' and has no space, and HTTP/1.1 after a space; and it is taken apart so |
| HttpGrammar.HeaderLineIsAcceptedIff | projects/05-arcserve/src/protocol/http_parser.cpp:233-305 | A header line is accepted if and only if it is a name without blanks or colon, a colon and a value, without CR or LF, and there is room for one more of its size and no second Content-Length |
| HttpGrammar.HeadersMayEndIff | projects/05-arcserve/src/protocol/http_parser.cpp:307-334 | The headers may end if and only if Content-Length is a decimal number of at most 1 MiB, or is absent and the method is GET |
| HttpGrammar.EveryRequestIsGood | projects/05-arcserve/src/protocol/http_parser.cpp:8-348 | Every request completed by any session, however cut and at the caps too, has a proper start line of at most 8192 bytes, at most 100 headers in at most 8192 bytes, no CR or LF in a field, at most one Content-Length, and a body of exactly that length and at most 1 MiB |
| HttpRefusals.PartsDecide | projects/05-arcserve/src/protocol/http_parser.cpp:117-157 | A request line in three parts gets 501 for another method than GET and POST, else 400 for a target without a leading slash, else 505 for another version, else it is accepted |
| HttpRefusals.OtherLinesAreMalformed | projects/05-arcserve/src/protocol/http_parser.cpp:117-134 | A request line that is not in three parts gets 400 |
| HttpRefusals.NoRoomIsRefused | projects/05-arcserve/src/protocol/http_parser.cpp:272-301 | A header line of the grammar for which there is no room gets 431 for too many bytes, else 400 for a second Content-Length, else 431 for too many headers |
| HttpRefusals.OtherHeadersAreMalformed | projects/05-arcserve/src/protocol/http_parser.cpp:250-270 | A header line that is not of the grammar gets 400 |
| HttpRefusals.HeadersEndRefusal | projects/05-arcserve/src/protocol/http_parser.cpp:307-322 | Headers that may not end get 411 for a POST without Content-Length, 400 for one that is no number of 64 bits, 413 for one above the limit |
| HttpFields.DecimalJoin | projects/05-arcserve/src/protocol/http_parser.cpp:309-313 | A Content-Length counts in base ten: the value of digits in front of n others counts 10^n times |
| HttpFields.FindHeaderIff | projects/05-arcserve/src/protocol/http_message.cpp:27-35 | A header is looked up by name in any case, and the first one of that name counts |
| HttpFields.KeepAliveIff | projects/05-arcserve/src/protocol/http_message.cpp:37-42 | A request keeps the connection alive unless its first header named connection says close, in any case |
| HttpGrammar.TargetMayHoldLineFeed | projects/05-arcserve/src/protocol/http_parser.cpp:78-89 | A request target, unlike a header field, may hold a bare LF |
| HttpLimits.CutMattersIffAtTheCap | projects/05-arcserve/src/protocol/http_parser.cpp:78-114 | For every line without CR LF in it, well-formed or not, cutting it between its CR and LF changes the outcome if and only if it has 8192 bytes |
| HttpLimits.HeaderCutMattersIff | projects/05-arcserve/src/protocol/http_parser.cpp:195-279 | For every header line without CR LF in it, cutting it between its CR and LF changes the outcome if and only if it takes the header bytes to one past the cap and is refused for what it is: no colon or no name, a blank in the name, a bare CR or LF; it is then too large in one piece and malformed in two |
| HttpLimits.OneHeaderPieceIs | projects/05-arcserve/src/protocol/http_parser.cpp:195-231 | In one piece a header line past the cap is too large, and any other is judged on its merits |
| HttpLimits.TwoHeaderPiecesAre | projects/05-arcserve/src/protocol/http_parser.cpp:165-202 | Cut between its CR and LF, it is judged on its merits one byte beyond that |
| HttpLimits.SessionBuffer | projects/05-arcserve/src/protocol/http_parser.cpp:95-114 | In every session the buffer of an unfinished request line passes its cap by at most as many bytes as the last chunks, each a lone CR |
| HttpLimits.BufferGrows | projects/05-arcserve/src/protocol/http_parser.cpp:107-114 | One CR in each chunk makes the line buffer as long as the stream |
| HttpLimits.HeaderBuffer | projects/05-arcserve/src/protocol/http_parser.cpp:179-202 | Header bytes seen and buffered pass the cap by at most one, for a lone CR |
| HttpSession.LineAtTheCap | projects/05-arcserve/src/protocol/http_parser.cpp:107-111 | Such a request line exists |
| HttpRequestParser.RequestParser.FeedChunk | projects/05-arcserve/src/protocol/http_parser.cpp:8-41 | The loop computes Feed; after an error there is a response to send |
| HttpRequestParser.RequestParser.ParseLine | projects/05-arcserve/src/protocol/http_parser.cpp:68-115 | The request-line step, with its split-CRLF and cap branches, computes ParseRequestLine |
| HttpRequestParser.RequestParser.ParseHeaderLines | projects/05-arcserve/src/protocol/http_parser.cpp:165-231 | The header loop computes ParseHeaders |
| HttpRequestParser.RequestParser.ParseBodyBytes | projects/05-arcserve/src/protocol/http_parser.cpp:337-348 | The body step computes ParseBody |
| OnlineSoftmax.AttentionRow | projects/04-flashlite/src/flashlite/online_softmax.py:156-242 | For every tile size, the one-pass output is the softmax-weighted average of the value vectors; a value error exactly for bad shapes, a bad tile size or a fully masked row |
| OnlineSoftmax.SoftmaxRow | projects/04-flashlite/src/flashlite/online_softmax.py:137-153 | The one-pass row is softmax by its definition |
| OnlineSoftmax.OnlineStats | projects/04-flashlite/src/flashlite/online_softmax.py:85-134 | For every tile size, the running pair ends as the two-pass pair |
| OnlineSoftmax.CombineIsAssociative | projects/04-flashlite/src/flashlite/online_softmax.py:40-82 | Combining pairs is associative |
| OnlineSoftmax.CombineIsCommutative | projects/04-flashlite/src/flashlite/online_softmax.py:40-82 | Combining pairs is commutative |
| OnlineSoftmax.EmptyIsIdentity | projects/04-flashlite/src/flashlite/online_softmax.py:67-79 | The empty pair is the identity for exactly the pairs whose sum is zero when they have seen nothing |
| OnlineSoftmax.CombineIsUnion | projects/04-flashlite/src/flashlite/online_softmax.py:41-61 | The pair of a union of positions is the combination of the pairs of its parts |
| OnlineSoftmax.SumIsZeroIffMasked | projects/04-flashlite/src/flashlite/online_softmax.py:147-152 | The normalization sum is zero exactly when the whole row is masked |
| OnlineSoftmax.BlendStands | projects/04-flashlite/src/flashlite/online_softmax.py:230-235 | Rescaling old and new output to the new maximum and adding them gives the output of both |
| Lottery.ChosenInProportion | projects/07-xv6plus/kernel/proc.c:623-645 | Over all nonzero generator states, a runnable process is chosen between tickets*floor((2^32-1)/total) and tickets*(that+1) times |
| Lottery.DrawIsFair | projects/07-xv6plus/kernel/proc.c:626-645 | Every winner below the total picks a runnable process with tickets; each process is picked by exactly `tickets` winners |
| Lottery.TotalFits | projects/07-xv6plus/kernel/sched.h:24-36 | The ticket total stays below 2^32 for every legal table |
| Xorshift.NextPermutes | projects/07-xv6plus/kernel/proc.c:561-568 | xorshift32 permutes the nonzero words |
| Lottery.Scheduler.ScheduleLottery | projects/07-xv6plus/kernel/proc.c:667-691 | Whenever some process stays runnable throughout, a runnable process is run; when nothing changes, it is the winner of one draw |
| Lottery.Scheduler.DrawAndRun | projects/07-xv6plus/kernel/proc.c:622-645 | With an unchanged table the process holding the winning ticket runs |
| Lottery.Scheduler.RunnableTicketTotal | projects/07-xv6plus/kernel/proc.c:574-587 | With an unchanged table, the sum of the runnable processes' tickets |
| Lottery.Scheduler.PickFirstRunnable | projects/07-xv6plus/kernel/proc.c:598-613 | Finds someone whenever someone stays runnable |
| FileSystem.FileSys.Balloc | projects/07-xv6plus/kernel/fs.c:66-89 | The lowest free block, marked and zeroed, with the same files as before; zero, and nothing changed, exactly when the disk is full |
| FileSystem.FileSys.Bfree | projects/07-xv6plus/kernel/fs.c:92-106 | The block's bit is cleared; the panic on a free block is excluded by ownership, as FreeRef shows |
| FileSystem.FileSys.Bmap | projects/07-xv6plus/kernel/fs.c:405-444 | The block of a kilobyte, allocated with its indirect block if need be; ownership kept and every file reads as before, also when the disk fills between the two allocations |
| FileSystem.FileSys.Writei | projects/07-xv6plus/kernel/fs.c:528-562 | The file is overwritten at the offset by as much of the source as the disk has room for, all of it unless the disk is full; other files are untouched; -1 and nothing changed exactly for a bad range; the blocks logged are within a footprint of one a kilobyte and five more |
| FileSystem.FileSys.Readi | projects/07-xv6plus/kernel/fs.c:494-519 | Exactly the file's bytes in the range, cut at the size; nothing changes |
| FileSystem.FileSys.Itrunc | projects/07-xv6plus/kernel/fs.c:448-476 | Exactly this inode's blocks are freed, none of them twice; the file is empty and every other file is untouched |
| FileBlocks.BlocksAreDistinct | projects/07-xv6plus/kernel/fs.c:405-444 | No block serves two kilobytes of files |
| FileBlocks.AllocatedIsOwned | projects/07-xv6plus/kernel/fs.c:66-89 | Allocating keeps: a bit is set exactly when its block is metadata, referred to from one place, or on its way to that place |
| FileBlocks.PlacedIsOwned | projects/07-xv6plus/kernel/fs.c:411-438 | Putting a fresh block in an empty slot or entry keeps the ownership of blocks |
| FileBlocks.PlacedKeepsFiles | projects/07-xv6plus/kernel/fs.c:411-438 | A fresh block in an empty place changes the bytes of no file, nor where any block is |
| FileBlocks.StoredChangesOneKilobyte | projects/07-xv6plus/kernel/fs.c:543-550 | Writing one block of a file changes that kilobyte of that file and nothing else |
| FileBlocks.TruncatedIsOwned | projects/07-xv6plus/kernel/fs.c:448-476 | Freeing all blocks of an inode keeps the ownership of blocks and leaves the other inodes' blocks where they are |
| FileSystem.FileSys.FootprintCount | projects/07-xv6plus/kernel/file.c:150-156 | A write over k kilobytes touches at most k blocks and five more |
| OpenFile.File.WriteChunk | projects/07-xv6plus/kernel/file.c:155-172 | One chunk logs fewer than MAXOPBLOCKS different blocks, so none of its log_write calls can panic; the file is overwritten at the offset by what was written |
| OpenFile.File.Write | projects/07-xv6plus/kernel/file.c:148-173 | The file is overwritten at the offset by a prefix of the source, the offset moves by its length, and the result is the length of the source exactly when that prefix is all of it; it is less only when the disk is full, the offset is past the end, or the file would get too large |
| LifeCycle.OnOneHart | projects/07-xv6plus/kernel/proc.c:520-528 | In every interleaving, a process whose lock is free is RUNNING exactly when one hart names it, and none is ever on two harts |
| LifeCycle.NoOrphans | projects/07-xv6plus/kernel/proc.c:403-460 | In every interleaving, no process has an unused, half-made or zombie for parent, and only init has none |
| LifeCycle.NoMissedDeath | projects/07-xv6plus/kernel/proc.c:420-509 | In every interleaving, whenever wait_lock is free, no process asleep in kwait, or about to be, has a zombie child |
| LifeCycle.FreedAfterUse | projects/07-xv6plus/kernel/proc.c:477-496 | A zombie that kwait frees has left its hart for good, and nobody has it for parent |
| LifeCycle.InvKept | projects/07-xv6plus/kernel/proc.c:324-528 | Each step of fork, exit, reparent, wait, sleep, wakeup, kill, yield and the scheduler keeps the invariant behind those theorems, with what a scan of wait knows of the children it has passed |
| LifeCycle.WaitKnowsItsChildren | projects/07-xv6plus/kernel/proc.c:473-508 | In every run, at the end of its scan wait can sleep exactly if somebody has the caller for parent, and can return -1 exactly if nobody has or the caller was killed |
| LifeCycleRun.ForkExitWait | projects/07-xv6plus/kernel/proc.c:324-528 | A run from boot in which init forks, finds the child alive and sleeps in wait, the child exits and wakes it, and init frees the child's slot |
| LifeCycle.DieKeeps | projects/07-xv6plus/kernel/proc.c:447-457 | Becoming a zombie after the wakeup of the parent leaves no sleeping parent with a zombie child |
| LifeCycle.DozeKeeps | projects/07-xv6plus/kernel/proc.c:465-508 | Going to sleep after a whole scan without a zombie leaves none unnoticed |
| LifeCycle.HandOverTends | projects/07-xv6plus/kernel/proc.c:404-415 | Giving a child, perhaps a zombie, to init leaves init asleep only until the wakeup that follows |
| LifeCycle.WokenKeeps | projects/07-xv6plus/kernel/proc.c:865-879 | wakeup at one slot makes its process runnable if it sleeps on that channel |
| FileSystem.FileSys.WriteThenRead | projects/07-xv6plus/kernel/fs.c:494-562 | writei and then readi over the same range gives back what was written, all of it unless the disk is full |
| FileSystem.FileSys.WriteTwice | projects/07-xv6plus/kernel/fs.c:528-562 | Two writes, the second where the first left off, leave the file as one write of both sources |
| PageTables.PagesAddUp | projects/07-xv6plus/kernel/kalloc.c:46-82 | Free pages, held pages and pages in page tables add up to all of memory |
| PageTables.PagesAreDistinct | projects/07-xv6plus/kernel/vm.c:145-174 | No physical page serves two virtual pages of processes |
| PageTables.NothingLost | projects/07-xv6plus/kernel/vm.c:192-324 | If every place refers to what it did and the same pages are held, the same pages are free |
| PageTables.HungIsOwned | projects/07-xv6plus/kernel/vm.c:107-110 | Putting a page table or a page in an empty entry keeps one owner for each page and changes no other place |
| PageTables.DroppedIsOwned | projects/07-xv6plus/kernel/vm.c:205-209 | Freeing what an entry refers to and clearing the entry keeps one owner for each page and changes no other place |
| VirtualMemory.Memory.Kalloc | projects/07-xv6plus/kernel/kalloc.c:69-82 | The first free page, or 0 exactly if there is none |
| VirtualMemory.Memory.Walk | projects/07-xv6plus/kernel/vm.c:97-115 | The page table for an address; missing ones are added, or memory runs out; no mapping changes |
| VirtualMemory.Memory.Mappages | projects/07-xv6plus/kernel/vm.c:145-174 | The pages are mapped in order; if memory runs out, exactly the first ones are; nothing else changes |
| VirtualMemory.Memory.Uvmunmap | projects/07-xv6plus/kernel/vm.c:192-212 | Exactly the given pages are unmapped, what the process owned is freed, and nothing else changes |
| VirtualMemory.Memory.Uvmalloc | projects/07-xv6plus/kernel/vm.c:216-240 | All new pages are mapped to zeros, or, if memory runs out, none; three free pages for each new one are enough |
| VirtualMemory.Memory.Uvmdealloc | projects/07-xv6plus/kernel/vm.c:246-258 | Exactly the pages past the new size are gone |
| VirtualMemory.Memory.Uvmcopy | projects/07-xv6plus/kernel/vm.c:296-324 | The child has a copy of every mapped page, with the same flags and bytes, in pages of its own, or nothing at all; the parent is untouched |
| VirtualMemory.Memory.Vmfault | projects/07-xv6plus/kernel/vm.c:467-511 | A zeroed page exactly where the process may have one and has none, given three free pages; the three ways to count the fault |
| VirtualMemory.Memory.Freewalk | projects/07-xv6plus/kernel/vm.c:262-278 | The page tables of a tree without leaves are freed, all of them and nothing else; the leaf panic is unreachable |
| VirtualMemory.Memory.Uvmfree | projects/07-xv6plus/kernel/vm.c:282-288 | The address space is gone, and every other one is untouched |
| VirtualMemory.Memory.ProcPagetable | projects/07-xv6plus/kernel/proc.c:243-273 | A new address space with the trampoline, readable and executable, and the trapframe, readable and writable, neither for user code, and nothing else; or, on either out-of-memory path, everything as it was |
| MemoryChanges.NothingPastTheSize | projects/07-xv6plus/kernel/vm.c:121-138 | In every such address space, whatever it has grown to or was copied from, user code reaches no page past the size of its process |
| VirtualMemory.Memory.ProcFreepagetable | projects/07-xv6plus/kernel/proc.c:277-283 | Every page of the address space is free again, and every other one is untouched |
| VirtualMemory.Memory.Growproc | projects/07-xv6plus/kernel/proc.c:303-319 | The process grows by zeroed pages or shrinks, or nothing changes; sizes wrap at 64 bits; nothing is mapped past the size |
| VirtualMemory.Memory.Fork | projects/07-xv6plus/kernel/proc.c:323-345 | The child has a copy of the parent's memory, the same trampoline and a trapframe of its own, or everything is as it was, to the number of free pages |
| ServerRuns.WireHoldsAnswersInOrder | projects/05-arcserve/src/server/nonblocking_http_server.cpp:88-424 | In every interleaving with the workers, below the caps, the wire holds a prefix of the responses to the requests in the bytes received, in their order, and nothing follows a response that says close |
| ServerRuns.OneRequestInFlight | projects/05-arcserve/src/server/nonblocking_http_server.cpp:221-236 | In every interleaving, a connection has at most one request with the workers, and waits exactly when it has one or a worker gave up on it |
| ServerRuns.NoStrandedCompletion | projects/05-arcserve/src/server/nonblocking_http_server.cpp:132-149 | In every interleaving, a queued completion has a wakeup readable, about to be written, or about to be followed by the drain, until the reactor stops; no worker waits for room in vain |
| ServerRuns.PoolRunsAll | projects/05-arcserve/src/concurrency/worker_pool.cpp:29-59 | The pool runs accepted requests in order, none twice; once all workers have left, each has run exactly once |
| ServerRuns.ClosingOnlyCloses | projects/05-arcserve/src/server/nonblocking_http_server.cpp:106-121 | kClosing is left only by closing, and a closed connection says nothing more |
| ServerRuns.GivenUpForEver | projects/05-arcserve/src/server/nonblocking_http_server.cpp:306-350 | A connection whose worker gave up, because the handler threw or the completion queue was closed, says nothing more until it is closed |
| ServerRuns.InvKept | projects/05-arcserve/src/server/nonblocking_http_server.cpp:42-424 | Each callback and each worker step keeps the invariant behind those theorems |
| ServerAnswers.SessionIsAnswered | projects/05-arcserve/src/server/nonblocking_http_server.cpp:151-300 | A whole session without a pool, cut into chunks in any way, below the caps, on a socket that takes everything and with space in the queue: the wire holds exactly the responses due to the byte stream, and the connection is open exactly if the stream has no error, every response keeps alive and fewer than the permitted number were served; then every request has its response |
| ServerAnswers.ReadableOwes | projects/05-arcserve/src/server/nonblocking_http_server.cpp:151-300 | After any bytes, whatever the socket takes and however little fits in the queue: what has been queued is exactly what was owed to the stream and not said yet, and the connection is open, writing or closing exactly as that and the socket demand |
| ServerAnswers.StaysIff | projects/05-arcserve/src/server/nonblocking_http_server.cpp:240-262 | A connection is to stay open if and only if there is no error, every response keeps it alive, fewer than the permitted number have been served, and all of them fit in the queue |
| ServerAnswers.ResultOwes | projects/05-arcserve/src/server/nonblocking_http_server.cpp:368-424 | A worker's response is said if it fits; parsing goes on exactly if it keeps alive, fewer than the permitted number have been served, and the socket takes all of it |
| ServerAnswers.ReadableDispatches | projects/05-arcserve/src/server/nonblocking_http_server.cpp:184-238 | With a pool: after bytes have come to a connection that waits for nothing, the next request of the stream goes to the pool, or the connection goes on reading, or says its error and closes |
| ServerAnswers.DriveRefuses | projects/05-arcserve/src/server/nonblocking_http_server.cpp:347-366 | When the pool has no room, the request is told so, and the connection closes once that is sent |
| ServerAnswers.CompletionDispatches | projects/05-arcserve/src/server/nonblocking_http_server.cpp:368-401 | In the server, in every state that the invariant allows, the completion of a kept-alive response puts the connection's next buffered request in the pool's queue, if there is room |
| ServerAnswers.WritableSends | projects/05-arcserve/src/server/nonblocking_http_server.cpp:88-130 | A writable socket takes more of what is queued; when that is all, the connection reads again or closes |
| ServerProtocol.WireIsAnswers | projects/05-arcserve/src/server/nonblocking_http_server.cpp:184-300 | For one connection: what was queued answers the requests of its byte stream, one by one |
| ServerProtocol.InlineKeeps | projects/05-arcserve/src/server/nonblocking_http_server.cpp:199-265 | Without a pool, pipelined requests are answered in order, up to a close, an error or a full output queue |
| ServerProtocol.PooledKeeps | projects/05-arcserve/src/server/nonblocking_http_server.cpp:220-236 | With a pool, parsing stops at one request, also when the pool refuses it |
| ServerProtocol.OnResultKeeps | projects/05-arcserve/src/server/nonblocking_http_server.cpp:368-401 | A worker's response is queued for the request it answers |
| ServerConnection.HttpConnection.FlushOutput | projects/05-arcserve/src/reactor/connection.cpp:7-27 | The chunks go out in order; what the socket has taken and what is left are the queue's bytes |
| ServerConnection.HttpConnection.DriveParser | projects/05-arcserve/src/server/nonblocking_http_server.cpp:184-300 | Does to the objects what the function that the theorems are about says |
| ServerConnection.HttpConnection.OnWorkerResult | projects/05-arcserve/src/server/nonblocking_http_server.cpp:368-401 | The same for a worker's result |
| ServerConnection.HttpConnection.ProcessReadable | projects/05-arcserve/src/server/nonblocking_http_server.cpp:151-182 | The same for bytes received |
| ServerConnection.HttpConnection.OnClientWritable | projects/05-arcserve/src/server/nonblocking_http_server.cpp:106-121 | The same for a socket that can be written to |
| ServerConnection.OutputQueue.Enqueue | projects/05-arcserve/src/reactor/output_queue.cpp:8-26 | All of a response is queued, or nothing if the bound would be passed |
| ServerConnection.ByteBuffer.Consume | projects/05-arcserve/src/buffers/byte_buffer.cpp:26-54 | Bytes leave at the front, and the storage never keeps more than twice what is left, and one |
| ServerConnection.FeedLeavesEnd | projects/05-arcserve/src/server/nonblocking_http_server.cpp:267-272 | What feed leaves of a chunk is its end |

## Findings

- `FlushLocked` does not retry a failed log rotation by itself: the comment at
  projects/06-pebbledb/src/db.cpp:430-432 says it does, but the early return at lines 321-323 comes first.
  `PebbleDatabase.DB.FlushLocked` states that nothing happens when nothing is pending.
- An append that fails half-way leaves torn bytes in the log, and later appends go behind them. A crash
  then loses those accepted writes (`PebbleTornFlush.WriteBehindTornAppendIsLost`). The exact condition is
  `PebbleGuarantees.AcceptedWriteSurvivesIffLogIntact`.
- When later appends fill the torn record up, no attempt to open the database ever works again, and earlier
  writes are gone with it (`PebbleTornFlush.WriteBehindTornAppendShutsTheDatabase`). It is the only way:
  `PebbleGuarantees.OpensIffNotJammed`.
- When such appends reach a table and the process crashes before the rotation, recovery replays the older
  writes of the log over the table. That may show a map that no prefix of the accepted writes stands for, or
  one without a write that a table has, or all of them (`PebbleTornFlush.TornFlushMixesUp`,
  `TornFlushMayLoseAListedWrite`, `TornFlushMayLoseNothing`). `PebbleLedger.RecoveryShowsPrefixIff`,
  `ListedWritesShowIff` and `NothingIsLostIff` say exactly when.
- A write that is refused because its sync failed can appear after a crash, and its sequence number is given
  out again (`PebbleLedger.RefusedWriteAfterCrash`, `RefusedNumberIsReused`, `WalFile.LogWriter.AddRecord`).
- The manifest that a rotation saves carries a next file number equal to the new log number
  (`PebbleGuarantees.RotationIsFresh`). It does no harm, because a table publish comes before the next
  rotation.
- A manifest with more than 2^20 tables is saved without complaint and cannot be loaded
  (`ManifestFormat.SavedIsLoaded`). Tables are never merged, so enough flushes get there.
- NBUF equals LOGBLOCKS, so a transaction that fills the log leaves commit no buffer to read the header
  and the slots with (`RedoLog.Log.RoomToCommit`).
- log_write looks at the length of the log before it looks for the block, so a full log panics on a block that
  it holds. Three operations within their bounds can fill the log (`LogSpace.FullLog`). A log_write is safe in
  every interleaving if and only if its operation has added fewer than MAXOPBLOCKS blocks
  (`LogSpace.LogWriteIsSafeIffBelowTheBound`); filewrite's chunks stay below that (`OpenFile.File.WriteChunk`).
- uvmalloc returns the new size, and 0 for failure: growing from 0 to 0 bytes succeeds and returns 0
  (`VirtualMemory.Memory.Uvmalloc`). Shrinking a process below 0 bytes wraps around and does nothing
  (`VirtualMemory.Memory.Growproc`).
- A handler that throws on a worker leaves its connection waiting until the peer closes it
  (`ServerRuns.GivenUpForEver`).
- malloc's byte count is cut to an int on its way to sbrk (`Allocator.RequestReachesSbrk`).
- A request line of exactly 8192 bytes is judged on its merits or refused depending on where the stream is
  cut (`HttpLimits.CutMattersIffAtTheCap`), and a header line at the cap gets 431 or 400
  (`HttpLimits.HeaderCutMattersIff`).
- One CR in each chunk makes the parser's line buffer grow without bound, although the comment at
  projects/05-arcserve/src/protocol/http_parser.cpp:104-106 says that the next call catches any overflow
  (`HttpLimits.BufferGrows`; `HttpLimits.SessionBuffer`: nothing else makes it).
- A request target may hold a bare LF (`HttpGrammar.TargetMayHoldLineFeed`); header fields may not.

## Left out

- PebbleDB's CRC polynomial, block cache, in-memory mode, statistics other than the live-key count, table
  levels (always 0) and the mutex: calls are atomic.
- WalFormat.ReplayBehindTorn: says nothing of a record torn inside its 26-byte header with bytes behind it;
  WalFormat.GotIffEncoded says when something is taken for a record then.
- BloomFilter.BuildFilter: requires that the number of bits is not a multiple of 2^32, for which the source
  divides by zero.
- PebbleDatabase.DB.ComputeLiveKeyCount: assumes that every table can be read; the source counts what it
  can read and reports nothing.
- xv6-plus locks: the steps of LogSpace and the calls on RedoLog are the critical sections; buffer
  sleep-locks are not modelled, so two holders of one buffer are not kept from writing it at once.
- RedoLog.Log.EndOp: other processes read blocks while a commit runs; that they may also call begin_op, and
  go to sleep, is covered by LogSpace alone.
- The buffer list's prev and next pointers are a sequence of buffer numbers, and a block's bytes are its
  32-bit words.
- Allocator.Umalloc.Malloc: is stated for requests up to MAX_REQUEST bytes; beyond it sbrk is asked for a
  wrong amount, as Allocator.RequestReachesSbrk says.
- Allocator alignment: addresses are numbers, headers are kept in two maps from address to field.
- Lottery: running a process and what it does on the CPU; process states other than runnable or not.
- FileSystem: inode numbers, types and links (ialloc, iput, iget), directories and paths.
- LifeCycle: the process table is a value and a step makes a new one; pids, exit status, memory and files of
  a process; a second process sleeping on another's entry, which the source never does; wait's test of killed
  and its going to sleep are one step, so a kill in between and one just before are not told apart.
- VirtualMemory: the kernel's own page table, copyin and copyout, exec, and the TLB.
- xv6-plus pipes, devices, traps and the rest of the kernel.
- ServerRuns: nothing is said of when bytes are parsed that were received while a response was being
  written: the callback that ends the writing does not go on with them.
- ServerConnection: chunks of output are strings and not buffers of their own.
- ArcServe: epoll, accepting, the echo and blocking servers, routing and response text.
- FlashLite: rounding, tensors, CUDA kernels.
- KernelForge, ForgeLM and MiniPaged: benchmark plumbing, configuration, demos.
