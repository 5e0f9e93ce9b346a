# A verified model of LevelDB and nanopb

This Dafny project models the two libraries that hold the logic behind HRApp's storage and messages, and
proves properties of the model: the LevelDB storage engine under `HRApp/Pods/leveldb-library` and the nanopb
Protocol Buffers codec under `HRApp/Pods/nanopb`. `dafny verify dfyconfig.toml` checks all of it.

## LevelDB

- **The log** (`LogFormat`, `LogWriter`, `LogReader`, `LogChecksum`, `LogPlacement`, `LogAssembly`, `LogDamage`,
  `LogProperties`, `LogOnDisk`). Writer and reader are classes that work on the bytes of a file. The writer is proved to
  produce a layout of physical records; the reader is proved, for arbitrary bytes, to compute two functions: the
  physical events of a file, and the records and reports that these events make up. Round trip, truncation at any
  byte and damage to one block are lemmas about these functions, and so is the account of what is dropped and reported.
  The checksum is an arbitrary function. `LogChecksum` proves what the reader owes to it: every fragment delivered
  carries a matching one, and a mismatch is reported. That no altered type and payload have the stored checksum is a
  hypothesis of the damage theorem about bytes and checksum alone, `LogDamage.NoForgery`. `LogOnDisk` gives the
  format in plain numbers.
- **Reusing a log** (`LogReuse`). A crash may leave the bytes of a cut record at the end of a log. The reader takes
  them for the end of the file without a report, but recovery with `reuse_logs` (off by default) opens the file at its
  full length and writes behind them (`HRApp/Pods/leveldb-library/db/db_impl.cc:450-474`). New records that begin in the
  same block are then lost: `CutRecordHidesNewOnes` gives the input, and `ReuseIsSafe` the exact condition, for files of
  arbitrary bytes. That the checksum does not fit the rest of the cut record together with what is written
  behind it is a hypothesis about bytes and checksum, `NothingCompleted`; the one way to complete it honestly is
  `PaddingMayComplete`. Who reopens a log can check the condition beforehand: compare the length of the file with the
  place where the reader gave up (`EndsWhole`).
- **Internal keys and views** (`InternalKeys`, `Views`). Entries, their stored form and order, and what a set of
  entries maps a key to at a sequence number. The user's comparator is any total order in which only equal keys
  compare equal.
- **The cursor** (`DBIter`). The iterator's fields and loops, against a plain cursor over the live pairs. The
  source's comment on moving backwards (`HRApp/Pods/leveldb-library/db/db_iter.cc:44-45`) says that the internal
  iterator stands just before all entries of the current key. The code leaves it a little further back in general:
  entries that do not show may lie between. The model follows the code; the invariant is `Behind`. The status is an
  error if and only if an entry that the cursor passed has an unknown type.
- **Compaction** (`Compaction`). The loop with its two drop rules, against a closed form of what is kept. Readers
  from the smallest snapshot on see no difference when every input key parses. A corrupt key makes the loop forget
  the current user key, so without that condition the property is false: `CorruptKeyResurrects` gives an input, and
  `ExactViews` the exact condition for all inputs. The other direction, that a compaction cleans up, is
  `KeptIffNeeded`: what no reader needs is gone.
- **Snapshots** (`SnapshotList`). The circular doubly linked list with its pointers.
- **The memtable** (`Varint`, `Coding`, `MemTable`). Entries encoded byte by byte into a buffer, comparison of
  encoded keys, and lookup by one seek, against the map that the entries stand for.
- **Group commit** (`BatchGroup`, `WriteQueue`, `WriteQueueProperties`,
  `WriteQueueProgress`). The choice of a group is the loop of
  `BuildBatchGroup`; the protocol is a transition system whose steps are the regions between taking and releasing
  the mutex and the leader's effects while it does not hold it. After a failed sync nothing succeeds any more; when
  nothing fails, calls succeed; and all calls can return, from every reachable state.
- **Background scheduling** (`Scheduling`). When a background call is pending or running, and who waits for it.
  A running manual compaction can find its request gone after a writer's sync error made the owner give up
  (`OwnerMayLeave` gives a run); the code then follows the null pointer
  (`HRApp/Pods/leveldb-library/db/db_impl.cc:754-766`). `RequestIsGone` states the exact condition over all runs:
  the request is gone if and only if the owner woke at an error or a shutdown and gave up while the compaction ran.
- **The whole engine** (`EngineState`, `EngineViews`, `EngineInvariant`, `EngineWrites`, `EngineBackground`,
  `EngineRecovery`, `EngineSafety`, `EngineDurability`, `EngineReaders`, `EngineFailures`,
  `EngineProgress`). A transition system over disk and memory:
  writes, memtable switches, flushes, compactions with nested flushes, installation of versions that may fail with
  or without reaching the manifest, collection of obsolete files, readers and snapshots, crashes of the process or
  the machine at any moment, and recovery, which may itself be cut short and started again. What was not synced
  before a crash of the process is still not synced after it, and a later crash of the machine may take it. One
  invariant is kept by every step; stable snapshots and readers, the layered lookup and safe collection follow for
  every run. Durability has a condition: a log may end in a cut record, recovery may keep it in use, and what is
  written behind the cut is hidden from the next recovery, synced or not. `SyncedWriteIsLost` gives such a run;
  `ReuseIsSafe` says, over all runs, that keeping a log in use is safe if and only if it is not torn; in runs
  without such a step synced writes are recoverable for ever (`SyncedWritesAreForever`). As long as only the
  process dies nothing acknowledged is lost at all (`OnlyMachinesLose`), and after every crash the database can be
  opened again (`DatabaseCanBeOpened`).

Each part relies on contracts of code that is not modelled: installing a version is one atomic durable commit or a
failure; the skip list and tables are sorted sequences; the version set vouches for a base level and for the order of
layers as `Compaction.Setting` says; a write batch is a sequence number and a list of operations.

## nanopb

- **Integers on the wire** (`Varint`, `PbVarint`). Both varint decoders as the loops do it, bit operations, 8-bit
  shift count and sign-extension rules included, and zigzag.
- **The format** (`PbFormat`). Descriptors as trees, structs as values, and the encoding as a function, as the
  Protocol Buffers "Encoding" guide has it in "Base 128 Varints", "Signed Integers", "Length-Delimited Records" and
  "Packed Repeated Fields".
- **Decoding** (`PbDecoding`). What the decoder makes of any bytes, and merging ("Last One Wins").
- **The code** (`PbStreams`, `PbEncoder`, `PbFieldIter`, `PbIStream`, `PbDecoder`). Streams, the wrap-around field
  iterator with its addresses, the bitmap of required fields, and the encoders and decoders as methods, proved to
  compute these functions, errors included.
- **Properties** (`PbRoundTrip`, `PbProperties`, `PbUnknown`, `PbBounds`, `PbAccepts`). Round trips, merging by
  concatenation, unknown fields, required fields in any order, the bounds of a decoded struct for arbitrary bytes, and
  what is accepted and refused case by case.
- **The wire in plain numbers** (`PbWire`). Tag bytes, wire types, widths and byte orders as literals, and the worked
  examples of the Protocol Buffers "Encoding" guide.

A char array stands for the string before its first zero byte; what lies behind that is not sent, and does not count
when messages are compared. An array without a zero byte is encoded, but its encoding cannot be decoded
(`PbRoundTrip.StringsNeedTerminators`).

Two quirks of the decoder are kept. A message without fields reads a field with tag zero as a bool, because the
iterator stands on the terminator. Wire types of known fields are not checked, except to tell packed arrays apart.

## Conventions

Lemmas for which Dafny would generate an induction hypothesis carry `{:induction false}`: their proofs are spelled out,
and none relies on automatic induction.

## Model

| member | source | states |
|---|---|---|
| LogProperties.RoundTrip | HRApp/Pods/leveldb-library/db/log_reader.cc:56-174 | reading the log of any list of records, empty ones included, returns that list, in order, and reports nothing |
| LogProperties.Truncation | HRApp/Pods/leveldb-library/db/log_reader.cc:189-233 | a log cut at any byte yields exactly the records that end at or before the cut, then the end of the file, without a corruption report |
| LogProperties.DamageConfined | HRApp/Pods/leveldb-library/db/log_reader.cc:189-271 | if one block is overwritten, and wherever a length at a writer's header place fits and the checksum of type and payload is the stored one these are the written ones, the reader returns the original records without a consecutive run, and each record of that run has a fragment in the block |
| LogProperties.RecordEnd | HRApp/Pods/leveldb-library/db/log_writer.cc:34-80 | the last physical record of the first k records ends where the log of these k records ends |
| LogWriter.Writer.constructor | HRApp/Pods/leveldb-library/db/log_writer.cc:23-25 | a new log is empty and its block offset is that of its length |
| LogWriter.Writer.Reopen | HRApp/Pods/leveldb-library/db/log_writer.cc:27-30 | reopening at the length modulo the block size agrees with the bytes of the file, so writing goes on as if never closed |
| LogWriter.Writer.AddRecord | HRApp/Pods/leveldb-library/db/log_writer.cc:34-80 | the file grows by the physical records of the slice, laid out from the block offset; the log of a list of records becomes the log of the longer list, and so does what was appended to any other file |
| LogWriter.Writer.EmitPhysicalRecord | HRApp/Pods/leveldb-library/db/log_writer.cc:82-108 | appends header and payload of one physical record and moves the block offset behind it |
| LogReader.Reader.ReadPhysicalRecord | HRApp/Pods/leveldb-library/db/log_reader.cc:189-271 | one call yields the next event of the file: a fragment, a bad record with the bytes dropped, or the end; it consumes bytes or ends |
| LogReader.Reader.ParsePhysicalRecord | HRApp/Pods/leveldb-library/db/log_reader.cc:216-269 | a header in the buffer is accepted, dropped or taken for a write that was cut off, as its length, type and checksum say |
| LogReader.Reader.ReadRecord | HRApp/Pods/leveldb-library/db/log_reader.cc:56-174 | returns the next record that the remaining events of the file make up, with the reports on the way; it ends on arbitrary bytes |
| LogReader.Reader.TakeEvent | HRApp/Pods/leveldb-library/db/log_reader.cc:91-171 | one turn of the switch over record types is one step of the reassembly, reports included |
| LogReader.ReadLog | HRApp/Pods/leveldb-library/db/log_reader.cc:56-174 | reading until the end gives the records and reports of the whole file, for arbitrary bytes |
| LogChecksum.AcceptedIffChecked | HRApp/Pods/leveldb-library/db/log_reader.cc:216-269 | what stands at a place is accepted if and only if its length fits block and file, the checksum of type and payload is the stored one, and it is not blank; type and payload are then the bytes that the checksum covers |
| LogChecksum.AcceptedIsChecked | HRApp/Pods/leveldb-library/db/log_reader.cc:245-269 | every fragment that the reader delivers, from any file, carries a matching checksum over its type and payload |
| LogChecksum.MismatchIsReported | HRApp/Pods/leveldb-library/db/log_reader.cc:245-257 | where the length fits and the checksum does not, the rest of the block is dropped and its size reported as a checksum mismatch |
| LogChecksum.OverlongIsReported | HRApp/Pods/leveldb-library/db/log_reader.cc:222-233 | a length that leaves the block is reported with the rest of the block; at the end of the file it is taken for a write that was cut off |
| LogChecksum.BlankIsSilent | HRApp/Pods/leveldb-library/db/log_reader.cc:235-242 | space that was never written drops the rest of the block without a report |
| LogChecksum.NothingIsDroppedSilently | HRApp/Pods/leveldb-library/db/log_reader.cc:91-171 | for any file: the payload bytes that the reader meets and the bytes dropped below it are in a record returned, in a report, or in a record that the end of the file cuts off, each once |
| LogFormat.UnmaskMask | HRApp/Pods/leveldb-library/util/crc32c.h:29-38 | unmasking inverts masking, for every 32-bit checksum |
| LogFormat.Fragments | HRApp/Pods/leveldb-library/db/log_writer.cc:59-78 | cuts a record into physical records none of which crosses a block boundary, at least one even for an empty record |
| LogFormat.LayoutAppend | HRApp/Pods/leveldb-library/db/log_writer.cc:44-57 | laying out two lists of physical records one after another is laying out both, padding included |
| LogFormat.LogBytesAppend | HRApp/Pods/leveldb-library/db/log_writer.cc:27-80 | the log of a longer list of records is the log so far and the bytes of the record at its offset |
| LogOnDisk.MaskIs | HRApp/Pods/leveldb-library/util/crc32c.h:29-38 | a checksum is stored rotated right by 15 bits, with 0xa282ead8 added, modulo 2 to the 32 |
| LogOnDisk.ShortRecord | HRApp/Pods/leveldb-library/db/log_writer.cc:82-108 | a record that fits its block is the checksum of type 1 and the record in four bytes, the length in two, the byte 1, and the record |
| LogOnDisk.Trailer | HRApp/Pods/leveldb-library/db/log_writer.cc:44-54 | fewer than 7 bytes at the end of a block of 32768 are filled with zeros |
| LogOnDisk.TwoParts | HRApp/Pods/leveldb-library/db/log_writer.cc:59-78 | a record that crosses one block boundary is cut there, into parts of types 2 and 4 |
| LogOnDisk.ThreeParts | HRApp/Pods/leveldb-library/db/log_writer.cc:59-78 | a record over three blocks is cut into parts of types 2, 3 and 4 |
| LogPlacement.LayoutIsPlaced | HRApp/Pods/leveldb-library/db/log_writer.cc:44-107 | every physical record of a layout is found in the file at its place, behind nothing but a zero trailer |
| LogPlacement.ParsePhysBytes | HRApp/Pods/leveldb-library/db/log_reader.cc:216-270 | parsing a written physical record gives back its type and payload |
| LogPlacement.ReadPlaced | HRApp/Pods/leveldb-library/db/log_reader.cc:189-271 | at the place of a physical record the reader yields it and goes on at the next one |
| LogDamage.CutEvents | HRApp/Pods/leveldb-library/db/log_reader.cc:206-233 | a log cut at any byte yields the physical records that end before the cut, then the end |
| LogDamage.Intact | HRApp/Pods/leveldb-library/db/log_reader.cc:245-257 | outside the overwritten block physical records are intact |
| LogDamage.Resume | HRApp/Pods/leveldb-library/db/log_reader.cc:222-228 | after a bad record the reader goes on at the first physical record of the next block |
| LogDamage.DamagedEvents | HRApp/Pods/leveldb-library/db/log_reader.cc:189-271 | the events of a log with one overwritten block: those before, at most one bad record, and those from the next intact one on |
| LogAssembly.WholeRecord | HRApp/Pods/leveldb-library/db/log_reader.cc:91-142 | all fragments of a record are put together to that record |
| LogAssembly.BrokenRecord | HRApp/Pods/leveldb-library/db/log_reader.cc:144-159 | a record that breaks off is dropped: silently at the end of the log, with a report before a bad record |
| LogAssembly.OddEvents | HRApp/Pods/leveldb-library/db/log_reader.cc:144-170 | event by event, what ends or breaks a record: a bad record is reported and so is what was gathered; type 5 ends the file, type 6 is a bad record, other unknown types are reported with what was gathered |
| LogAssembly.HeadlessRecord | HRApp/Pods/leveldb-library/db/log_reader.cc:123-137 | fragments without the first one of their record return nothing |
| LogAssembly.WholeLog | HRApp/Pods/leveldb-library/db/log_reader.cc:56-174 | the fragments of a list of records are put together to that list |
| LogAssembly.BrokenLog | HRApp/Pods/leveldb-library/db/log_reader.cc:144-159 | of the first m physical records of a log the reader makes the records that are complete among them |
| LogAssembly.HeadlessLog | HRApp/Pods/leveldb-library/db/log_reader.cc:123-142 | from any physical record on the reader makes the records that begin there |
| LogFormat.AppendedMore | HRApp/Pods/leveldb-library/db/log_writer.cc:27-80 | a file that is opened again and written to, whatever it holds, goes on at its length, record by record |
| LogReuse.ReusedLog | HRApp/Pods/leveldb-library/db/log_reader.cc:189-271 | writing to a file of arbitrary bytes leaves the records that were readable; the new records are read from some number on, all of them if and only if the file ends whole or its last block has no room for another header |
| LogReuse.PaddingMayComplete | HRApp/Pods/leveldb-library/db/log_writer.cc:44-57 | where the last block has no room, the zeros of its trailer may complete a cut record that lacks nothing but zeros: it may come back then, and the new records do |
| LogReuse.ReuseIsSafe | HRApp/Pods/leveldb-library/db/db_impl.cc:450-474 | opening any log file again and writing to it yields the old records and then all new ones, if and only if the file ends whole or has no room, or nothing is written |
| LogReuse.ReusedCutLog | HRApp/Pods/leveldb-library/db/log_reader.cc:206-233 | for a log cut at any byte, opened again and written to: the records that end before the cut and all new ones are read if and only if the cut is not inside a physical record, or its block has no room |
| LogReuse.CutEndsWhole | HRApp/Pods/leveldb-library/db/log_reader.cc:206-233 | a cut log ends whole, as the place where a reader gives up shows, if and only if the cut is not inside a physical record |
| LogReuse.CutRecordHidesNewOnes | HRApp/Pods/leveldb-library/db/log_reader.cc:222-233 | for every checksum, a concrete log cut inside a header hides the record that is written behind the cut, and nothing is reported |
| InternalKeys.StoredParts | HRApp/Pods/leveldb-library/db/dbformat.cc:20-23 | a stored internal key holds user key and tag where the accessors look for them |
| InternalKeys.ParseAppended | HRApp/Pods/leveldb-library/db/dbformat.h:165-177 | parsing inverts appending, and fails exactly on an unknown type |
| InternalKeys.CompareStored | HRApp/Pods/leveldb-library/db/dbformat.cc:51-67 | the comparator on stored keys orders by user key ascending, then sequence number and type descending, and calls equal only equal keys |
| InternalKeys.StoredBytes | HRApp/Pods/leveldb-library/db/dbformat.cc:14-23 | a stored internal key is the user key, one byte for the type, 1 of a value and 0 of a deletion, and seven for the sequence number, lowest first |
| InternalKeys.BeforeIs | HRApp/Pods/leveldb-library/db/dbformat.cc:51-67 | the order in plain terms: by user key, then newer before older, then values before deletions |
| InternalKeys.BeforeIsStrictOrder | HRApp/Pods/leveldb-library/db/dbformat.cc:51-67 | the order of internal keys is a strict weak order |
| InternalKeys.BytewiseIsTotalOrder | HRApp/Pods/leveldb-library/util/comparator.cc:25-27 | the default comparator is a total order in which only equal keys compare equal |
| Views.NewestExists | HRApp/Pods/leveldb-library/db/dbformat.cc:51-56 | if any entry for a key shows at a sequence number, there is a newest one |
| Views.NewestIsLatest | HRApp/Pods/leveldb-library/db/dbformat.cc:51-56 | the newest entry for a key at a sequence number is, of those of a known type at or below it, the one with the largest sequence number, and of several the one with the largest type |
| Views.LivePairsAreTheMap | HRApp/Pods/leveldb-library/db/db_iter.cc:34-38 | the live pairs of a sorted list are exactly the pairs of the map at that sequence number |
| Views.LivePairsSorted | HRApp/Pods/leveldb-library/db/db_iter.cc:34-38 | live pairs are sorted by key, each key once |
| DBIter.Run | HRApp/Pods/leveldb-library/db/db_iter.cc:141-299 | any sequence of Seek, SeekToFirst, SeekToLast, Next and Prev, direction switches included, shows after each call what a plain cursor over the live pairs shows |
| DBIter.Iterator.KeyAndValue | HRApp/Pods/leveldb-library/db/db_iter.cc:64-71 | key and value are those of the pair at which the cursor stands, in both directions |
| DBIter.Iterator.Next | HRApp/Pods/leveldb-library/db/db_iter.cc:141-166 | moves to the next live pair, or off the end, also after moving backwards |
| DBIter.Iterator.Prev | HRApp/Pods/leveldb-library/db/db_iter.cc:200-225 | moves to the previous live pair, or off the start, also after moving forward |
| DBIter.Iterator.FindNextUserEntry | HRApp/Pods/leveldb-library/db/db_iter.cc:168-198 | stops at the first live entry from a given one on, skipping hidden and deleted entries; every entry up to there was parsed |
| DBIter.Iterator.FindPrevUserEntry | HRApp/Pods/leveldb-library/db/db_iter.cc:227-267 | stops before the entries of the last live key behind, having saved its newest value; every entry passed was parsed |
| DBIter.Iterator.ParseKey | HRApp/Pods/leveldb-library/db/db_iter.cc:131-139 | tells whether the type is known, and keeps the status in step: it is an error if and only if some entry that was parsed has an unknown type |
| DBIter.Iterator.Seek | HRApp/Pods/leveldb-library/db/db_iter.cc:269-281 | stands at the first live pair with a key not before the target |
| DBIter.Iterator.SeekToFirst | HRApp/Pods/leveldb-library/db/db_iter.cc:283-292 | stands at the first live pair, if there is one |
| DBIter.Iterator.SeekToLast | HRApp/Pods/leveldb-library/db/db_iter.cc:294-299 | stands at the last live pair, if there is one |
| DBIter.SeekRank | HRApp/Pods/leveldb-library/db/db_iter.cc:273-276 | an internal key with the largest tag at the sequence number seeks to the entries of all live pairs from the target on |
| DBIter.CursorIsPlain | HRApp/Pods/leveldb-library/db/db_iter.cc:141-299 | the plain cursor that the iterator is compared with: first, last, next and previous pair, or none, and the first pair whose key is not before the target |
| DBIter.Found | HRApp/Pods/leveldb-library/db/db_iter.cc:186-189 | an entry that is neither skipped nor hidden nor a deletion is live |
| Compaction.CompactionState.DoCompactionWork | HRApp/Pods/leveldb-library/db/db_impl.cc:901-1010 | the concatenated outputs are the input without the entries that rules (A) and (B) drop, whatever decides where files end; it fails only when the database shuts down, the input cannot be read, or an output cannot be opened or finished |
| Compaction.CompactionState.FinishOutputFile | HRApp/Pods/leveldb-library/db/db_impl.cc:811-858 | closes the table being built with its recorded range, and what was written stays; a table that cannot be finished is given up |
| Compaction.KeptIsSubset | HRApp/Pods/leveldb-library/db/db_impl.cc:974-996 | the outputs hold entries of the input only |
| Compaction.KeptIsSubsequence | HRApp/Pods/leveldb-library/db/db_impl.cc:974-996 | the outputs one after another are a subsequence of the input: increasing places, the same entries |
| Compaction.PlacesOfKept | HRApp/Pods/leveldb-library/db/db_impl.cc:946-996 | exactly the entries that neither rule drops are kept |
| Compaction.KeptSorted | HRApp/Pods/leveldb-library/db/db_impl.cc:974-996 | the outputs one after another are strictly sorted |
| Compaction.RangesAreDisjoint | HRApp/Pods/leveldb-library/db/db_impl.cc:982-986 | the range recorded for an output holds its entries, and the ranges of successive outputs are disjoint and increase |
| Compaction.PreservesViews | HRApp/Pods/leveldb-library/db/db_impl.cc:929-963 | when every input key parses, no key is mapped differently at any sequence number from the smallest snapshot on |
| Compaction.ExactViews | HRApp/Pods/leveldb-library/db/db_impl.cc:929-963 | for all inputs: what a key is mapped to from the smallest snapshot on is unchanged if and only if its newest entry is not a deletion dropped by rule (B) with a value of the key kept behind a corrupt entry |
| Compaction.CorruptKeyResurrects | HRApp/Pods/leveldb-library/db/db_impl.cc:931-935 | a concrete input in which a corrupt entry between a deletion and the value it deletes brings the value back |
| Compaction.NewestNotHidden | HRApp/Pods/leveldb-library/db/db_impl.cc:946-948 | rule (A) never drops the newest entry that shows |
| Compaction.NewestDropped | HRApp/Pods/leveldb-library/db/db_impl.cc:949-960 | a newest entry is dropped only by rule (B), and then its key was mapped to nothing |
| Compaction.OnlyLivePairsRemain | HRApp/Pods/leveldb-library/db/db_impl.cc:946-963 | with everything at or below the smallest snapshot and no deeper level, what is written is exactly the live pairs: no overwritten value and no deletion stays |
| Compaction.KeptIffNeeded | HRApp/Pods/leveldb-library/db/db_impl.cc:946-963 | with snapshots: an entry is kept if and only if it is the newest one for some reader from the smallest snapshot on, unless it is a deletion at or below that snapshot with nothing in deeper levels |
| SnapshotList.List.constructor | HRApp/Pods/leveldb-library/db/snapshot.h:41-44 | the ring holds the head only: no snapshots |
| SnapshotList.List.Empty | HRApp/Pods/leveldb-library/db/snapshot.h:46 | the head is its own neighbour if and only if no snapshot is held |
| SnapshotList.List.Oldest | HRApp/Pods/leveldb-library/db/snapshot.h:47-50 | the snapshot after the head has the smallest sequence number |
| SnapshotList.List.Newest | HRApp/Pods/leveldb-library/db/snapshot.h:51-54 | the snapshot before the head has the largest sequence number |
| SnapshotList.List.New | HRApp/Pods/leveldb-library/db/snapshot.h:57-70 | a new snapshot is linked in at the end of the ring, which stays sorted |
| SnapshotList.List.Delete | HRApp/Pods/leveldb-library/db/snapshot.h:79-86 | the snapshot is unlinked; the others stay, in order |
| Coding.EncodeVarint32 | HRApp/Pods/leveldb-library/util/coding.cc:47-73 | writes the base-128 groups of the number at the pointer and nothing else, whatever branch is taken |
| Coding.VarintLength | HRApp/Pods/leveldb-library/util/coding.cc:103-110 | the number of bytes that the encoding takes |
| Coding.GetVarint32Ptr | HRApp/Pods/leveldb-library/util/coding.cc:112-129 | reads back the number that was written, and finds its end within five bytes |
| MemTable.FillBuffer | HRApp/Pods/leveldb-library/db/memtable.cc:86-107 | the buffer is filled exactly, through a moving pointer, with the encoded entry |
| MemTable.MemTable.CompareKeys | HRApp/Pods/leveldb-library/db/memtable.cc:28-34 | comparing two buffers compares the entries encoded in them |
| MemTable.MemTable.Add | HRApp/Pods/leveldb-library/db/memtable.cc:82-107 | the table holds one entry more, and stays sorted |
| MemTable.MemTable.Get | HRApp/Pods/leveldb-library/db/memtable.cc:109-133 | one seek finds what the key is mapped to at the sequence number: its value, a deletion, or that no entry shows |
| MemTable.SeekFindsNewest | HRApp/Pods/leveldb-library/db/dbformat.cc:121-138 | the first entry at or after a lookup key is the newest one that shows, if any shows |
| BatchGroup.BuildBatchGroup | HRApp/Pods/leveldb-library/db/db_impl.cc:1260-1306 | the group is the longest run of writers that the sync and size rules allow; its batch is theirs in queue order; the leader's own batch is left alone when others are appended |
| BatchGroup.GroupIsSound | HRApp/Pods/leveldb-library/db/db_impl.cc:1277-1293 | the group is determined; no sync writer rides under a leader that does not sync; the size limit holds |
| BatchGroup.GroupBounds | HRApp/Pods/leveldb-library/db/db_impl.cc:1265-1297 | the limits in bytes: 128 KiB more than a small leader, 1 MiB otherwise; the writer behind the group did not fit or wants a sync that the leader does not |
| BatchGroup.SizeIsLength | HRApp/Pods/leveldb-library/db/write_batch.cc:5-14 | what counts as the size of a batch is the length of its contents: 12 bytes, and per operation a type and length-prefixed key and value |
| WriteQueue.ArriveKeeps | HRApp/Pods/leveldb-library/db/db_impl.cc:1185-1194 | a writer that joins the queue keeps the invariant |
| WriteQueue.WakeKeeps | HRApp/Pods/leveldb-library/db/db_impl.cc:1193-1198 | a thread that wakes, signalled or not, keeps the invariant |
| WriteQueue.StartCommitKeeps | HRApp/Pods/leveldb-library/db/db_impl.cc:1201-1209 | forming a group keeps the invariant |
| WriteQueue.AppendRecordKeeps | HRApp/Pods/leveldb-library/db/db_impl.cc:1216 | appending the group's record, or failing to, keeps the invariant |
| WriteQueue.SyncLogKeeps | HRApp/Pods/leveldb-library/db/db_impl.cc:1217-1223 | syncing the log, or failing to, keeps the invariant |
| WriteQueue.InsertOneKeeps | HRApp/Pods/leveldb-library/db/db_impl.cc:1224-1226 | inserting one operation into the memtable without the mutex keeps the invariant |
| WriteQueue.PublishKeeps | HRApp/Pods/leveldb-library/db/db_impl.cc:1227-1256 | publishing the sequence numbers and waking the group and the new head keeps the invariant |
| WriteQueue.SkipKeeps | HRApp/Pods/leveldb-library/db/db_impl.cc:1201-1256 | a null batch, or no room, keeps the invariant |
| WriteQueue.SwitchLogKeeps | HRApp/Pods/leveldb-library/db/db_impl.cc:1346-1366 | a log switch while the head makes room keeps the invariant |
| WriteQueue.RunsAreSafe | HRApp/Pods/leveldb-library/db/db_impl.cc:1185-1256 | the invariant holds in every state of every interleaving |
| WriteQueueProperties.RangesIncrease | HRApp/Pods/leveldb-library/db/db_impl.cc:1202-1236 | successive groups use disjoint, increasing ranges of sequence numbers |
| WriteQueueProperties.ReadersSeeWholeGroups | HRApp/Pods/leveldb-library/db/db_impl.cc:1224-1236 | a reader at any published sequence number sees a prefix of the groups, each whole, even while the next one is being inserted |
| WriteQueueProperties.AppliedExactlyOnce | HRApp/Pods/leveldb-library/db/db_impl.cc:1185-1258 | the memtable holds the operations of each successful call exactly once, in queue order, and otherwise only the part of the current group inserted so far |
| WriteQueueProperties.SuccessfulCallIsApplied | HRApp/Pods/leveldb-library/db/db_impl.cc:1224-1236 | the batch of a call that succeeded is in the memtable, whole and in its order |
| WriteQueueProperties.LoggedInQueueOrder | HRApp/Pods/leveldb-library/db/db_impl.cc:1212-1219 | batches reach the log in queue order, each once and whole: the log holds the operations of some threads in order of arrival, and every successful call with a batch is one of them |
| WriteQueueProperties.SyncedCallIsDurable | HRApp/Pods/leveldb-library/db/db_impl.cc:1217-1218 | the batch of a successful call that asked for a sync is in a log record that was synced, whoever led its group |
| WriteQueueProperties.SyncedMeansSynced | HRApp/Pods/leveldb-library/db/db_impl.cc:1217-1218 | a log record counts as synced only if a sync of its file succeeded after it was appended and before the log was switched |
| WriteQueueProperties.NothingSucceedsAfterFailedSync | HRApp/Pods/leveldb-library/db/db_impl.cc:1227-1232 | over all runs: once a sync fails, no call that was not back before ever succeeds, neither those of its group nor later ones |
| WriteQueueProperties.NothingSucceedsAfterError | HRApp/Pods/leveldb-library/db/db_impl.cc:1315-1319 | over all runs: once any background error is recorded, at most the group then under way succeeds, and no other ever does |
| WriteQueueProperties.ErrorsComeFromSyncs | HRApp/Pods/leveldb-library/db/db_impl.cc:1216-1232 | a group that fails records an error only if its sync failed, not if its append did |
| WriteQueueProperties.FailedAppendIsForgotten | HRApp/Pods/leveldb-library/db/db_impl.cc:1216-1232 | over the two steps: an append that fails leaves no error behind |
| WriteQueueProperties.SignalsComeFromLeaders | HRApp/Pods/leveldb-library/db/db_impl.cc:1239-1256 | a thread is signalled only by a leader, when it leaves the queue as a follower or comes to its head |
| WriteQueueProperties.WakingUsesTheSignal | HRApp/Pods/leveldb-library/db/db_impl.cc:1193-1198 | a thread that wakes returns if it is done, runs if it is at the head, and waits again unsignalled otherwise |
| WriteQueueProgress.BatchIsWritten | HRApp/Pods/leveldb-library/db/db_impl.cc:1201-1256 | when nothing fails the batch of the writer at the head is written: there is a way on at whose end its group has left the queue, logged and ok |
| WriteQueueProgress.FirstCallSucceeds | HRApp/Pods/leveldb-library/db/db_impl.cc:1185-1256 | in a new database the first call can succeed |
| WriteQueueProgress.HeadReturns | HRApp/Pods/leveldb-library/db/db_impl.cc:1201-1256 | a null batch succeeds once there is room; after an error nothing does, but the call returns |
| WriteQueueProgress.AllCallsCanReturn | HRApp/Pods/leveldb-library/db/db_impl.cc:1185-1256 | no deadlock: from every reachable state there is a way on, without new calls, on which all calls return |
| WriteQueueProperties.NobodyIsForgotten | HRApp/Pods/leveldb-library/db/db_impl.cc:1193-1256 | no wakeup is lost: every thread is back, running, told that it is done, or behind a head that is running or signalled |
| WriteQueueProperties.LeaderCanGoOn | HRApp/Pods/leveldb-library/db/db_impl.cc:1212-1256 | a leader always has a next step, and when it publishes its whole group leaves the queue |
| Scheduling.OneBackgroundCall | HRApp/Pods/leveldb-library/db/db_impl.cc:648-686 | in every reachable state there is at most one background call; exactly one if there is work and neither an error nor a shutdown; has_imm_ agrees with imm_ |
| Scheduling.NobodyWaitsForNothing | HRApp/Pods/leveldb-library/db/db_impl.cc:1338-1347 | a thread that waits was signalled, or a background call is on its way |
| Scheduling.RoomIsAnnounced | HRApp/Pods/leveldb-library/db/db_impl.cc:669-686 | every step that drops the immutable memtable, changes the number of level-0 files or records an error signals all who wait |
| Scheduling.CallCanGoOn | HRApp/Pods/leveldb-library/db/db_impl.cc:669-767 | a background call can always take its next step |
| Scheduling.RequestIsGone | HRApp/Pods/leveldb-library/db/db_impl.cc:608-621 | over all runs: while a manual compaction runs its request is gone if and only if its owner gave up meanwhile, which it does at a recorded error or a shutdown only; no other request takes its place |
| Scheduling.OwnerStays | HRApp/Pods/leveldb-library/db/db_impl.cc:754-766 | in every reachable state without an error or a shutdown a running manual compaction finds its request |
| Scheduling.OwnerMayLeave | HRApp/Pods/leveldb-library/db/db_impl.cc:608-621 | a concrete run in which a writer's sync fails during a manual compaction, the owner gives up, and the compaction is left with a null request |
| Scheduling.RunsAreSafe | HRApp/Pods/leveldb-library/db/db_impl.cc:608-686 | the scheduling invariant holds in every state of every run |
| Scheduling.QuietForever | HRApp/Pods/leveldb-library/db/db_impl.cc:648-678 | over all runs: after an error or a shutdown, once no background call is left, there is never one again |
| Scheduling.ErrorsAreRecorded | HRApp/Pods/leveldb-library/db/db_impl.cc:563-565 | a failed flush or compaction, and a failed sync, are recorded |
| Scheduling.RequestIsServed | HRApp/Pods/leveldb-library/db/db_impl.cc:754-766 | a manual compaction that ends, or finds nothing to compact, takes its request with it |
| Scheduling.MemtableGoesFirst | HRApp/Pods/leveldb-library/db/db_impl.cc:691-694 | a call that starts writes the immutable memtable before anything else; success clears imm_ and has_imm_, failure leaves them |
| Scheduling.WritersSwitchOrWait | HRApp/Pods/leveldb-library/db/db_impl.cc:1336-1366 | without an error a writer that needs a new memtable can switch if and only if there is no immutable one and fewer than twelve files in level 0, and waits otherwise |
| Scheduling.ManualAsksOrWaits | HRApp/Pods/leveldb-library/db/db_impl.cc:609-621 | a manual compaction asks if no other one is asked for, waits if one is, and is given up at an error or a shutdown only |
| Scheduling.CompactionMakesRoom | HRApp/Pods/leveldb-library/db/db_impl.cc:669-686 | a compaction may leave any number of files in level 0, and all who wait are told |
| Scheduling.FlushAddsFiles | HRApp/Pods/leveldb-library/db/db_impl.cc:557-562 | a flush may leave any number of files in level 0 and clears imm_, and all who wait are told |
| Scheduling.SignalsHaveCause | HRApp/Pods/leveldb-library/db/db_impl.cc:640-686 | a thread is signalled only by the background thread or by one that records an error |
| Scheduling.DestructorIsTold | HRApp/Pods/leveldb-library/db/db_impl.cc:153-160 | over all runs: the destructor waits if and only if a call is scheduled, and as long as it waits unsignalled the call is still there |
| EngineViews.CompactionView | HRApp/Pods/leveldb-library/db/db_impl.cc:929-963 | a compaction's outputs in place of its inputs look the same from its smallest snapshot on, in the whole database |
| EngineViews.AddFits | HRApp/Pods/leveldb-library/db/db_impl.cc:1116-1123 | entries that are newer than two sets that look the same, or in both, keep them looking the same |
| EngineWrites.AdmitWriteKeeps | HRApp/Pods/leveldb-library/db/db_impl.cc:1201-1209 | a write that passed MakeRoomForWrite keeps the invariant of the database |
| EngineWrites.AppendLogKeeps | HRApp/Pods/leveldb-library/db/db_impl.cc:1216 | appending a batch to the log keeps the invariant of the database |
| EngineWrites.FinishWriteKeeps | HRApp/Pods/leveldb-library/db/db_impl.cc:1217-1236 | the sync, the insertion and the publication keeps the invariant of the database |
| EngineWrites.FailSyncKeeps | HRApp/Pods/leveldb-library/db/db_impl.cc:1219-1232 | a failed sync keeps the invariant of the database |
| EngineWrites.SwitchMemtableKeeps | HRApp/Pods/leveldb-library/db/db_impl.cc:1346-1366 | a switch to a new memtable and log keeps the invariant of the database |
| EngineWrites.TakeSnapshotKeeps | HRApp/Pods/leveldb-library/db/db_impl.cc:1166-1169 | taking a snapshot keeps the invariant of the database |
| EngineWrites.ReleaseSnapshotKeeps | HRApp/Pods/leveldb-library/db/db_impl.cc:1171-1174 | releasing a snapshot keeps the invariant of the database |
| EngineWrites.StartReadKeeps | HRApp/Pods/leveldb-library/db/db_impl.cc:1108-1116 | a reader that pins the current version keeps the invariant of the database |
| EngineWrites.EndReadKeeps | HRApp/Pods/leveldb-library/db/db_impl.cc:1137-1143 | a reader that lets go of it keeps the invariant of the database |
| EngineBackground.StartFlushKeeps | HRApp/Pods/leveldb-library/db/db_impl.cc:535-543 | starting to write the immutable memtable as a table keeps the invariant of the database |
| EngineBackground.BuildTableKeeps | HRApp/Pods/leveldb-library/db/db_impl.cc:491-513 | a finished table, no longer pending but not yet installed, keeps the invariant of the database |
| EngineBackground.CommitFlushKeeps | HRApp/Pods/leveldb-library/db/db_impl.cc:549-555 | the durable part of installing a flush keeps the invariant of the database |
| EngineBackground.InstallFlushKeeps | HRApp/Pods/leveldb-library/db/db_impl.cc:557-562 | dropping the immutable memtable and collecting files keeps the invariant of the database |
| EngineBackground.FailFlushKeeps | HRApp/Pods/leveldb-library/db/db_impl.cc:563-565 | a failed flush, whether or not the manifest was reached, keeps the invariant of the database |
| EngineBackground.StartJobKeeps | HRApp/Pods/leveldb-library/db/db_impl.cc:878-896 | starting a compaction with the oldest snapshot as its bound keeps the invariant of the database |
| EngineBackground.WriteOutputKeeps | HRApp/Pods/leveldb-library/db/db_impl.cc:786-809 | opening and filling an output table keeps the invariant of the database |
| EngineBackground.FinishLoopKeeps | HRApp/Pods/leveldb-library/db/db_impl.cc:1001-1012 | the end of the compaction loop keeps the invariant of the database |
| EngineBackground.CommitJobKeeps | HRApp/Pods/leveldb-library/db/db_impl.cc:860-876 | the durable part of installing a compaction keeps the invariant of the database |
| EngineBackground.InstallJobKeeps | HRApp/Pods/leveldb-library/db/db_impl.cc:734-743 | installing a compaction and collecting files keeps the invariant of the database |
| EngineBackground.FailJobKeeps | HRApp/Pods/leveldb-library/db/db_impl.cc:734-738 | a failed compaction, whether or not the manifest was reached, keeps the invariant of the database |
| EngineBackground.CollectingIsSafe | HRApp/Pods/leveldb-library/db/db_impl.cc:223-278 | no table is deleted that a live version, the manifest, a reader, a running compaction or a flush needs; no log that recovery would read; none with data of the memtables |
| EngineBackground.CollectingKeeps | HRApp/Pods/leveldb-library/db/db_impl.cc:223-278 | deleting obsolete files keeps the invariant of the database |
| EngineRecovery.RunningDisk | HRApp/Pods/leveldb-library/db/db_impl.cc:280-369 | what is on disk at any moment of a running database can be opened and shows the whole history |
| EngineRecovery.CrashKeeps | HRApp/Pods/leveldb-library/db/db_impl.cc:280-369 | a crash at any moment, which may take any entries not synced, may leave a cut record, and hides what stands behind an earlier one, keeps the invariant of the database |
| EngineRecovery.StartRecoveryKeeps | HRApp/Pods/leveldb-library/db/db_impl.cc:309-325 | starting to recover keeps the invariant of the database |
| EngineRecovery.ReplayPartKeeps | HRApp/Pods/leveldb-library/db/db_impl.cc:430-446 | writing part of a log as a table during recovery keeps the invariant of the database |
| EngineRecovery.ReplayDoneKeeps | HRApp/Pods/leveldb-library/db/db_impl.cc:348-361 | finishing a log keeps the invariant of the database |
| EngineRecovery.ReuseLogKeeps | HRApp/Pods/leveldb-library/db/db_impl.cc:450-474 | keeping the last log in use, whether or not it ends in a cut record, keeps the invariant of the database |
| EngineRecovery.OpenKeeps | HRApp/Pods/leveldb-library/db/db_impl.cc:1474-1515 | opening, successful or failed at any point, with the manifest reached or not, keeps the invariant of the database |
| EngineSafety.RunsAreSafe | HRApp/Pods/leveldb-library/db/db_impl.cc:223-566 | the invariant of the database holds in every state of every run of writes, flushes, compactions, collections, crashes and recoveries |
| EngineSafety.HistoryIsOnDisk | HRApp/Pods/leveldb-library/db/db_impl.cc:309-369 | in every reachable state the files hold the history, with every acknowledged write that no crash took away |
| EngineSafety.AcknowledgedStays | HRApp/Pods/leveldb-library/db/db_impl.cc:1217-1236 | a step withdraws an acknowledgement if and only if it is a crash that takes the write away, and that of a synced write if and only if it is a crash that hides it behind a cut record |
| EngineDurability.NothingIsLost | HRApp/Pods/leveldb-library/db/db_impl.cc:309-369 | in every reachable state the tables of the manifest's version, with what a reader finds in the logs still needed on top, show the recoverable writes; these hold every acknowledged write that no crash took away, except what stands behind a cut record of a log in use |
| EngineDurability.AcknowledgedSurvives | HRApp/Pods/leveldb-library/db/db_impl.cc:1216-1236 | over any run: a write that was acknowledged stays so, and stays on disk, for as long as no crash takes it away |
| EngineDurability.SyncedSurvives | HRApp/Pods/leveldb-library/db/db_impl.cc:1217-1218 | over any run: the same for a synced write, for as long as no crash hides it behind a cut record |
| EngineDurability.DownIsFindable | HRApp/Pods/leveldb-library/db/db_impl.cc:280-369 | whenever the database does not run, a reader finds every entry of every log |
| EngineDurability.SomethingBehindIsHidden | HRApp/Pods/leveldb-library/db/log_reader.cc:222-233 | what a crash does to entries behind a cut record: if any are left on disk at least one is hidden, and those still found are newer than those hidden |
| EngineDurability.AlwaysFindable | HRApp/Pods/leveldb-library/db/db_impl.cc:450-474 | unless recovery keeps a torn log in use, no entry ever stands behind a cut record |
| EngineDurability.SyncedWritesAreForever | HRApp/Pods/leveldb-library/db/db_impl.cc:1217-1218 | a synced write, once acknowledged, is recoverable in every later state of the run, through crashes and interrupted recoveries, unless recovery keeps a torn log in use |
| EngineDurability.ProcessDeathsLoseNothing | HRApp/Pods/leveldb-library/db/db_impl.cc:1216-1236 | without a crash of the machine no acknowledged write is lost, synced or not, unless recovery keeps a torn log in use |
| EngineDurability.OnlyMachinesTear | HRApp/Pods/leveldb-library/db/log_writer.cc:82-108 | over all runs: as long as only the process dies no log ends in a cut record, and no torn log is kept in use |
| EngineDurability.OnlyMachinesLose | HRApp/Pods/leveldb-library/db/db_impl.cc:1216-1236 | over all runs: as long as only the process dies, however often, nothing acknowledged is ever lost, synced or not, logs kept in use or not |
| EngineDurability.TornReuseLoses | HRApp/Pods/leveldb-library/db/db_impl.cc:450-474 | every run in which recovery keeps a torn log in use can go on to lose a write that was synced and acknowledged |
| EngineDurability.ReuseIsSafe | HRApp/Pods/leveldb-library/db/db_impl.cc:450-474 | over all runs: no continuation loses a synced and acknowledged write if and only if the log that recovery keeps in use does not end in a cut record |
| EngineDurability.SyncedWriteIsLost | HRApp/Pods/leveldb-library/db/db_impl.cc:450-474 | a concrete run in which a synced and acknowledged write is lost behind a cut record |
| EngineDurability.UnsyncedWriteMayBeLost | HRApp/Pods/leveldb-library/db/db_impl.cc:1216-1236 | a concrete run in which an acknowledged write that was not synced is lost in a crash of the machine: syncing is needed |
| EngineSafety.OpeningRebuilds | HRApp/Pods/leveldb-library/db/db_impl.cc:280-369 | a successful recovery makes readable exactly the history that the files held |
| EngineSafety.ReadersSeeTheWrites | HRApp/Pods/leveldb-library/db/db_impl.cc:1116-1123 | memtable, immutable memtable and tables together look like the writes that readers are to see, from the floor on |
| EngineSafety.AcknowledgedWriteIsRead | HRApp/Pods/leveldb-library/db/db_impl.cc:1100-1145 | a reader gets a key's newest acknowledged write, unless a later write hides it |
| EngineSafety.GetFindsTheNewest | HRApp/Pods/leveldb-library/db/db_impl.cc:1118-1131 | the first hit in memtable, immutable memtable and tables is the newest entry over all three: the layered lookup and the map agree, both ways |
| EngineSafety.StepKeepsView | HRApp/Pods/leveldb-library/db/db_impl.cc:1100-1145 | no step of a running database changes what a key is mapped to at an old sequence number that stays readable |
| EngineSafety.SnapshotsAreStable | HRApp/Pods/leveldb-library/db/db_impl.cc:1166-1174 | what a snapshot shows does not change while it is held, whatever is written, flushed, compacted or collected |
| EngineReaders.PinnedReadersAreStable | HRApp/Pods/leveldb-library/db/db_impl.cc:1057-1080 | what a Get or an iterator without a snapshot sees, of the memtables and the version that it pinned, does not change while it works, in every later state, and is what was written before it started |
| EngineReaders.HeldTables | HRApp/Pods/leveldb-library/db/db_impl.cc:223-278 | the tables of a version that a reader holds stay on disk with the same contents in every later state |
| EngineReaders.PinnedMemGrows | HRApp/Pods/leveldb-library/db/db_impl.cc:1346-1366 | a pinned memtable gets no entries but such as are newer than the last sequence number that the reader found |
| EngineReaders.PinnedMemIsImm | HRApp/Pods/leveldb-library/db/db_impl.cc:1346-1366 | after the switch the pinned memtable is the immutable one, unchanged until it is flushed |
| EngineReaders.ReleasedIsGone | HRApp/Pods/leveldb-library/db/db_impl.cc:1171-1174 | a released snapshot, or a reader that lets go, is gone, and the others stay in their order |
| EngineSafety.SmallestSnapshotIsLowerBound | HRApp/Pods/leveldb-library/db/db_impl.cc:890-894 | a running compaction's smallest snapshot bounds all snapshots held and all that can still be taken |
| EngineSafety.SmallestSnapshotIsTight | HRApp/Pods/leveldb-library/db/db_impl.cc:890-894 | when a compaction starts, its smallest snapshot is the largest number that bounds all snapshots held and the last sequence number |
| EngineSafety.NewSnapshotIsReadable | HRApp/Pods/leveldb-library/db/db_impl.cc:1166-1169 | a new snapshot can be read and covers all acknowledged writes |
| EngineSafety.NeededFilesExist | HRApp/Pods/leveldb-library/db/db_impl.cc:223-278 | in every reachable state of a running database every file that is still needed is there, the flushed table that is neither pending nor installed included |
| EngineSafety.NeededFilesStay | HRApp/Pods/leveldb-library/db/db_impl.cc:223-278 | no step of a running database takes away a file that is needed after it |
| EngineFailures.FailuresAreRecorded | HRApp/Pods/leveldb-library/db/db_impl.cc:563-565 | a failed sync, flush or compaction is recorded |
| EngineFailures.NoWritesAfterAnError | HRApp/Pods/leveldb-library/db/db_impl.cc:1315-1319 | over any run: from then on until the database is opened again no write is acknowledged but the one under way |
| EngineFailures.CommittedIsInstalled | HRApp/Pods/leveldb-library/db/db_impl.cc:552-562 | once the manifest holds a flush or a compaction it is installed; no step of a running database makes it fail or drops it |
| EngineFailures.NothingIsDeletedAfterAnError | HRApp/Pods/leveldb-library/db/db_impl.cc:226-230 | after an error no table and no log is deleted |
| EngineFailures.NothingObsoleteStays | HRApp/Pods/leveldb-library/db/db_impl.cc:223-278 | when a flush or compaction is installed without an error, every table left is current, pending or held by a reader, and every log left is at or above the log number |
| EngineFailures.InputsAreDeleted | HRApp/Pods/leveldb-library/db/db_impl.cc:223-278 | the inputs of an installed compaction, and the logs of an installed flush, are gone, unless a reader holds the table |
| EngineProgress.WriteSucceeds | HRApp/Pods/leveldb-library/db/db_impl.cc:1201-1236 | when nothing fails a write is logged, acknowledged and seen by readers, and as synced if it asked for that |
| EngineProgress.MemtableCanBeFlushed | HRApp/Pods/leveldb-library/db/db_impl.cc:535-562 | when nothing fails an immutable memtable becomes a table of the current version, and its log is not needed any more |
| EngineProgress.CompactionCanFinish | HRApp/Pods/leveldb-library/db/db_impl.cc:886-1036 | any compaction can start while there is no error, no other one and no immutable memtable, and when nothing fails it is installed: a table with exactly what it keeps takes the place of its inputs |
| EngineProgress.AlwaysInRange | HRApp/Pods/leveldb-library/db/dbformat.h:63-65 | in every reachable state all sequence numbers on disk are below the largest one |
| EngineProgress.LogsCanBeReplayed | HRApp/Pods/leveldb-library/db/db_impl.cc:309-369 | from any state of a recovery all logs that are left can be replayed, in order |
| EngineProgress.DatabaseCanBeOpened | HRApp/Pods/leveldb-library/db/db_impl.cc:280-369 | however the database went down, at any moment of any run: when nothing fails it can be opened again, and shows the whole history that its files hold |
| Varint.EncodeIsVarint | HRApp/Pods/nanopb/pb_encode.c:608-628 | the encoding of a number is a varint whose groups of seven bits stand for that number |
| Varint.VarintSize | HRApp/Pods/nanopb/pb_encode.c:608-628 | a number takes at most n bytes if and only if it has at most 7n bits |
| PbVarint.TenBytesAreEnough | HRApp/Pods/nanopb/pb_encode.c:610 | ten bytes hold the encoding of every 64-bit number |
| PbVarint.ReadVarint64Is | HRApp/Pods/nanopb/pb_decode.c:255-275 | for all bytes: the 64-bit decoder accepts a varint of at most ten bytes and nothing else, and its value is taken modulo 2 to the 64 |
| PbVarint.Varint64RoundTrip | HRApp/Pods/nanopb/pb_decode.c:255-275 | 64-bit decoding inverts encoding for every 64-bit number, whatever follows |
| PbVarint.ReadVarint32Is | HRApp/Pods/nanopb/pb_decode.c:187-247 | what the 32-bit decoder accepts of up to ten bytes it reads modulo 2 to the 32 |
| PbVarint.Varint32RoundTrip | HRApp/Pods/nanopb/pb_decode.c:187-247 | the 32-bit decoder accepts the encoding of every 32-bit number |
| PbVarint.NegativeRoundTrip | HRApp/Pods/nanopb/pb_decode.c:220-228 | the 32-bit decoder accepts the ten-byte encoding of every sign-extended negative 32-bit number |
| PbVarint.DecodersAgree | HRApp/Pods/nanopb/pb_decode.c:187-275 | whenever both decoders accept the same bytes, they read as far, and the 32-bit result is the 64-bit one modulo 2 to the 32 |
| PbVarint.ZigzagRoundTrip | HRApp/Pods/nanopb/pb_encode.c:630-639 | zigzag is a bijection between signed and unsigned 64-bit numbers |
| PbStreams.FillGroups | HRApp/Pods/nanopb/pb_encode.c:608-628 | the loop fills a buffer of ten bytes with the encoding and never exceeds it |
| PbStreams.OStream.Write | HRApp/Pods/nanopb/pb_encode.c:103-124 | succeeds if and only if the bytes fit, or the stream only counts, and then appends them |
| PbStreams.OStream.EncodeVarint | HRApp/Pods/nanopb/pb_encode.c:608-628 | appends the encoding if and only if it fits |
| PbStreams.OStream.EncodeSvarint | HRApp/Pods/nanopb/pb_encode.c:630-639 | appends the encoding of the zigzagged number if and only if it fits |
| PbEncoder.EncodeTag | HRApp/Pods/nanopb/pb_encode.c:669-673 | appends field number and wire type |
| PbEncoder.EncodeString | HRApp/Pods/nanopb/pb_encode.c:709-715 | appends length and bytes |
| PbEncoder.EncodeNumber | HRApp/Pods/nanopb/pb_encode.c:769-850 | each number encoder appends what the wire format says of the field's value |
| PbEncoder.StringLength | HRApp/Pods/nanopb/pb_encode.c:888-896 | finds the first zero byte, or the end of the array |
| PbEncoder.EncodeValue | HRApp/Pods/nanopb/pb_encode.c:769-912 | each encoder succeeds if and only if the value is within its bounds and fits the stream, and then appends its encoding |
| PbEncoder.EncodeSubmessage | HRApp/Pods/nanopb/pb_encode.c:717-765 | the size pass and the write pass agree: the length prefix is that of the body, and the size cannot have changed |
| PbEncoder.EncodeArray | HRApp/Pods/nanopb/pb_encode.c:147-236 | a repeated field is written packed where its type allows, with the size known beforehand |
| PbEncoder.PackedSize | HRApp/Pods/nanopb/pb_encode.c:170-190 | the size of a packed array, by count or by a size pass, is the number of bytes of its items |
| PbEncoder.EncodeField | HRApp/Pods/nanopb/pb_encode.c:341-426 | a field is written as its rule says: always, if present, if the union holds it, or item by item |
| PbEncoder.Encode | HRApp/Pods/nanopb/pb_encode.c:528-550 | succeeds if and only if everything is within bounds and fits, and then appends the encoding of the message |
| PbEncoder.GetEncodedSize | HRApp/Pods/nanopb/pb_encode.c:567-576 | the size pass gives the number of bytes that the write pass takes |
| PbEncoder.EncodeToBuffer | HRApp/Pods/nanopb/pb_encode.c:86-101 | encoding into a buffer succeeds if and only if the message is within bounds and that size fits |
| PbFieldIter.FieldIter.constructor | HRApp/Pods/nanopb/pb_common.c:8-18 | the iterator starts at the first field and its address |
| PbFieldIter.FieldIter.Next | HRApp/Pods/nanopb/pb_common.c:20-76 | moves to the next field or wraps around; address, size address and required index are those of the field reached |
| PbFieldIter.FieldIter.Find | HRApp/Pods/nanopb/pb_common.c:78-95 | finds a tag from any position if and only if it is declared, and comes back to where it was otherwise |
| PbFieldIter.FieldsDoNotOverlap | HRApp/Pods/nanopb/pb_common.c:37-73 | the addresses that a descriptor describes do not overlap: each field lies behind the one before it, except that members of a union lie in one place |
| PbFieldIter.PlacesAre | HRApp/Pods/nanopb/pb_common.c:20-75 | the addresses in plain numbers: each field at its offset behind the one before it, which takes 8 bytes as a pointer and as an array its size times its length; members of a union lie in the same place |
| PbFieldIter.UnionsAre | HRApp/Pods/nanopb/pb_common.c:44-50 | what makes the address of a which_ field right for every member of its union |
| PbFieldIter.FieldsSeen.Mark | HRApp/Pods/nanopb/pb_decode.c:1015-1016 | setting a bit marks that field and no other |
| PbFieldIter.FieldsSeen.AllMarked | HRApp/Pods/nanopb/pb_decode.c:1051-1069 | comparing whole words and then the rest passes if and only if all marks are there |
| PbIStream.IStream.Read | HRApp/Pods/nanopb/pb_decode.c:102-137 | takes that many bytes if they are there |
| PbIStream.IStream.DecodeVarint32 | HRApp/Pods/nanopb/pb_decode.c:187-247 | the loop computes the 32-bit decoding, and tells the end of the stream from an error |
| PbIStream.IStream.DecodeVarint | HRApp/Pods/nanopb/pb_decode.c:255-275 | the loop computes the 64-bit decoding |
| PbIStream.IStream.SkipField | HRApp/Pods/nanopb/pb_decode.c:321-331 | skips as the wire type says, and fails on an unknown one |
| PbIStream.IStream.DecodeTag | HRApp/Pods/nanopb/pb_decode.c:298-319 | splits a tag; an empty stream and a zero tag end the message |
| PbIStream.IStream.MakeStringSubstream | HRApp/Pods/nanopb/pb_decode.c:372-385 | the substream is the next length-prefixed bytes, if they are all there |
| PbIStream.IStream.CloseStringSubstream | HRApp/Pods/nanopb/pb_decode.c:387-400 | the parent goes on behind the substream, read to its end or not |
| PbDecoder.DecodeNumberFrom | HRApp/Pods/nanopb/pb_decode.c:1318-1429 | each number decoder computes the value, and fails if it does not fit the field |
| PbDecoder.DecodeBytesFrom | HRApp/Pods/nanopb/pb_decode.c:1431-1548 | byte strings are read if their length fits the field, which is checked first |
| PbDecoder.DecodeSubmessage | HRApp/Pods/nanopb/pb_decode.c:1503-1525 | a submessage is decoded from its own bytes only, into what was there |
| PbDecoder.DecodePackedArray | HRApp/Pods/nanopb/pb_decode.c:424-453 | packed items are appended while there is room; what is left over is an error |
| PbDecoder.DecodeStaticField | HRApp/Pods/nanopb/pb_decode.c:406-480 | a value is stored as the rule of its field says |
| PbDecoder.DecodeNoinit | HRApp/Pods/nanopb/pb_decode.c:925-1073 | the loop with iterator and bitmap computes the decoding of the whole input, or fails when it does |
| PbDecoder.CheckRequired | HRApp/Pods/nanopb/pb_decode.c:1030-1070 | the check passes if and only if each of the first 64 required fields was seen |
| PbDecoder.MarksAreComplete | HRApp/Pods/nanopb/pb_decode.c:1012-1070 | the marks by required index are complete exactly when the required fields with a bit were all seen |
| PbDecoder.SetToDefaults | HRApp/Pods/nanopb/pb_decode.c:836-919 | every field gets its default, submessages too |
| PbDecoder.DecodeFrom | HRApp/Pods/nanopb/pb_decode.c:1075-1087 | decodes into a struct of defaults |
| PbRoundTrip.NumberRoundTrip | HRApp/Pods/nanopb/pb_decode.c:1318-1429 | decoding inverts encoding for every number that its field can hold |
| PbRoundTrip.StringsNeedTerminators | HRApp/Pods/nanopb/pb_decode.c:1476-1496 | an encoded char array can be decoded into its field if and only if it holds a terminating zero, whatever lies behind it |
| PbRoundTrip.ValueRoundTrip | HRApp/Pods/nanopb/pb_decode.c:1431-1525 | decoding an encoded value merges it into what was there and reads exactly its bytes |
| PbRoundTrip.LoopRoundTrip | HRApp/Pods/nanopb/pb_decode.c:949-1022 | decoding the first n encoded fields of a message, whatever follows, is merging them and going on with what follows |
| PbRoundTrip.MessageRoundTrip | HRApp/Pods/nanopb/pb_decode.c:925-1073 | decoding an encoded message merges it into the struct and consumes all its bytes |
| PbRoundTrip.PackedRoundTrip | HRApp/Pods/nanopb/pb_decode.c:436-445 | packed items arrive in order behind those there |
| PbRoundTrip.ItemsRoundTrip | HRApp/Pods/nanopb/pb_decode.c:454-464 | items with their own tags arrive in order behind those there |
| PbProperties.RoundTrip | HRApp/Pods/nanopb/pb_decode.c:1075-1087 | pb_decode of what pb_encode wrote succeeds, consumes exactly these bytes and yields the same present fields, for every descriptor tree; of a char array only the string counts, whatever lies behind its end |
| PbProperties.MergeByConcatenation | HRApp/Pods/nanopb/pb_decode.c:949-1022 | decoding one encoded message after another is merging the second into the first |
| PbProperties.MergeAt | HRApp/Pods/nanopb/pb_decode.c:406-464 | outside unions merging is field by field: a scalar that is present replaces the old one, a submessage that is present is the old one with its fields merged in, an absent field stays, items are appended and start afresh |
| PbProperties.MergeUnion | HRApp/Pods/nanopb/pb_decode.c:465-476 | a union holds the member that arrived, decoded into a fresh struct, or stays as it was |
| PbProperties.SendableIsEncodable | HRApp/Pods/nanopb/pb_encode.c:528-550 | a well-formed message passes every check of the encoder |
| PbProperties.EncodableIsSendable | HRApp/Pods/nanopb/pb_encode.c:528-550 | what passes the encoder's checks, with its strings terminated, will be decoded again |
| PbWire.TagByte | HRApp/Pods/nanopb/pb_encode.c:675-707 | a field with a number below 16 begins with one byte: 8 times the number, plus 0 for bool and varints, 1 for fixed64, 2 for strings, bytes and submessages, 5 for fixed32 |
| PbWire.PackedBytes | HRApp/Pods/nanopb/pb_encode.c:156-192 | a packed array is a tag of kind 2, the number of bytes, and the items |
| PbWire.SkippedBytes | HRApp/Pods/nanopb/pb_decode.c:321-331 | of an unknown field, kind 1 is skipped by eight bytes and kind 5 by four; kinds 3, 4, 6 and 7 fail |
| PbWire.SkippedVarint | HRApp/Pods/nanopb/pb_decode.c:278-287 | kind 0 is skipped up to the first byte below 128 |
| PbWire.SkippedString | HRApp/Pods/nanopb/pb_decode.c:289-296 | kind 2 is skipped by its length |
| PbWire.FixedBytesAre | HRApp/Pods/nanopb/pb_encode.c:641-666 | fixed-width numbers are little-endian, byte by byte |
| PbWire.NumbersAre | HRApp/Pods/nanopb/pb_encode.c:769-797 | bools are 0 and 1, signed numbers of any width are extended to 64 bits, sint numbers are zigzagged |
| PbWire.DescriptorsAre | HRApp/Pods/nanopb/pb_encode.c:669-707 | what a descriptor must be: tags from 1 to 2 to the 29 less one, numbers of 1, 2, 4 or 8 bytes, any other type as it is |
| PbWire.PairIsGood | HRApp/Pods/nanopb/pb_common.c:78-95 | two fields of a message need different tags |
| PbWire.PairIsShaped | HRApp/Pods/nanopb/pb_encode.c:376-423 | two fields may be present together unless they are members of the same union |
| PbWire.Example1 | HRApp/Pods/nanopb/pb_encode.c:376-396 | the guide's first example: field 1 with 150 is 08 96 01 |
| PbWire.Example2 | HRApp/Pods/nanopb/pb_encode.c:709-715 | the guide's string example: field 2 with the word testing is 12 07 and its seven bytes, whatever lies behind the terminating zero |
| PbWire.Example3 | HRApp/Pods/nanopb/pb_encode.c:717-767 | the guide's embedded message: 1a 03 08 96 01 |
| PbWire.Example5 | HRApp/Pods/nanopb/pb_encode.c:147-205 | the guide's packed array of 3, 270 and 86942: 32 06 03 8e 02 9e a7 05 |
| PbBounds.DefaultsAt | HRApp/Pods/nanopb/pb_decode.c:836-889 | the struct that decoding begins with: declared defaults, submessages with theirs, empty arrays, no member of any union |
| PbBounds.AbsentFieldsGetDefaults | HRApp/Pods/nanopb/pb_decode.c:1075-1087 | a field that was not sent has its default after decoding |
| PbBounds.DecodedStaysInBounds | HRApp/Pods/nanopb/pb_decode.c:406-480 | whatever the bytes are: a struct that pb_decode accepts holds no array with too many items, no byte string or string longer than its field, and no number out of range, at any depth |
| PbAccepts.VarIntAccepted | HRApp/Pods/nanopb/pb_decode.c:1329-1364 | a signed field takes the number, of 32 bits and less the low half, if it is in range, and refuses it otherwise |
| PbAccepts.UVarIntAccepted | HRApp/Pods/nanopb/pb_decode.c:1366-1388 | an unsigned field takes the number if it is in range, and refuses it otherwise |
| PbAccepts.SVarIntAccepted | HRApp/Pods/nanopb/pb_decode.c:1390-1412 | a zigzag field takes the number if it is in range, and refuses it otherwise |
| PbAccepts.BoolAccepted | HRApp/Pods/nanopb/pb_decode.c:1318-1327 | a bool is true for every number but zero |
| PbAccepts.Varint32Accepted | HRApp/Pods/nanopb/pb_decode.c:187-247 | exactly which varints of up to 36 bytes the 32-bit decoder accepts: a fifth byte that is the last has at most four bits, and bytes behind the fifth hold nothing, or the sign extension of a negative number to 64 bits |
| PbAccepts.UnendedIsRefused | HRApp/Pods/nanopb/pb_decode.c:187-275 | a varint without a last byte is refused by both decoders |
| PbAccepts.BytesAccepted | HRApp/Pods/nanopb/pb_decode.c:1431-1548 | a byte string, string or fixed-length array is accepted if and only if it fits, and arrives unchanged; an empty one makes a fixed-length array all zeros |
| PbAccepts.TruncatedIsRefused | HRApp/Pods/nanopb/pb_decode.c:372-385 | what is shorter than its length says is refused |
| PbAccepts.UnpackedItemAccepted | HRApp/Pods/nanopb/pb_decode.c:454-464 | items of a type that could be packed are accepted one by one as well |
| PbAccepts.FullArrayRefuses | HRApp/Pods/nanopb/pb_decode.c:460-461 | an item for a full array is an error |
| PbAccepts.PackedOverflowIsRefused | HRApp/Pods/nanopb/pb_decode.c:436-448 | a packed array with more items than there is room for is an error |
| PbAccepts.ZeroTagEnds | HRApp/Pods/nanopb/pb_decode.c:310-314 | a zero byte in place of a tag ends the message; what is behind it is not read |
| PbAccepts.ZeroTagWithoutFields | HRApp/Pods/nanopb/pb_decode.c:957-986 | in a message without fields a field with tag zero is read as a bool, and lost |
| PbAccepts.NothingIsWritten | HRApp/Pods/nanopb/pb_encode.c:387-419 | absent fields and empty arrays take no bytes |
| PbAccepts.InOrder | HRApp/Pods/nanopb/pb_encode.c:528-550 | fields are written in the order of the descriptor |
| PbUnknown.SkipsOneField | HRApp/Pods/nanopb/pb_decode.c:278-331 | pb_skip_field consumes exactly one field of every wire type |
| PbUnknown.LoopStable | HRApp/Pods/nanopb/pb_decode.c:949-1022 | for all bytes: decoding input that ends at a field boundary and then more is decoding the rest from where it stood |
| PbUnknown.UnknownFieldsAreTransparent | HRApp/Pods/nanopb/pb_decode.c:957-986 | inserting a field with an undeclared nonzero tag at any field boundary of any input leaves the result as it is |
| PbUnknown.NestedUnknownFieldsAreTransparent | HRApp/Pods/nanopb/pb_decode.c:957-986 | the same inside submessages, at any depth: the length prefixes around the field grow with it, and the result stays |
| PbUnknown.RequiredFieldsAreChecked | HRApp/Pods/nanopb/pb_decode.c:1012-1070 | with fields in any order and any number of times decoding succeeds if and only if each of the first 64 required fields occurred |
| PbUnknown.RequiredFieldsAreCheckedEarly | HRApp/Pods/nanopb/pb_decode.c:949-1070 | the same when a zero tag ends the message early: what is behind it does not count |

## Left out

- LogReader.Reader.ReadRecord: initial offsets above zero, failing reads of the file, reading without checksums, and LastRecordOffset; every caller in the repository reads from the start with checksums on.
- LogWriter.Writer.AddRecord: appends to the file always succeed; a crash may cut them anywhere.
- LogFormat.UnmaskMask: CRC32C itself is an arbitrary function of type and payload.
- InternalKeys.CompareStored: FindShortestSeparator, FindShortSuccessor and the filter policy of dbformat.cc, which only shorten index keys.
- DBIter.Run: sampling of read bytes, and the status of the internal iterator; the internal iterator is a sorted list.
- Compaction.CompactionState.DoCompactionWork: the bytes of the tables; the flush of the immutable memtable inside the loop is a step of the engine's transition system.
- SnapshotList.List.Delete: freeing the memory, and the debug-only owner field.
- MemTable.MemTable.Add: the arena, reference counts and the skip list's towers and concurrent readers; keys and values must be shorter than 2 to the 32, the size of the stored lengths.
- BatchGroup.BuildBatchGroup: the 32-bit count field of a write batch does not wrap around, because such a batch would take many gigabytes.
- WriteQueueProperties.AppliedExactlyOnce: inserting a well-formed batch into the memtable cannot fail; malformed batches are not modelled.
- Scheduling.OneBackgroundCall: the number of level-0 files after a background step is arbitrary; PickCompaction and CompactRange only say whether there is something to compact.
- EngineWrites.AppendLogKeeps: an append that fails without a crash, after which the code goes on with the next sequence numbers; batches are sets of entries, so a crash may split a batch in the model though not in the log.
- EngineBackground.StartJobKeeps: levels, trivial moves, the choice of inputs and grandparent limits; the tables of a version are one set, and the input of a compaction is any sorted list of the entries of its tables.
- EngineRecovery.ReuseLogKeeps: the bytes of a log; a log of the engine is a set of entries with a flag that says whether it ends in a cut record, and which entries stand behind one. What a crash hides of these is any older part, as `LogReuse.ReusedLog` allows; `torn` means a cut inside a physical record whose block has room.
- EngineDurability.ReuseIsSafe: at the very end of the sequence numbers, where no further write is possible, the direction that finds a lost write needs a number for it.
- LogChecksum.NothingIsDroppedSilently: files with a physical record of type 5 or 6, the reader's own codes for the end of the file and a bad record, which no writer writes.
- LogReuse.ReusedLog: files with a physical record of type 5, which no writer writes and the reader takes for the end of the file.
- EngineRecovery.OpenKeeps: paranoid checks, the lock file, creating the directory, CURRENT and manifest files; recovery reads whole entries from logs.
- EngineReaders.PinnedReadersAreStable: the readers that a state records are the versions they hold; which memtables a reader holds is told by the state in which it started.
- EngineSafety.GetFindsTheNewest: the search within a version level by level, Bloom filters and the table cache.
- PbAccepts.Varint32Accepted: encodings of more than 36 bytes, where the decoder's 8-bit shift count wraps around.
- PbStreams.OStream.Write: streams over callbacks, and sizes of 2 to the 64 and more.
- PbEncoder.Encode: pointer fields, callbacks, extensions, fixed-count arrays, proto3 implicit presence, error messages, and encoding delimited or null-terminated.
- PbFieldIter.FieldIter.Find: extension fields, which a descriptor of the model cannot hold.
- PbDecoder.DecodeNoinit: pointer fields, callbacks, extensions and fixed-count arrays; the struct is a value that is passed on and returned, so writes through the iterator's address are not modelled, only the address itself.
- PbProperties.RoundTrip: the whole message must be shorter than 2 to the 32, the size of the lengths that the decoder reads.
- PbProperties.MergeByConcatenation: members of unions that are submessages start afresh in the merge, as they do in the code.
- UI, networking and the wrappers around both libraries, file names, logging, statistics, the C binding and repair.
