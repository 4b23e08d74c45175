# Verification of the LSM-tree engine

A Dafny model of the C++ storage engine in `src/core` and of two of its Python clients, with proofs
that the layers agree with the simple things they stand for. `dafny verify dfyconfig.toml` checks
everything.

The engine is modelled twice. On *records*, it is a state machine (`EngineModel`, `EngineCompaction`,
`EngineRuns`, `EngineCalls`, `EngineScan`): a log of records, a manifest, tables as record lists, and
the steps that write, flush, compact, stop and reopen. On *objects and bytes*, it is the classes of the source: skip
list, memtable, log, Bloom filter, table builder, reader and iterator, manifest, compactor, merged
iterator and `StorageEngine`, over a disk of byte strings. The method contracts tie the second to the
first, so the theorems about records are theorems about the files.

The client's view of a store is "found and not deleted" (src/bindings/python_bindings.cpp:30-33).

## The main results

1. **The engine is two maps.** One is what clients see, the other what a stop would leave. A write
   changes the first, and the second as long as no hazardous key (result 3) is in the log; a flush
   copies the first to the second; a stop copies the second to the first, except that one between
   listing a flushed table and truncating the log lays the stale log over the first. Over every
   sequence of writes, flushes, compactions, stops, and stops in the middle of a flush or of a
   compaction, the engine does exactly this, provided its compactions meet no clash of equal ids
   (result 2) (`EngineRuns.RunRefinesMap`). When no stop finds a hazardous key in the log, both are the plain map
   (`RunIsPlain`, `EngineIsMap`). Every sequence of client calls is such a run, which writes exactly
   the records of its puts and deletes (`EngineCalls.CallsAreRuns`); each call does to the two maps
   what `CallRefines` says, and clients see the plain map of their puts and deletes
   (`CallsArePlain`). The methods of `StorageEngine` are proved to make those calls' steps; their
   contracts also say what every image of the files they pass through opens to
   (`StorageEngine.StorageEngine.Put`, `FlushMemTable`, `TriggerCompaction`).
2. **Equal ids.** `data_0` parses to id 0 and falls back to 1, so `data_0` and `data_1` tie in a
   merge. A compaction keeps the view, whatever the heap does with the tie, if and only if the two
   tables do not disagree on a key that nothing newer holds (`CompactionRightIff`); it keeps what is
   durable if and only if they do not under the replayed log (`CompactCrashIff`); scans are right
   under the same condition on the scanned range (`ScanRightIff`); two flushed puts of one key reach
   the bad state (`ClashReachable`); after one completed compaction it cannot occur again
   (`CompactedRunsAreRight`). Lookups never depend on it.
3. **Hazardous keys.** A log line parses back to its record if and only if the key is not
   `timestamp` and does not end in `"timestamp` (`LineRoundTrip`). Replay stops at the first line
   that does not parse, so that write and every later one up to the next flush is not durable. In a log
   of whole records an acknowledged write survives a stop if and only if no hazardous key is in the
   log, its own included, or the records from the first hazardous one on have no net effect (`WriteSurvivesIff`); a harmless
   write behind a hazardous one is lost (`LostWriteReachable`). A stop inside a flush loses nothing if
   and only if the log shows what the memtable shows, or, once the table is listed, the stale log
   rebinds no key that was written again (`FlushCrashSafe`); a stop there can bring an older value
   back (`StaleLogReachable`). A completed flush makes everything durable (`FlushedSurvives`).
4. **Byte layers.** A reader opened on the bytes a builder wrote is lookup in the record list and
   decodes at most 17 records; iterating gives the list back; the filter has no false negative after
   a round trip; a torn last log line loses at most its own write (`TornTail`, `TornWrite`); the bytes
   determine the view that opening them gives (`BytesDetermineView`). The log is appended to behind
   the fragment as it is, and what the two lines are then read as is given for every record, every
   tear and every next record (`JoinedParses`): the next record, a mixed one, the torn one, a record
   that replay passes over, or nothing, and then no later append is ever read (`JoinedAppend`). The
   next record survives if and only if replay reads on and the line was torn before the colon of its
   first field, or what is read of it agrees with the next record (`NextSurvivesIff`). The engine runs
   on such a file until a flush makes it whole (`StorageEngine.StorageEngine.FlushActive`).
5. **Merges.** Compaction writes, and scans return, the newest-wins merge, with the heap's choice
   among equal nodes left open (`Compact`, `MergeKeepsLive`, `MergeUnique`, `ScanIsLive`,
   `ListingMeans`).
6. **Clients.** A chat session lists its own messages in the order they were appended if and only if
   there are at most 10^8 (`ScanIsLog`); vector ids never repeat, even when an add is stopped between
   its two puts, whatever text the counter is found with (`OpenedIdsNeverRepeat`), and every payload
   stays stored under a key of its own (`PayloadsStay`). All hold of the engine's view over whole runs
   of the clients' calls (`ChatOnEngine`, `VectorIdsOnEngine`, `VectorPayloadsOnEngine`).

What the functions of the model compute is also stated without them, in the contracts of the methods
and in lemmas whose names end in `Means`, `Text` or `Is`: file names, log lines, the bounds of a scan,
the memory that fills a buffer, the layout of a table, the keys of the clients.

Where the documentation and the code differ, the model follows the code: the log has JSON lines and
no CRC (docs/architecture.md:66-69 against src/core/wal.cpp:128-132), the magic number is the 32-bit
`0x4C534D00` (docs/architecture.md:82 against src/core/sstable_format.hpp:10), and the skip list
branches with probability 0.25, not 0.5 (docs/architecture.md:56 against src/core/skiplist.hpp:89;
any height from 1 to 16 is covered).

## How the model is laid out

- Order and records: `Keys`, `Records`, `Upserts`.
- Log: `Decimal`, `JsonText`, `LogLine`, `LogRoundTrip`, `LogTheorems`, `LogRecovery`, `JoinedFields`,
  `TornAppend`.
- Memtable: `SkipList`, `MemTable`.
- Tables: `Bytes`, `BloomFilter`, `TableFormat`, `SSTableBuilder`, `SSTableReader`, `SSTableIterator`.
- Merges: `PriorityQueue`, `Merge`, `MergeHeap`, `MergeChoice`, `Compactor`, `ScanSpec`, `DBIterator`.
- Files: `Paths`, `Manifest`, `Storage`.
- Engine: `EngineModel`, `EngineCompaction`, `EngineRuns`, `EngineCalls`, `EngineSizes`, `EngineScan`,
  `EngineBytes`, `StorageEngine`.
- Clients: `MapStore`, `PaddedKeys`, `PythonText`, `ChatHistory`, `VectorStore`, `EngineClients`.

A byte is a character with a code below 256; the results hold for strings over any characters.
`std::hash` is any function to 64 bits, `std::priority_queue` gives some minimal element, and the clock
is a parameter. Sizes that the code stores in fixed fields are hypotheses: keys and values below 2^32
bytes, the id counter below 2^64, the memtable and the open tables together below 2^64 bytes
(`EngineSizes.Room`, from which every table that can be written is shown to fit), a directory name
without a line break.

## Model

| member | source | states |
|---|---|---|
| Keys.Transitive | src/core/skiplist.cpp:62 | byte order of keys is transitive, strictly so when one step is strict |
| Keys.Total | src/core/skiplist.cpp:62 | any two keys are ordered or equal |
| Keys.PrefixRun | src/core/engine.cpp:395-398 | keys with one prefix form a contiguous run that starts at the first key not below the prefix |
| Records.ContentsInjective | src/core/sstable_builder.cpp:21-56 | a strictly ascending record list is determined by the map it stands for |
| Upserts.UpsertContents | src/core/skiplist.cpp:79-102 | updating a sorted list in place is map update |
| JsonText.EscapeJSON | src/core/wal.cpp:184-221 | the loop computes the escaped text |
| JsonText.UnescapeJSON | src/core/wal.cpp:223-278 | the loop computes the unescaped text, on every input including broken escapes |
| JsonText.EscapeRoundTrip | src/core/wal.cpp:184-278 | unescaping the escaped text gives every string back |
| JsonText.EscapeIsEscaped | src/core/wal.cpp:184-221 | escaped text has no line break, every quote in it follows an odd run of backslashes, and it ends in an even run |
| JsonText.EscapeText | src/core/wal.cpp:184-221 | the text written for every character: seven short escapes, `\u00` and two lower-case digits for the other control characters, all else as it is |
| JsonText.UnescapeText | src/core/wal.cpp:223-278 | the text read for every escape, a backslash at the end and a `\u` cut short included |
| JsonText.UnicodeText | src/core/wal.cpp:251-268 | four hexadecimal digits in either case stand for the character of their number below 128, and for a question mark otherwise |
| LogLine.ParseStringField | src/core/wal.cpp:19-58 | the loop finds the field the pure parser finds, or fails with it |
| LogLine.ParseIntegerField | src/core/wal.cpp:63-98 | the same for integers, with overflow and a lone minus sign failing |
| LogLine.ParseLogEntry | src/core/wal.cpp:280-297 | all four fields or nothing |
| LogRoundTrip.StringFieldAfter | src/core/wal.cpp:19-58 | a field whose name does not occur earlier is read back as the escaped text up to its real closing quote |
| LogRoundTrip.SignedFieldAfter | src/core/wal.cpp:63-98 | a number behind blanks and a minus sign is read exactly when it has digits and fits 64 bits |
| LogTheorems.LineRoundTrip | src/core/wal.cpp:128-132 | a formatted line parses to its four fields if and only if the key is not hazardous |
| LogTheorems.LineParses | src/core/wal.cpp:280-297 | a line of a harmless key parses whatever follows its timestamp digits |
| LogTheorems.HazardFails | src/core/wal.cpp:63-92 | a line of a hazardous key never parses, whatever follows its timestamp's colon |
| LogTheorems.HazardCut | src/core/wal.cpp:63-92 | and neither does any beginning of it |
| LogRecovery.Recover | src/core/wal.cpp:155-182 | replay reads line by line, skips empty lines and stops at the first line that does not parse |
| LogRecovery.RecoverRest | src/core/wal.cpp:168-180 | an empty line is passed over, and a last line without a line break is read |
| LogRecovery.RecoverLog | src/core/wal.cpp:155-182 | a log of whole records is replayed up to the first hazardous key, completely if and only if there is none |
| LogRecovery.TornTail | src/core/wal.cpp:168-180 | after whole records and any prefix of one more, replay returns the records before the first hazardous key; if none is there all of them, and the torn one exactly when its key is harmless and a timestamp digit of it was written |
| JoinedFields.StringRead | src/core/wal.cpp:19-58 | which line a string field is read from when one line is torn and the next stands behind it: by where the tear falls, the next field, the next operation, the word `operation`, the cut text with a brace, or the own text |
| JoinedFields.IntegerRead | src/core/wal.cpp:63-98 | the same for the timestamp: the next one, none, or the digits that are there |
| TornAppend.JoinedParses | src/core/wal.cpp:280-297 | the first n characters of a line with the next line behind them read as `JoinedEntry(r, n, next)`, for all records, hazardous ones included, and all n |
| TornAppend.JoinedAppend | src/core/wal.cpp:155-182 | a record appended behind a torn line: the two are read as that one record and replay goes on, or it stops there whatever is appended later, by an exact condition on the tear and the keys |
| TornAppend.NextSurvivesIff | src/core/wal.cpp:155-182 | what is read has the effect of the appended record if and only if the line was torn within its first 12 characters, or operation, key and value agree as far as they are read from the fragment |
| TornAppend.TornInValue | src/core/wal.cpp:155-182 | torn between two characters of its value, a record is read with the value so far and a brace, and the next one's timestamp |
| TornAppend.SwallowedAppend | src/core/wal.cpp:155-182 | torn past its first timestamp digit, even when only the line break was missing, a record is read back and the next one is lost |
| TornAppend.BlockedAppend | src/core/wal.cpp:155-182 | torn just before its first timestamp digit, a record blocks the log: nothing appended later is ever read |
| PriorityQueue.Heap.Push | src/core/compactor.cpp:48 | a push adds the node and keeps some minimal element in front |
| PriorityQueue.Heap.Pop | src/core/compactor.cpp:71-72 | a pop removes exactly the front |
| SkipList.SkipList.FindGreaterOrEqual | src/core/skiplist.cpp:56-77 | the descent ends at the first node not below the key, with the right predecessor on every level, for any heights |
| SkipList.SkipList.Insert | src/core/skiplist.cpp:79-102 | inserting is map update on the contents and keeps every level linked, whatever height is drawn |
| SkipList.SkipList.Find | src/core/skiplist.cpp:104-113 | finding is map lookup |
| SkipList.SkipList.Clear | src/core/skiplist.cpp:34-43 | the list is empty and well formed again |
| SkipList.SkipList.LevelOrder | src/core/skiplist.cpp:97-101 | on every level a pointer leads to the next node in key order that reaches the level |
| SkipList.Iterator.Seek | src/core/skiplist.cpp:123-125 | the cursor stands before exactly the records from the target on |
| SkipList.Iterator.Next | src/core/skiplist.cpp:127-131 | the cursor drops its first record |
| MemTable.Wal.Append | src/core/wal.cpp:119-153 | one formatted line is added to the log file as one durable step |
| MemTable.MemTable.constructor | src/core/memtable.cpp:35-76 | opening replays the log into the contents |
| MemTable.MemTable.RecoverFrom | src/core/memtable.cpp:48-75 | the replay loop gives the folded updates, and usage and count are those of the contents |
| MemTable.MemTable.Put | src/core/memtable.cpp:78-108 | logs, then updates; an immutable memtable changes nothing; accounting stays exact and never underflows |
| MemTable.MemTable.Delete | src/core/memtable.cpp:110-138 | the same with a tombstone |
| MemTable.MemTable.Get | src/core/memtable.cpp:140-165 | found, deleted or absent, as the contents say |
| MemTable.CostUpsert | src/core/memtable.cpp:94-103 | one update changes the memory of the contents by the difference of value lengths, or by one node |
| MemTable.CostIs | src/core/memtable.cpp:6-9 | usage is 112 bytes for each record and the lengths of all keys and all values |
| MemTable.HistoryIndependent | src/core/memtable.cpp:42-138 | usage and count depend on the contents alone |
| Bytes.U32RoundTrip | src/core/sstable_builder.cpp:29-34 | a stored 32-bit length is the length modulo 2^32 |
| Bytes.U64RoundTrip | src/core/sstable_builder.cpp:85-93 | a stored 64-bit offset is the offset modulo 2^64 |
| Bytes.LittleEndian | src/core/sstable_builder.cpp:29-34 | stored numbers have their low byte first |
| BloomFilter.BloomFilter.Add | src/core/bloom_filter.cpp:45-57 | exactly the key's probe bits are set, in bounds despite wrap-around, and no bit is cleared; a filter of no bits stays as it is |
| BloomFilter.BloomFilter.MayContain | src/core/bloom_filter.cpp:59-74 | true exactly when all probe bits are set |
| BloomFilter.ProbeSteps | src/core/bloom_filter.cpp:36-57 | the bits a key sets: its hash and steps of the hash of the key with a byte 1 behind it, or of 1 when that is 0, wrapped at 64 bits |
| BloomFilter.BloomFilter.Deserialize | src/core/bloom_filter.cpp:93-115 | every field is overwritten by what the stream holds; where it ends early the rest of the header is zero and the missing bits keep their old values or zero |
| BloomFilter.FilterRoundTrip | src/core/bloom_filter.cpp:76-115 | reading a serialized filter gives it back |
| BloomFilter.ContainsMonotone | src/core/bloom_filter.cpp:45-74 | a key once added stays contained as bits are added |
| TableFormat.RecordRoundTrip | src/core/sstable_reader.cpp:102-124 | decoding a written record gives it and the position after it |
| TableFormat.ScanAll | src/core/sstable_iterator.cpp:44-141 | iterating a data block gives the added records in order and stops exactly at its end, also for an empty table |
| TableFormat.IndexEntries | src/core/sstable_builder.cpp:47-49 | entry j is the key and offset of record 16j, and there are ceil(n/16) entries |
| TableFormat.FooterRoundTrip | src/core/sstable_format.hpp:21-31 | the footer's offsets survive; the count keeps 32 bits |
| TableFormat.TableLayout | src/core/sstable_builder.cpp:58-104 | a table file is data, index, filter and a footer of 40 bytes that says where each lies, how long it is, and how many records there are |
| TableFormat.FooterFound | src/core/sstable_iterator.cpp:7-33 | a footer is found exactly in a file of at least 40 bytes that ends in the magic number, and what its fields are |
| TableFormat.RecordFound | src/core/sstable_iterator.cpp:78-141 | a record is read exactly when its lengths, key, value and flag lie in the file, from any bytes; any flag but 0 is a tombstone |
| SSTableBuilder.SSTableBuilder.Add | src/core/sstable_builder.cpp:21-56 | the record, its filter bits and every sixteenth index entry are added; a finished builder refuses |
| SSTableBuilder.SSTableBuilder.Finish | src/core/sstable_builder.cpp:58-104 | the file is the table of the added records, with a filter that covers them |
| SSTableIterator.SSTableIterator.ReadNextRecord | src/core/sstable_iterator.cpp:78-141 | one record is decoded, or the iterator becomes invalid at the end or on a failed read |
| SSTableIterator.SSTableIterator.Next | src/core/sstable_iterator.cpp:59-64 | the iterator drops its first record |
| SSTableIterator.OpenIterator | src/core/sstable_iterator.cpp:7-33 | opening fails exactly on a file below 40 bytes or one whose last four are not the magic number |
| SSTableReader.SSTableReader.constructor | src/core/sstable_reader.cpp:7-55 | footer, filter and sparse index are what the file holds |
| SSTableReader.SSTableReader.LowerBound | src/core/sstable_reader.cpp:73-77 | the halving search splits the index at the key |
| SSTableReader.SSTableReader.Get | src/core/sstable_reader.cpp:63-138 | on the table of an ascending list the answer is list lookup, with at most 17 records decoded |
| SSTableReader.TableOpens | src/core/sstable_reader.cpp:13-54 | a reader finds the builder's footer, filter and index in the bytes |
| SSTableReader.OpenReader | src/core/sstable_reader.cpp:7-55 | a reader opened on a built table serves its records |
| Merge.FrontWins | src/core/compactor.cpp:70-85 | the popped node is a holder of its key with the largest id among all inputs |
| Merge.MergedStep | src/core/compactor.cpp:105-116 | emitting the winner, or dropping its tombstone, extends a permitted outcome to its key |
| Merge.MergeKeepsLive | src/core/compactor.cpp:33-120 | with recency-ordered ids every permitted merge has the live view of newest-wins; when purging it is newest-wins without tombstones, and otherwise it keeps every key and empties the values of tombstones |
| Merge.MergeUnique | src/core/compactor.cpp:33-120 | with recency-ordered ids there is one permitted output |
| MergeChoice.MergeWith | src/core/compactor.cpp:23-28 | any winner the heap order allows at a key occurs in some permitted output |
| MergeHeap.Advanced | src/core/compactor.cpp:74-85 | pop, advance and push keep one node per unfinished input, holding its current key |
| MergeHeap.Drained | src/core/compactor.cpp:87-103 | after draining every input is past the winner's key |
| Compactor.Compact | src/core/compactor.cpp:33-120 | on ascending inputs the written table is a permitted merge, strictly ascending, and every input record is consumed once |
| Compactor.DrainDuplicates | src/core/compactor.cpp:87-103 | exactly the records at the winner's key are dropped |
| Paths.PathIds | src/core/engine.cpp:15-44 | the id read from a path the engine made is the id it was made with, in any directory |
| Paths.PathsDiffer | src/core/engine.cpp:95-101 | paths of different ids differ |
| Paths.PathText | src/core/engine.cpp:95-101 | in a directory other than none and "." a path is the directory, a slash, and the prefix, the digits of the id and `.sst`; else only the name |
| Paths.DirsApart | src/core/engine.cpp:95-101 | engines in different directories never use one path, whatever their ids |
| Paths.UnprefixedId | src/core/engine.cpp:25-44 | a name without a known prefix has the number it starts with as its id, and 0 when there is none |
| Paths.StoullReads | src/core/engine.cpp:32-42 | blanks, a sign and digits read as their number below 2^64, a negative one taken from 2^64, whatever follows them |
| Manifest.ManifestRoundTrip | src/core/manifest.cpp:13-30 | loading a written manifest gives the list back |
| Manifest.Manifest.LoadInternal | src/core/manifest.cpp:13-30 | the loop reads every line, without carriage returns and empty lines |
| Manifest.ManifestLine | src/core/manifest.cpp:13-30 | a line is its text without a carriage return at the end; empty ones are passed over, and the last needs no line break |
| Manifest.Manifest.AddSSTable | src/core/manifest.cpp:59-74 | one line is appended to list and file |
| Manifest.Manifest.ReplaceSSTables | src/core/manifest.cpp:160-223 | the new file takes the place of the first old one in one durable step, or nothing changes; fails exactly on an empty or unknown list |
| Manifest.ReplacedAt | src/core/manifest.cpp:179-194 | the new file stands where the first old one stood, and the others keep their order |
| Manifest.ReplaceAll | src/core/engine.cpp:279 | replacing every file leaves the new one alone |
| ScanSpec.ScanIsLive | src/core/engine.cpp:361-380 | with recency-ordered ids a scan is exactly the live records of newest-wins in the range |
| ScanSpec.CutMerged | src/core/db_iterator.cpp:114-126 | seeking every source leaves exactly the same permitted outcomes from the start key on |
| ScanSpec.SettledExtends | src/core/engine.cpp:371-374 | a scan cut by its limit is the beginning of a permitted full scan |
| ScanSpec.PrefixedIsScan | src/core/engine.cpp:382-404 | stopping at the first key without the prefix misses nothing |
| DBIterator.DBIteratorSource.Seek | src/core/db_iterator.cpp:17-26 | memtable descent and table skipping both end at the first key not below the target |
| DBIterator.InitSources | src/core/db_iterator.cpp:84-112 | memtables get the two largest generations, tables their ids; missing iterators are skipped |
| DBIterator.Fill | src/core/db_iterator.cpp:120-129 | one node per valid source, holding that source's current key |
| DBIterator.TakeKey | src/core/db_iterator.cpp:181-208 | one round takes a winner of its key and leaves every source past the key |
| DBIterator.DBIterator.constructor | src/core/db_iterator.cpp:73-82 | the iterator starts at the first live key of the range |
| DBIterator.DBIterator.Seek | src/core/db_iterator.cpp:134-159 | the target is raised to the start of the range; past its end the iterator is invalid |
| DBIterator.DBIterator.FindNextAliveKey | src/core/db_iterator.cpp:180-230 | tombstones are passed over, and past the end of the range nothing in it is missed |
| DBIterator.DBIterator.Next | src/core/db_iterator.cpp:165-170 | one more live record, or the end |
| DBIterator.DBIterator.Completion | src/core/db_iterator.cpp:180-230 | the records emitted so far begin a permitted scan of the range, and are all of it once the iterator is invalid |
| EngineModel.ReopenSound | src/core/engine.cpp:64-83 | opening sound files gives an engine with the invariant, whatever the log holds, and its view is that of the tables under the replayed records |
| EngineModel.ReopenKeepsIff | src/core/engine.cpp:64-83 | stopping and opening again loses nothing if and only if every record of the memtable shows what the replayed log would show, which holds when the log has no hazardous key |
| EngineModel.NextIdAbove | src/core/engine.cpp:66-80 | the counter passes every listed id |
| EngineModel.NextIdLeast | src/core/engine.cpp:66-80 | and is the smallest number that does: 0 without tables, else one past the id of one of them |
| EngineModel.WriteKeeps | src/core/engine.cpp:103-125 | a write keeps the invariant and changes the view as it would a map, also behind a hazardous key |
| EngineModel.FlushCrashSafe | src/core/engine.cpp:186-216 | stopping after a durable step of a flush and reopening gives the view before it if and only if the log shows what the memtable shows (before the table is listed) or rebinds no key written again (after); always with no hazardous key in the log |
| EngineModel.FlushStopOpens | src/core/engine.cpp:186-216 | what it opens to in every case: what was durable, the view with the stale log over it, or the view |
| EngineModel.FlushKeeps | src/core/engine.cpp:176-216 | a flush keeps the invariant and the view |
| EngineModel.FlushedSurvives | src/core/engine.cpp:207-213 | after a flush a stop loses nothing, whatever the keys, and the log is clean again |
| EngineCompaction.EffectiveOrder | src/core/engine.cpp:251-257 | effective ids are strictly ordered by recency if and only if ids 0 and 1 are not both open |
| EngineCompaction.OrderedWhen | src/core/engine.cpp:251-257 | then the inputs of a merge are ordered by recency |
| EngineCompaction.TablesFall | src/core/engine.cpp:200-202 | ids of the open tables strictly fall from newest to oldest |
| EngineCompaction.CompactionRightIff | src/core/engine.cpp:238-312 | every permitted compaction keeps the view if and only if tables 0 and 1 do not clash |
| EngineCompaction.ClashBreaks | src/core/engine.cpp:254-257 | with a clash some permitted compaction changes the view |
| EngineCompaction.OrderedNeverClash | src/core/engine.cpp:254-257 | recency-ordered inputs never clash |
| EngineCompaction.MergePurges | src/core/compactor.cpp:105-116 | a compaction writes no tombstone |
| EngineCompaction.CompactCrashSafe | src/core/engine.cpp:273-309 | stopping before the manifest swap and reopening gives what was durable before the compaction, always; after it, as long as tables 0 and 1 do not clash under the replayed log |
| EngineCompaction.CompactCrashIff | src/core/engine.cpp:273-309 | after the swap every permitted compaction keeps what was durable if and only if they do not clash there |
| EngineCompaction.CompactKeeps | src/core/engine.cpp:238-312 | a compaction keeps the invariant, the view without a clash, and what is durable without one under the replayed log |
| EngineCompaction.CompactedNeverClashes | src/core/engine.cpp:265-271 | an engine whose oldest table is a compacted one has no tie and no clash |
| EngineRuns.RunRefinesMap | src/core/engine.cpp:48-312 | after any run the invariant holds, and when no compaction met a clash clients see the live map and a stop would leave the durable one |
| EngineRuns.RunIsPlain | src/core/engine.cpp:48-312 | if no stop of the run finds a hazardous key in the log, clients see the plain map with the same writes |
| EngineRuns.EngineIsMap | src/core/engine.cpp:48-312 | both from an empty directory |
| EngineRuns.CleanRunsStopSafely | src/core/wal.cpp:155-182 | a run that writes no hazardous key can be stopped anywhere |
| EngineRuns.CompactionCompacts | src/core/engine.cpp:299-300 | a completed compaction leaves a compacted oldest table |
| EngineRuns.CompactedStays | src/core/engine.cpp:176-312 | and every later step keeps one |
| EngineRuns.CompactedRunsAreRight | src/core/engine.cpp:176-312 | from then on every run meets no clash and is the two maps, whatever it writes and compacts and wherever it stops |
| EngineRuns.WriteSurvivesIff | src/core/engine.cpp:103-125 | an acknowledged write survives stopping if and only if no hazardous key is in the log, its own included, or the records from the first hazardous one on, it included, have no net effect; otherwise opening shows what was durable before it |
| EngineRuns.LostWriteReachable | src/core/wal.cpp:176-179 | from an empty directory, a write with a harmless key behind a hazardous one is seen, and gone after a stop |
| EngineRuns.StaleLogReachable | src/core/engine.cpp:205-213 | from an empty directory, a stop between listing a flushed table and truncating the log brings back the older value of a key |
| EngineRuns.ClashReachable | src/core/engine.cpp:254-257 | two flushed puts of one key reach a clash, and a permitted compaction then changes the view |
| EngineCalls.CallSteps | src/core/engine.cpp:88-241 | what a put, delete, flush, compaction request, close or restart may do is a run of the steps that writes the call's own record and no other, without a clash when the compaction it causes, if any, meets none |
| EngineCalls.CallsAreRuns | src/core/engine.cpp:88-241 | every sequence of calls is a run that writes the records of its puts and deletes in order; the invariant and, without a clash, the two maps of that run hold after it |
| EngineCalls.CallRefines | src/core/engine.cpp:88-241 | what a call without a clash does to the two maps: the write, the write and a flush exactly when the memtable fills, a flush, nothing, or a stop |
| EngineCalls.CallsArePlain | src/core/engine.cpp:88-241 | without a clash, and with no hazardous key in the log at a restart, clients see the plain map of their puts and deletes |
| EngineCalls.PutView | src/core/engine.cpp:103-115 | a put updates the view as a map, unless it flushes, the flush reaches the compaction threshold, and the compaction meets a clash |
| EngineCalls.PutMeans | src/core/engine.cpp:103-115 | a put flushes exactly when 112 bytes for each record and the lengths of all keys and values, the new ones included, reach the buffer; what memtable, log and tables are then |
| EngineCalls.FlushMeans | src/core/engine.cpp:176-220 | an empty memtable is not flushed; otherwise memtable and log are empty afterwards, with one table more, or one alone when that reaches the threshold |
| EngineCalls.CompactMeans | src/core/engine.cpp:238-312 | below the threshold nothing changes; without tables only an id is used; otherwise all tables become one |
| EngineCalls.PutShows | src/core/engine.cpp:103-115 | after a put the view has the value under the key and is otherwise as before, unless it flushes, reaches the threshold and meets a clash |
| EngineSizes.WeightFits | src/core/sstable_builder.cpp:58-104 | a table file is no larger than the weight of its records, the filter and the footer |
| EngineSizes.RoomForMerge | src/core/engine.cpp:265-273 | every table a compaction may write fits when the memtable and the open tables together do, because its records are different records of theirs |
| EngineSizes.RoomWhen | src/core/engine.cpp:265-273 | there is room exactly when 21 bytes for each record, its key twice, its value, and 1279 bytes together stay below 2^64 |
| EngineScan.ScanShows | src/core/engine.cpp:324-380 | a scan shows a key as lookups do unless tables 0 and 1 clash there |
| EngineScan.ScanRightIff | src/core/engine.cpp:339-350 | scans of a range agree with the view if and only if no key in the range clashes |
| EngineScan.ResultIsListing | src/core/engine.cpp:361-404 | without a clash in the range, what a scan returns is the listing of the view |
| EngineScan.ListingMeans | src/core/engine.cpp:365-379 | a listing ascends strictly, holds only pairs of the view in the range, at most `limit` of them, and misses none below its last |
| EngineScan.ScanBetween | src/core/engine.cpp:361-380 | what a scan returns ascends strictly, lies between the bounds with both included, and is at most `limit` pairs; without a clash between them it is the view there, and misses no key but those behind a full result |
| EngineScan.ScanPrefixed | src/core/engine.cpp:382-404 | the same for keys that begin with the prefix |
| EngineScan.CompactedScans | src/core/engine.cpp:361-404 | after a completed compaction every scan and prefix scan is right |
| EngineBytes.TableScan | src/core/sstable_iterator.cpp:44-141 | iterating a table file gives the records it was written for |
| EngineBytes.BytesDetermineView | src/core/engine.cpp:64-83 | the bytes of the files determine the view that opening them gives |
| EngineBytes.RecoversMeans | src/core/engine.cpp:48-84 | files that open to a view stand for some durable state, and opening them shows that view whatever state they are taken for |
| EngineBytes.TornWrite | src/core/engine.cpp:103-125 | a torn log append opens to what was durable before the write, or to that with the write once a timestamp digit of it was written and no hazardous key is in the log, its own included |
| EngineBytes.JoinedWrite | src/core/engine.cpp:48-84 | opening after a torn append, one more append and any later ones shows what was durable with the record the joined line reads as and the later ones, or without any of them when replay stops there |
| EngineBytes.TailShows | src/core/engine.cpp:48-84 | opening with any text at all behind the log shows what was durable changed by what replay reads from the text |
| EngineBytes.SameEffectIff | src/core/memtable.cpp:48-75 | two records have the same effect if and only if they do the same to every map |
| EngineBytes.FlushTraceRecovers | src/core/engine.cpp:186-216 | every image of the files during a flush opens to what a stop there leaves |
| EngineBytes.CleanFlushRecovers | src/core/engine.cpp:186-216 | which is the view before the flush for every image when the log has no hazardous key |
| EngineBytes.CompactTraceRecovers | src/core/engine.cpp:273-309 | every image of the files during a compaction opens to what was durable before it, the one before the manifest swap always, the others without a clash under the replayed log |
| EngineBytes.CleanCompactRecovers | src/core/engine.cpp:273-309 | which is the view when the log has no hazardous key |
| StorageEngine.StorageEngine.constructor | src/core/engine.cpp:48-84 | opening the files, whatever the log file holds, gives the engine the records say: tables, counter, replayed memtable; it can be used at once, and on a log of whole records the log stands for the model's |
| StorageEngine.OpenTables | src/core/engine.cpp:64-80 | listed files that exist are opened newest first, and the counter passes their ids |
| StorageEngine.BuildTable | src/core/engine.cpp:186-198 | the memtable is streamed into the table of its records |
| StorageEngine.StorageEngine.Get | src/core/engine.cpp:127-169 | the answer is the newest binding, and found and not deleted is exactly the view |
| StorageEngine.StorageEngine.Put | src/core/engine.cpp:103-115 | one line with the record's JSON text is logged and the memtable updated; a flush happens exactly when 112 bytes for each record and the lengths of all keys and values reach the buffer, and then the log is empty and there is one table more, or one alone at the threshold; clients see the value under the key, unless a compaction met a clash; on whole records every image of the files opens to what a stop there leaves, those behind a compaction's manifest swap unless it meets a clash |
| StorageEngine.StorageEngine.Delete | src/core/engine.cpp:117-125 | one line with the delete's JSON text is logged, the memtable holds a tombstone, the view loses the key and nothing else, and there is no flush; on whole records the image opens to what is durable, the view when the log has no hazardous key |
| StorageEngine.StorageEngine.FlushActive | src/core/engine.cpp:176-216 | the table is written to `data_<id>.sst` in the engine's directory, then listed under that path, then the log is emptied, and the three images are exactly these; whatever the log file held, it is whole afterwards |
| StorageEngine.FlushImageStops | src/core/engine.cpp:186-216 | on whole records each image of a flush holds the durable state that a stop there, as a step of a run, opens again |
| StorageEngine.StorageEngine.FlushMemTableInternal | src/core/engine.cpp:176-220 | nothing when the memtable is empty, else the flush and the compaction the threshold asks for, with the number of tables and the counter after it; the view is kept unless that compaction meets a clash; the images as for a put, from the truncation on whatever the log file held |
| StorageEngine.StorageEngine.TableInputs | src/core/engine.cpp:251-263 | the inputs of a merge have the effective ids and the records of the open tables |
| StorageEngine.StorageEngine.CompactTables | src/core/engine.cpp:265-311 | the merged table, without tombstones, is written to `sstable_<id>.sst` in the engine's directory, the manifest becomes that one path, the old files are removed, in this order; it is exactly one compaction step, through exactly its durable states |
| StorageEngine.CompactImageStops | src/core/engine.cpp:273-309 | the same for a compaction |
| StorageEngine.StorageEngine.TriggerCompactionInternal | src/core/engine.cpp:238-312 | nothing below the threshold, failure and a used id without tables, else one table alone; the view is kept without a clash, and every image opens to what was durable without one under the replayed log |
| StorageEngine.ReplacesAll | src/core/engine.cpp:279-283 | with at least one open table the replacement by names succeeds and leaves the new file alone, so the one by ids is not reached |
| StorageEngine.StorageEngine.FlushMemTable | src/core/engine.cpp:171-174 | the flush, with every image of the files opening to what a stop there leaves |
| StorageEngine.StorageEngine.TriggerCompaction | src/core/engine.cpp:233-236 | the compaction, with every image of the files opening to what was durable before it |
| StorageEngine.StorageEngine.Close | src/core/engine.cpp:88-93 | closing flushes what the memtable holds, with the images of a flush |
| StorageEngine.StorageEngine.NewIterator | src/core/engine.cpp:324-359 | the iterator merges the memtable over the tables from the start key |
| StorageEngine.StorageEngine.Scan | src/core/engine.cpp:361-380 | at most `limit` pairs, ascending, with keys from `start` to `end`, both included; without a clash there they are pairs of the view and no key of the view in the range is missing, except behind a full result; in any case the first `limit` records of a permitted scan |
| StorageEngine.StorageEngine.PrefixScan | src/core/engine.cpp:382-404 | the same for the keys that begin with the prefix |
| MapStore.MapStore.PrefixScan | src/bindings/python_bindings.cpp:44-48 | the live pairs with the prefix in key order, cut to the limit |
| PaddedKeys.PaddedInjective | python/ltm/vector_index.py:323 | different numbers have different padded texts |
| PaddedKeys.PaddedText | python/ltm/vector_index.py:323 | a padded number has at least eight digits, its value, and no leading zero when it has more |
| PaddedKeys.KeysInOrderIff | python/ltm/chat_history.py:66 | eight-digit keys of the first n numbers are in byte order if and only if n is at most 10^8 |
| PythonText.PythonIntOfStr | python/ltm/chat_history.py:55 | Python's int reads back what str wrote, for every integer |
| PythonText.PythonStrText | python/ltm/chat_history.py:70 | str writes the digits without a leading zero, behind a minus sign below zero |
| PythonText.PaddedIntText | python/ltm/chat_history.py:66 | padding below zero: the sign counts towards the eight characters |
| PythonText.PythonIntReads | python/ltm/chat_history.py:55 | int reads blanks around a sign and digits with single underscores, and refuses everything else between them |
| ChatHistory.ChatHistory.AppendMessage | python/ltm/chat_history.py:52-71 | the message under `chat:<session>:<turn>`, where the turn is 0 or one more than the counter, then the counter under `meta:chat_turn:<session>`; nothing when the counter's text is one that int refuses |
| ChatHistory.ChatHistory.GetHistory | python/ltm/chat_history.py:86-99 | all payloads of the listing without a count, none for a count that is not positive, else the last ones, as many as the count or all, in their order; up to 10^8 turns the same of the messages since the last clear in append order |
| ChatHistory.ChatHistory.ClearSession | python/ltm/chat_history.py:101-113 | every key under `chat:<session>:` and the counter are gone, and every other key is as it was |
| ChatHistory.TurnOrderIff | python/ltm/chat_history.py:66 | turn keys ascend with the turn if and only if there are at most 10^8 turns |
| ChatHistory.ScanIsLog | python/ltm/chat_history.py:86-92 | a session's listing is its messages in append order if and only if there are at most 10^8 |
| ChatHistory.SessionsOverlapIff | python/ltm/chat_history.py:66 | a turn falls under another session's prefix if and only if its session is that one or continues it behind a colon |
| ChatHistory.ColonFree | python/ltm/chat_history.py:66 | ids without a colon never overlap |
| ChatHistory.RunHolds | python/ltm/chat_history.py:52-113 | after any appends and clears over separate sessions each holds exactly its own messages since its last clear |
| ChatHistory.StoppedAppendIsReplaced | python/ltm/chat_history.py:69-70 | a message whose append stopped between the two puts is listed until the next append replaces it |
| VectorStore.VectorStore.RehydrateIndex | python/ltm/vector_index.py:260-286 | the counter is the smallest number that is not negative, not below the stored one when its text reads as one, and above every stored id |
| VectorStore.VectorStore.Add | python/ltm/vector_index.py:309-328 | the next id is taken, the payload is stored under `vec:` and the padded id, then the counter under `meta:vector_id_counter`, and nothing else changes |
| VectorStore.VecKeyText | python/ltm/vector_index.py:323 | a payload's key reads back as its id, different ids have different keys, and none is the counter's |
| VectorStore.GuardedReopen | python/ltm/vector_index.py:275-286 | reopening never sets the counter below an id that was used |
| VectorStore.IdsNeverRepeat | python/ltm/vector_index.py:260-328 | over any adds, reopens and stops between the two puts of an add, allocated ids strictly ascend |
| VectorStore.OpenedIdsNeverRepeat | python/ltm/vector_index.py:260-328 | the same from any store the counter was opened on, the empty one included |
| VectorStore.PayloadsStay | python/ltm/vector_index.py:260-328 | after any adds, reopens and stops inside an add, every payload given so far is stored under the key of its id, each under its own, and other `vec:` keys are as they were |
| EngineClients.ChatView | python/ltm/chat_history.py:52-113 | the engine calls of an append or a clear do to the view what the operation does to a plain map |
| EngineClients.ChatOnEngine | python/ltm/chat_history.py:52-113 | from an engine that shows nothing, after any chat operations and restarts served without a clash, each separate session is held in the engine's view |
| EngineClients.HistoryOnEngine | python/ltm/chat_history.py:86-92 | the engine's prefix scan of a held session returns its messages in order, up to 10^8, without a clash under the prefix |
| EngineClients.VectorIdsOnEngine | python/ltm/vector_index.py:260-328 | on the engine ids never repeat over any adds, reopens and stops between the two puts of an add |
| EngineClients.VectorPayloadsOnEngine | python/ltm/vector_index.py:260-328 | and the engine shows every payload given so far under a key of its own |

## Left out

- Real I/O: descriptors, `fsync`, partial writes other than a torn log append, failing streams and the
  rename fallback of the manifest. Each durable step is atomic; power-loss ordering is out of scope.
- Corrupted or truncated table files: opening one fails on the footer alone in the model, and lookups
  are specified on tables the builder wrote.
- Mutexes, the GIL, and iterators held while the memtable changes: every operation is one atomic step.
- `immutable_memtable_` is a local of a flush here: between operations the source resets it, and a
  flush that fails halfway is an I/O failure. The merged iterator still accepts one.
- An engine without a log (an empty log path): it promises no durability.
- EngineRuns.RunRefinesMap: a log append is atomic in a run; the torn append of one crash is
  EngineBytes.TornWrite, and what the appends behind it become is EngineBytes.JoinedWrite.
- StorageEngine.StorageEngine.Put: until the first flush on a log file that is not whole records, the
  contract gives the log's text; what it opens to is EngineBytes.JoinedWrite and TailShows.
- The id-based `ReplaceSSTables` and `AddSSTable(file_id)`: with an open table the engine does not
  reach them (StorageEngine.ReplacesAll); with none the first fails on the empty list.
- Floating-point Bloom sizing and the false-positive rate: any positive bit and hash counts are
  covered; the engine's tables use the counts the formula gives for its defaults, and the rate is
  eight opaque bytes.
- Random heights are any value from 1 to 16, without their distribution, and node allocation is `new`.
- The table reader's Bloom, index and scan work on the file's bytes as a string; stream positions and
  failure bits are the positions and options of the model.
- SkipList.SkipList.FindGreaterOrEqual: returns the predecessors as a sequence where the source fills
  an array the caller passes.
- Key, value and file sizes beyond the stored widths (2^32 and 2^64) and a wrapped id counter.
- EngineSizes.RoomForMerge: that the memtable and the open tables together stay below 2^64 bytes is a
  hypothesis of every put, flush and compaction.
- MapStore: stands for the engine under the Python clients' classes; it is the plain map that the
  engine is shown to be. Size limits and clashes appear where their operations meet the engine
  (EngineClients).
- VectorStore.VectorStore.Add: embeddings, the index and the dimension check are left out; a payload
  is an opaque text from which rehydration takes an id or nothing.
- ChatHistory.ChatHistory.AppendMessage: messages are their JSON texts.
- PythonText.PythonInt: reads ASCII text; other Unicode digits and blanks, and the limit of 4300
  digits, are not modelled.
- CLI shell, pybind glue, `MemoryStore`, `MemoryManager`, embeddings, prompt assembly and search.
