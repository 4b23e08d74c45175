/** The storage engine (src/core/engine.cpp): its objects and files against the engine on records. */
module StorageEngine {
  import opened Keys
  import opened Records
  import opened Upserts
  import opened Bytes
  import opened Decimal
  import opened BloomFilter
  import opened TableFormat
  import opened SSTableBuilder
  import opened SSTableReader
  import opened SSTableIterator
  import opened SkipList
  import opened JsonText
  import opened LogLine
  import opened LogRoundTrip
  import opened LogTheorems
  import opened LogRecovery
  import opened MemTable
  import opened Paths
  import opened Manifest
  import opened Storage
  import opened Merge
  import opened MergeHeap
  import opened EngineModel
  import opened EngineCompaction
  import opened EngineRuns
  import opened EngineCalls
  import opened EngineSizes
  import opened EngineBytes
  import opened ScanSpec
  import opened EngineScan
  import Compactor
  import D = DBIterator

  /** Adds the cursor's record to the builder and moves on. */
  method AddCurrent(it: Iterator, builder: SSTableBuilder)
    requires it.Inv() && it.Rest() != [] && builder.Valid() && !builder.finished
    requires {builder, builder.bloom} !! it.list.Repr && it !in it.list.Repr
    modifies it, builder, builder.bloom`bits
    ensures it.Inv() && it.Rest() == old(it.Rest())[1..]
    ensures builder.Valid() && !builder.finished && builder.added == old(builder.added) + [old(it.Rest())[0]]
    ensures it.list.Valid() && it.list.Recs() == old(it.list.Recs())
  {
    hide SkipList.Valid, SkipList.Recs, SkipList.Spine, SSTableBuilder.Valid, Iterator.Rest;
    it.Current();
    var ok := builder.Add(it.node.key, it.node.entry.value, it.node.entry.deleted);
    it.Next();
  }

  /** Streams the memtable's records into the builder. */
  method AddAll(list: SkipList, builder: SSTableBuilder)
    requires list.Valid() && builder.Valid() && !builder.finished && builder.added == []
    requires {builder, builder.bloom} !! list.Repr
    modifies builder, builder.bloom`bits
    ensures list.Valid() && builder.Valid() && !builder.finished && builder.added == list.Recs()
  {
    hide SkipList.Valid, SkipList.Recs, SkipList.Spine, SSTableBuilder.Valid, Iterator.Rest, Iterator.Inv;
    var it := new Iterator(list);
    it.SeekToFirst();
    it.Current();
    ghost var recs := list.Recs();
    while it.Valid()
      invariant it.list == list && it.Inv() && fresh(it) && list.Valid() && list.Recs() == recs
      invariant builder.Valid() && !builder.finished && builder.added + it.Rest() == recs
      invariant it.Valid() <==> it.Rest() != []
      decreases |it.Rest()|
    {
      ghost var (was, rest) := (builder.added, it.Rest());
      AddCurrent(it, builder);
      it.Current();
      assert was + rest == (was + [rest[0]]) + rest[1..];
    }
    assert builder.added + [] == builder.added;
  }

  method BuildTable(mem: MemTable, hash: Hash) returns (file: string)
    requires mem.Valid()
    ensures mem.Valid() && IsTable(file, mem.Recs(), hash)
    ensures Fits(mem.Recs()) ==> |file| < TWO_64
    ensures exists bits: seq<bv8> :: file == TableBytes(mem.Recs(), Filter(1000, RATE, 9586, 7, bits))
  {
    hide SkipList.Valid, SkipList.Recs, SkipList.Spine, Cost, SSTableBuilder.Valid, TableBytes, IsTable, IsSet;
    var bloom := new BloomFilter(hash, EXPECTED_ITEMS, RATE, BIT_COUNT, HASH_COUNT);
    var builder := new SSTableBuilder(bloom);
    AddAll(mem.list, builder);
    var ok := builder.Finish();
    file := builder.file;
    BuilderFilter(builder);
    assert builder.bloom.Value() == Filter(1000, RATE, 9586, 7, builder.bloom.bits);
  }

  lemma BuilderFilter(builder: SSTableBuilder)
    requires builder.Valid()
    ensures builder.bloom.Value().WellFormed()
  {
  }

  // ---- open tables ----

  /** The readers answer lookups in the tables of these paths. */
  ghost predicate Serving(readers: seq<SSTableReader>, paths: seq<string>, tables: map<string, seq<Rec>>,
                          files: set<object>, hash: Hash)
    reads files
  {
    && |readers| == |paths|
    && forall i :: 0 <= i < |readers| ==>
        && readers[i] in files && readers[i].bloom in files && readers[i].path == paths[i]
        && readers[i].Serves(TableOf(tables, paths[i]))
  }

  lemma ServingMore(readers: seq<SSTableReader>, paths: seq<string>, tables: map<string, seq<Rec>>, files: set<object>,
                    hash: Hash, reader: SSTableReader, path: string)
    requires Serving(readers, paths, tables, files, hash)
    requires reader.path == path && reader.Serves(TableOf(tables, path))
    ensures Serving([reader] + readers, [path] + paths, tables, files + {reader, reader.bloom}, hash)
  {
    hide SSTableReader.Serves;
  }

  lemma NoReaders(tables: map<string, seq<Rec>>, hash: Hash)
    ensures Serving([], Reversed(Present([], tables)), tables, {}, hash) && NextId(Present([], tables)) == 0
  {
  }

  method OpenTable(path: string, disk: Disk, hash: Hash, ghost tables: map<string, seq<Rec>>)
    returns (reader: SSTableReader)
    requires TableFiles(disk.tables, tables, hash) && path in disk.tables
    ensures path in tables && fresh(reader) && fresh(reader.bloom)
    ensures reader.path == path && reader.Serves(tables[path])
  {
    hide SSTableReader.Serves, IsTable, Sorted, AllSmall;
    reader := OpenReader(path, disk.tables[path], hash, tables[path]);
  }

  lemma SameKeys(files: map<string, string>, tables: map<string, seq<Rec>>, hash: Hash, path: string)
    requires TableFiles(files, tables, hash)
    ensures path in files <==> path in tables
  {
    hide TableFile;
  }

  /** Recovery from the manifest: every listed file that exists is opened, newest first, and the id
      counter passes its id. */
  method OpenTables(files: seq<string>, disk: Disk, hash: Hash, ghost tables: map<string, seq<Rec>>)
    returns (sstables: seq<SSTableReader>, maxId: nat, ghost objects: set<object>)
    requires TableFiles(disk.tables, tables, hash)
    ensures fresh(objects) && Serving(sstables, Reversed(Present(files, tables)), tables, objects, hash)
    ensures maxId == NextId(Present(files, tables))
  {
    hide SSTableReader.Serves, ExtractFileId, TableFiles, Serving, Present, NextId;
    sstables, maxId, objects := [], 0, {};
    NoReaders(tables, hash);
    assert files[..0] == [];
    for i := 0 to |files|
      invariant fresh(objects) && Serving(sstables, Reversed(Present(files[..i], tables)), tables, objects, hash)
      invariant maxId == NextId(Present(files[..i], tables))
    {
      ghost var before := Present(files[..i], tables);
      assert files[..i + 1] == files[..i] + [files[i]];
      PresentAppend(files[..i], files[i], tables);
      SameKeys(disk.tables, tables, hash, files[i]);
      if files[i] in disk.tables {
        var reader := OpenTable(files[i], disk, hash, tables);
        ServingMore(sstables, Reversed(before), tables, objects, hash, reader, files[i]);
        ReversedAppend(before, files[i]);
        NextIdAppend(before, files[i]);
        sstables := [reader] + sstables;
        objects := objects + {reader, reader.bloom};
        var id := ExtractFileId(files[i]);
        if id >= maxId {
          maxId := id + 1;
        }
      }
    }
    assert files[..|files|] == files;
  }

  predicate NoLineBreak(dir: string) {
    forall i :: 0 <= i < |dir| ==> dir[i] != '\n'
  }

  /** The log file is longer by the record's line. */
  predicate Logged(text: string, before: string, r: LogEntry) {
    IsRecord(r) && text == before + LineOf(r) + "\n"
  }

  /** Every image of a put opens to what a stop there leaves. */
  ghost predicate PutOpens(images: seq<Image>, e: Engine, r: LogEntry, hash: Hash, buffer: nat, threshold: nat) {
    FlushOpens(images, WriteStep(e, r), hash, 0, PutsSafely(e, r, buffer, threshold))
  }

  class StorageEngine {
    const disk: Disk
    const manifest: Manifest
    const wal: Wal
    const dir: string
    const writeBufferSize: nat
    const compactionThreshold: nat
    const hash: Hash
    var active: MemTable
    var sstables: seq<SSTableReader>
    var counter: nat

    ghost var model: Engine          // the engine on records
    ghost var Repr: set<object>
    ghost var files: set<object>     // the open readers and their filters

    ghost predicate MemLinked()
      reads this, active, active.Repr
    {
      active.Valid() && active.Recs() == model.active && !active.immutable && active.wal == wal
    }

    ghost predicate DiskLinked()
      reads this, disk, manifest
    {
      && FilesHold(disk.Now(), model.disk, hash) && wal.disk == disk
      && manifest.disk == disk && manifest.files == model.disk.manifest
      && model.dir == dir && model.counter == counter && NoLineBreak(dir)
    }

    ghost predicate Apart()
      reads this, active, files
    {
      && Repr == {this, disk, manifest} + active.Repr && active in active.Repr
      && {this, disk, manifest} !! active.Repr && files !! Repr
    }

    /** The objects, the manifest and the table files stand for `model`. */
    ghost predicate Opened()
      reads this, Repr, files, active, active.Repr, disk, manifest
    {
      Apart() && MemLinked() && DiskLinked() && Serving(sstables, model.sstables, model.disk.tables, files, hash)
    }

    /** The engine can be used, whatever the log file holds. */
    ghost predicate Running()
      reads this, Repr, files, active, active.Repr, disk, manifest
    {
      Opened() && AllSmall(model.active) && Inv(model)
    }

    /** The log file stands for the model's log too: it holds whole records. */
    ghost predicate Valid()
      reads this, Repr, files, active, active.Repr, disk, manifest
    {
      Running() && LogHolds(disk.wal, model.disk.log)
    }

    /** Opens the files: the listed tables, then the log, whatever it holds. */
    constructor (disk: Disk, dir: string, writeBufferSize: nat, compactionThreshold: nat, hash: Hash, ghost d: Durable)
      requires FilesHold(disk.Now(), d, hash) && NoLineBreak(dir)
      ensures Opened() && model == ReopenOn(dir, d, disk.wal) && this.disk == disk
      ensures LogHolds(disk.wal, d.log) && Sound(dir, d) ==> Valid() && model == Reopen(dir, d)
      ensures d.log == UNREADABLE && Sound(dir, d) && AllSmall(model.active) ==> Running()
      ensures this.dir == dir && this.writeBufferSize == writeBufferSize
      ensures this.compactionThreshold == compactionThreshold && this.hash == hash
      ensures fresh(Repr - {disk}) && fresh(files)
    {
      hide LogHolds, Sound, Inv, Serving, MemTable.Valid, MemTable.Recs, Reopen, FilesHold, Recovered, AllSmall;
      var m, w, mem, readers, maxId;
      ghost var objects;
      m, w, mem, readers, maxId, objects := OpenFiles(disk, dir, hash, d);
      this.disk, manifest, wal, this.dir, this.hash := disk, m, w, dir, hash;
      this.writeBufferSize, this.compactionThreshold := writeBufferSize, compactionThreshold;
      active, sstables, counter := mem, readers, maxId;
      model, files, Repr := ReopenOn(dir, d, disk.wal), objects, {this, disk, m} + mem.Repr;
      new;
      ReopenParts(dir, d, disk.wal);
      if LogHolds(disk.wal, d.log) && Sound(dir, d) {
        EncodedReads(disk.Now(), d, hash);
        ReopenSound(dir, d);
      }
      if d.log == UNREADABLE && Sound(dir, d) {
        UnreadableInv(dir, d, disk.wal);
      }
    }

    /** The tables, newest to oldest: the first that holds the key answers. */
    method SearchTables(key: string) returns (found: bool, value: string, deleted: bool)
      requires Opened()
      ensures Find(Base(model.disk.tables, model.sstables), key) == if found then Some(Entry(value, deleted)) else None
    {
      hide Contents, Layered, SSTableReader.Serves, FilesHold, MemTable.Valid;
      ghost var maps := TableMaps(model.disk.tables, model.sstables);
      for i := 0 to |sstables|
        invariant forall j :: 0 <= j < i ==> key !in maps[j]
      {
        ghost var decoded;
        found, value, deleted, decoded := sstables[i].Get(key, TableOf(model.disk.tables, model.sstables[i]));
        if found {
          LayeredFirst(maps, i, key);
          return;
        }
      }
      if key in Layered(maps) {
        ghost var j := LayeredHolder(maps, key);
      }
      return false, "", false;
    }

    /** Memtable first, then the tables. Found and not deleted is exactly the clients' view. */
    method Get(key: string) returns (found: bool, value: string, deleted: bool)
      requires Opened()
      ensures found <==> key in Content(model)
      ensures found ==> deleted == Content(model)[key].deleted && (!deleted ==> value == Content(model)[key].value)
      ensures !found ==> !deleted
      ensures found && !deleted <==> key in View(model)
      ensures found && !deleted ==> value == View(model)[key]
    {
      hide Contents, Base, Serving, FilesHold, MemTable.Valid;
      var val, gone;
      found, val, gone := active.Get(key);
      if found {
        return true, val, false;
      } else if gone {
        return true, "", true;
      }
      found, value, deleted := SearchTables(key);
      if !found {
        deleted := false;
      }
    }

    /** Logs a put and makes it in the memtable. */
    method PutActive(key: string, value: string, timestamp: nat) returns (ok: bool, ghost images: seq<Image>)
      requires Running() && Small(key) && Small(value) && timestamp <= INT64_MAX
      modifies Repr
      ensures ok && Running() && model == WriteStep(old(model), LogEntry(PUT, key, value, timestamp))
      ensures fresh(Repr - old(Repr)) && files == old(files) && active == old(active)
      ensures disk.history == old(disk.history) + images && images == [disk.Now()]
      ensures Logged(images[0].wal, old(disk.wal), LogEntry(PUT, key, value, timestamp))
      ensures images[0].manifest == old(disk.manifest) && images[0].tables == old(disk.tables)
      ensures old(Valid()) ==> Valid() && Recovers(images[0], dir, hash, DurableView(model))
    {
      hide LogHolds, Serving, Inv, MemTable.Valid, MemTable.Recs, WriteStep, Upsert, FormatLine, View, ViewAfter,
           FilesHold, AllSmall, Recovers, DurableView;
      ghost var (r, e, text, valid) := (LogEntry(PUT, key, value, timestamp), model, disk.wal, Valid());
      ghost var image := disk.Now();
      WriteKeeps(e, r);
      WriteParts(e, r);
      SmallUpsert(e.active, PutRec(key, value));
      ok := active.Put(key, value, timestamp);
      model := WriteStep(e, r);
      Repr := {this, disk, manifest} + active.Repr;
      images := [disk.Now()];
      FilesIgnoreLog(image, e.disk, hash, disk.wal, model.disk.log);
      if valid {
        LogAppend(text, e.disk.log, r);
        WriteRecovers(model, disk.Now(), hash);
      }
    }

    /** A delete is logged and made like a put; it never flushes. */
    method Delete(key: string, timestamp: nat) returns (ok: bool, ghost images: seq<Image>)
      requires Running() && Small(key) && timestamp <= INT64_MAX
      modifies Repr
      ensures ok && Running() && model == WriteStep(old(model), LogEntry(DELETE, key, "", timestamp))
      ensures fresh(Repr - old(Repr)) && files == old(files)
      ensures disk.history == old(disk.history) + images && images == [disk.Now()]
      ensures Logged(images[0].wal, old(disk.wal), LogEntry(DELETE, key, "", timestamp))
      ensures images[0].wal == old(disk.wal) + "{\"operation\":\"" + "DELETE" + "\",\"key\":\"" + Escape(key)
                               + "\",\"value\":\"" + Escape("") + "\",\"timestamp\":" + Digits(timestamp) + "}" + "\n"
      ensures images[0].manifest == old(disk.manifest) && images[0].tables == old(disk.tables)
      ensures old(Valid()) ==> Valid() && Recovers(images[0], dir, hash, DurableView(model))
      ensures Clean(model.disk.log) ==> DurableView(model) == View(model)
      ensures model.active == Upsert(old(model.active), Rec(key, "", true)) && View(model) == View(old(model)) - {key}
      ensures model.sstables == old(model).sstables
      ensures Serves(old(model), Call.Delete(LogEntry(DELETE, key, "", timestamp)), writeBufferSize,
                     compactionThreshold, model)
    {
      hide LogHolds, Serving, Inv, MemTable.Valid, MemTable.Recs, WriteStep, Upsert, FormatLine, View, ViewAfter, Clean,
           Recovers, DurableView, FilesHold, AllSmall;
      ghost var (r, e, text, valid) := (LogEntry(DELETE, key, "", timestamp), model, disk.wal, Valid());
      ghost var image := disk.Now();
      WriteKeeps(e, r);
      WriteParts(e, r);
      SmallUpsert(e.active, DeleteRec(key));
      ok := active.Delete(key, timestamp);
      model := WriteStep(e, r);
      Repr := {this, disk, manifest} + active.Repr;
      images := [disk.Now()];
      FilesIgnoreLog(image, e.disk, hash, disk.wal, model.disk.log);
      CleanDurable(model);
      DeleteShows(e, r);
      Operations();
      LoggedText(text, DELETE, key, "", timestamp);
      if valid {
        LogAppend(text, e.disk.log, r);
        WriteRecovers(model, disk.Now(), hash);
      }
    }

    method NextSSTablePath() returns (path: string)
      modifies `counter
      ensures path == DataPath(dir, old(counter)) && counter == old(counter) + 1
    {
      path := DataPath(dir, counter);
      counter := counter + 1;
    }

    /** Takes over the given tables and memtable. */
    method Adopt(readers: seq<SSTableReader>, mem: MemTable, ghost next: Engine, ghost objects: set<object>)
      requires mem.Valid() && mem.Recs() == next.active && !mem.immutable && mem.wal == wal
      requires FilesHold(disk.Now(), next.disk, hash) && wal.disk == disk && NoLineBreak(dir)
      requires manifest.disk == disk && manifest.files == next.disk.manifest
      requires next.dir == dir && next.counter == counter
      requires Serving(readers, next.sstables, next.disk.tables, objects, hash) && Inv(next) && AllSmall(next.active)
      requires {this, disk, manifest} !! mem.Repr && objects !! mem.Repr && objects !! {this, disk, manifest}
      modifies `active, `sstables, `model, `files, `Repr
      ensures Running() && model == next && active == mem && files == objects
      ensures LogHolds(disk.wal, next.disk.log) ==> Valid()
      ensures Repr == {this, disk, manifest} + mem.Repr
    {
      hide LogHolds, Serving, Inv, MemTable.Valid, MemTable.Recs, FilesHold, AllSmall;
      active, sstables := mem, readers;
      model, files, Repr := next, objects, {this, disk, manifest} + mem.Repr;
    }

    /** Writes the memtable to a new table, lists it, truncates the log, and starts a new memtable.
        Whatever the log file held, it is whole afterwards. */
    method FlushActive() returns (ghost images: seq<Image>)
      requires Running() && model.active != [] && model.counter < TWO_64 && Room(model)
      modifies Repr
      ensures Running() && Valid() && model == FlushStep(old(model))
      ensures var name := "data_" + Digits(old(counter)) + ".sst";
        var path := if dir == "" || dir == "." then name else dir + "/" + name;
        && path in disk.tables && IsTable(disk.tables[path], old(model.active), hash)
        && disk.tables == old(disk.tables)[path := disk.tables[path]] && disk.wal == ""
        && manifest.files == old(manifest.files) + [path] && disk.manifest == old(disk.manifest) + path + "\n"
        && images == [Image(old(disk.wal), old(disk.manifest), disk.tables),
                      Image(old(disk.wal), disk.manifest, disk.tables), Image("", disk.manifest, disk.tables)]
      ensures fresh(Repr - old(Repr)) && fresh(files - old(files))
      ensures disk.history == old(disk.history) + images && FlushTrace(images, old(model), hash, old(disk.wal))
    {
      hide *;
      ghost var e := model;
      Parts();
      TablesServed();
      RoomForMemTable(e);
      NoneSmall();
      EmptyLog();
      FlushLog(e, 3);
      active.MarkImmutable();
      var immutable := active;
      var path := NextSSTablePath();
      PathText(dir, e.counter);
      TextGroups(dir, "data_", Digits(e.counter));
      var file := BuildTable(immutable, hash);
      var reader;
      reader, images := Persist(disk, manifest, path, file, hash, e);
      FlushServing(e, sstables, files, hash, reader);
      var mem := new MemTable(wal);
      FlushKeeps(e);
      FlushParts(e);
      Adopt([reader] + sstables, mem, FlushStep(e), files + {reader, reader.bloom});
    }

    /** One input of a merge: the table's id, or its distance from the end when the id is 0, and a
        cursor of its own. */
    method TableInput(i: nat) returns (input: Compactor.CompactorInput)
      requires Running() && i < |sstables|
      ensures input.fileId == EffectiveId(model.sstables, i) && input.cursor != null && fresh(input.cursor)
      ensures Compactor.Stream(input) == TableOf(model.disk.tables, model.sstables[i])
      ensures var id := ExtractFileId(model.sstables[i]); input.fileId == if id == 0 then |sstables| - i else id
    {
      hide FilesHold, MemTable.Valid, ExtractFileId, SSTableReader.Serves, TableFile, TableFormat.Scan, Sound;
      var path := sstables[i].path;
      var id := ExtractFileId(path);
      if id == 0 {
        id := |sstables| - i;
      }
      TableListed(model, disk.Now(), hash, i);
      TableScan(disk.tables[path], model.disk.tables[path], hash);
      var cursor := OpenIterator(disk.tables[path]);
      input := Compactor.CompactorInput(id, cursor);
    }

    method TableInputs() returns (inputs: seq<Compactor.CompactorInput>)
      requires Running()
      ensures Compactor.Separate(inputs) && Compactor.Streams(inputs) == EngineInputs(model)
      ensures forall i :: 0 <= i < |inputs| ==> inputs[i].cursor != null && fresh(inputs[i].cursor)
    {
      hide Running, EffectiveId, Compactor.Stream, Inv;
      inputs := [];
      ReadersCounted();
      for i := 0 to |sstables|
        invariant |inputs| == i && Compactor.Separate(inputs) && |sstables| == |model.sstables| && Running()
        invariant forall j :: 0 <= j < i ==>
          && inputs[j].cursor != null && fresh(inputs[j].cursor)
          && inputs[j].fileId == EffectiveId(model.sstables, j)
          && Compactor.Stream(inputs[j]) == TableOf(model.disk.tables, model.sstables[j])
      {
        var input := TableInput(i);
        inputs := inputs + [input];
      }
    }

    lemma Parts()
      requires Running()
      ensures active.Valid() && active.Recs() == model.active && !active.immutable && active.wal == wal
      ensures FilesHold(disk.Now(), model.disk, hash) && wal.disk == disk && NoLineBreak(dir) && Inv(model)
      ensures manifest.disk == disk && manifest.files == model.disk.manifest && AllSmall(model.active)
      ensures model.dir == dir && model.counter == counter
      ensures Repr == {this, disk, manifest} + active.Repr && active in active.Repr
      ensures {this, disk, manifest} !! active.Repr && files !! Repr
      ensures Valid() <==> LogHolds(disk.wal, model.disk.log)
    {
      hide LogHolds, Serving, Inv, MemTable.Valid, MemTable.Recs, NoLineBreak, FilesHold, AllSmall;
    }

    lemma TablesServed()
      requires Running()
      ensures Serving(sstables, model.sstables, model.disk.tables, files, hash)
    {
    }

    lemma ReadersCounted()
      requires Running()
      ensures |sstables| == |model.sstables|
    {
    }

    /** Merges every table into one, swaps the manifest to it, and removes the old files. */
    method CompactTables() returns (ok: bool, ghost images: seq<Image>, ghost out: seq<Rec>)
      requires Running() && sstables != [] && model.counter < TWO_64 && Room(model)
      modifies Repr
      ensures ok && Running() && CanCompact(old(model), out) && model == CompactStep(old(model), out)
      ensures forall i :: 0 <= i < |out| ==> !out[i].deleted
      ensures var name := "sstable_" + Digits(old(counter)) + ".sst";
        var path := if dir == "" || dir == "." then name else dir + "/" + name;
        && path in disk.tables && IsTable(disk.tables[path], out, hash)
        && disk.tables == old(disk.tables)[path := disk.tables[path]] - (set p | p in old(model).sstables)
        && manifest.files == [path] && disk.manifest == path + "\n"
        && |images| == 2 + |old(model).sstables|
        && images[0] == old(disk.Now()).(tables := old(disk.tables)[path := disk.tables[path]])
        && images[1] == images[0].(manifest := disk.manifest) && images[|images| - 1] == disk.Now()
      ensures fresh(Repr - old(Repr)) && fresh(files - old(files))
      ensures disk.history == old(disk.history) + images && disk.wal == old(disk.wal)
      ensures CompactTrace(images, old(model), out, hash, disk.wal) && (old(Valid()) ==> Valid())
    {
      hide *;
      ghost var e := model;
      ReadersCounted();
      Parts();
      var oldFiles := Filepaths();
      var path, file;
      path, file, out := MergeAll();
      counter := counter + 1;
      var reader;
      reader, images := PersistMerge(disk, manifest, path, file, oldFiles, hash, e, out);
      CompactKeeps(e, out);
      CompactParts(e, out, reader, hash);
      CompactLog(e, out, 2 + |e.sstables|);
      MergePurges(e, out);
      PathText(dir, e.counter);
      TextGroups(dir, "sstable_", Digits(e.counter));
      ok := true;
      Adopt([reader], active, CompactStep(e, out), {reader, reader.bloom});
    }

    /** Merges every open table into the bytes of one, named by the next id. */
    method MergeAll() returns (path: string, file: string, ghost out: seq<Rec>)
      requires Running() && sstables != [] && model.counter < TWO_64 && Room(model)
      ensures path == MergedPath(dir, counter) && CanCompact(model, out) && IsTable(file, out, hash) && |file| < TWO_64
    {
      hide Serving, Inv, MemTable.Valid, MemTable.Recs, CanCompact, Room, IsTable, MergedPath, NoLineBreak, FilesHold;
      ReadersCounted();
      var inputs := TableInputs();
      path := MergedPath(dir, counter);
      file, out := MergeTables(inputs, path, hash, model);
    }

    method Filepaths() returns (paths: seq<string>)
      requires Running()
      ensures paths == model.sstables
    {
      hide Inv, MemTable.Valid, MemTable.Recs, SSTableReader.Serves, FilesHold;
      paths := [];
      for i := 0 to |sstables|
        invariant |paths| == i && forall j :: 0 <= j < i ==> paths[j] == model.sstables[j]
      {
        paths := paths + [sstables[i].path];
      }
    }

    /** Merging nothing writes no file, and the manifest refuses to replace nothing: only an id is used up. */
    method CompactNothing() returns (ok: bool)
      requires Running() && sstables == []
      modifies Repr
      ensures !ok && Running() && model == old(model).(counter := old(model).counter + 1)
      ensures Repr == old(Repr) && files == old(files) && disk.history == old(disk.history)
      ensures disk.wal == old(disk.wal) && (old(Valid()) ==> Valid())
    {
      hide LogHolds, Serving, Inv, MemTable.Valid, MemTable.Recs, SSTableReader.Serves, NoLineBreak, FilesHold;
      CounterRaised(model);
      var path := MergedPath(dir, counter);
      counter := counter + 1;
      ok := manifest.ReplaceSSTables([], path);
      model := model.(counter := model.counter + 1);
    }

    method TriggerCompactionInternal() returns (ok: bool, ghost images: seq<Image>)
      requires Running() && model.counter < TWO_64 && Room(model)
      modifies Repr
      ensures Running() && CompactResult(old(model), compactionThreshold, model, ok)
      ensures |old(model).sstables| < compactionThreshold ==> ok && model == old(model) && images == []
      ensures |old(model).sstables| >= compactionThreshold ==>
        && (ok <==> old(model).sstables != []) && model.counter == old(model).counter + 1
        && (ok ==> |model.sstables| == 1)
      ensures fresh(Repr - old(Repr)) && fresh(files - old(files))
      ensures disk.history == old(disk.history) + images && disk.wal == old(disk.wal)
      ensures old(Valid()) ==> Valid() && CompactOpens(images, old(model), hash, !DurableClash(old(model)))
      ensures |old(model).sstables| < compactionThreshold || !Clash(old(model)) ==> View(model) == View(old(model))
      ensures old(Valid()) ==> forall i :: 0 <= i < |images| && (i == 0 || !DurableClash(old(model))) ==>
        Recovers(images[i], dir, hash, DurableView(old(model)))
    {
      hide *;
      ghost var (e, text, valid) := (model, disk.wal, Valid());
      images := [];
      ReadersCounted();
      Parts();
      NothingCompacted(e, hash, !DurableClash(e));
      if |sstables| < compactionThreshold {
        BelowThreshold(e, compactionThreshold);
        CompactShows(e, compactionThreshold, e, true);
        return true, images;
      }
      if sstables == [] {
        ok := CompactNothing();
        NoTables(e, compactionThreshold);
        CompactShows(e, compactionThreshold, model, ok);
        return ok, images;
      }
      ghost var out;
      ok, images, out := CompactTables();
      OneCompaction(e, compactionThreshold, out);
      CompactMeans(e, compactionThreshold, model, true);
      CompactShows(e, compactionThreshold, model, true);
      if valid {
        CompactTraceRecovers(images, e, out, hash, text);
        CompactImages(images, e, hash);
      }
    }

    method MaybeTriggerCompactionInternal() returns (ghost images: seq<Image>)
      requires Running() && sstables != [] && model.counter < TWO_64 && Room(model)
      modifies Repr
      ensures Running() && CompactResult(old(model), compactionThreshold, model, true)
      ensures fresh(Repr - old(Repr)) && fresh(files - old(files))
      ensures disk.history == old(disk.history) + images && disk.wal == old(disk.wal)
      ensures |old(sstables)| < compactionThreshold ==> images == []
      ensures old(Valid()) ==> Valid() && CompactOpens(images, old(model), hash, !DurableClash(old(model)))
    {
      hide *;
      ghost var e := model;
      images := [];
      ReadersCounted();
      NothingCompacted(e, hash, !DurableClash(e));
      BelowThreshold(e, compactionThreshold);
      if |sstables| >= compactionThreshold {
        var done;
        done, images := TriggerCompactionInternal();
        OnlyWithoutTables(e, compactionThreshold, model, done);
      }
    }

    /** Flushes a memtable that is not empty, then compacts when the threshold is reached. Whatever the
        log file held, a flush leaves it whole, and from then on the files open to the view. */
    method FlushMemTableInternal() returns (ghost images: seq<Image>)
      requires Running() && model.counter + 1 < TWO_64 && Room(model)
      modifies Repr
      ensures Running() && FlushResult(old(model), compactionThreshold, model)
      ensures old(model).active == [] ==> model == old(model) && images == []
      ensures old(model).active != [] ==>
        && model.active == [] && disk.wal == ""
        && (|old(model).sstables| + 1 < compactionThreshold ==>
              |model.sstables| == |old(model).sstables| + 1 && model.counter == old(model).counter + 1)
        && (|old(model).sstables| + 1 >= compactionThreshold ==>
              |model.sstables| == 1 && model.counter == old(model).counter + 2)
      ensures fresh(Repr - old(Repr)) && fresh(files - old(files))
      ensures disk.history == old(disk.history) + images
      ensures old(Valid()) ==>
        Valid() && FlushOpens(images, old(model), hash, 1, FlushesSafely(old(model), compactionThreshold))
      ensures old(model).active != [] ==>
        && Valid() && |images| >= 3
        && FlushOpens(images[2..], old(model), hash, 3, FlushesSafely(old(model), compactionThreshold))
      ensures |old(model).sstables| + 1 < compactionThreshold || !Clash(FlushStep(old(model))) ==>
        View(model) == View(old(model))
      ensures old(model).active != [] ==> Recovers(images[2], dir, hash, View(old(model)))
      ensures old(Valid()) && old(model).active != [] ==> Recovers(images[0], dir, hash, DurableView(old(model)))
      ensures old(model).active != []
              && (|old(model).sstables| + 1 < compactionThreshold || !Clash(FlushStep(old(model)))) ==>
        forall i :: 2 <= i < |images| ==> Recovers(images[i], dir, hash, View(old(model)))
    {
      hide *;
      ghost var (e, text, valid) := (model, disk.wal, Valid());
      images := [];
      Parts();
      NothingOpens(e, hash, 1, FlushesSafely(e, compactionThreshold));
      var empty := MemTableEmpty();
      FlushResultIs(e, compactionThreshold, e);
      if empty {
        return;
      }
      RoomAfterFlush(e);
      ghost var first := FlushActive();
      FlushCounts(e);
      ReadersCounted();
      ghost var more := MaybeTriggerCompactionInternal();
      FlushedRecovers(e, compactionThreshold, hash, text, first, more);
      if valid {
        FlushRecovers(e, compactionThreshold, hash, text, first, more);
      }
      FlushResultIs(e, compactionThreshold, model);
      FlushMeans(e, compactionThreshold, model);
      FlushShows(e, compactionThreshold, model);
      ConcatAssociates(old(disk.history), first, more);
      images := first + more;
      FlushImages(images, e, compactionThreshold, hash, valid);
    }

    method MemTableEmpty() returns (empty: bool)
      requires Running()
      ensures empty <==> model.active == []
    {
      hide Serving, Inv, MemTable.Valid, MemTable.Recs;
      empty := active.Empty();
    }

    /** A put is logged, made in the memtable, and flushed when the memtable has grown to the buffer size. */
    method Put(key: string, value: string, timestamp: nat) returns (ok: bool, ghost images: seq<Image>)
      requires Running() && Small(key) && Small(value) && timestamp <= INT64_MAX
      requires model.counter + 1 < TWO_64 && Room(WriteStep(model, LogEntry(PUT, key, value, timestamp)))
      modifies Repr
      ensures ok && Running() && fresh(Repr - old(Repr)) && fresh(files - old(files))
      ensures PutResult(old(model), LogEntry(PUT, key, value, timestamp), writeBufferSize, compactionThreshold, model)
      ensures var w := Upsert(old(model.active), Rec(key, value, false));
        && (112 * |w| + KeyBytes(w) + ValueBytes(w) < writeBufferSize ==>
              model.active == w && model.sstables == old(model).sstables && |images| == 1)
        && (112 * |w| + KeyBytes(w) + ValueBytes(w) >= writeBufferSize ==>
              && model.active == [] && |images| >= 4 && disk.wal == ""
              && (|old(model).sstables| + 1 < compactionThreshold ==> |model.sstables| == |old(model).sstables| + 1)
              && (|old(model).sstables| + 1 >= compactionThreshold ==> |model.sstables| == 1))
        && (112 * |w| + KeyBytes(w) + ValueBytes(w) < writeBufferSize
            || |old(model).sstables| + 1 < compactionThreshold
            || !Clash(FlushStep(WriteStep(old(model), LogEntry(PUT, key, value, timestamp)))) ==>
              View(model) == View(old(model))[key := value])
      ensures old(Valid()) ==>
        Recovers(images[0], dir, hash, DurableView(WriteStep(old(model), LogEntry(PUT, key, value, timestamp))))
      ensures disk.history == old(disk.history) + images && images != []
      ensures Logged(images[0].wal, old(disk.wal), LogEntry(PUT, key, value, timestamp))
      ensures images[0].wal == old(disk.wal) + "{\"operation\":\"" + "PUT" + "\",\"key\":\"" + Escape(key)
                               + "\",\"value\":\"" + Escape(value) + "\",\"timestamp\":" + Digits(timestamp)
                               + "}" + "\n"
      ensures images[0].manifest == old(disk.manifest) && images[0].tables == old(disk.tables)
      ensures Serves(old(model), Call.Put(LogEntry(PUT, key, value, timestamp)), writeBufferSize, compactionThreshold,
                     model)
      ensures Fills(old(model), Call.Put(LogEntry(PUT, key, value, timestamp)), writeBufferSize) ==> Valid()
      ensures old(Valid()) ==>
        && Valid()
        && PutOpens(images, old(model), LogEntry(PUT, key, value, timestamp), hash, writeBufferSize,
                    compactionThreshold)
    {
      hide *;
      ghost var (e, r, valid) := (model, LogEntry(PUT, key, value, timestamp), Valid());
      ghost var w := WriteStep(e, r);
      Parts();
      WriteParts(e, r);
      PutRecord(key, value, timestamp);
      PutWritten(e, key, value, timestamp);
      Operations();
      LoggedText(disk.wal, PUT, key, value, timestamp);
      CallServes(e, r, writeBufferSize, compactionThreshold);
      ok, images := PutActive(key, value, timestamp);
      Parts();
      ghost var safe := PutsSafely(e, r, writeBufferSize, compactionThreshold);
      if valid {
        WriteOpens(images, w, hash, safe);
      }
      PutResultIs(e, r, writeBufferSize, compactionThreshold, w);
      CostIs(w.active);
      PutOpensIs(e, r, hash, writeBufferSize, compactionThreshold);
      WrittenPending(e, r);
      var usage := ApproximateMemoryUsage();
      if usage < writeBufferSize {
        PutShows(e, r, writeBufferSize, compactionThreshold, w);
      } else {
        PutSafety(e, r, writeBufferSize, compactionThreshold);
        ghost var more := FlushMemTableInternal();
        if valid {
          WriteOpensMore(images, more, w, hash, safe);
        }
        PutResultIs(e, r, writeBufferSize, compactionThreshold, model);
        PutShows(e, r, writeBufferSize, compactionThreshold, model);
        ConcatAssociates(old(disk.history), images, more);
        images := images + more;
      }
    }

    method ApproximateMemoryUsage() returns (usage: nat)
      requires Running()
      ensures usage == Cost(model.active)
      ensures usage == 112 * |model.active| + KeyBytes(model.active) + ValueBytes(model.active)
    {
      hide Serving, Inv, SkipList.Valid, SkipList.Recs, FilesHold, Cost;
      CostIs(model.active);
      usage := active.usage;
    }

    method FlushMemTable() returns (ghost images: seq<Image>)
      requires Running() && model.counter + 1 < TWO_64 && Room(model)
      modifies Repr
      ensures Running() && FlushResult(old(model), compactionThreshold, model)
      ensures Serves(old(model), Call.FlushMemTable, writeBufferSize, compactionThreshold, model)
      ensures old(model).active == [] ==> model == old(model) && images == []
      ensures old(model).active != [] ==>
        && model.active == [] && disk.wal == ""
        && (|old(model).sstables| + 1 < compactionThreshold ==>
              |model.sstables| == |old(model).sstables| + 1 && model.counter == old(model).counter + 1)
        && (|old(model).sstables| + 1 >= compactionThreshold ==>
              |model.sstables| == 1 && model.counter == old(model).counter + 2)
      ensures fresh(Repr - old(Repr)) && fresh(files - old(files)) && disk.history == old(disk.history) + images
      ensures old(Valid()) ==>
        Valid() && FlushOpens(images, old(model), hash, 1, FlushesSafely(old(model), compactionThreshold))
      ensures old(model).active != [] ==>
        && Valid() && |images| >= 3
        && FlushOpens(images[2..], old(model), hash, 3, FlushesSafely(old(model), compactionThreshold))
      ensures |old(model).sstables| + 1 < compactionThreshold || !Clash(FlushStep(old(model))) ==>
        View(model) == View(old(model))
      ensures old(model).active != [] ==> Recovers(images[2], dir, hash, View(old(model)))
      ensures old(Valid()) && old(model).active != [] ==> Recovers(images[0], dir, hash, DurableView(old(model)))
      ensures old(model).active != []
              && (|old(model).sstables| + 1 < compactionThreshold || !Clash(FlushStep(old(model)))) ==>
        forall i :: 2 <= i < |images| ==> Recovers(images[i], dir, hash, View(old(model)))
    {
      hide *;
      CallServes(model, LogEntry(PUT, "", "", 0), writeBufferSize, compactionThreshold);
      images := FlushMemTableInternal();
    }

    method TriggerCompaction() returns (ok: bool, ghost images: seq<Image>)
      requires Running() && model.counter < TWO_64 && Room(model)
      modifies Repr
      ensures Running() && CompactResult(old(model), compactionThreshold, model, ok)
      ensures Serves(old(model), Call.TriggerCompaction, writeBufferSize, compactionThreshold, model)
      ensures |old(model).sstables| < compactionThreshold ==> ok && model == old(model) && images == []
      ensures |old(model).sstables| >= compactionThreshold ==>
        && (ok <==> old(model).sstables != []) && model.counter == old(model).counter + 1
        && (ok ==> |model.sstables| == 1)
      ensures fresh(Repr - old(Repr)) && fresh(files - old(files)) && disk.history == old(disk.history) + images
      ensures old(Valid()) ==> Valid() && CompactOpens(images, old(model), hash, !DurableClash(old(model)))
      ensures |old(model).sstables| < compactionThreshold || !Clash(old(model)) ==> View(model) == View(old(model))
      ensures old(Valid()) ==> forall i :: 0 <= i < |images| && (i == 0 || !DurableClash(old(model))) ==>
        Recovers(images[i], dir, hash, DurableView(old(model)))
    {
      hide *;
      CallServes(model, LogEntry(PUT, "", "", 0), writeBufferSize, compactionThreshold);
      ok, images := TriggerCompactionInternal();
    }

    /** Closing flushes what the memtable holds. */
    method Close() returns (ghost images: seq<Image>)
      requires Running() && model.counter + 1 < TWO_64 && Room(model)
      modifies Repr
      ensures Running() && FlushResult(old(model), compactionThreshold, model)
      ensures Serves(old(model), Call.Close, writeBufferSize, compactionThreshold, model)
      ensures old(model).active == [] ==> model == old(model) && images == []
      ensures old(model).active != [] ==>
        && model.active == [] && disk.wal == ""
        && (|old(model).sstables| + 1 < compactionThreshold ==>
              |model.sstables| == |old(model).sstables| + 1 && model.counter == old(model).counter + 1)
        && (|old(model).sstables| + 1 >= compactionThreshold ==>
              |model.sstables| == 1 && model.counter == old(model).counter + 2)
      ensures fresh(Repr - old(Repr)) && fresh(files - old(files)) && disk.history == old(disk.history) + images
      ensures old(Valid()) ==>
        Valid() && FlushOpens(images, old(model), hash, 1, FlushesSafely(old(model), compactionThreshold))
      ensures old(model).active != [] ==>
        && Valid() && |images| >= 3
        && FlushOpens(images[2..], old(model), hash, 3, FlushesSafely(old(model), compactionThreshold))
      ensures |old(model).sstables| + 1 < compactionThreshold || !Clash(FlushStep(old(model))) ==>
        View(model) == View(old(model))
      ensures old(model).active != [] ==> Recovers(images[2], dir, hash, View(old(model)))
      ensures old(Valid()) && old(model).active != [] ==> Recovers(images[0], dir, hash, DurableView(old(model)))
      ensures old(model).active != []
              && (|old(model).sstables| + 1 < compactionThreshold || !Clash(FlushStep(old(model)))) ==>
        forall i :: 2 <= i < |images| ==> Recovers(images[i], dir, hash, View(old(model)))
    {
      hide *;
      CallServes(model, LogEntry(PUT, "", "", 0), writeBufferSize, compactionThreshold);
      images := [];
      NothingOpens(model, hash, 1, FlushesSafely(model, compactionThreshold));
      FlushResultIs(model, compactionThreshold, model);
      var empty := MemTableEmpty();
      if !empty {
        images := FlushMemTableInternal();
      }
    }

    // ---- scans ----

    method NewIterator(start: string, end: string) returns (it: D.DBIterator)
      requires Running()
      ensures it.Inv() && it.streams == ScanInputs(model) && it.sought == start && it.endKey == end
      ensures fresh(it) && fresh(it.Footprint()) && it.shared == active.list.Repr
      ensures it.emitted == if it.valid then [Rec(it.currentKey, it.currentValue, false)] else []
    {
      hide Serving, Inv, SkipList.Valid, SkipList.Recs, D.DBIterator.Inv, D.DBIterator.Structure, ScanInputs;
      var inputs := TableInputs();
      it := OpenMerged(active.list, inputs, start, end, model);
      it.InvStructure();
      if start != "" {
        it.Seek(start);
        Irreflexive(start);
      } else {
        it.SeekToFirst();
      }
    }

    /** The live pairs with keys in [start, end], ascending, cut to the first `limit`. An empty bound
        is no bound, and a limit of 0 is none. */
    method Scan(start: string, end: string, limit: nat) returns (results: seq<(string, string)>)
      requires Running()
      ensures ScanResult(results, ScanInputs(model), Between(start, end), limit)
      ensures model.counter < TWO_64 && !ClashWithin(model, Between(start, end)) ==>
        ListsView(results, View(model), Between(start, end), limit)
      ensures forall i, j :: 0 <= i < j < |results| ==> Less(results[i].0, results[j].0)
      ensures forall i :: 0 <= i < |results| ==>
        AtMost(start, results[i].0) && (end == "" || AtMost(results[i].0, end))
      ensures limit > 0 ==> |results| <= limit
      ensures model.counter < TWO_64
              && (forall k :: AtMost(start, k) && (end == "" || AtMost(k, end)) ==> !ClashesAt(model, k)) ==>
        && (forall i :: 0 <= i < |results| ==>
              results[i].0 in View(model) && View(model)[results[i].0] == results[i].1)
        && (forall k :: k in View(model) && AtMost(start, k) && (end == "" || AtMost(k, end)) ==>
              (k, View(model)[k]) in results || (0 < limit == |results| && Less(results[limit - 1].0, k)))
    {
      hide Running, Inv, View, IsScan, ScanInputs, ClashWithin, D.DBIterator.Inv, ListsView, Pairs, Collected, Taken,
           Live, Contents, Remaining, ClashesAt, Less, AtMost;
      Parts();
      var it := NewIterator(start, end);
      results := [];
      NothingCollected(it.emitted, it.valid);
      while it.valid
        invariant fresh(it) && fresh(it.Footprint()) && it.Inv() && it.sought == start
        invariant it.valid ==>
          it.emitted != [] && it.emitted[|it.emitted| - 1] == Rec(it.currentKey, it.currentValue, false)
        invariant results == Pairs(Collected(it.emitted, it.valid)) && (limit > 0 ==> |results| <= limit)
        decreases if it.valid then 1 + Remaining(it.rests) else 0
      {
        if limit > 0 && |results| >= limit {
          break;
        }
        ghost var (was, r) := (it.emitted, Rec(it.currentKey, it.currentValue, false));
        results := results + [(it.currentKey, it.currentValue)];
        it.Next();
        CollectMore(was, r, if it.valid then [Rec(it.currentKey, it.currentValue, false)] else [], it.valid);
      }
      ghost var full := it.Completion();
      CollectedTaken(full, it.emitted, it.valid, limit);
      assert IsScan(ScanInputs(model), Between(start, end), full) && results == Pairs(Taken(full, limit));
      if model.counter < TWO_64 && !ClashWithin(model, Between(start, end)) {
        ResultIsListing(model, Between(start, end), limit, results);
      }
      ScanBetween(model, start, end, limit, results);
    }

    /** The live pairs whose key has the prefix, ascending, cut to the first `limit`, although
        reading stops at the first key without it. */
    method PrefixScan(prefix: string, limit: nat) returns (results: seq<(string, string)>)
      requires Running()
      ensures ScanResult(results, ScanInputs(model), WithPrefix(prefix), limit)
      ensures model.counter < TWO_64 && !ClashWithin(model, WithPrefix(prefix)) ==>
        ListsView(results, View(model), WithPrefix(prefix), limit)
      ensures forall i, j :: 0 <= i < j < |results| ==> Less(results[i].0, results[j].0)
      ensures forall i :: 0 <= i < |results| ==>
        |prefix| <= |results[i].0| && results[i].0[..|prefix|] == prefix
      ensures limit > 0 ==> |results| <= limit
      ensures model.counter < TWO_64
              && (forall k :: |prefix| <= |k| && k[..|prefix|] == prefix ==> !ClashesAt(model, k)) ==>
        && (forall i :: 0 <= i < |results| ==>
              results[i].0 in View(model) && View(model)[results[i].0] == results[i].1)
        && (forall k :: k in View(model) && |prefix| <= |k| && k[..|prefix|] == prefix ==>
              (k, View(model)[k]) in results || (0 < limit == |results| && Less(results[limit - 1].0, k)))
    {
      hide Running, Inv, View, IsScan, ScanInputs, ClashWithin, D.DBIterator.Inv, ListsView, Pairs, Collected, Taken,
           Live, Contents, Remaining, HasPrefix, WhilePrefixed, ClashesAt, Less, AtMost;
      Parts();
      var it := NewIterator(prefix, "");
      results := [];
      NothingCollected(it.emitted, it.valid);
      ghost var kept: seq<Rec> := [];
      while it.valid
        invariant fresh(it) && fresh(it.Footprint()) && it.Inv() && it.sought == prefix
        invariant it.valid ==>
          it.emitted != [] && it.emitted[|it.emitted| - 1] == Rec(it.currentKey, it.currentValue, false)
        invariant kept == Collected(it.emitted, it.valid) && results == Pairs(kept)
        invariant limit > 0 ==> |results| <= limit
        invariant forall i :: 0 <= i < |kept| ==> HasPrefix(kept[i].key, prefix)
        decreases if it.valid then 1 + Remaining(it.rests) else 0
      {
        if limit > 0 && |results| >= limit {
          break;
        }
        var key := it.currentKey;
        if !HasPrefix(key, prefix) {
          break;
        }
        ghost var (was, r) := (it.emitted, Rec(key, it.currentValue, false));
        results := results + [(key, it.currentValue)];
        kept := kept + [r];
        it.Next();
        CollectMore(was, r, if it.valid then [Rec(it.currentKey, it.currentValue, false)] else [], it.valid);
      }
      ghost var all := it.Completion();
      CollectedPrefixed(all, it.emitted, it.valid, limit, prefix);
      PrefixedIsScan(ScanInputs(model), prefix, all);
      ghost var full := WhilePrefixed(all, prefix);
      assert IsScan(ScanInputs(model), WithPrefix(prefix), full) && results == Pairs(Taken(full, limit));
      if model.counter < TWO_64 && !ClashWithin(model, WithPrefix(prefix)) {
        ResultIsListing(model, WithPrefix(prefix), limit, results);
      }
      ScanPrefixed(model, prefix, limit, results);
    }
  }

  lemma NothingCollected(emitted: seq<Rec>, valid: bool)
    requires |emitted| == if valid then 1 else 0
    ensures Collected(emitted, valid) == [] && Pairs([]) == []
  {
  }

  lemma {:induction false} TableStreamsAll(inputs: seq<Compactor.CompactorInput>)
    requires forall i :: 0 <= i < |inputs| ==> inputs[i].cursor != null
    ensures D.TableStreams(inputs) == Compactor.Streams(inputs)
  {
    hide Compactor.Stream;
    if inputs != [] {
      TableStreamsAll(inputs[..|inputs| - 1]);
    }
  }

  lemma CursorReady(cursor: Iterator, inputs: seq<Compactor.CompactorInput>)
    requires cursor.Inv() && cursor !in cursor.list.Repr
    requires Compactor.Separate(inputs) && Compactor.Iterators(inputs) !! cursor.list.Repr
    ensures D.Ready(cursor, null, inputs, cursor.list.Repr)
  {
    hide SkipList.Recs, SkipList.Spine, Compactor.Iterators, Compactor.Separate;
  }

  lemma StreamsAreInputs(cursor: Iterator, inputs: seq<Compactor.CompactorInput>, e: Engine)
    requires D.Ready(cursor, null, inputs, cursor.list.Repr) && cursor.list.Valid() && cursor.list.Recs() == e.active
    requires forall i :: 0 <= i < |inputs| ==> inputs[i].cursor != null
    requires Compactor.Streams(inputs) == EngineInputs(e) && Inv(e)
    ensures D.StreamsIn(cursor, null, inputs, cursor.list.Repr) == ScanInputs(e)
    ensures AllSorted(D.StreamsIn(cursor, null, inputs, cursor.list.Repr))
  {
    hide Inv, SkipList.Valid, SkipList.Recs, EngineInputs, Compactor.Streams, D.Ready, AllSorted, D.TableStreams;
    TableStreamsAll(inputs);
    ScanSorted(e);
    assert [Input(TWO_64 - 1, e.active)] + [] + EngineInputs(e) == ScanInputs(e);
  }

  method OpenMerged(list: SkipList, inputs: seq<Compactor.CompactorInput>, start: string, end: string, ghost e: Engine)
    returns (it: D.DBIterator)
    requires list.Valid() && list.Recs() == e.active && Inv(e)
    requires Compactor.Separate(inputs) && Compactor.Iterators(inputs) !! list.Repr
    requires forall i :: 0 <= i < |inputs| ==> inputs[i].cursor != null
    requires Compactor.Streams(inputs) == EngineInputs(e)
    modifies Compactor.Iterators(inputs)
    ensures it.Inv() && it.streams == ScanInputs(e)
    ensures it.startKey == start && it.endKey == end && it.shared == list.Repr
    ensures fresh(it) && fresh(it.Footprint() - Compactor.Iterators(inputs))
  {
    hide Inv, SkipList.Valid, SkipList.Recs, Inputs, Compactor.Streams, D.DBIterator.Inv, D.Ready, D.StreamsIn,
         ScanInputs, AllSorted, Iterator.Rest;
    var cursor := new Iterator(list);
    CursorReady(cursor, inputs);
    StreamsAreInputs(cursor, inputs, e);
    it := new D.DBIterator(cursor, null, inputs, start, end, list.Repr);
    D.AmongWithin(it.sources, cursor, null, inputs);
  }

  lemma ConcatAssociates<T>(a: seq<T>, b: seq<T>, c: seq<T>)
    ensures (a + b) + c == a + (b + c)
  {
  }

  lemma FlushResultIs(e: Engine, threshold: nat, next: Engine)
    ensures FlushResult(e, threshold, next)
            <==> if e.active == [] then next == e else CompactResult(FlushStep(e), threshold, next, true)
  {
    hide CompactResult;
  }

  lemma NothingOpens(e: Engine, hash: Hash, from: nat, safe: bool)
    ensures FlushOpens([], e, hash, from, safe)
  {
  }

  lemma FlushImages(images: seq<Image>, e: Engine, threshold: nat, hash: Hash, valid: bool)
    requires e.active != [] && |images| >= 3 && FlushOpens(images[2..], e, hash, 3, FlushesSafely(e, threshold))
    requires valid ==> FlushOpens(images, e, hash, 1, FlushesSafely(e, threshold))
    ensures Recovers(images[2], e.dir, hash, View(e)) && (valid ==> Recovers(images[0], e.dir, hash, DurableView(e)))
    ensures |e.sstables| + 1 < threshold || !Clash(FlushStep(e)) ==>
      forall i :: 2 <= i < |images| ==> Recovers(images[i], e.dir, hash, View(e))
  {
    hide Recovers, View, DurableView, Clash, FlushState, DataPath;
    assert images[2..][0] == images[2];
    if |e.sstables| + 1 < threshold || !Clash(FlushStep(e)) {
      forall i | 2 <= i < |images| ensures Recovers(images[i], e.dir, hash, View(e)) {
        assert images[2..][i - 2] == images[i];
      }
    }
  }

  lemma CompactImages(images: seq<Image>, e: Engine, hash: Hash)
    requires CompactOpens(images, e, hash, !DurableClash(e))
    ensures forall i :: 0 <= i < |images| && (i == 0 || !DurableClash(e)) ==>
      Recovers(images[i], e.dir, hash, DurableView(e))
  {
    hide Recovers, DurableView, DurableClash;
  }

  lemma NothingCompacted(e: Engine, hash: Hash, safe: bool)
    ensures CompactOpens([], e, hash, safe)
  {
  }

  lemma BelowThreshold(e: Engine, threshold: nat)
    ensures |e.sstables| < threshold ==> CompactResult(e, threshold, e, true)
  {
  }

  lemma NoTables(e: Engine, threshold: nat)
    ensures e.sstables == [] && threshold == 0 ==> CompactResult(e, threshold, e.(counter := e.counter + 1), false)
  {
  }

  lemma OneCompaction(e: Engine, threshold: nat, out: seq<Rec>)
    requires |e.sstables| >= threshold && e.sstables != [] && CanCompact(e, out)
    ensures CompactResult(e, threshold, CompactStep(e, out), true)
  {
  }

  lemma OnlyWithoutTables(e: Engine, threshold: nat, next: Engine, ok: bool)
    requires CompactResult(e, threshold, next, ok) && e.sstables != []
    ensures ok
  {
  }

  /** Stopping on an image of a flush, and opening it again, is a step of a run: the files hold the durable
      state that the step opens. */
  lemma FlushImageStops(images: seq<Image>, e: Engine, hash: Hash, text: string, i: nat)
    requires Inv(e) && e.counter < TWO_64 && e.active != [] && FlushTrace(images, e, hash, text)
    requires LogHolds(text, e.disk.log) && i < |images|
    ensures Allowed(e, StopInFlush(i + 1)) && Encodes(images[i], Next(e, StopInFlush(i + 1)).disk, hash)
    ensures Next(e, StopInFlush(i + 1)) == Reopen(e.dir, Next(e, StopInFlush(i + 1)).disk)
  {
    hide Inv, FilesHold, LogHolds, FlushState, Reopen;
    EmptyLog();
    FlushLog(e, i + 1);
    ReopenDisk(e.dir, FlushState(e, i + 1));
  }

  lemma CompactImageStops(images: seq<Image>, e: Engine, out: seq<Rec>, hash: Hash, text: string, i: nat)
    requires Inv(e) && CanCompact(e, out) && CompactTrace(images, e, out, hash, text)
    requires LogHolds(text, e.disk.log) && i < |images|
    ensures Allowed(e, StopInCompaction(out, i + 1))
    ensures Encodes(images[i], Next(e, StopInCompaction(out, i + 1)).disk, hash)
    ensures Next(e, StopInCompaction(out, i + 1)) == Reopen(e.dir, Next(e, StopInCompaction(out, i + 1)).disk)
  {
    hide Inv, FilesHold, LogHolds, CompactState, Reopen, CanCompact;
    CompactLog(e, out, i + 1);
    ReopenDisk(e.dir, CompactState(e, out, i + 1));
  }

  /** The images of a flush from the truncation on, and of the compaction after it: they open to the
      view, whatever the log file held before. */
  lemma FlushedRecovers(e: Engine, threshold: nat, hash: Hash, text: string, images: seq<Image>, more: seq<Image>)
    requires Inv(e) && e.counter < TWO_64 && e.active != [] && FlushTrace(images, e, hash, text)
    requires |FlushStep(e).sstables| < threshold ==> more == []
    requires CompactOpens(more, FlushStep(e), hash, !DurableClash(FlushStep(e)))
    ensures |images| == 3 && FlushOpens((images + more)[2..], e, hash, 3, FlushesSafely(e, threshold))
  {
    hide Inv, FlushStep, Clash, DurableClash, View, DurableView, Recovers, FlushState, Clean, LogHolds, FilesHold,
         Sound, Reopen;
    var (f, all) := (FlushStep(e), images + more);
    FlushKeeps(e);
    FlushCounts(e);
    FlushedSurvives(e);
    CleanClash(f);
    FlushSound(e, 3);
    FlushStopOpens(e, 3);
    FlushLog(e, 3);
    EmptyLog();
    StateRecovers(images[2], FlushState(e, 3), e.dir, hash, View(e));
    forall i | 0 <= i < |all[2..]| && (3 + i < 5 || FlushesSafely(e, threshold))
      ensures Recovers(all[2..][i], e.dir, hash, FlushStopView(e, 3 + i))
    {
      if i >= 1 {
        assert all[2..][i] == more[i - 1];
      }
    }
  }

  /** With whole records in the log, so do all of them to what a stop there leaves. */
  lemma FlushRecovers(e: Engine, threshold: nat, hash: Hash, text: string, images: seq<Image>, more: seq<Image>)
    requires Inv(e) && e.counter < TWO_64 && e.active != [] && FlushTrace(images, e, hash, text)
    requires LogHolds(text, e.disk.log) && |images| == 3
    requires FlushOpens((images + more)[2..], e, hash, 3, FlushesSafely(e, threshold))
    ensures FlushOpens(images + more, e, hash, 1, FlushesSafely(e, threshold))
  {
    hide Inv, FlushTrace, FlushesSafely, Recovers, FlushStopView, LogHolds;
    var all := images + more;
    FlushTraceRecovers(images, e, hash, text);
    forall i | 0 <= i < |all| && (1 + i < 5 || FlushesSafely(e, threshold))
      ensures Recovers(all[i], e.dir, hash, FlushStopView(e, 1 + i))
    {
      if i >= 3 {
        assert all[i] == all[2..][i - 2];
      }
    }
  }

  lemma PutRecord(key: string, value: string, timestamp: nat)
    requires timestamp <= INT64_MAX
    ensures IsRecord(LogEntry(PUT, key, value, timestamp))
  {
  }

  lemma CallServes(e: Engine, r: LogEntry, buffer: nat, threshold: nat)
    ensures IsRecord(r) && r.operation == PUT && e.counter + 1 < TWO_64 ==>
      forall next :: PutResult(e, r, buffer, threshold, next) ==> Serves(e, Call.Put(r), buffer, threshold, next)
    ensures e.counter + 1 < TWO_64 ==>
      forall next :: FlushResult(e, threshold, next) ==>
        && Serves(e, Call.FlushMemTable, buffer, threshold, next)
        && Serves(e, Call.Close, buffer, threshold, next)
    ensures e.counter < TWO_64 ==>
      forall next, ok :: CompactResult(e, threshold, next, ok) ==>
        Serves(e, Call.TriggerCompaction, buffer, threshold, next)
  {
    hide PutResult, FlushResult, CompactResult;
  }

  lemma Operations()
    ensures PUT == "PUT" && DELETE == "DELETE" && IsOperation(PUT) && IsOperation(DELETE)
  {
  }

  /** The line of a record, written out. */
  lemma LoggedText(before: string, operation: string, key: string, value: string, timestamp: nat)
    requires IsOperation(operation) && timestamp <= INT64_MAX
    ensures forall text :: Logged(text, before, LogEntry(operation, key, value, timestamp)) ==>
      text == before + "{\"operation\":\"" + operation + "\",\"key\":\"" + Escape(key) + "\",\"value\":\""
              + Escape(value) + "\",\"timestamp\":" + Digits(timestamp) + "}" + "\n"
  {
    hide Escape, Digits;
    OperationEscapes(operation);
  }

  lemma PutWritten(e: Engine, key: string, value: string, timestamp: nat)
    ensures WriteStep(e, LogEntry(PUT, key, value, timestamp)).active == Upsert(e.active, Rec(key, value, false))
  {
  }

  lemma PutResultIs(e: Engine, r: LogEntry, buffer: nat, threshold: nat, next: Engine)
    ensures PutResult(e, r, buffer, threshold, next) <==>
      if Cost(WriteStep(e, r).active) < buffer then next == WriteStep(e, r)
      else FlushResult(WriteStep(e, r), threshold, next)
  {
    hide FlushResult;
  }

  lemma PutOpensIs(e: Engine, r: LogEntry, hash: Hash, buffer: nat, threshold: nat)
    ensures forall images :: FlushOpens(images, WriteStep(e, r), hash, 0, PutsSafely(e, r, buffer, threshold)) ==>
      PutOpens(images, e, r, hash, buffer, threshold)
    ensures Fills(e, Call.Put(r), buffer) <==> Cost(WriteStep(e, r).active) >= buffer
  {
    hide FlushOpens, PutsSafely, WriteStep;
  }

  lemma PutSafety(e: Engine, r: LogEntry, buffer: nat, threshold: nat)
    requires Cost(WriteStep(e, r).active) >= buffer
    ensures PutsSafely(e, r, buffer, threshold) == FlushesSafely(WriteStep(e, r), threshold)
  {
    hide FlushesSafely;
  }

  lemma CleanDurable(e: Engine)
    requires Inv(e)
    ensures Clean(e.disk.log) ==> DurableView(e) == View(e)
  {
    hide Inv, View, Clean, DurableView, DurablyShown, Reopen;
    ReopenKeepsIff(e);
  }

  lemma WriteRecovers(w: Engine, image: Image, hash: Hash)
    requires Inv(w) && FilesHold(image, w.disk, hash) && LogHolds(image.wal, w.disk.log)
    ensures Recovers(image, w.dir, hash, DurableView(w))
  {
    hide Inv, FilesHold, LogHolds, View, Reopen, Sound;
    SoundOf(w);
  }

  lemma WriteOpens(images: seq<Image>, w: Engine, hash: Hash, safe: bool)
    requires |images| == 1 && Recovers(images[0], w.dir, hash, DurableView(w))
    ensures FlushOpens(images, w, hash, 0, safe)
  {
    hide Recovers, DurableView;
  }

  lemma WriteOpensMore(images: seq<Image>, more: seq<Image>, w: Engine, hash: Hash, safe: bool)
    requires |images| == 1 && FlushOpens(images, w, hash, 0, safe) && FlushOpens(more, w, hash, 1, safe)
    ensures FlushOpens(images + more, w, hash, 0, safe)
  {
    hide Recovers, FlushStopView;
    forall i | 0 <= i < |images + more| && (i < 5 || safe)
      ensures Recovers((images + more)[i], w.dir, hash, FlushStopView(w, i))
    {
      if i >= 1 {
        assert (images + more)[i] == more[i - 1];
      }
    }
  }

  lemma InputsSorted(e: Engine)
    requires Inv(e)
    ensures AllSorted(EngineInputs(e))
  {
    hide ExtractFileId, Sorted, EffectiveId, Named, IdsAscend;
    forall i | 0 <= i < |e.sstables| ensures Sorted(TableOf(e.disk.tables, e.sstables[i])) {
      assert e.sstables[i] in e.disk.manifest;
    }
  }

  lemma PathNonempty(dir: string, id: nat)
    ensures MergedPath(dir, id) != ""
  {
  }

  method MergeTables(inputs: seq<Compactor.CompactorInput>, path: string, hash: Hash, ghost e: Engine)
    returns (file: string, ghost out: seq<Rec>)
    requires Inv(e) && e.sstables != [] && e.counter < TWO_64 && Room(e) && path == MergedPath(e.dir, e.counter)
    requires Compactor.Separate(inputs) && Compactor.Streams(inputs) == EngineInputs(e)
    modifies Compactor.Iterators(inputs)
    ensures CanCompact(e, out) && IsTable(file, out, hash) && |file| < TWO_64
  {
    hide Inv, IsMerge, IsTable, Inputs, TableBytes, MergedPath, AllSorted, IsSet;
    InputsSorted(e);
    PathNonempty(e.dir, e.counter);
    var bloom := new BloomFilter(hash, EXPECTED_ITEMS, RATE, BIT_COUNT, HASH_COUNT);
    var ok, written;
    ok, written, out := Compactor.Compact(inputs, path, true, bloom);
    file := written.value;
    RoomForMerge(e, out);
  }

  lemma CompactParts(e: Engine, out: seq<Rec>, reader: SSTableReader, hash: Hash)
    requires Inv(e) && CanCompact(e, out)
    requires reader.path == MergedPath(e.dir, e.counter) && reader.Serves(out)
    ensures var (c, path) := (CompactStep(e, out), MergedPath(e.dir, e.counter));
      && c.dir == e.dir && c.counter == e.counter + 1 && c.active == e.active && c.sstables == [path]
      && c.disk == CompactState(e, out, 2 + |e.sstables|) && c.disk.manifest == [path]
      && Serving([reader], c.sstables, c.disk.tables, {reader, reader.bloom}, hash)
  {
    hide Inv, CanCompact, MergedPath, SSTableReader.Serves;
    CompactTable(e, out, 2 + |e.sstables|);
  }

  /** The durable steps of a compaction: the merged file, the manifest, and each old file's removal. */
  method PersistMerge(disk: Disk, manifest: Manifest, path: string, file: string, oldFiles: seq<string>, hash: Hash,
                      ghost e: Engine, ghost out: seq<Rec>)
    returns (reader: SSTableReader, ghost images: seq<Image>)
    requires Inv(e) && CanCompact(e, out) && FilesHold(disk.Now(), e.disk, hash) && NoLineBreak(e.dir)
    requires manifest.disk == disk && manifest.files == e.disk.manifest && e.counter < TWO_64
    requires path == MergedPath(e.dir, e.counter) && oldFiles == e.sstables
    requires IsTable(file, out, hash) && |file| < TWO_64
    modifies disk, manifest
    ensures FilesHold(disk.Now(), CompactState(e, out, 2 + |e.sstables|), hash) && manifest.files == [path]
    ensures disk.tables == old(disk.tables)[path := file] - (set p | p in oldFiles) && path !in oldFiles
    ensures disk.manifest == path + "\n" && |images| == 2 + |oldFiles|
    ensures images[0] == old(disk.Now()).(tables := old(disk.tables)[path := file])
    ensures images[1] == images[0].(manifest := disk.manifest) && images[|images| - 1] == disk.Now()
    ensures fresh(reader) && fresh(reader.bloom) && reader.path == path && reader.Serves(out)
    ensures disk.history == old(disk.history) + images && CompactTrace(images, e, out, hash, disk.wal)
    ensures disk.wal == old(disk.wal)
  {
    hide FilesHold, Inv, CanCompact, CompactState, IsTable, MergedPath, TableFiles, SSTableReader.Serves, Replaced,
         ManifestText;
    MergeFiles(e, disk.Now(), hash, file, out);
    disk.WriteTable(path, file);
    images := [disk.Now()];
    ReplacesAll(e, path);
    var replaced := manifest.ReplaceSSTables(oldFiles, path);
    images := images + [disk.Now()];
    reader := OpenTable(path, disk, hash, e.disk.tables[path := out]);
    OneLineText(path);
    NewMergedPath(e);
    ghost var tables := disk.tables;
    assert tables - (set p | p in oldFiles[..0]) == tables;
    for i := 0 to |oldFiles|
      invariant FilesHold(disk.Now(), CompactState(e, out, 2 + i), hash) && manifest.files == [path]
      invariant reader.Serves(out) && |images| == 2 + i && disk.history == old(disk.history) + images
      invariant forall j :: 0 <= j < |images| ==> FilesHold(images[j], CompactState(e, out, j + 1), hash)
      invariant forall j :: 0 <= j < |images| ==> images[j].wal == disk.wal
      invariant disk.wal == old(disk.wal) && disk.manifest == path + "\n" && images[|images| - 1] == disk.Now()
      invariant images[0] == old(disk.Now()).(tables := tables) && images[1] == images[0].(manifest := disk.manifest)
      invariant disk.tables == tables - (set p | p in oldFiles[..i])
    {
      assert oldFiles[..i + 1] == oldFiles[..i] + [oldFiles[i]];
      TakenOut(tables, oldFiles[..i], oldFiles[..i + 1], oldFiles[i]);
      FilesRemove(disk.Now(), CompactState(e, out, 2 + i), hash, oldFiles[i]);
      RemoveStep(e, out, i);
      disk.RemoveTable(oldFiles[i]);
      images := images + [disk.Now()];
    }
    assert oldFiles[..|oldFiles|] == oldFiles;
  }

  lemma OneLineText(path: string)
    ensures ManifestText([path]) == path + "\n"
  {
    assert [path][1..] == [];
  }

  lemma TakenOut(tables: map<string, string>, files: seq<string>, more: seq<string>, path: string)
    requires more == files + [path]
    ensures tables - (set p | p in more) == (tables - (set p | p in files)) - {path}
  {
  }

  lemma TextGroups(dir: string, prefix: string, digits: string)
    ensures dir + "/" + prefix + digits + ".sst" == dir + "/" + (prefix + digits + ".sst")
  {
  }

  lemma RemoveStep(e: Engine, out: seq<Rec>, i: nat)
    requires i < |e.sstables|
    ensures CompactState(e, out, 3 + i) ==
      CompactState(e, out, 2 + i).(tables := CompactState(e, out, 2 + i).tables - {e.sstables[i]})
  {
    hide MergedPath;
    var (a, b) := (e.sstables[..i], e.sstables[..i + 1]);
    assert b == a + [e.sstables[i]];
    var t := e.disk.tables[MergedPath(e.dir, e.counter) := out];
    assert (set p | p in b) == (set p | p in a) + {e.sstables[i]};
    assert t - (set p | p in b) == (t - (set p | p in a)) - {e.sstables[i]};
  }

  /** With at least one open table every listed file is one, so the manifest becomes the new file alone,
      and the replacement by ids that the source falls back to is not reached. With none both fail, as
      there is nothing to replace. */
  lemma ReplacesAll(e: Engine, path: string)
    requires Inv(e) && e.sstables != [] && path != ""
    ensures Replaced(e.disk.manifest, (set f | f in e.sstables), path) == [path]
    ensures forall f :: f in e.sstables ==> f in e.disk.manifest
  {
    hide Sound, IdsBelow;
    forall f | f in e.disk.manifest ensures f in e.sstables {
      var i :| 0 <= i < |e.disk.manifest| && e.disk.manifest[i] == f;
      assert e.sstables[|e.sstables| - 1 - i] == f;
    }
    ReplaceAll(e.disk.manifest, (set f | f in e.sstables), path);
  }

  lemma MergeFiles(e: Engine, image: Image, hash: Hash, file: string, out: seq<Rec>)
    requires Inv(e) && CanCompact(e, out) && FilesHold(image, e.disk, hash) && NoLineBreak(e.dir)
    requires IsTable(file, out, hash) && |file| < TWO_64
    ensures var path := MergedPath(e.dir, e.counter);
      var a := image.(tables := image.tables[path := file]);
      && path != "" && e.sstables != []
      && FilesHold(a, CompactState(e, out, 1), hash)
      && FilesHold(a.(manifest := ManifestText([path])), CompactState(e, out, 2), hash)
      && TableFiles(a.tables, e.disk.tables[path := out], hash)
  {
    hide FilesHold, MergedPath, IsTable, TableFiles, Inv, Sorted, AllSmall, ManifestText, IsMerge;
    var path := MergedPath(e.dir, e.counter);
    MergeIsTable(e, image, hash, file, out);
    PathNonempty(e.dir, e.counter);
    PathsAreLines(e.dir, e.counter);
    FilesTable(image, e.disk, hash, path, file, out);
    var (a, d1) := (image.(tables := image.tables[path := file]), e.disk.(tables := e.disk.tables[path := out]));
    FilesRead(a, d1, hash);
    assert AreLines([path]);
    FilesReplaced(a, d1, hash, [path]);
    NothingRemoved(e, out);
  }

  lemma NothingRemoved(e: Engine, out: seq<Rec>)
    ensures CompactState(e, out, 2) ==
      e.disk.(manifest := [MergedPath(e.dir, e.counter)], tables := e.disk.tables[MergedPath(e.dir, e.counter) := out])
  {
    hide MergedPath;
  }

  lemma MergeIsTable(e: Engine, image: Image, hash: Hash, file: string, out: seq<Rec>)
    requires Inv(e) && CanCompact(e, out) && FilesHold(image, e.disk, hash)
    requires IsTable(file, out, hash) && |file| < TWO_64
    ensures TableFile(file, out, hash)
  {
    hide FilesHold, IsTable, Inv, Sorted, AllSmall, MergedAt;
    forall p | p in e.sstables ensures AllSmall(TableOf(e.disk.tables, p)) {
      var i :| 0 <= i < |e.sstables| && e.sstables[i] == p;
      TableListed(e, image, hash, i);
    }
    MergeSmall(e, out);
  }

  lemma TableListed(e: Engine, image: Image, hash: Hash, i: nat)
    requires Inv(e) && FilesHold(image, e.disk, hash) && i < |e.sstables|
    ensures e.sstables[i] in e.disk.tables && e.sstables[i] in image.tables
    ensures TableFile(image.tables[e.sstables[i]], TableOf(e.disk.tables, e.sstables[i]), hash)
  {
    hide TableFile, LogText, ManifestText, Named, IdsAscend, ExtractFileId, Sorted;
    assert e.sstables[i] in e.disk.manifest;
  }

  /** The three durable steps of a flush; the reader is opened on the written file. */
  method Persist(disk: Disk, manifest: Manifest, path: string, file: string, hash: Hash, ghost e: Engine)
    returns (reader: SSTableReader, ghost images: seq<Image>)
    requires Inv(e) && e.counter < TWO_64 && FilesHold(disk.Now(), e.disk, hash) && NoLineBreak(e.dir)
    requires manifest.disk == disk && manifest.files == e.disk.manifest && path == DataPath(e.dir, e.counter)
    requires IsTable(file, e.active, hash) && |file| < TWO_64 && AllSmall(e.active)
    modifies disk, manifest
    ensures FilesHold(disk.Now(), FlushState(e, 3), hash) && disk.wal == ""
    ensures manifest.files == e.disk.manifest + [path] && disk.manifest == old(disk.manifest) + path + "\n"
    ensures disk.tables == old(disk.tables)[path := file]
    ensures images == [Image(old(disk.wal), old(disk.manifest), disk.tables),
                       Image(old(disk.wal), disk.manifest, disk.tables), Image("", disk.manifest, disk.tables)]
    ensures fresh(reader) && fresh(reader.bloom) && reader.path == path && reader.Serves(e.active)
    ensures disk.history == old(disk.history) + images && FlushTrace(images, e, hash, old(disk.wal))
  {
    hide FilesHold, Inv, FlushState, IsTable, DataPath, TableFiles, SSTableReader.Serves, AllSmall;
    FlushFiles(e, disk.Now(), hash, file);
    disk.WriteTable(path, file);
    images := [disk.Now()];
    reader := OpenTable(path, disk, hash, e.disk.tables[path := e.active]);
    var listed := manifest.AddSSTable(path);
    images := images + [disk.Now()];
    disk.TruncateWal();
    images := images + [disk.Now()];
  }

  lemma ServingKept(readers: seq<SSTableReader>, paths: seq<string>, tables: map<string, seq<Rec>>,
                    next: map<string, seq<Rec>>, files: set<object>, hash: Hash)
    requires Serving(readers, paths, tables, files, hash)
    requires forall p :: p in paths ==> TableOf(next, p) == TableOf(tables, p)
    ensures Serving(readers, paths, next, files, hash)
  {
    hide SSTableReader.Serves;
  }

  lemma FlushServing(e: Engine, readers: seq<SSTableReader>, files: set<object>, hash: Hash, reader: SSTableReader)
    requires Inv(e) && e.counter < TWO_64 && Serving(readers, e.sstables, e.disk.tables, files, hash)
    requires reader.path == DataPath(e.dir, e.counter) && reader.Serves(e.active)
    ensures Serving([reader] + readers, [DataPath(e.dir, e.counter)] + e.sstables,
                    e.disk.tables[DataPath(e.dir, e.counter) := e.active], files + {reader, reader.bloom}, hash)
  {
    hide Serving, SSTableReader.Serves, DataPath, Sound, IdsBelow;
    var (path, next) := (DataPath(e.dir, e.counter), e.disk.tables[DataPath(e.dir, e.counter) := e.active]);
    NewPaths(e);
    assert forall p :: p in e.sstables ==> p in e.disk.manifest;
    ServingKept(readers, e.sstables, e.disk.tables, next, files, hash);
    ServingMore(readers, e.sstables, next, files, hash, reader, path);
  }

  lemma FlushParts(e: Engine)
    requires e.active != []
    ensures var (f, path) := (FlushStep(e), DataPath(e.dir, e.counter));
      f.dir == e.dir && f.counter == e.counter + 1 && f.active == [] && f.sstables == [path] + e.sstables
      && f.disk == FlushState(e, 3) && f.disk.manifest == e.disk.manifest + [path]
      && f.disk.tables == e.disk.tables[path := e.active]
    ensures Recovered("") == [] && Replay([]) == []
  {
    hide DataPath;
  }

  /** The files after each step of a flush hold the durable state after it. */
  lemma FlushFiles(e: Engine, image: Image, hash: Hash, file: string)
    requires Inv(e) && e.counter < TWO_64 && FilesHold(image, e.disk, hash) && NoLineBreak(e.dir)
    requires IsTable(file, e.active, hash) && |file| < TWO_64 && AllSmall(e.active)
    ensures var path := DataPath(e.dir, e.counter);
      var (a, b) := (image.(tables := image.tables[path := file]), image.manifest + path + "\n");
      && FilesHold(a, FlushState(e, 1), hash) && FilesHold(a.(manifest := b), FlushState(e, 2), hash)
      && FilesHold(a.(manifest := b, wal := ""), FlushState(e, 3), hash)
      && TableFiles(a.tables, e.disk.tables[path := e.active], hash)
  {
    hide FilesHold, DataPath, IsTable, TableFiles, Sound, Sorted, AllSmall, Contents, KeptMap, IdsBelow;
    var path := DataPath(e.dir, e.counter);
    PathsAreLines(e.dir, e.counter);
    FilesTable(image, e.disk, hash, path, file, e.active);
    var (a, d1) := (image.(tables := image.tables[path := file]), e.disk.(tables := e.disk.tables[path := e.active]));
    FilesRead(a, d1, hash);
    FilesListed(a, d1, hash, path);
    var (b, d2) := (a.(manifest := a.manifest + path + "\n"), d1.(manifest := d1.manifest + [path]));
    FilesIgnoreLog(b, d2, hash, "", []);
  }

  lemma ReopenParts(dir: string, d: Durable, text: string)
    ensures ReopenOn(dir, d, text).dir == dir && ReopenOn(dir, d, text).disk == d
    ensures ReopenOn(dir, d, text).sstables == Reopen(dir, d).sstables
    ensures ReopenOn(dir, d, text).counter == Reopen(dir, d).counter
    ensures Recovered(text) == Kept(d.log) ==> ReopenOn(dir, d, text) == Reopen(dir, d)
    ensures Reopen(dir, d).active == Replay(Kept(d.log))
  {
  }

  method OpenFiles(disk: Disk, dir: string, hash: Hash, ghost d: Durable)
    returns (manifest: Manifest, wal: Wal, active: MemTable, sstables: seq<SSTableReader>, maxId: nat,
             ghost objects: set<object>)
    requires FilesHold(disk.Now(), d, hash)
    ensures manifest.disk == disk && manifest.files == d.manifest && wal.disk == disk
    ensures active.Valid() && active.Recs() == Replay(Recovered(disk.wal)) && !active.immutable && active.wal == wal
    ensures Serving(sstables, Reopen(dir, d).sstables, d.tables, objects, hash) && maxId == Reopen(dir, d).counter
    ensures fresh(manifest) && fresh(active.Repr) && fresh(objects)
    ensures objects !! active.Repr && manifest !in objects + active.Repr
  {
    hide FilesHold, Serving, MemTable.Valid, Recovered, ManifestFiles, Kept, TableFiles;
    FilesRead(disk.Now(), d, hash);
    manifest := new Manifest(disk);
    sstables, maxId, objects := OpenTables(manifest.files, disk, hash, d.tables);
    wal := new Wal(disk);
    active := new MemTable(wal);
  }
}
