/** The bytes behind the engine's durable state: every durable step on records is one on the files,
    and any image of the files a step leaves behind can be opened again. */
module EngineBytes {
  import opened Records
  import opened Upserts
  import opened Bytes
  import opened BloomFilter
  import opened TableFormat
  import opened SSTableBuilder
  import opened SSTableReader
  import opened LogLine
  import opened LogRoundTrip
  import opened LogRecovery
  import opened TornAppend
  import opened MemTable
  import opened Paths
  import opened Manifest
  import opened Storage
  import opened Merge
  import opened EngineModel
  import opened EngineCompaction

  /** A table file that holds `recs` and that a reader can open. */
  ghost predicate TableFile(file: string, recs: seq<Rec>, hash: Hash) {
    IsTable(file, recs, hash) && Sorted(recs) && AllSmall(recs) && |file| < TWO_64
  }

  ghost predicate TableFiles(files: map<string, string>, tables: map<string, seq<Rec>>, hash: Hash) {
    files.Keys == tables.Keys && forall p :: p in tables ==> TableFile(files[p], tables[p], hash)
  }

  predicate SmallRecord(r: LogEntry) { Small(r.key) && Small(r.value) }

  predicate SmallLog(log: seq<LogEntry>) {
    forall i :: 0 <= i < |log| ==> SmallRecord(log[i])
  }

  lemma SmallUpsert(recs: seq<Rec>, r: Rec)
    requires AllSmall(recs) && Small(r.key) && Small(r.value)
    ensures AllSmall(Upsert(recs, r))
  {
  }

  /** Replaying a log of keys and values that fit a table gives records that do. */
  lemma {:induction false} SmallReplay(log: seq<LogEntry>)
    requires SmallLog(log)
    ensures AllSmall(Replay(log))
  {
    hide AllSmall, Upsert;
    if log == [] {
      assert AllSmall([]) by { NoneSmall(); }
    } else {
      var r := log[|log| - 1];
      assert SmallRecord(r);
      SmallReplay(log[..|log| - 1]);
      if r.operation == PUT {
        SmallUpsert(Replay(log[..|log| - 1]), PutRec(r.key, r.value));
      } else if r.operation == DELETE {
        SmallUpsert(Replay(log[..|log| - 1]), DeleteRec(r.key));
      }
    }
  }

  lemma NoneSmall()
    ensures AllSmall([])
  {
  }

  /** The manifest and the table files hold the durable state; the log file may hold anything. */
  ghost predicate FilesHold(image: Image, d: Durable, hash: Hash) {
    AreLines(d.manifest) && image.manifest == ManifestText(d.manifest) && TableFiles(image.tables, d.tables, hash)
  }

  ghost predicate LogHolds(text: string, log: seq<LogEntry>) {
    AreRecords(log) && SmallLog(log) && text == LogText(log)
  }

  /** The files hold the durable state. */
  ghost predicate Encodes(image: Image, d: Durable, hash: Hash) {
    FilesHold(image, d, hash) && LogHolds(image.wal, d.log)
  }

  lemma LogAppend(text: string, log: seq<LogEntry>, r: LogEntry)
    requires LogHolds(text, log) && IsRecord(r) && SmallRecord(r)
    ensures LogHolds(text + LineOf(r) + "\n", log + [r])
  {
    hide LogText, LineOf, IsRecord, SmallRecord;
    LogTextAppend(log, r);
  }

  lemma EmptyLog()
    ensures LogHolds("", [])
  {
  }

  lemma FilesIgnoreLog(image: Image, d: Durable, hash: Hash, text: string, log: seq<LogEntry>)
    requires FilesHold(image, d, hash)
    ensures FilesHold(image.(wal := text), d.(log := log), hash)
  {
    hide ManifestText, TableFiles;
  }

  lemma FilesTable(image: Image, d: Durable, hash: Hash, path: string, file: string, recs: seq<Rec>)
    requires FilesHold(image, d, hash) && TableFile(file, recs, hash)
    ensures FilesHold(image.(tables := image.tables[path := file]), d.(tables := d.tables[path := recs]), hash)
  {
    hide ManifestText, TableFile;
  }

  lemma FilesRemove(image: Image, d: Durable, hash: Hash, path: string)
    requires FilesHold(image, d, hash)
    ensures FilesHold(image.(tables := image.tables - {path}), d.(tables := d.tables - {path}), hash)
  {
    hide ManifestText, TableFile;
  }

  lemma FilesListed(image: Image, d: Durable, hash: Hash, path: string)
    requires FilesHold(image, d, hash) && IsLine(path)
    ensures FilesHold(image.(manifest := image.manifest + path + "\n"), d.(manifest := d.manifest + [path]), hash)
  {
    hide TableFiles, ManifestText, IsLine;
    ManifestTextAppend(d.manifest, path);
  }

  lemma FilesReplaced(image: Image, d: Durable, hash: Hash, files: seq<string>)
    requires FilesHold(image, d, hash) && AreLines(files)
    ensures FilesHold(image.(manifest := ManifestText(files)), d.(manifest := files), hash)
  {
    hide TableFiles, ManifestText, IsLine;
  }

  lemma FilesRead(image: Image, d: Durable, hash: Hash)
    requires FilesHold(image, d, hash)
    ensures ManifestFiles(image.manifest) == d.manifest && TableFiles(image.tables, d.tables, hash)
  {
    hide TableFiles, ManifestText, ManifestFiles, IsLine;
    ManifestRoundTrip(d.manifest);
  }

  /** What opening reads from the files: the listed paths, and the log up to the first record that
      does not parse. */
  lemma EncodedReads(image: Image, d: Durable, hash: Hash)
    requires Encodes(image, d, hash)
    ensures ManifestFiles(image.manifest) == d.manifest && Recovered(image.wal) == Kept(d.log)
    ensures AllSmall(Replay(Kept(d.log)))
  {
    hide FilesHold, LogText, Recovered, ManifestFiles, Kept, SmallRecord, AllSmall;
    FilesRead(image, d, hash);
    RecoverLog(d.log);
    KeptClean(d.log);
    SmallReplay(Kept(d.log));
  }

  /** Iterating over a table file yields the records it was written for, up to the index offset. */
  lemma TableScan(file: string, recs: seq<Rec>, hash: Hash)
    requires TableFile(file, recs, hash)
    ensures ReadFooter(file).Some? && Scan(file, ReadFooter(file).value.indexOffset, 0) == recs
  {
    hide DataBytes, IndexBytes, TableFormat.IndexOf, FilterBytes, FooterBytes, ReadFooter, ReadFilter, ReadIndex,
         LiesAt, TableBytes, Covers, Sorted, AllSmall, Scan, Filter.WellFormed;
    var filter: Filter :| Covers(filter, hash, recs) && file == TableBytes(recs, filter);
    CoversWell(filter, hash, recs);
    TableOpens(recs, filter);
    ScanAll(recs, file);
  }

  lemma CoversWell(filter: Filter, hash: Hash, recs: seq<Rec>)
    requires Covers(filter, hash, recs)
    ensures filter.WellFormed()
  {
  }

  lemma SameTables(paths: seq<string>, a: map<string, seq<Rec>>, b: map<string, seq<Rec>>)
    requires forall p :: p in paths ==> p in a && p in b && a[p] == b[p]
    ensures Base(a, paths) == Base(b, paths)
  {
    BaseFrame(a, b, paths);
  }

  /** The bytes determine what opening them shows. */
  lemma BytesDetermineView(image: Image, a: Durable, b: Durable, dir: string, hash: Hash)
    requires Encodes(image, a, hash) && Encodes(image, b, hash) && Sound(dir, a) && Sound(dir, b)
    ensures View(Reopen(dir, a)) == View(Reopen(dir, b))
  {
    hide LogHolds, FilesHold, TableFile, Recovered, ManifestFiles, Kept, Replay, NextId, Base, Contents, Live,
         Named, IdsAscend, Sorted, AllSmall;
    EncodedReads(image, a, hash);
    EncodedReads(image, b, hash);
    FilesRead(image, a, hash);
    FilesRead(image, b, hash);
    forall p | p in a.tables ensures p in b.tables && a.tables[p] == b.tables[p] {
      TableScan(image.tables[p], a.tables[p], hash);
      TableScan(image.tables[p], b.tables[p], hash);
    }
    PresentAll(a.manifest, a.tables);
    PresentAll(b.manifest, b.tables);
    SameTables(Reversed(a.manifest), a.tables, b.tables);
  }

  // ---- a crash in the middle of a log append ----

  /** An engine opened when the log file holds `text`: the rest is as the durable state says. */
  function ReopenOn(dir: string, d: Durable, text: string): Engine {
    Reopen(dir, d).(active := Replay(Recovered(text)))
  }

  /** What a replayed record does to a map; one with another operation is passed over. */
  function Shown(view: map<string, string>, r: LogEntry): map<string, string> {
    if r.operation == PUT then view[r.key := r.value] else if r.operation == DELETE then view - {r.key} else view
  }

  function ShownAll(view: map<string, string>, rs: seq<LogEntry>): map<string, string> {
    if rs == [] then view else Shown(ShownAll(view, rs[..|rs| - 1]), rs[|rs| - 1])
  }

  lemma ReplayOneShows(base: map<string, Entry>, recs: seq<Rec>, r: LogEntry)
    requires Sorted(recs)
    ensures Sorted(ReplayOne(recs, r))
    ensures Live(base + Contents(ReplayOne(recs, r))) == Shown(Live(base + Contents(recs)), r)
  {
    hide Contents, Upsert, Live, Sorted;
    if r.operation == PUT {
      UpsertContents(recs, PutRec(r.key, r.value));
      UpsertSorted(recs, PutRec(r.key, r.value));
      LivePut(base, Contents(recs), r.key, r.value);
    } else if r.operation == DELETE {
      UpsertContents(recs, DeleteRec(r.key));
      UpsertSorted(recs, DeleteRec(r.key));
      LiveDelete(base, Contents(recs), r.key);
    }
  }

  lemma {:induction false} ReplayShows(base: map<string, Entry>, log: seq<LogEntry>, rs: seq<LogEntry>)
    ensures Live(base + Contents(Replay(log + rs))) == ShownAll(Live(base + Contents(Replay(log))), rs)
  {
    hide Contents, ReplayOne, Live, Sorted, Shown;
    if rs == [] {
      assert log + rs == log;
    } else {
      var (n, last) := (|rs| - 1, rs[|rs| - 1]);
      assert log + rs == (log + rs[..n]) + [last];
      ReplayShows(base, log, rs[..n]);
      ReplayAppend(log + rs[..n], last);
      ReplaySorted(log + rs[..n]);
      ReplayOneShows(base, Replay(log + rs[..n]), last);
    }
  }

  /** The log of an engine whose log file is not whole records: its replay binds nothing. */
  const UNREADABLE: seq<LogEntry> := [LogEntry(DELETE, "timestamp", "", 0)]

  lemma UnreadableInv(dir: string, d: Durable, text: string)
    requires Sound(dir, d) && d.log == UNREADABLE
    ensures Inv(ReopenOn(dir, d, text))
  {
    hide Sound, IdsBelow, Sorted, Recovered, Contents;
    ReopenSound(dir, d);
    ReplaySorted(Recovered(text));
    NoContents();
    assert !Clean(d.log) by { assert Hazardous(d.log[0].key); }
  }

  lemma ReopenOnView(dir: string, d: Durable, text: string)
    ensures View(ReopenOn(dir, d, text))
            == Live(Base(d.tables, Reopen(dir, d).sstables) + Contents(Replay(Recovered(text))))
  {
    hide Base, Contents, Live;
  }

  /** Opening with any text behind the log: what was durable, changed by whatever replay reads from the
      text; with a hazardous key in the log it is never reached. */
  lemma TailShows(e: Engine, image: Image, hash: Hash, tail: string)
    requires Inv(e) && Encodes(image, e.disk, hash)
    ensures View(ReopenOn(e.dir, e.disk, image.wal + tail)) ==
      if Clean(e.disk.log) then ShownAll(DurableView(e), Recovered(tail)) else DurableView(e)
  {
    hide FilesHold, LogText, Recovered, Sound, Hazardous, View, Base, Contents, Live, IdsBelow, Reopen, Kept,
         SmallRecord;
    var (log, text) := (e.disk.log, image.wal + tail);
    RecoverThen(log, tail);
    ReopenOnView(e.dir, e.disk, text);
    DurableParts(e);
    KeptClean(log);
    if Clean(log) {
      ReplayShows(Base(e.disk.tables, e.sstables), log, Recovered(tail));
    }
  }

  /** A torn append gives what was durable before the write, or, once a timestamp digit is there, that
      with the write; with a hazardous key in the log or its own, it is never read back. */
  lemma TornWrite(e: Engine, image: Image, hash: Hash, r: LogEntry, n: nat)
    requires Inv(e) && Encodes(image, e.disk, hash) && IsRecord(r) && n <= |LineOf(r)|
    ensures View(ReopenOn(e.dir, e.disk, image.wal + LineOf(r)[..n])) ==
      if Clean(e.disk.log) && !Hazardous(r.key) && n > |LineBody(r.operation, r.key, r.value)|
      then ViewAfter(DurableView(e), r) else DurableView(e)
  {
    hide Encodes, LineOf, Recovered, Inv, LineBody, Hazardous, View, Reopen, ReopenOn, Clean, DurableView;
    TailShows(e, image, hash, LineOf(r)[..n]);
    TornLine(r, n);
    assert TornEntry(r, n) != [] ==> TornEntry(r, n)[..0] == [];
  }

  /** Appending behind a torn tail, wherever it was torn, and any records after that: what was durable
      with the record the two lines read as and the later ones, or, when replay stops at the joined
      line, without any of them. */
  lemma JoinedWrite(e: Engine, image: Image, hash: Hash, r: LogEntry, n: nat, next: LogEntry, more: seq<LogEntry>)
    requires Inv(e) && Encodes(image, e.disk, hash) && IsRecord(r) && IsRecord(next) && AreRecords(more)
    requires n <= |LineOf(r)|
    ensures ReadsOn(r, n, next) ==> JoinedEntry(r, n, next).Some?
    ensures View(ReopenOn(e.dir, e.disk, image.wal + (LineOf(r)[..n] + LineOf(next) + "\n" + LogText(more)))) ==
      if Clean(e.disk.log) && ReadsOn(r, n, next)
      then ShownAll(DurableView(e), [JoinedEntry(r, n, next).value] + Kept(more)) else DurableView(e)
  {
    hide Encodes, LineOf, LogText, Recovered, Inv, Hazardous, View, Reopen, ReopenOn, DurableView, JoinedEntry,
         ReadsOn, ShownAll, Kept, IsRecord;
    var tail := LineOf(r)[..n] + LineOf(next) + "\n" + LogText(more);
    TailShows(e, image, hash, tail);
    JoinedAppend([], r, n, next, LogText(more));
    RecoverLog(more);
    NothingLogged(tail);
    assert ShownAll(DurableView(e), []) == DurableView(e) by { NothingShown(DurableView(e)); }
    assert ReadsOn(r, n, next) ==>
      [] + ([JoinedEntry(r, n, next).value] + Kept(more)) == [JoinedEntry(r, n, next).value] + Kept(more);
  }

  lemma NothingLogged(text: string)
    ensures AreRecords([]) && Clean([]) && LogText([]) + text == text
  {
  }

  lemma NothingShown(view: map<string, string>)
    ensures ShownAll(view, []) == view
  {
  }

  /** What surviving means: the record that is read does to every map what the appended one does. */
  lemma SameEffectIff(read: LogEntry, r: LogEntry)
    requires IsRecord(r)
    ensures SameEffect(read, r) <==> forall view :: Shown(view, read) == ViewAfter(view, r)
  {
    if forall view :: Shown(view, read) == ViewAfter(view, r) {
      var (none, one) := (map[], map[r.key := ""]);
      assert Shown(none, read) == ViewAfter(none, r) && Shown(one, read) == ViewAfter(one, r);
      if r.operation == PUT {
        assert ViewAfter(none, r) == map[r.key := r.value] && r.key in Shown(none, read);
      } else {
        assert r.key !in Shown(one, read) && read.operation != PUT;
      }
    }
  }

  // ---- the images a flush and a compaction leave behind ----

  /** The images of a flush, when the log file held `text` before it. */
  ghost predicate FlushTrace(images: seq<Image>, e: Engine, hash: Hash, text: string) {
    && |images| == 3
    && forall i :: 0 <= i < 3 ==>
        FilesHold(images[i], FlushState(e, i + 1), hash) && images[i].wal == if i < 2 then text else ""
  }

  ghost predicate CompactTrace(images: seq<Image>, e: Engine, out: seq<Rec>, hash: Hash, text: string) {
    && |images| == 2 + |e.sstables|
    && forall i :: 0 <= i < |images| ==>
        FilesHold(images[i], CompactState(e, out, i + 1), hash) && images[i].wal == text
  }

  lemma FlushLog(e: Engine, n: nat)
    ensures FlushState(e, n).log == if n < 3 then e.disk.log else []
  {
  }

  /** The records of a merge come from its inputs. */
  lemma MergeSmall(e: Engine, out: seq<Rec>)
    requires CanCompact(e, out) && forall p :: p in e.sstables ==> AllSmall(TableOf(e.disk.tables, p))
    ensures AllSmall(out)
  {
    hide Contents, Sorted, Small, Inputs;
    forall i | 0 <= i < |out| ensures Small(out[i].key) && Small(out[i].value) {
      var k := out[i].key;
      RecordBound(out, i);
      assert MergedAt(EngineInputs(e), true, k, Find(Contents(out), k));
      var j :| Wins(EngineInputs(e), j, k) && Find(Contents(out), k) == Emitted(Held(EngineInputs(e), j, k), true);
      WinnerSmall(e, j, k);
    }
  }

  lemma WinnerSmall(e: Engine, j: int, k: string)
    requires Wins(EngineInputs(e), j, k) && forall p :: p in e.sstables ==> AllSmall(TableOf(e.disk.tables, p))
    ensures Small(k) && Small(Held(EngineInputs(e), j, k).value)
  {
    hide Contents, Sorted;
    assert Holds(EngineInputs(e), j, k);
    HoldsTable(e, j, k);
    var recs := TableOf(e.disk.tables, e.sstables[j]);
    var i := KeyHasRecord(recs, k);
  }

  /** The files open to the view. */
  ghost predicate Recovers(image: Image, dir: string, hash: Hash, view: map<string, string>) {
    exists d :: Encodes(image, d, hash) && Sound(dir, d) && View(Reopen(dir, d)) == view
  }

  /** Files that open to a view stand for some durable state, and opening them shows that view whatever
      state they are taken for. */
  lemma RecoversMeans(image: Image, dir: string, hash: Hash, view: map<string, string>)
    requires Recovers(image, dir, hash, view)
    ensures exists d :: Encodes(image, d, hash) && Sound(dir, d)
    ensures forall d :: Encodes(image, d, hash) && Sound(dir, d) ==> View(Reopen(dir, d)) == view
  {
    hide Encodes, Sound, View, Reopen;
    var a :| Encodes(image, a, hash) && Sound(dir, a) && View(Reopen(dir, a)) == view;
    forall d | Encodes(image, d, hash) && Sound(dir, d) ensures View(Reopen(dir, d)) == view {
      BytesDetermineView(image, a, d, dir, hash);
    }
  }

  /** Image `i` opens to what is left after stopping behind durable step `from + i` of a flush, which
      from its third step on is the view; unless the compaction after the flush is safe, this covers
      the images up to the merged table, which no manifest lists yet. */
  ghost predicate FlushOpens(images: seq<Image>, e: Engine, hash: Hash, from: nat, safe: bool) {
    forall i :: 0 <= i < |images| && (from + i < 5 || safe) ==>
      Recovers(images[i], e.dir, hash, FlushStopView(e, from + i))
  }

  /** Every image opens to what was durable before; unless a compaction is safe, this covers the merged
      table, which no manifest lists yet. */
  ghost predicate CompactOpens(images: seq<Image>, e: Engine, hash: Hash, safe: bool) {
    forall i :: 0 <= i < |images| && (i == 0 || safe) ==> Recovers(images[i], e.dir, hash, DurableView(e))
  }

  lemma StateRecovers(image: Image, d: Durable, dir: string, hash: Hash, view: map<string, string>)
    requires Encodes(image, d, hash) && Sound(dir, d) && View(Reopen(dir, d)) == view
    ensures Recovers(image, dir, hash, view)
  {
  }

  lemma FlushTraceRecovers(images: seq<Image>, e: Engine, hash: Hash, text: string)
    requires Inv(e) && e.counter < TWO_64 && FlushTrace(images, e, hash, text) && LogHolds(text, e.disk.log)
    ensures |images| == 3 && FlushOpens(images, e, hash, 1, false)
  {
    hide Inv, FilesHold, LogHolds, FlushState, View, Reopen, Sound, FlushStopView, Recovers;
    EmptyLog();
    forall i | 0 <= i < |images| ensures Recovers(images[i], e.dir, hash, FlushStopView(e, 1 + i)) {
      FlushLog(e, i + 1);
      FlushSound(e, i + 1);
      FlushStopOpens(e, i + 1);
      StateRecovers(images[i], FlushState(e, i + 1), e.dir, hash, FlushStopView(e, 1 + i));
    }
  }

  lemma CompactTraceRecovers(images: seq<Image>, e: Engine, out: seq<Rec>, hash: Hash, text: string)
    requires Inv(e) && CanCompact(e, out) && CompactTrace(images, e, out, hash, text) && LogHolds(text, e.disk.log)
    ensures CompactOpens(images, e, hash, !DurableClash(e))
  {
    hide Inv, FilesHold, LogHolds, CompactState, View, Reopen, Sound, CanCompact, DurableClash, DurableView, Recovers;
    forall i | 0 <= i < |images| && (i == 0 || !DurableClash(e))
      ensures Recovers(images[i], e.dir, hash, DurableView(e))
    {
      CompactLog(e, out, i + 1);
      CompactSound(e, out, i + 1);
      CompactCrashSafe(e, out, i + 1);
      StateRecovers(images[i], CompactState(e, out, i + 1), e.dir, hash, DurableView(e));
    }
  }

  /** Without a hazardous key in the log every stop of a flush shows the view. */
  lemma CleanStopView(e: Engine, n: nat)
    requires Inv(e) && Clean(e.disk.log)
    ensures FlushStopView(e, n) == View(e) == DurableView(e)
  {
    hide Inv, Clean, View, DurableView, LogIsFresh, Overlay, KeptMap, Reopen, DurablyShown;
    ReopenKeepsIff(e);
    CleanIsFresh(e);
    FreshIff(e);
  }

  lemma CleanFlushRecovers(images: seq<Image>, e: Engine, hash: Hash, from: nat, safe: bool)
    requires Inv(e) && Clean(e.disk.log) && safe && FlushOpens(images, e, hash, from, safe)
    ensures forall i :: 0 <= i < |images| ==> Recovers(images[i], e.dir, hash, View(e))
  {
    hide Inv, Clean, View, Recovers, FlushStopView;
    forall i | 0 <= i < |images| ensures Recovers(images[i], e.dir, hash, View(e)) {
      CleanStopView(e, from + i);
    }
  }

  lemma CleanCompactRecovers(images: seq<Image>, e: Engine, hash: Hash, safe: bool)
    requires Inv(e) && Clean(e.disk.log) && safe && CompactOpens(images, e, hash, safe)
    ensures forall i :: 0 <= i < |images| ==> Recovers(images[i], e.dir, hash, View(e))
  {
    hide Inv, Clean, View, Recovers, DurableView, FlushStopView;
    CleanStopView(e, 0);
  }
}
