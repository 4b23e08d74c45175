/** The storage engine on records: what is durable, what each operation does to it step by step,
    and what is rebuilt on opening (src/core/engine.cpp). */
module EngineModel {
  import opened Keys
  import opened Records
  import opened Upserts
  import opened Bytes
  import opened LogLine
  import opened LogRoundTrip
  import opened LogRecovery
  import opened MemTable
  import opened Paths

  /** Log records, manifest paths oldest first, and the records of every table file. */
  datatype Durable = Durable(log: seq<LogEntry>, manifest: seq<string>, tables: map<string, seq<Rec>>)

  /** A running engine: `sstables` are the paths of its open tables, newest first. */
  datatype Engine = Engine(dir: string, disk: Durable, active: seq<Rec>, sstables: seq<string>, counter: nat)

  function Reversed<T>(s: seq<T>): (r: seq<T>)
    ensures |r| == |s| && forall i :: 0 <= i < |s| ==> r[i] == s[|s| - 1 - i]
  {
    seq(|s|, i requires 0 <= i < |s| => s[|s| - 1 - i])
  }

  function TableOf(tables: map<string, seq<Rec>>, path: string): seq<Rec> {
    if path in tables then tables[path] else []
  }

  function TableMaps(tables: map<string, seq<Rec>>, paths: seq<string>): (ms: seq<map<string, Entry>>)
    ensures |ms| == |paths| && forall i :: 0 <= i < |ms| ==> ms[i] == Contents(TableOf(tables, paths[i]))
  {
    seq(|paths|, i requires 0 <= i < |paths| => Contents(TableOf(tables, paths[i])))
  }

  /** What the tables stand for together. */
  function Base(tables: map<string, seq<Rec>>, paths: seq<string>): map<string, Entry> {
    Layered(TableMaps(tables, paths))
  }

  /** The memtable over the tables. */
  function Content(e: Engine): map<string, Entry> {
    Base(e.disk.tables, e.sstables) + Contents(e.active)
  }

  /** What clients see: the value of every key that is found and not deleted. */
  function View(e: Engine): map<string, string> {
    Live(Content(e))
  }

  function Lookup(view: map<string, string>, key: string): Option<string> {
    if key in view then Some(view[key]) else None
  }

  // ---- opening ----

  function Present(files: seq<string>, tables: map<string, seq<Rec>>): seq<string> {
    if files == [] then []
    else (if files[0] in tables then [files[0]] else []) + Present(files[1..], tables)
  }

  /** The id counter after the listed tables are opened in order. */
  function NextId(paths: seq<string>): nat {
    if paths == [] then 0
    else
      var m, id := NextId(paths[..|paths| - 1]), ExtractFileId(paths[|paths| - 1]);
      if id >= m then id + 1 else m
  }

  /** The constructor: listed tables that exist are opened, the counter passes their ids, and the
      log is replayed up to the first record that does not parse. */
  function Reopen(dir: string, disk: Durable): Engine {
    var paths := Present(disk.manifest, disk.tables);
    Engine(dir, disk, Replay(Kept(disk.log)), Reversed(paths), NextId(paths))
  }

  lemma ReopenDisk(dir: string, disk: Durable)
    ensures Reopen(dir, disk).disk == disk && Reopen(dir, disk).dir == dir
  {
  }

  // ---- what holds in every reachable state ----

  /** A path the engine made in this directory. */
  predicate Named(dir: string, path: string) {
    var id := ExtractFileId(path);
    id < TWO_64 && (path == DataPath(dir, id) || (path == MergedPath(dir, id) && id > 0))
  }

  predicate IdsAscend(paths: seq<string>) {
    forall i, j :: 0 <= i < j < |paths| ==> ExtractFileId(paths[i]) < ExtractFileId(paths[j])
  }

  /** The durable part: a log of records, and a manifest of existing ascending tables with ascending
      ids, of which only the oldest can be a compacted one. */
  predicate Sound(dir: string, disk: Durable) {
    && AreRecords(disk.log)
    && IdsAscend(disk.manifest)
    && (forall i :: 0 < i < |disk.manifest| ==> disk.manifest[i] == DataPath(dir, ExtractFileId(disk.manifest[i])))
    && forall p :: p in disk.manifest ==> p in disk.tables && Sorted(disk.tables[p]) && Named(dir, p)
  }

  /** What a replay of the log binds: it stops at the first hazardous key. */
  function KeptMap(log: seq<LogEntry>): map<string, Entry> {
    Contents(Replay(Kept(log)))
  }

  predicate IdsBelow(paths: seq<string>, counter: nat) {
    forall p :: p in paths ==> ExtractFileId(p) < counter
  }

  /** Where the log has no hazardous key the memtable is its replay; in any case it binds every key
      that a replay would bind. */
  predicate Inv(e: Engine) {
    && Sound(e.dir, e.disk) && Sorted(e.active)
    && (Clean(e.disk.log) ==> e.active == Replay(e.disk.log))
    && (forall k :: k in KeptMap(e.disk.log) ==> k in Contents(e.active))
    && e.sstables == Reversed(e.disk.manifest)
    && IdsBelow(e.disk.manifest, e.counter)
  }

  lemma SoundOf(e: Engine)
    requires Inv(e)
    ensures Sound(e.dir, e.disk)
  {
  }

  lemma {:induction false} PresentAll(files: seq<string>, tables: map<string, seq<Rec>>)
    requires forall p :: p in files ==> p in tables
    ensures Present(files, tables) == files
  {
    if files != [] {
      PresentAll(files[1..], tables);
    }
  }

  lemma {:induction false} NextIdAbove(paths: seq<string>)
    ensures IdsBelow(paths, NextId(paths))
  {
    hide ExtractFileId;
    if paths != [] {
      var (t, last) := (paths[..|paths| - 1], paths[|paths| - 1]);
      NextIdAbove(t);
      forall p | p in paths ensures ExtractFileId(p) < NextId(paths) {
        var i :| 0 <= i < |paths| && paths[i] == p;
        if i < |t| { assert p == t[i]; }
      }
    }
  }

  /** The counter is the smallest number above every id: 0 without tables, else one past the id of one. */
  lemma {:induction false} NextIdLeast(paths: seq<string>)
    ensures forall p :: p in paths ==> ExtractFileId(p) < NextId(paths)
    ensures NextId(paths) == 0 || exists p :: p in paths && NextId(paths) == ExtractFileId(p) + 1
  {
    hide ExtractFileId;
    NextIdAbove(paths);
    if paths != [] {
      var (t, last) := (paths[..|paths| - 1], paths[|paths| - 1]);
      NextIdLeast(t);
      assert forall p :: p in t ==> p in paths;
      assert last in paths;
    }
  }

  /** The listed files that exist, in their order. */
  lemma {:induction false} PresentAppend(files: seq<string>, path: string, tables: map<string, seq<Rec>>)
    ensures Present([], tables) == []
    ensures Present(files + [path], tables) ==
      if path in tables then Present(files, tables) + [path] else Present(files, tables)
  {
    if files == [] {
      assert files + [path] == [path] && [path][1..] == [];
    } else {
      var (head, rest) := (if files[0] in tables then [files[0]] else [], Present(files[1..], tables));
      assert (files + [path])[1..] == files[1..] + [path];
      PresentAppend(files[1..], path, tables);
      assert head + (rest + [path]) == (head + rest) + [path];
    }
  }

  lemma NextIdAppend(paths: seq<string>, path: string)
    ensures NextId(paths + [path]) ==
      if ExtractFileId(path) >= NextId(paths) then ExtractFileId(path) + 1 else NextId(paths)
  {
    hide ExtractFileId;
    assert (paths + [path])[..|paths|] == paths;
  }

  /** Opening a sound disk gives an engine that satisfies the invariant, whatever its log holds. */
  lemma ReopenSound(dir: string, disk: Durable)
    requires Sound(dir, disk)
    ensures Inv(Reopen(dir, disk)) && Reopen(dir, disk).sstables == Reversed(disk.manifest)
    ensures View(Reopen(dir, disk)) == Live(Base(disk.tables, Reversed(disk.manifest)) + KeptMap(disk.log))
  {
    hide ExtractFileId, Hazardous, IsRecord, Named, Contents, Base, Live, Less;
    PresentAll(disk.manifest, disk.tables);
    NextIdAbove(disk.manifest);
    KeptClean(disk.log);
    ReplaySorted(Kept(disk.log));
  }

  // ---- what is durable ----

  /** What clients would see after stopping now and opening again. */
  function DurableView(e: Engine): map<string, string> {
    View(Reopen(e.dir, e.disk))
  }

  /** The view with some keys rebound. */
  function Overlay(view: map<string, string>, over: map<string, Entry>): map<string, string> {
    (view - over.Keys) + Live(over)
  }

  lemma OverlayIs(m: map<string, Entry>, over: map<string, Entry>)
    ensures Live(m + over) == Overlay(Live(m), over)
  {
  }

  function LiveValue(e: Entry): Option<string> {
    if e.deleted then None else Some(e.value)
  }

  /** What clients see of a key. */
  function LiveAt(m: map<string, Entry>, k: string): Option<string> {
    if k in m then LiveValue(m[k]) else None
  }

  lemma SameLiveAt(m: map<string, Entry>, n: map<string, Entry>)
    requires forall k :: LiveAt(m, k) == LiveAt(n, k)
    ensures Live(m) == Live(n)
  {
    forall k ensures k in Live(m) <==> k in Live(n) {
      assert LiveAt(m, k) == LiveAt(n, k);
    }
    forall k | k in Live(m) ensures Live(m)[k] == Live(n)[k] {
      assert LiveAt(m, k) == LiveAt(n, k);
    }
  }

  lemma LiveIsLiveAt(m: map<string, Entry>, k: string)
    ensures LiveAt(m, k) == if k in Live(m) then Some(Live(m)[k]) else None
  {
  }

  /** Two sets of bindings over one base show the same exactly when they do at every key of either. */
  lemma SameOver(base: map<string, Entry>, a: map<string, Entry>, b: map<string, Entry>)
    ensures Live(base + a) == Live(base + b)
            <==> forall k :: k in a || k in b ==> LiveAt(base + a, k) == LiveAt(base + b, k)
  {
    if Live(base + a) == Live(base + b) {
      forall k ensures LiveAt(base + a, k) == LiveAt(base + b, k) {
        LiveIsLiveAt(base + a, k);
        LiveIsLiveAt(base + b, k);
      }
    }
    if forall k :: k in a || k in b ==> LiveAt(base + a, k) == LiveAt(base + b, k) {
      forall k ensures LiveAt(base + a, k) == LiveAt(base + b, k) {
      }
      SameLiveAt(base + a, base + b);
    }
  }

  /** Every record of the memtable shows what `kept` would show over the tables. */
  predicate ShownBy(e: Engine, kept: map<string, Entry>) {
    forall k :: k in Contents(e.active) ==>
      LiveAt(Content(e), k) == LiveAt(Base(e.disk.tables, e.sstables) + kept, k)
  }

  /** Every record of the memtable shows what the replayed log would show. */
  predicate DurablyShown(e: Engine) {
    ShownBy(e, KeptMap(e.disk.log))
  }

  lemma DurableParts(e: Engine)
    requires Inv(e)
    ensures Inv(Reopen(e.dir, e.disk)) && Reopen(e.dir, e.disk).sstables == e.sstables
    ensures DurableView(e) == Live(Base(e.disk.tables, e.sstables) + KeptMap(e.disk.log))
  {
    hide Sound, Base, Live, IdsBelow, Reopen;
    ReopenSound(e.dir, e.disk);
  }

  /** Stopping and opening again loses nothing exactly when every record of the memtable shows what
      the replayed log would show; with no hazardous key in the log that is so. */
  lemma ReopenKeepsIff(e: Engine)
    requires Inv(e)
    ensures Inv(Reopen(e.dir, e.disk))
    ensures DurableView(e) == View(e) <==> DurablyShown(e)
    ensures Clean(e.disk.log) ==> DurablyShown(e) && Reopen(e.dir, e.disk).active == e.active
  {
    hide Sound, Base, Live, IdsBelow, View, LiveAt, DurableView, Hazardous;
    DurableParts(e);
    KeptClean(e.disk.log);
    SameOver(Base(e.disk.tables, e.sstables), Contents(e.active), KeptMap(e.disk.log));
    assert View(e) == Live(Base(e.disk.tables, e.sstables) + Contents(e.active)) by { ViewParts(e); }
  }

  lemma ViewParts(e: Engine)
    ensures View(e) == Live(Base(e.disk.tables, e.sstables) + Contents(e.active))
  {
  }

  // ---- writes ----

  function WriteStep(e: Engine, r: LogEntry): Engine {
    e.(disk := e.disk.(log := e.disk.log + [r]), active := ReplayOne(e.active, r))
  }

  lemma LivePut(base: map<string, Entry>, m: map<string, Entry>, k: string, v: string)
    ensures Live(base + m[k := Entry(v, false)]) == Live(base + m)[k := v]
  {
  }

  lemma LiveDelete(base: map<string, Entry>, m: map<string, Entry>, k: string)
    ensures Live(base + m[k := TOMBSTONE]) == Live(base + m) - {k}
  {
  }

  function ViewAfter(view: map<string, string>, r: LogEntry): map<string, string> {
    if r.operation == PUT then view[r.key := r.value] else view - {r.key}
  }

  lemma ReplayAppend(log: seq<LogEntry>, r: LogEntry)
    ensures Replay(log + [r]) == ReplayOne(Replay(log), r)
  {
    assert (log + [r])[..|log|] == log;
  }

  lemma WriteKeeps(e: Engine, r: LogEntry)
    requires Inv(e) && IsRecord(r)
    ensures Inv(WriteStep(e, r)) && View(WriteStep(e, r)) == ViewAfter(View(e), r)
  {
    hide Hazardous, Sorted, Named, ExtractFileId, Contents, Base, Upsert, Live, Kept;
    var base := Base(e.disk.tables, e.sstables);
    ReplayAppend(e.disk.log, r);
    CleanAppend(e.disk.log, r);
    if r.operation == PUT {
      UpsertContents(e.active, PutRec(r.key, r.value));
      LivePut(base, Contents(e.active), r.key, r.value);
    } else {
      UpsertContents(e.active, DeleteRec(r.key));
      LiveDelete(base, Contents(e.active), r.key);
    }
    KeptMapAppend(e.disk.log, r);
  }

  lemma CleanAppend(log: seq<LogEntry>, r: LogEntry)
    ensures Clean(log + [r]) <==> Clean(log) && !Hazardous(r.key)
  {
    hide Hazardous;
    assert (log + [r])[|log|] == r && forall i :: 0 <= i < |log| ==> (log + [r])[i] == log[i];
  }

  /** A replay reaches a new record exactly when no hazardous key comes before it or is its own. */
  lemma {:induction false} KeptAppend(log: seq<LogEntry>, r: LogEntry)
    ensures Kept(log + [r]) == if Clean(log) && !Hazardous(r.key) then log + [r] else Kept(log)
  {
    hide Hazardous;
    if log == [] {
      assert log + [r] == [r] && [r][1..] == [];
    } else {
      assert (log + [r])[1..] == log[1..] + [r];
      KeptAppend(log[1..], r);
      CleanCons(log);
      assert log == [log[0]] + log[1..];
    }
  }

  function EntryOf(r: LogEntry): Entry {
    if r.operation == PUT then Entry(r.value, false) else TOMBSTONE
  }

  lemma KeptMapAppend(log: seq<LogEntry>, r: LogEntry)
    requires IsRecord(r)
    ensures KeptMap(log + [r]) ==
      if Clean(log) && !Hazardous(r.key) then KeptMap(log)[r.key := EntryOf(r)] else KeptMap(log)
  {
    hide Hazardous, Contents, Upsert, Kept;
    KeptAppend(log, r);
    if Clean(log) && !Hazardous(r.key) {
      KeptClean(log);
      ReplayAppend(log, r);
      ReplaySorted(log);
      UpsertContents(Replay(log), if r.operation == PUT then PutRec(r.key, r.value) else DeleteRec(r.key));
    }
  }

  // ---- tables ----

  lemma BaseFrame(tables: map<string, seq<Rec>>, next: map<string, seq<Rec>>, paths: seq<string>)
    requires forall p :: p in paths ==> TableOf(next, p) == TableOf(tables, p)
    ensures Base(next, paths) == Base(tables, paths)
  {
    assert TableMaps(next, paths) == TableMaps(tables, paths);
  }

  lemma BaseFirst(tables: map<string, seq<Rec>>, path: string, paths: seq<string>)
    ensures Base(tables, [path] + paths) == Base(tables, paths) + Contents(TableOf(tables, path))
  {
    var ms := TableMaps(tables, [path] + paths);
    assert ms[1..] == TableMaps(tables, paths);
  }

  lemma ReversedAppend(s: seq<string>, x: string)
    ensures Reversed(s + [x]) == [x] + Reversed(s)
  {
  }

  lemma NewPaths(e: Engine)
    requires Inv(e) && e.counter < TWO_64
    ensures DataPath(e.dir, e.counter) !in e.disk.manifest && MergedPath(e.dir, e.counter) !in e.disk.manifest
    ensures ExtractFileId(DataPath(e.dir, e.counter)) == e.counter == ExtractFileId(MergedPath(e.dir, e.counter))
    ensures Named(e.dir, DataPath(e.dir, e.counter)) && (e.counter > 0 ==> Named(e.dir, MergedPath(e.dir, e.counter)))
  {
    hide ExtractFileId, DataPath, MergedPath;
    PathIds(e.dir, e.counter);
  }

  // ---- flush: write the table, list it, truncate the log ----

  /** The durable state after the first `n` steps of a flush. */
  function FlushState(e: Engine, n: nat): Durable {
    var path := DataPath(e.dir, e.counter);
    var tables := e.disk.tables[path := e.active];
    if n == 0 then e.disk
    else if n == 1 then e.disk.(tables := tables)
    else if n == 2 then e.disk.(tables := tables, manifest := e.disk.manifest + [path])
    else Durable([], e.disk.manifest + [path], tables)
  }

  function FlushStep(e: Engine): Engine {
    if e.active == [] then e
    else Engine(e.dir, FlushState(e, 3), [], [DataPath(e.dir, e.counter)] + e.sstables, e.counter + 1)
  }

  lemma AppendedAscend(paths: seq<string>, path: string)
    requires IdsAscend(paths) && IdsBelow(paths, ExtractFileId(path))
    ensures IdsAscend(paths + [path])
  {
    hide ExtractFileId;
  }

  lemma FlushSound(e: Engine, n: nat)
    requires Inv(e) && e.counter < TWO_64
    ensures Sound(e.dir, FlushState(e, n))
  {
    hide ExtractFileId, Hazardous, IsRecord, Sorted, Named, DataPath, MergedPath, KeptMap, Contents;
    NewPaths(e);
    AppendedAscend(e.disk.manifest, DataPath(e.dir, e.counter));
  }

  lemma UnionTwice(a: map<string, Entry>, b: map<string, Entry>)
    ensures (a + b) + b == a + b && (a + b) + map[] == a + b
  {
  }

  /** What opening shows after stopping behind the first `n` durable steps of a flush. Once the new
      table is listed, the stale log is replayed over it. */
  function FlushStopView(e: Engine, n: nat): map<string, string> {
    if n < 2 then DurableView(e) else if n == 2 then Overlay(View(e), KeptMap(e.disk.log)) else View(e)
  }

  lemma FlushStopOpens(e: Engine, n: nat)
    requires Inv(e) && e.counter < TWO_64
    ensures Inv(Reopen(e.dir, FlushState(e, n))) && View(Reopen(e.dir, FlushState(e, n))) == FlushStopView(e, n)
  {
    hide ExtractFileId, Hazardous, IsRecord, Sorted, Named, DataPath, MergedPath, Contents, Base, Live, Sound,
         IdsBelow, KeptMap, Overlay, Reopen;
    var (d, path, tables) := (FlushState(e, n), DataPath(e.dir, e.counter), e.disk.tables);
    var (base, mem) := (Base(tables, e.sstables), Contents(e.active));
    FlushSound(e, n);
    ReopenSound(e.dir, d);
    DurableParts(e);
    ViewParts(e);
    NewPaths(e);
    BaseFrame(tables, tables[path := e.active], e.sstables);
    if n >= 2 {
      ReversedAppend(e.disk.manifest, path);
      BaseFirst(d.tables, path, e.sstables);
      UnionTwice(base, mem);
      OverlayIs(base + mem, KeptMap(d.log));
      NoContents();
    }
  }

  lemma NoContents()
    ensures Contents([]) == map[] && Replay([]) == [] && KeptMap([]) == map[]
  {
  }

  /** Every key the stale log would rebind shows what the memtable shows. */
  predicate LogIsFresh(e: Engine) {
    Agree(KeptMap(e.disk.log), Contents(e.active))
  }

  predicate Agree(a: map<string, Entry>, b: map<string, Entry>) {
    forall k :: k in a && k in b ==> LiveValue(a[k]) == LiveValue(b[k])
  }

  /** Stopping behind the first `n` durable steps of a flush loses nothing: until the table is listed,
      the log must show what the memtable shows; while the log is stale, it must not rebind a key that
      was written again behind a hazardous one. */
  predicate FlushStopSafe(e: Engine, n: nat) {
    if n < 2 then DurablyShown(e) else n == 2 ==> LogIsFresh(e)
  }

  /** Stopping after any step of a flush and opening again gives the view before the flush under
      exactly this condition, which holds when the log has no hazardous key. */
  lemma FlushCrashSafe(e: Engine, n: nat)
    requires Inv(e) && e.counter < TWO_64
    ensures Inv(Reopen(e.dir, FlushState(e, n)))
    ensures View(Reopen(e.dir, FlushState(e, n))) == View(e) <==> FlushStopSafe(e, n)
    ensures Clean(e.disk.log) ==> FlushStopSafe(e, n)
  {
    hide Sound, IdsBelow, Reopen, View, Hazardous, Base, DurablyShown, LogIsFresh, FlushState, DurableView, Sorted;
    FlushStopOpens(e, n);
    ReopenKeepsIff(e);
    if n == 2 {
      FreshIff(e);
    }
    if Clean(e.disk.log) {
      CleanIsFresh(e);
    }
  }

  lemma CleanIsFresh(e: Engine)
    requires Inv(e) && Clean(e.disk.log)
    ensures LogIsFresh(e)
  {
    hide Sound, IdsBelow, Hazardous, Contents, Sorted;
    KeptClean(e.disk.log);
  }

  lemma FreshIff(e: Engine)
    requires Inv(e)
    ensures Overlay(View(e), KeptMap(e.disk.log)) == View(e) <==> LogIsFresh(e)
  {
    hide Sound, IdsBelow, Contents, Base, Live, Sorted, Overlay, KeptMap;
    var (base, mem, kept) := (Base(e.disk.tables, e.sstables), Contents(e.active), KeptMap(e.disk.log));
    OverlayIs(base + mem, kept);
    ViewParts(e);
    ReboundSame(base, mem, kept);
  }

  lemma ReboundSame(base: map<string, Entry>, mem: map<string, Entry>, kept: map<string, Entry>)
    requires forall k :: k in kept ==> k in mem
    ensures Live((base + mem) + kept) == Live(base + mem) <==> Agree(kept, mem)
  {
    hide Live;
    if Live((base + mem) + kept) == Live(base + mem) {
      forall k | k in kept && k in mem ensures LiveValue(kept[k]) == LiveValue(mem[k]) {
        LiveIsLiveAt((base + mem) + kept, k);
        LiveIsLiveAt(base + mem, k);
      }
    }
    if Agree(kept, mem) {
      SameLiveAt((base + mem) + kept, base + mem);
    }
  }

  lemma FlushKeeps(e: Engine)
    requires Inv(e) && e.counter < TWO_64
    ensures Inv(FlushStep(e)) && View(FlushStep(e)) == View(e)
  {
    hide ExtractFileId, Hazardous, IsRecord, Named, DataPath, MergedPath, Contents, Base, Live, Sound;
    var (path, tables) := (DataPath(e.dir, e.counter), e.disk.tables);
    FlushSound(e, 3);
    NewPaths(e);
    BaseFrame(tables, tables[path := e.active], e.sstables);
    ReversedAppend(e.disk.manifest, path);
    BaseFirst(tables[path := e.active], path, e.sstables);
    UnionTwice(Base(tables, e.sstables), Contents(e.active));
    NoContents();
  }

  /** After a flush stopping loses nothing, whatever the keys. */
  lemma FlushedSurvives(e: Engine)
    requires Inv(e) && e.counter < TWO_64
    ensures DurableView(FlushStep(e)) == View(e) && (e.active != [] ==> Clean(FlushStep(e).disk.log))
  {
    hide View, Sound, IdsBelow, Reversed, DataPath, Base, LiveAt, DurableView, Reopen, Hazardous;
    var f := FlushStep(e);
    FlushKeeps(e);
    ReopenKeepsIff(f);
    assert f.active == [] && Contents(f.active) == map[];
  }
}
