/** Whole runs of the engine: any sequence of writes, flushes, compactions, stops, and stops in the
    middle of a flush or a compaction behaves like two plain maps, one that clients see and one that
    would come back after a stop. */
module EngineRuns {
  import opened Records
  import opened Upserts
  import opened Bytes
  import opened Decimal
  import opened LogLine
  import opened LogRoundTrip
  import opened LogRecovery
  import opened MemTable
  import opened Paths
  import opened Merge
  import opened EngineModel
  import opened EngineCompaction

  datatype Step =
    | Write(r: LogEntry)
    | Flush
    | Compact(out: seq<Rec>)
    | UseId                                   // a compaction request that finds no table
    | Stop                                    // stopped between operations, and opened again
    | StopInFlush(n: nat)                     // stopped after `n` durable steps of a flush, and opened again
    | StopInCompaction(out: seq<Rec>, n: nat) // the same for a compaction

  ghost predicate Allowed(e: Engine, s: Step) {
    match s
    case Write(r) => IsRecord(r)
    case Flush => e.counter < TWO_64
    case Compact(out) => CanCompact(e, out)
    case UseId => e.sstables == []
    case Stop => true
    case StopInFlush(_) => e.counter < TWO_64
    case StopInCompaction(out, _) => CanCompact(e, out)
  }

  function Next(e: Engine, s: Step): Engine {
    match s
    case Write(r) => WriteStep(e, r)
    case Flush => FlushStep(e)
    case Compact(out) => CompactStep(e, out)
    case UseId => e.(counter := e.counter + 1)
    case Stop => Reopen(e.dir, e.disk)
    case StopInFlush(n) => Reopen(e.dir, if e.active == [] then e.disk else FlushState(e, n))
    case StopInCompaction(out, n) => Reopen(e.dir, CompactState(e, out, n))
  }

  ghost predicate IsRun(e: Engine, steps: seq<Step>)
    decreases |steps|
  {
    steps == [] || (Allowed(e, steps[0]) && IsRun(Next(e, steps[0]), steps[1..]))
  }

  function AfterRun(e: Engine, steps: seq<Step>): Engine
    decreases |steps|
  {
    if steps == [] then e else AfterRun(Next(e, steps[0]), steps[1..])
  }

  // ---- the maps ----

  /** What clients see, what a stop would leave, what the replayed log binds, whether the log is free
      of hazardous keys, and whether the memtable holds anything. */
  datatype Maps = Maps(live: map<string, string>, durable: map<string, string>, kept: map<string, Entry>,
                       clean: bool, pending: bool)

  const NOTHING := Maps(map[], map[], map[], true, false)

  function Seen(e: Engine): Maps {
    Maps(View(e), DurableView(e), KeptMap(e.disk.log), Clean(e.disk.log), e.active != [])
  }

  /** A write is durable as long as no hazardous key is in the log, its own included. */
  function Written(m: Maps, r: LogEntry): Maps {
    var durably := m.clean && !Hazardous(r.key);
    Maps(ViewAfter(m.live, r), if durably then ViewAfter(m.durable, r) else m.durable,
         if durably then m.kept[r.key := EntryOf(r)] else m.kept, durably, true)
  }

  /** A flush makes everything durable and truncates the log. */
  function Flushed(m: Maps): Maps {
    Maps(m.live, m.live, map[], true, false)
  }

  function Stopped(m: Maps, view: map<string, string>): Maps {
    Maps(view, view, m.kept, m.clean, m.kept != map[])
  }

  function MapsNext(m: Maps, s: Step): Maps {
    match s
    case Write(r) => Written(m, r)
    case Flush => if m.pending then Flushed(m) else m
    case Compact(_) => m
    case UseId => m
    case Stop => Stopped(m, m.durable)
    case StopInFlush(n) =>
      if !m.pending || n < 2 then Stopped(m, m.durable)
      else if n == 2 then Stopped(m, Overlay(m.live, m.kept))
      else Flushed(m)
    case StopInCompaction(_, _) => Stopped(m, m.durable)
  }

  function MapsAfter(m: Maps, steps: seq<Step>): Maps
    decreases |steps|
  {
    if steps == [] then m else MapsAfter(MapsNext(m, steps[0]), steps[1..])
  }

  /** No clash where it matters: neither for clients nor under the log when a compaction completes,
      and not under the log when one is stopped behind the manifest swap. */
  ghost predicate MeetsNoClash(e: Engine, s: Step) {
    match s
    case Compact(_) => !Clash(e) && !DurableClash(e)
    case StopInCompaction(_, n) => n >= 2 ==> !DurableClash(e)
    case _ => true
  }

  ghost predicate ClashFree(e: Engine, steps: seq<Step>)
    decreases |steps|
  {
    steps == [] || (MeetsNoClash(e, steps[0]) && ClashFree(Next(e, steps[0]), steps[1..]))
  }

  // ---- every step of the engine is one of the maps ----

  lemma KeptIsEmpty(log: seq<LogEntry>)
    requires AreRecords(log)
    ensures KeptMap(log) == map[] <==> Replay(Kept(log)) == []
  {
    hide Hazardous, Kept, IsRecord;
    var recs := Replay(Kept(log));
    ReplaySorted(Kept(log));
    if recs != [] {
      RecordBound(recs, 0);
    }
  }

  lemma StopRefines(e: Engine, d: Durable)
    requires Inv(e) && Sound(e.dir, d) && d.log == e.disk.log
    ensures var o := Reopen(e.dir, d);
      Inv(o) && Seen(o) == Stopped(Seen(e), View(o))
  {
    hide Sound, IdsBelow, View, Base, Contents, Live, Hazardous, Kept, Reversed, NextId, Present, Sorted;
    var o := Reopen(e.dir, d);
    ReopenSound(e.dir, d);
    assert AreRecords(d.log) by { SoundRecords(e.dir, d); }
    KeptIsEmpty(d.log);
    ReopenDisk(e.dir, d);
  }

  lemma SoundRecords(dir: string, d: Durable)
    requires Sound(dir, d)
    ensures AreRecords(d.log)
  {
  }

  lemma WriteRefines(e: Engine, r: LogEntry)
    requires Inv(e) && IsRecord(r)
    ensures Inv(WriteStep(e, r)) && Seen(WriteStep(e, r)) == Written(Seen(e), r)
  {
    hide Sound, IdsBelow, View, Base, Contents, Live, Hazardous, Kept, LiveAt, ViewAfter, KeptMap, DurablyShown,
         DurableView, Reopen, Sorted;
    var w := WriteStep(e, r);
    WriteKeeps(e, r);
    KeptMapAppend(e.disk.log, r);
    CleanAppend(e.disk.log, r);
    DurableParts(e);
    DurableParts(w);
    if Clean(w.disk.log) {
      ReopenKeepsIff(e);
      ReopenKeepsIff(w);
    }
    assert w.active != [] by { WrittenPending(e, r); }
  }

  lemma WrittenPending(e: Engine, r: LogEntry)
    requires IsRecord(r)
    ensures WriteStep(e, r).active != []
  {
  }

  lemma FlushRefines(e: Engine)
    requires Inv(e) && e.counter < TWO_64
    ensures Inv(FlushStep(e)) && Seen(FlushStep(e)) == MapsNext(Seen(e), Flush)
  {
    hide Sound, IdsBelow, View, Base, Contents, Live, Hazardous, LiveAt, DurableView, Reopen, Sorted, DataPath;
    FlushKeeps(e);
    FlushedSurvives(e);
    NoContents();
  }

  lemma StopInFlushRefines(e: Engine, n: nat)
    requires Inv(e) && e.counter < TWO_64
    ensures var (next, s) := (Next(e, StopInFlush(n)), StopInFlush(n));
      Inv(next) && Seen(next) == MapsNext(Seen(e), s)
  {
    hide Inv, View, Reopen, Sound, KeptMap, Clean;
    if e.active == [] {
      SoundOf(e);
      StopRefines(e, e.disk);
    } else {
      FlushSound(e, n);
      FlushStopOpens(e, n);
      if n < 3 {
        StopRefines(e, FlushState(e, n));
      } else {
        StopWhenFlushed(e, FlushState(e, n));
      }
    }
  }

  lemma StopWhenFlushed(e: Engine, d: Durable)
    requires Sound(e.dir, d) && d.log == [] && View(Reopen(e.dir, d)) == View(e)
    ensures Seen(Reopen(e.dir, d)) == Flushed(Seen(e))
  {
    hide Sound, IdsBelow, View, Base, Live, NextId, Present;
    NoContents();
    ReopenDisk(e.dir, d);
  }

  lemma CompactRefines(e: Engine, out: seq<Rec>)
    requires Inv(e) && CanCompact(e, out)
    ensures Inv(CompactStep(e, out))
    ensures !Clash(e) && !DurableClash(e) ==> Seen(CompactStep(e, out)) == Seen(e)
  {
    hide Inv, View, DurableView, CanCompact, Clash, DurableClash, Clean, KeptMap, WithoutTables, MergedPath;
    CompactKeeps(e, out);
  }

  lemma StopInCompactionRefines(e: Engine, out: seq<Rec>, n: nat)
    requires Inv(e) && CanCompact(e, out)
    ensures var next := Next(e, StopInCompaction(out, n));
      Inv(next) && ((n >= 2 ==> !DurableClash(e)) ==> Seen(next) == Stopped(Seen(e), DurableView(e)))
  {
    hide Inv, View, DurableView, CanCompact, DurableClash, Reopen, Clean, KeptMap, WithoutTables, MergedPath, Seen;
    CompactSound(e, out, n);
    StopRefines(e, CompactState(e, out, n));
    if n >= 2 ==> !DurableClash(e) {
      CompactCrashSafe(e, out, n);
    }
  }

  lemma UseIdRefines(e: Engine)
    requires Inv(e)
    ensures var next := e.(counter := e.counter + 1);
      Inv(next) && Seen(next) == Seen(e)
  {
    hide Sound, ExtractFileId, Base, Live, Contents, Sorted, Clean, KeptMap, Reopen;
  }

  lemma StepRefines(e: Engine, s: Step)
    requires Inv(e) && Allowed(e, s)
    ensures Inv(Next(e, s)) && (MeetsNoClash(e, s) ==> Seen(Next(e, s)) == MapsNext(Seen(e), s))
  {
    hide Inv, View, CanCompact, Clash, DurableClash, WriteStep, FlushStep, CompactStep, Reopen, FlushState,
         CompactState, IsRecord, Clean, KeptMap, Written, Flushed, Stopped;
    match s
    case Write(r) => WriteRefines(e, r);
    case Flush => FlushRefines(e);
    case Compact(out) => CompactRefines(e, out);
    case UseId => UseIdRefines(e);
    case Stop =>
      SoundOf(e);
      StopRefines(e, e.disk);
    case StopInFlush(n) => StopInFlushRefines(e, n);
    case StopInCompaction(out, n) => StopInCompactionRefines(e, out, n);
  }

  /** After any run whose compactions meet no clash, clients see the live map, and a stop would leave
      the durable one; the invariant holds after every run. */
  lemma {:induction false} RunRefinesMap(e: Engine, steps: seq<Step>)
    requires Inv(e) && IsRun(e, steps)
    ensures Inv(AfterRun(e, steps))
    ensures ClashFree(e, steps) ==> Seen(AfterRun(e, steps)) == MapsAfter(Seen(e), steps)
    decreases |steps|
  {
    hide Inv, Seen, Next, Allowed, MeetsNoClash, MapsNext;
    if steps != [] {
      StepRefines(e, steps[0]);
      RunRefinesMap(Next(e, steps[0]), steps[1..]);
    }
  }

  // ---- when the live map is the plain map ----

  /** What the step does to a plain map. */
  function MapNext(m: map<string, string>, s: Step): map<string, string> {
    if s.Write? then ViewAfter(m, s.r) else m
  }

  function MapAfter(m: map<string, string>, steps: seq<Step>): map<string, string>
    decreases |steps|
  {
    if steps == [] then m else MapAfter(MapNext(m, steps[0]), steps[1..])
  }

  /** A stop loses no write when the log it leaves behind holds no hazardous key; once a flush has
      truncated the log there is nothing left to lose. */
  predicate StopsSafely(m: Maps, s: Step) {
    (s.Stop? || (s.StopInFlush? && s.n < 3) || s.StopInCompaction?) ==> m.clean
  }

  predicate SafeStops(m: Maps, steps: seq<Step>)
    decreases |steps|
  {
    steps == [] || (StopsSafely(m, steps[0]) && SafeStops(MapsNext(m, steps[0]), steps[1..]))
  }

  /** While no hazardous key is in the log everything clients see is durable, and replaying the log
      again changes nothing. */
  predicate Settled(m: Maps) {
    && (m.clean ==> m.durable == m.live && Overlay(m.live, m.kept) == m.live)
    && (!m.pending ==> m.durable == m.live && m.kept == map[])
  }

  lemma SeenSettled(e: Engine)
    requires Inv(e)
    ensures Settled(Seen(e))
  {
    hide Sound, IdsBelow, View, Base, Live, LiveAt, DurableView, Reopen, Overlay, Sorted, Hazardous, KeptMap;
    ReopenKeepsIff(e);
    FreshIff(e);
    if Clean(e.disk.log) {
      CleanIsFresh(e);
    }
    if e.active == [] {
      NoContents();
      assert KeptMap(e.disk.log) == map[];
    }
  }

  lemma OverlayWrite(live: map<string, string>, kept: map<string, Entry>, r: LogEntry)
    requires Overlay(live, kept) == live && IsRecord(r)
    ensures Overlay(ViewAfter(live, r), kept[r.key := EntryOf(r)]) == ViewAfter(live, r)
  {
    var (next, over) := (ViewAfter(live, r), kept[r.key := EntryOf(r)]);
    var o := Overlay(next, over);
    forall k ensures k in o <==> k in next {
      assert k in Overlay(live, kept) <==> k in live;
    }
    forall k | k in o ensures o[k] == next[k] {
      assert k in live ==> Overlay(live, kept)[k] == live[k];
    }
  }

  lemma OverlayNothing(live: map<string, string>)
    ensures Overlay(live, map[]) == live
  {
  }

  lemma SettledNext(m: Maps, s: Step)
    requires Settled(m) && (s.Write? ==> IsRecord(s.r))
    ensures Settled(MapsNext(m, s))
    ensures StopsSafely(m, s) ==> MapsNext(m, s).live == MapNext(m.live, s)
  {
    hide Overlay, Hazardous, ViewAfter, IsRecord;
    OverlayNothing(m.live);
    OverlayNothing(m.durable);
    if s.Write? && m.clean {
      OverlayWrite(m.live, m.kept, s.r);
    }
  }

  predicate WritesRecords(steps: seq<Step>) {
    forall i :: 0 <= i < |steps| && steps[i].Write? ==> IsRecord(steps[i].r)
  }

  lemma {:induction false} RunRecords(e: Engine, steps: seq<Step>)
    requires IsRun(e, steps)
    ensures WritesRecords(steps)
    decreases |steps|
  {
    hide Next, IsRecord;
    if steps != [] {
      RunRecords(Next(e, steps[0]), steps[1..]);
    }
  }

  /** If every stop finds a log without hazardous keys, the live map is the plain map. */
  lemma {:induction false} SafeIsPlain(m: Maps, steps: seq<Step>)
    requires Settled(m) && SafeStops(m, steps) && WritesRecords(steps)
    ensures MapsAfter(m, steps).live == MapAfter(m.live, steps)
    decreases |steps|
  {
    hide Settled, MapsNext, MapNext, StopsSafely, IsRecord;
    if steps != [] {
      SettledNext(m, steps[0]);
      SafeIsPlain(MapsNext(m, steps[0]), steps[1..]);
    }
  }

  /** From any engine, over every run without a clash whose stops find no hazardous key in the log,
      clients see the plain map with the same writes. */
  lemma RunIsPlain(e: Engine, steps: seq<Step>)
    requires Inv(e) && IsRun(e, steps) && ClashFree(e, steps) && SafeStops(Seen(e), steps)
    ensures View(AfterRun(e, steps)) == MapAfter(View(e), steps)
  {
    hide Inv, View, IsRun, AfterRun, ClashFree, SafeStops, MapsAfter, DurableView, KeptMap, Clean, Settled;
    RunRefinesMap(e, steps);
    RunRecords(e, steps);
    SeenSettled(e);
    SafeIsPlain(Seen(e), steps);
  }

  predicate WritesCleanly(s: Step) { s.Write? ==> !Hazardous(s.r.key) }

  /** A run that writes no hazardous key can be stopped anywhere. */
  lemma {:induction false} CleanRunsStopSafely(m: Maps, steps: seq<Step>)
    requires m.clean && forall i :: 0 <= i < |steps| ==> WritesCleanly(steps[i])
    ensures SafeStops(m, steps)
    decreases |steps|
  {
    hide Hazardous, Overlay, ViewAfter;
    if steps != [] {
      assert WritesCleanly(steps[0]) && MapsNext(m, steps[0]).clean;
      hide WritesCleanly, MapsNext;
      CleanRunsStopSafely(MapsNext(m, steps[0]), steps[1..]);
    }
  }

  /** An engine opened on an empty directory. */
  function Fresh(dir: string): Engine { Reopen(dir, Durable([], [], map[])) }

  lemma FreshIsEmpty(dir: string)
    ensures Inv(Fresh(dir)) && Seen(Fresh(dir)) == NOTHING && !Compacted(Fresh(dir))
  {
    var d := Durable([], [], map[]);
    ReopenSound(dir, d);
    assert Reversed<string>([]) == [] && TableMaps(map[], []) == [];
    assert Layered([]) == map[] && Contents([]) == map[];
    assert Fresh(dir).disk == d && Fresh(dir).dir == dir;
  }

  /** From an empty directory, over every run without a clash, clients see the live map; and when
      every stop finds a log without hazardous keys, that is the plain map. */
  lemma EngineIsMap(dir: string, steps: seq<Step>)
    requires IsRun(Fresh(dir), steps)
    ensures Inv(AfterRun(Fresh(dir), steps))
    ensures ClashFree(Fresh(dir), steps) ==>
      && Seen(AfterRun(Fresh(dir), steps)) == MapsAfter(NOTHING, steps)
      && (SafeStops(NOTHING, steps) ==> View(AfterRun(Fresh(dir), steps)) == MapAfter(map[], steps))
  {
    hide Inv, View, IsRun, AfterRun, ClashFree, SafeStops, Fresh, MapsAfter, DurableView, KeptMap, Clean;
    FreshIsEmpty(dir);
    RunRefinesMap(Fresh(dir), steps);
    if ClashFree(Fresh(dir), steps) && SafeStops(NOTHING, steps) {
      RunIsPlain(Fresh(dir), steps);
    }
  }

  // ---- one compaction is enough to rule clashes out for good ----

  lemma CompactedStays(e: Engine, s: Step)
    requires Inv(e) && Allowed(e, s) && Compacted(e)
    ensures Compacted(Next(e, s))
  {
    hide ExtractFileId, DataPath, IsMerge, Clash, Inputs, WithoutTables, Sound, KeptMap, Clean, Sorted;
    if s.Compact? || s.StopInCompaction? {
      MergedIsCompacted(e);
    }
  }

  lemma MergedIsCompacted(e: Engine)
    requires Inv(e) && e.counter < TWO_64
    ensures var path := MergedPath(e.dir, e.counter);
      ExtractFileId(path) == e.counter && path != DataPath(e.dir, e.counter)
  {
    hide ExtractFileId;
    PathIds(e.dir, e.counter);
    NamesDiffer(e.dir, e.counter);
  }

  lemma NamesDiffer(dir: string, id: nat)
    ensures DataPath(dir, id) != MergedPath(dir, id)
  {
    hide Digits;
    var (a, b) := (DataName(id), MergedName(id));
    assert |b| == |a| + 3;
    assert |DataPath(dir, id)| - |a| == |MergedPath(dir, id)| - |b|;
  }

  lemma CompactionCompacts(e: Engine, out: seq<Rec>)
    requires Inv(e) && CanCompact(e, out)
    ensures Compacted(CompactStep(e, out))
  {
    hide ExtractFileId, DataPath, MergedPath, IsMerge, Inputs, WithoutTables, Sound;
    MergedIsCompacted(e);
  }

  /** Once a compaction has completed, every further run meets no clash. */
  lemma {:induction false} CompactedRunsAreRight(e: Engine, steps: seq<Step>)
    requires Inv(e) && Compacted(e) && IsRun(e, steps)
    ensures ClashFree(e, steps) && Seen(AfterRun(e, steps)) == MapsAfter(Seen(e), steps)
    decreases |steps|
  {
    hide Inv, Seen, Next, Allowed, Clash, DurableClash, Compacted, MapsNext;
    NeverClashes(e);
    if steps != [] {
      StepRefines(e, steps[0]);
      CompactedStays(e, steps[0]);
      CompactedRunsAreRight(Next(e, steps[0]), steps[1..]);
    }
  }

  lemma NeverClashes(e: Engine)
    requires Inv(e) && Compacted(e)
    ensures !Clash(e) && !DurableClash(e)
  {
    hide Inv, View, Clash, HasTie, ExtractFileId, DataPath;
    CompactedNeverClashes(e);
    DurableParts(e);
    ReopenDisk(e.dir, e.disk);
    CompactedNeverClashes(Reopen(e.dir, e.disk));
  }

  // ---- writes under and behind a hazardous key ----

  /** The memtable, the write included, shows what the replayed log would show. */
  predicate NoNetEffect(e: Engine, r: LogEntry) {
    ShownBy(WriteStep(e, r), KeptMap(e.disk.log))
  }

  /** An acknowledged write survives stopping and opening again exactly when no hazardous key is in the
      log, its own included, or the records from the first hazardous one on have no net effect. When
      one is, opening shows what was durable before the write. */
  lemma WriteSurvivesIff(e: Engine, r: LogEntry)
    requires Inv(e) && IsRecord(r)
    ensures DurableView(WriteStep(e, r)) == ViewAfter(View(e), r)
            <==> (Clean(e.disk.log) && !Hazardous(r.key)) || NoNetEffect(e, r)
    ensures !Clean(e.disk.log) || Hazardous(r.key) ==> DurableView(WriteStep(e, r)) == DurableView(e)
  {
    hide Inv, Hazardous, Live, Base, Contents, ViewAfter, LiveAt, DurableView, View, Clean, KeptMap, ReplayOne;
    var w := WriteStep(e, r);
    WriteKeeps(e, r);
    ReopenKeepsIff(w);
    CleanAppend(e.disk.log, r);
    KeptMapAppend(e.disk.log, r);
    DurableParts(e);
    DurableParts(w);
  }

  lemma RunCons(e: Engine, s: Step, steps: seq<Step>)
    ensures IsRun(e, [s] + steps) <==> Allowed(e, s) && IsRun(Next(e, s), steps)
    ensures ClashFree(e, [s] + steps) <==> MeetsNoClash(e, s) && ClashFree(Next(e, s), steps)
    ensures AfterRun(e, [s] + steps) == AfterRun(Next(e, s), steps)
  {
    hide Allowed, Next, MeetsNoClash;
    assert ([s] + steps)[1..] == steps;
  }

  lemma MapsCons(m: Maps, s: Step, steps: seq<Step>)
    ensures MapsAfter(m, [s] + steps) == MapsAfter(MapsNext(m, s), steps)
    ensures MapAfter(m.live, [s] + steps) == MapAfter(MapNext(m.live, s), steps)
  {
    hide MapsNext, MapNext;
    assert ([s] + steps)[1..] == steps;
  }

  /** Writes, and then at most one stop, make a run without a clash. */
  lemma {:induction false} WritesRun(e: Engine, rs: seq<LogEntry>, last: seq<Step>)
    requires Inv(e) && e.counter < TWO_64 && AreRecords(rs)
    requires last == [] || (|last| == 1 && (last[0].Stop? || last[0].StopInFlush?))
    ensures IsRun(e, Writes(rs) + last) && ClashFree(e, Writes(rs) + last)
    decreases |rs|
  {
    hide Inv, WriteStep, Reopen, FlushState;
    if rs == [] {
      assert Writes(rs) + last == last;
      assert last != [] ==> last[1..] == [];
    } else {
      assert Writes(rs) + last == [Write(rs[0])] + (Writes(rs[1..]) + last);
      WriteRefines(e, rs[0]);
      CounterKept(e, rs[0]);
      WritesRun(WriteStep(e, rs[0]), rs[1..], last);
      RunCons(e, Write(rs[0]), Writes(rs[1..]) + last);
    }
  }

  function Writes(rs: seq<LogEntry>): (steps: seq<Step>)
    ensures |steps| == |rs| && forall i :: 0 <= i < |rs| ==> steps[i] == Write(rs[i])
  {
    seq(|rs|, i requires 0 <= i < |rs| => Write(rs[i]))
  }

  lemma CounterKept(e: Engine, r: LogEntry)
    ensures WriteStep(e, r).counter == e.counter
  {
  }

  /** A write with a harmless key behind a hazardous one, such as `timestamp`, is acknowledged and seen,
      and gone after a stop. */
  lemma LostWriteReachable(dir: string, hazard: LogEntry, key: string, value: string)
    requires IsRecord(hazard) && Hazardous(hazard.key) && !Hazardous(key)
    ensures var r := LogEntry(PUT, key, value, 0);
      && IsRun(Fresh(dir), Writes([hazard, r]) + [Stop])
      && key in View(AfterRun(Fresh(dir), Writes([hazard, r])))
      && View(AfterRun(Fresh(dir), Writes([hazard, r]) + [Stop])) == map[]
  {
    hide Inv, View, IsRun, AfterRun, ClashFree, Fresh, MapsAfter, DurableView, KeptMap, Clean, Hazardous, SafeStops;
    var (rs, h, w) := ([hazard, LogEntry(PUT, key, value, 0)], Write(hazard), Write(LogEntry(PUT, key, value, 0)));
    FreshIsEmpty(dir);
    FreshParts(dir);
    WritesRun(Fresh(dir), rs, []);
    WritesRun(Fresh(dir), rs, [Stop]);
    assert Writes(rs) + [] == Writes(rs) == [h, w];
    EngineIsMap(dir, [h, w]);
    EngineIsMap(dir, [h, w] + [Stop]);
    TwoSteps(NOTHING, h, w);
    ThreeSteps(NOTHING, h, w, Stop);
  }

  lemma TwoSteps(m: Maps, a: Step, b: Step)
    ensures MapsAfter(m, [a, b]) == MapsNext(MapsNext(m, a), b)
  {
    hide MapsNext;
    assert [a, b] == [a] + ([b] + []);
    MapsCons(m, a, [b] + []);
    MapsCons(MapsNext(m, a), b, []);
  }

  lemma ThreeSteps(m: Maps, a: Step, b: Step, c: Step)
    ensures MapsAfter(m, [a, b] + [c]) == MapsNext(MapsNext(MapsNext(m, a), b), c)
  {
    hide MapsNext;
    assert [a, b] + [c] == [a] + [b, c];
    MapsCons(m, a, [b, c]);
    TwoSteps(MapsNext(m, a), b, c);
  }

  lemma FourSteps(m: Maps, a: Step, b: Step, c: Step, d: Step)
    ensures MapsAfter(m, [a, b, c] + [d]) == MapsNext(MapsNext(MapsNext(MapsNext(m, a), b), c), d)
  {
    hide MapsNext;
    assert [a, b, c] + [d] == [a] + ([b, c] + [d]);
    MapsCons(m, a, [b, c] + [d]);
    ThreeSteps(MapsNext(m, a), b, c, d);
  }

  /** A key written again behind a hazardous one falls back to its first value when a flush is stopped
      between listing its table and truncating the log: the stale log shadows the listed table. */
  lemma StaleLogReachable(dir: string, hazard: LogEntry, key: string, first: string, second: string)
    requires IsRecord(hazard) && Hazardous(hazard.key) && !Hazardous(key)
    ensures var rs := [LogEntry(PUT, key, first, 0), hazard, LogEntry(PUT, key, second, 0)];
      && IsRun(Fresh(dir), Writes(rs) + [StopInFlush(2)])
      && Lookup(View(AfterRun(Fresh(dir), Writes(rs))), key) == Some(second)
      && Lookup(View(AfterRun(Fresh(dir), Writes(rs) + [StopInFlush(2)])), key) == Some(first)
  {
    hide Inv, View, IsRun, AfterRun, ClashFree, Fresh, MapsAfter, DurableView, KeptMap, Clean, Hazardous, SafeStops;
    var (r0, r1) := (LogEntry(PUT, key, first, 0), LogEntry(PUT, key, second, 0));
    var rs := [r0, hazard, r1];
    FreshIsEmpty(dir);
    FreshParts(dir);
    WritesRun(Fresh(dir), rs, []);
    WritesRun(Fresh(dir), rs, [StopInFlush(2)]);
    assert Writes(rs) + [] == Writes(rs) == [Write(r0), Write(hazard), Write(r1)];
    assert [Write(r0), Write(hazard)] + [Write(r1)] == Writes(rs);
    EngineIsMap(dir, Writes(rs));
    EngineIsMap(dir, Writes(rs) + [StopInFlush(2)]);
    ThreeSteps(NOTHING, Write(r0), Write(hazard), Write(r1));
    FourSteps(NOTHING, Write(r0), Write(hazard), Write(r1), StopInFlush(2));
    StaleShows(map[key := first], map[key := Entry(first, false)], hazard, r1);
  }

  lemma StaleShows(live: map<string, string>, kept: map<string, Entry>, hazard: LogEntry, r: LogEntry)
    requires r.operation == PUT && r.key in kept && !kept[r.key].deleted
    ensures var next := ViewAfter(ViewAfter(live, hazard), r);
      Lookup(next, r.key) == Some(r.value) && Lookup(Overlay(next, kept), r.key) == Some(kept[r.key].value)
  {
  }

  // ---- the clash is reachable: the second flush of a fresh engine can already set it up ----

  function ClashRun(key: string, older: string, newer: string): seq<Step> {
    [Write(LogEntry(PUT, key, older, 0)), Flush, Write(LogEntry(PUT, key, newer, 0)), Flush]
  }

  lemma OneRecord(r: Rec)
    ensures Upsert([], r) == [r] && Contents([r]) == map[r.key := r.ToEntry()]
  {
    assert [r][..0] == [];
    assert Contents([]) == map[];
  }

  lemma ReplayPut(key: string, value: string)
    ensures ReplayOne([], LogEntry(PUT, key, value, 0)) == [Rec(key, value, false)]
  {
    OneRecord(Rec(key, value, false));
  }

  lemma FreshParts(dir: string)
    ensures Fresh(dir) == Engine(dir, Durable([], [], map[]), [], [], 0)
  {
    assert Reversed<string>([]) == [];
  }

  lemma OneFlush(e: Engine, key: string, value: string)
    requires e.active == []
    ensures var (path, recs) := (DataPath(e.dir, e.counter), [Rec(key, value, false)]);
      FlushStep(WriteStep(e, LogEntry(PUT, key, value, 0))) ==
        Engine(e.dir, Durable([], e.disk.manifest + [path], e.disk.tables[path := recs]), [], [path] + e.sstables,
               e.counter + 1)
  {
    hide DataPath, Upsert;
    ReplayPut(key, value);
  }

  /** One put and the flush after it. */
  lemma PutAndFlush(e: Engine, r: LogEntry, steps: seq<Step>)
    requires e.counter < TWO_64 && IsRecord(r)
    ensures var next := FlushStep(WriteStep(e, r));
      && (IsRun(e, [Write(r), Flush] + steps) <==> IsRun(next, steps))
      && AfterRun(e, [Write(r), Flush] + steps) == AfterRun(next, steps)
  {
    hide IsRun, AfterRun, ClashFree, IsRecord, FlushStep, WriteStep, MeetsNoClash;
    CounterKept(e, r);
    assert [Write(r), Flush] + steps == [Write(r)] + ([Flush] + steps);
    RunCons(e, Write(r), [Flush] + steps);
    RunCons(WriteStep(e, r), Flush, steps);
  }

  lemma ClashRunIs(e: Engine, key: string, older: string, newer: string)
    requires e.counter + 1 < TWO_64
    ensures var (w0, w1) := (LogEntry(PUT, key, older, 0), LogEntry(PUT, key, newer, 0));
      && IsRun(e, ClashRun(key, older, newer))
      && AfterRun(e, ClashRun(key, older, newer)) == FlushStep(WriteStep(FlushStep(WriteStep(e, w0)), w1))
  {
    hide FlushState, WriteStep, DataPath;
    var (w0, w1) := (LogEntry(PUT, key, older, 0), LogEntry(PUT, key, newer, 0));
    assert WriteStep(e, w0).counter == e.counter by { CounterKept(e, w0); }
    PutAndFlush(e, w0, [Write(w1), Flush]);
    PutAndFlush(FlushStep(WriteStep(e, w0)), w1, []);
    assert [Write(w0), Flush] + [Write(w1), Flush] == ClashRun(key, older, newer);
    assert [Write(w1), Flush] + [] == [Write(w1), Flush];
  }

  /** The engine after the run below: one record of the key in each of the tables 0 and 1. */
  function ClashEngine(dir: string, key: string, older: string, newer: string): Engine {
    var (p0, p1) := (DataPath(dir, 0), DataPath(dir, 1));
    var tables := map[p0 := [Rec(key, older, false)], p1 := [Rec(key, newer, false)]];
    Engine(dir, Durable([], [p0, p1], tables), [], [p1, p0], 2)
  }

  lemma ClashEngineClashes(dir: string, key: string, older: string, newer: string)
    requires older != newer
    ensures ClashesAt(ClashEngine(dir, key, older, newer), key)
  {
    hide ExtractFileId, DataPath, Contents;
    var e := ClashEngine(dir, key, older, newer);
    PathIds(dir, 0);
    PathIds(dir, 1);
    OneRecord(Rec(key, older, false));
    OneRecord(Rec(key, newer, false));
    NoContents();
    assert e.sstables[0] in e.sstables && e.sstables[1] in e.sstables;
    assert HasId(e.sstables, 0) && HasId(e.sstables, 1);
  }

  lemma ClashRunEnds(dir: string, key: string, older: string, newer: string)
    ensures IsRun(Fresh(dir), ClashRun(key, older, newer))
    ensures AfterRun(Fresh(dir), ClashRun(key, older, newer)) == ClashEngine(dir, key, older, newer)
  {
    hide DataPath, FlushStep, WriteStep, ClashRun, IsRun, AfterRun;
    FreshParts(dir);
    ClashRunIs(Fresh(dir), key, older, newer);
    OneFlush(Fresh(dir), key, older);
    OneFlush(FlushStep(WriteStep(Fresh(dir), LogEntry(PUT, key, older, 0))), key, newer);
  }

  /** Two puts of one key, each flushed, leave tables 0 and 1 in a clash: the compaction that
      follows may bring the older value back. */
  lemma ClashReachable(dir: string, key: string, older: string, newer: string)
    requires older != newer
    ensures var (steps, e) := (ClashRun(key, older, newer), AfterRun(Fresh(dir), ClashRun(key, older, newer)));
      && IsRun(Fresh(dir), steps) && Inv(e) && ClashesAt(e, key)
      && exists out :: CanCompact(e, out) && View(CompactStep(e, out)) != View(e)
  {
    hide Inv, View, CanCompact, CompactStep, ClashesAt, IsRun, AfterRun, ClashRun, Fresh, DataPath, ClashFree, Seen;
    var e := ClashEngine(dir, key, older, newer);
    FreshIsEmpty(dir);
    ClashRunEnds(dir, key, older, newer);
    RunRefinesMap(Fresh(dir), ClashRun(key, older, newer));
    ClashEngineClashes(dir, key, older, newer);
    CompactionRightIff(e);
    assert Clash(e);
  }
}
