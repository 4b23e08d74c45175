/** Compaction of the engine's tables: what it may write, when that is right, and every point it can
    be stopped at (src/core/engine.cpp:238-312). */
module EngineCompaction {
  import opened Records
  import opened Bytes
  import opened LogRoundTrip
  import opened LogRecovery
  import opened MemTable
  import opened Paths
  import opened Merge
  import opened MergeChoice
  import opened EngineModel

  /** The id a merge uses for table `i`: an id of 0 falls back to the table's distance from the end. */
  function EffectiveId(paths: seq<string>, i: nat): nat
    requires i < |paths|
  {
    var id := ExtractFileId(paths[i]);
    if id == 0 then |paths| - i else id
  }

  /** What a compaction merges, newest first. */
  function Inputs(tables: map<string, seq<Rec>>, paths: seq<string>): (ins: seq<Input>)
    ensures |ins| == |paths|
    ensures forall i :: 0 <= i < |ins| ==> ins[i] == Input(EffectiveId(paths, i), TableOf(tables, paths[i]))
  {
    seq(|paths|, i requires 0 <= i < |paths| => Input(EffectiveId(paths, i), TableOf(tables, paths[i])))
  }

  function EngineInputs(e: Engine): seq<Input> { Inputs(e.disk.tables, e.sstables) }

  lemma NewestIsBase(tables: map<string, seq<Rec>>, paths: seq<string>)
    ensures NewestWins(Inputs(tables, paths)) == Base(tables, paths)
  {
    hide Contents, EffectiveId;
    assert Maps(Inputs(tables, paths)) == TableMaps(tables, paths);
  }

  // ---- when effective ids tie ----

  predicate HasId(paths: seq<string>, id: nat) {
    exists p :: p in paths && ExtractFileId(p) == id
  }

  /** Tables 0 and 1 are both open: the fallback gives them the same effective id. */
  predicate HasTie(paths: seq<string>) {
    HasId(paths, 0) && HasId(paths, 1)
  }

  predicate IdsFall(paths: seq<string>) {
    forall i, j :: 0 <= i < j < |paths| ==> ExtractFileId(paths[j]) < ExtractFileId(paths[i])
  }

  predicate EffectiveFall(paths: seq<string>) {
    forall i, j :: 0 <= i < j < |paths| ==> EffectiveId(paths, j) < EffectiveId(paths, i)
  }

  lemma TablesFall(e: Engine)
    requires Inv(e)
    ensures IdsFall(e.sstables)
  {
    hide ExtractFileId;
  }

  lemma Falls(paths: seq<string>, i: nat, j: nat)
    requires IdsFall(paths) && i < j < |paths|
    ensures ExtractFileId(paths[j]) < ExtractFileId(paths[i])
  {
  }

  /** Tables 0 and 1 can only be the two oldest. */
  lemma ZeroIsLast(paths: seq<string>, i: nat)
    requires IdsFall(paths) && i < |paths| && ExtractFileId(paths[i]) == 0
    ensures i == |paths| - 1
  {
    hide IdsFall, ExtractFileId;
    if i < |paths| - 1 {
      Falls(paths, i, |paths| - 1);
    }
  }

  lemma OneIsNext(paths: seq<string>, i: nat)
    requires IdsFall(paths) && i < |paths| && ExtractFileId(paths[i]) == 1
    ensures i >= |paths| - 2
  {
    hide IdsFall, ExtractFileId;
    if i < |paths| - 2 {
      Falls(paths, i, |paths| - 2);
      Falls(paths, |paths| - 2, |paths| - 1);
    }
  }

  lemma TiePositions(paths: seq<string>)
    requires IdsFall(paths) && HasTie(paths)
    ensures |paths| >= 2 && ExtractFileId(paths[|paths| - 1]) == 0 && ExtractFileId(paths[|paths| - 2]) == 1
  {
    hide ExtractFileId, IdsFall;
    var p :| p in paths && ExtractFileId(p) == 0;
    var q :| q in paths && ExtractFileId(q) == 1;
    var i :| 0 <= i < |paths| && paths[i] == p;
    var j :| 0 <= j < |paths| && paths[j] == q;
    ZeroIsLast(paths, i);
    OneIsNext(paths, j);
  }

  /** Below the tie, effective ids fall strictly. */
  lemma EffectiveAbove(paths: seq<string>, i: nat, j: nat)
    requires IdsFall(paths) && i < j < |paths|
    requires HasTie(paths) ==> i < |paths| - 2
    ensures EffectiveId(paths, j) < EffectiveId(paths, i)
  {
    hide ExtractFileId, IdsFall;
    var n := |paths|;
    Falls(paths, i, j);
    if ExtractFileId(paths[j]) == 0 {
      ZeroIsLast(paths, j);
      assert paths[i] in paths && paths[j] in paths;
      if ExtractFileId(paths[i]) == 1 {
        OneIsNext(paths, i);
      }
    }
  }

  /** Effective ids are strictly ordered by recency exactly when tables 0 and 1 are not both open. */
  lemma EffectiveOrder(e: Engine)
    requires Inv(e)
    ensures EffectiveFall(e.sstables) <==> !HasTie(e.sstables)
  {
    hide ExtractFileId, Inv;
    TablesFall(e);
    var (paths, n) := (e.sstables, |e.sstables|);
    if HasTie(paths) {
      TiePositions(paths);
      assert EffectiveId(paths, n - 1) == 1 == EffectiveId(paths, n - 2);
    } else {
      hide EffectiveId, HasTie;
      forall i, j | 0 <= i < j < n ensures EffectiveId(paths, j) < EffectiveId(paths, i) {
        EffectiveAbove(paths, i, j);
      }
    }
  }

  // ---- the exact condition for a compaction to keep the view ----

  /** `out` is what a compaction of this engine may write. */
  ghost predicate CanCompact(e: Engine, out: seq<Rec>) {
    e.sstables != [] && e.counter < TWO_64 && IsMerge(EngineInputs(e), true, out)
  }

  function TableMap(e: Engine, i: nat): map<string, Entry>
    requires i < |e.sstables|
  {
    Contents(TableOf(e.disk.tables, e.sstables[i]))
  }

  /** Tables 0 and 1 disagree on a key that neither the memtable nor a newer table holds. */
  predicate ClashesAt(e: Engine, k: string) {
    var n := |e.sstables|;
    && HasTie(e.sstables) && n >= 2 && k !in Contents(e.active)
    && k in TableMap(e, n - 1) && k in TableMap(e, n - 2)
    && (forall i :: 0 <= i < n - 2 ==> k !in TableMap(e, i))
    && LiveAt(TableMap(e, n - 1), k) != LiveAt(TableMap(e, n - 2), k)
  }

  ghost predicate Clash(e: Engine) {
    exists k :: ClashesAt(e, k)
  }

  lemma HoldsTable(e: Engine, i: int, k: string)
    ensures Holds(EngineInputs(e), i, k) <==> 0 <= i < |e.sstables| && k in TableMap(e, i)
    ensures Holds(EngineInputs(e), i, k) ==> Held(EngineInputs(e), i, k) == TableMap(e, i)[k]
  {
    hide Contents, EffectiveId;
  }

  /** The newest table that holds `k` decides what the tables show. */
  lemma NewestTable(e: Engine, k: string) returns (newest: nat)
    requires !Unheld(EngineInputs(e), k)
    ensures newest < |e.sstables| && k in TableMap(e, newest) && forall j :: 0 <= j < newest ==> k !in TableMap(e, j)
    ensures LiveAt(Base(e.disk.tables, e.sstables), k) == LiveAt(TableMap(e, newest), k)
  {
    hide Contents, Inputs, Base, TableMap, NewestWins;
    NewestIsBase(e.disk.tables, e.sstables);
    newest := NewestHolder(EngineInputs(e), k);
    HoldsTable(e, newest, k);
    forall j | 0 <= j < newest ensures k !in TableMap(e, j) {
      HoldsTable(e, j, k);
    }
  }

  /** A winner at `k` shows what the newest holder shows, unless tables 0 and 1 clash there. */
  lemma WinnerShows(e: Engine, i: int, k: string)
    requires Inv(e) && !ClashesAt(e, k) && k !in Contents(e.active) && Wins(EngineInputs(e), i, k)
    ensures LiveValue(Held(EngineInputs(e), i, k)) == LiveAt(Base(e.disk.tables, e.sstables), k)
  {
    hide ExtractFileId, Contents, Inv, EffectiveId, LiveValue, HasTie, TableMap, Base, IdsFall;
    var (ins, paths, n) := (EngineInputs(e), e.sstables, |e.sstables|);
    TablesFall(e);
    assert Holds(ins, i, k);
    HoldsTable(e, i, k);
    var newest := NewestTable(e, k);
    HoldsTable(e, newest, k);
    if newest < i {
      if !HasTie(paths) || newest < n - 2 {
        EffectiveAbove(paths, newest, i);
      }
    }
  }

  lemma MergedShows(e: Engine, out: seq<Rec>, k: string)
    requires Inv(e) && IsMerge(EngineInputs(e), true, out) && !ClashesAt(e, k) && k !in Contents(e.active)
    ensures LiveAt(Contents(out), k) == LiveAt(Base(e.disk.tables, e.sstables), k)
  {
    hide Contents, Inv, Sorted, ClashesAt, Inputs;
    var ins := EngineInputs(e);
    assert MergedAt(ins, true, k, Find(Contents(out), k));
    NewestIsBase(e.disk.tables, e.sstables);
    if Unheld(ins, k) && Find(Contents(out), k) == None {
      var _ := NewestHolder(ins, k);
    } else {
      var i :| Wins(ins, i, k) && Find(Contents(out), k) == Emitted(Held(ins, i, k), true);
      WinnerShows(e, i, k);
    }
  }

  /** Without a clash every permitted merge keeps the view. */
  lemma CompactedView(e: Engine, out: seq<Rec>)
    requires Inv(e) && IsMerge(EngineInputs(e), true, out) && !Clash(e)
    ensures Live(Contents(out) + Contents(e.active)) == View(e)
  {
    hide Contents, Inv, IsMerge, Base, Inputs;
    var (m, b, a) := (Contents(out), Base(e.disk.tables, e.sstables), Contents(e.active));
    forall k ensures LiveAt(m + a, k) == LiveAt(b + a, k) {
      assert !ClashesAt(e, k);
      if k !in a {
        MergedShows(e, out, k);
      }
    }
    SameLiveAt(m + a, b + a);
  }

  /** With a clash, the table where the older of the two wins is a permitted outcome, and it
      changes what clients see. */
  lemma ClashBreaks(e: Engine, k: string) returns (out: seq<Rec>)
    requires Inv(e) && ClashesAt(e, k)
    ensures IsMerge(EngineInputs(e), true, out) && Live(Contents(out) + Contents(e.active)) != View(e)
  {
    hide ExtractFileId, Contents, Inv, TableMap, Base, IdsFall, IsMerge, Inputs, EffectiveId;
    var (ins, n) := (EngineInputs(e), |e.sstables|);
    OldestWins(e, k);
    HoldsTable(e, n - 1, k);
    out := MergeWith(ins, k, n - 1);
    HoldsTable(e, n - 2, k);
    var newest := NewestTable(e, k);
    assert newest == n - 2;
    var (m, b, a) := (Contents(out), Base(e.disk.tables, e.sstables), Contents(e.active));
    assert LiveAt(m, k) == LiveAt(TableMap(e, n - 1), k);
    LiveDiffers(m, b, a, k);
  }

  lemma LiveDiffers(m: map<string, Entry>, b: map<string, Entry>, a: map<string, Entry>, k: string)
    requires k !in a && LiveAt(m, k) != LiveAt(b, k)
    ensures Live(m + a) != Live(b + a)
  {
    LiveIsLiveAt(m + a, k);
    LiveIsLiveAt(b + a, k);
  }

  lemma OldestWins(e: Engine, k: string)
    requires Inv(e) && ClashesAt(e, k)
    ensures Wins(EngineInputs(e), |e.sstables| - 1, k)
  {
    hide ExtractFileId, Contents, Inv, TableMap, IdsFall;
    var (ins, n) := (EngineInputs(e), |e.sstables|);
    TablesFall(e);
    TiePositions(e.sstables);
    HoldsTable(e, n - 1, k);
    forall j | Holds(ins, j, k) ensures ins[j].id <= ins[n - 1].id {
      HoldsTable(e, j, k);
      assert j >= n - 2;
    }
  }

  /** A compaction keeps the view, whatever the heap does with equal ids, exactly when tables 0
      and 1 do not clash. */
  lemma CompactionRightIff(e: Engine)
    requires Inv(e) && e.sstables != [] && e.counter < TWO_64
    ensures (forall out :: CanCompact(e, out) ==> View(CompactStep(e, out)) == View(e)) <==> !Clash(e)
  {
    hide Inv, IsMerge, ClashesAt, CompactStep, View, Inputs;
    forall out | CanCompact(e, out)
      ensures View(CompactStep(e, out)) == Live(Contents(out) + Contents(e.active))
    {
      StepView(e, out);
    }
    if Clash(e) {
      var k :| ClashesAt(e, k);
      var out := ClashBreaks(e, k);
      assert CanCompact(e, out);
    } else {
      forall out | CanCompact(e, out) ensures View(CompactStep(e, out)) == View(e) {
        CompactedView(e, out);
      }
    }
  }

  /** Unless tables 0 and 1 are both open, the inputs of a merge are ordered by recency. */
  lemma OrderedWhen(e: Engine)
    requires Inv(e) && !HasTie(e.sstables)
    ensures RecencyOrdered(EngineInputs(e))
  {
    hide ExtractFileId, Inv, HasTie, RecencyOrdered, EffectiveId;
    EffectiveOrder(e);
    FallingIds(EngineInputs(e));
  }

  /** Recency-ordered inputs never clash. */
  lemma OrderedNeverClash(e: Engine)
    requires Inv(e) && RecencyOrdered(EngineInputs(e))
    ensures !Clash(e)
  {
    hide ExtractFileId, Contents, Inv, TableMap, IdsFall;
    forall k ensures !ClashesAt(e, k) {
      if ClashesAt(e, k) {
        var n := |e.sstables|;
        TablesFall(e);
        TiePositions(e.sstables);
        HoldsTable(e, n - 1, k);
        HoldsTable(e, n - 2, k);
      }
    }
  }

  /** A compaction writes no tombstone. */
  lemma MergePurges(e: Engine, out: seq<Rec>)
    requires CanCompact(e, out)
    ensures forall i :: 0 <= i < |out| ==> !out[i].deleted
  {
    hide Contents, Inputs, Wins;
    forall i | 0 <= i < |out| ensures !out[i].deleted {
      RecordBound(out, i);
      assert MergedAt(EngineInputs(e), true, out[i].key, Find(Contents(out), out[i].key));
    }
  }

  // ---- the durable steps of a compaction ----

  function WithoutTables(tables: map<string, seq<Rec>>, paths: seq<string>): map<string, seq<Rec>> {
    tables - (set p | p in paths)
  }

  /** The durable state after the first `n` steps of a compaction that writes `out`. */
  function CompactState(e: Engine, out: seq<Rec>, n: nat): Durable {
    var path := MergedPath(e.dir, e.counter);
    var tables := e.disk.tables[path := out];
    if n == 0 then e.disk
    else if n == 1 then e.disk.(tables := tables)
    else
      var removed := if n - 2 <= |e.sstables| then e.sstables[..n - 2] else e.sstables;
      e.disk.(manifest := [path], tables := WithoutTables(tables, removed))
  }

  function CompactStep(e: Engine, out: seq<Rec>): Engine {
    Engine(e.dir, CompactState(e, out, 2 + |e.sstables|), e.active, [MergedPath(e.dir, e.counter)], e.counter + 1)
  }

  lemma CompactLog(e: Engine, out: seq<Rec>, n: nat)
    ensures CompactState(e, out, n).log == e.disk.log
  {
  }

  lemma SomeIdBelow(e: Engine)
    requires Inv(e) && e.sstables != []
    ensures e.counter > 0
  {
    assert e.sstables[0] in e.disk.manifest;
  }

  lemma CompactSound(e: Engine, out: seq<Rec>, n: nat)
    requires Inv(e) && CanCompact(e, out)
    ensures Sound(e.dir, CompactState(e, out, n))
  {
    hide ExtractFileId, AreRecords, Named, DataPath, MergedPath, MergedAt, Contents, Inv, Sorted, Inputs;
    NewPaths(e);
    SomeIdBelow(e);
    CompactLog(e, out, n);
    SoundOf(e);
    var (d, path) := (CompactState(e, out, n), MergedPath(e.dir, e.counter));
    if n < 2 {
      assert forall p :: p in d.manifest ==> p != path && d.tables[p] == e.disk.tables[p];
    } else {
      CompactTable(e, out, n);
    }
  }

  lemma CompactTable(e: Engine, out: seq<Rec>, n: nat)
    requires Inv(e) && CanCompact(e, out) && n >= 2
    ensures var (d, path) := (CompactState(e, out, n), MergedPath(e.dir, e.counter));
      d.manifest == [path] && path in d.tables && d.tables[path] == out && d.log == e.disk.log
    ensures Base(CompactState(e, out, n).tables, [MergedPath(e.dir, e.counter)]) == Contents(out)
  {
    hide ExtractFileId, MergedPath, IsMerge, Contents, Inv;
    NewMergedPath(e);
    var (d, path) := (CompactState(e, out, n), MergedPath(e.dir, e.counter));
    var removed := if n - 2 <= |e.sstables| then e.sstables[..n - 2] else e.sstables;
    assert forall p :: p in removed ==> p in e.sstables;
    assert path !in removed;
    OneTable(d.tables, path);
  }

  lemma NewMergedPath(e: Engine)
    requires Inv(e) && e.counter < TWO_64
    ensures forall p :: p in e.sstables ==> p != MergedPath(e.dir, e.counter)
  {
    hide ExtractFileId, MergedPath, Sound, IdsBelow;
    NewPaths(e);
    assert forall p :: p in e.sstables ==> p in e.disk.manifest;
  }

  lemma OneTable(tables: map<string, seq<Rec>>, path: string)
    ensures Base(tables, [path]) == Contents(TableOf(tables, path))
  {
    hide Contents;
    BaseFirst(tables, path, []);
    assert [path] + [] == [path];
    assert TableMaps(tables, []) == [];
  }

  lemma StepView(e: Engine, out: seq<Rec>)
    requires Inv(e) && CanCompact(e, out)
    ensures View(CompactStep(e, out)) == Live(Contents(out) + Contents(e.active))
  {
    hide Inv, CanCompact, Contents, Live;
    CompactTable(e, out, 2 + |e.sstables|);
  }

  /** What stopping now would leave clashes: the keys of the memtable that are not in the replayed
      log no longer hide tables 0 and 1. */
  ghost predicate DurableClash(e: Engine) {
    Clash(Reopen(e.dir, e.disk))
  }

  lemma DurableMerge(e: Engine, out: seq<Rec>)
    requires Inv(e) && CanCompact(e, out) && !DurableClash(e)
    ensures Live(Contents(out) + KeptMap(e.disk.log)) == DurableView(e)
  {
    hide Contents, Inv, IsMerge, Clash, View, Inputs;
    DurableParts(e);
    CompactedView(Reopen(e.dir, e.disk), out);
  }

  lemma CleanClash(e: Engine)
    requires Inv(e) && Clean(e.disk.log)
    ensures DurableClash(e) <==> Clash(e)
  {
    hide Contents, Inv, HasTie, View, TableMap, Reopen, Hazardous, DurablyShown;
    ReopenKeepsIff(e);
    DurableParts(e);
    var o := Reopen(e.dir, e.disk);
    assert o.disk == e.disk by { ReopenDisk(e.dir, e.disk); }
    forall k ensures ClashesAt(o, k) <==> ClashesAt(e, k) {
      SameTables(e, o);
    }
  }

  lemma SameTables(a: Engine, b: Engine)
    requires a.disk == b.disk && a.sstables == b.sstables
    ensures forall i :: 0 <= i < |a.sstables| ==> TableMap(a, i) == TableMap(b, i)
  {
  }

  /** What opening shows after stopping behind the first `n` durable steps of a compaction. */
  lemma CompactStopOpens(e: Engine, out: seq<Rec>, n: nat)
    requires Inv(e) && CanCompact(e, out)
    ensures Inv(Reopen(e.dir, CompactState(e, out, n)))
    ensures View(Reopen(e.dir, CompactState(e, out, n))) ==
      if n < 2 then DurableView(e) else Live(Contents(out) + KeptMap(e.disk.log))
  {
    hide ExtractFileId, Named, DataPath, MergedPath, Contents, Base, Live, Sound, IsMerge, IdsBelow, Inputs,
         WithoutTables, Replay, KeptMap, Reopen;
    var (d, path, tables) := (CompactState(e, out, n), MergedPath(e.dir, e.counter), e.disk.tables);
    CompactSound(e, out, n);
    ReopenSound(e.dir, d);
    DurableParts(e);
    NewPaths(e);
    if n < 2 {
      BaseFrame(tables, tables[path := out], e.sstables);
    } else {
      CompactTable(e, out, n);
      assert Reversed(d.manifest) == [path];
    }
  }

  /** Stopping before the manifest is swapped and opening again shows what was durable before the
      compaction; from then on it does as long as tables 0 and 1 do not clash under the log. */
  lemma CompactCrashSafe(e: Engine, out: seq<Rec>, n: nat)
    requires Inv(e) && CanCompact(e, out) && (n >= 2 ==> !DurableClash(e))
    ensures Inv(Reopen(e.dir, CompactState(e, out, n)))
    ensures View(Reopen(e.dir, CompactState(e, out, n))) == DurableView(e)
  {
    hide Inv, CanCompact, DurableClash, View, Reopen, DurableView, KeptMap, Contents, CompactState;
    CompactStopOpens(e, out, n);
    if n >= 2 {
      DurableMerge(e, out);
    }
  }

  lemma DurableClashBreaks(e: Engine, n: nat) returns (out: seq<Rec>)
    requires Inv(e) && e.sstables != [] && e.counter < TWO_64 && n >= 2 && DurableClash(e)
    ensures CanCompact(e, out) && View(Reopen(e.dir, CompactState(e, out, n))) != DurableView(e)
  {
    hide Inv, ClashesAt, View, Reopen, KeptMap, Contents, CompactState, Live, IsMerge, Inputs;
    var o := Reopen(e.dir, e.disk);
    var k :| ClashesAt(o, k);
    DurableParts(e);
    ReopenDisk(e.dir, e.disk);
    out := ClashBreaks(o, k);
    CompactStopOpens(e, out, n);
    ReopenActive(e);
  }

  /** Once the manifest is swapped, every permitted compaction keeps what is durable exactly when
      tables 0 and 1 do not clash under the log. */
  lemma CompactCrashIff(e: Engine, n: nat)
    requires Inv(e) && e.sstables != [] && e.counter < TWO_64 && n >= 2
    ensures (forall out :: CanCompact(e, out) ==> View(Reopen(e.dir, CompactState(e, out, n))) == DurableView(e))
            <==> !DurableClash(e)
  {
    hide Inv, CanCompact, DurableClash, View, Reopen, DurableView, CompactState;
    if DurableClash(e) {
      var out := DurableClashBreaks(e, n);
    } else {
      forall out | CanCompact(e, out) ensures View(Reopen(e.dir, CompactState(e, out, n))) == DurableView(e) {
        CompactCrashSafe(e, out, n);
      }
    }
  }

  lemma ReopenActive(e: Engine)
    ensures Contents(Reopen(e.dir, e.disk).active) == KeptMap(e.disk.log)
  {
  }

  /** A compaction keeps the invariant, what clients see when tables 0 and 1 do not clash, and what is
      durable when they do not clash under the log. */
  lemma CompactKeeps(e: Engine, out: seq<Rec>)
    requires Inv(e) && CanCompact(e, out)
    ensures Inv(CompactStep(e, out))
    ensures !Clash(e) ==> View(CompactStep(e, out)) == View(e)
    ensures !DurableClash(e) ==> DurableView(CompactStep(e, out)) == DurableView(e)
  {
    hide ExtractFileId, Named, DataPath, MergedPath, Contents, Base, Live, Sound, IsMerge, Inputs, WithoutTables,
         Replay, ClashesAt, KeptMap, Reopen, View, DurableClash;
    var n := 2 + |e.sstables|;
    CompactSound(e, out, n);
    CompactTable(e, out, n);
    NewPaths(e);
    assert Reversed([MergedPath(e.dir, e.counter)]) == [MergedPath(e.dir, e.counter)];
    if !Clash(e) {
      StepView(e, out);
      CompactedView(e, out);
    }
    if !DurableClash(e) {
      CompactCrashSafe(e, out, n);
    }
  }

  // ---- the tie can come up only before the first compaction ----

  /** The oldest table is a compacted one. */
  predicate Compacted(e: Engine) {
    e.disk.manifest != [] && e.disk.manifest[0] != DataPath(e.dir, ExtractFileId(e.disk.manifest[0]))
  }

  lemma CompactedNeverClashes(e: Engine)
    requires Inv(e) && Compacted(e)
    ensures !HasTie(e.sstables) && !Clash(e)
  {
    hide ExtractFileId, DataPath, MergedPath, IdsFall;
    var (oldest, n) := (e.disk.manifest[0], |e.sstables|);
    assert oldest in e.disk.manifest && Named(e.dir, oldest);
    assert e.sstables[n - 1] == oldest;
    TablesFall(e);
    if HasTie(e.sstables) {
      TiePositions(e.sstables);
    }
  }
}
