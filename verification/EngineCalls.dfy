/** The calls of a client, on records: which steps each call makes, so that what holds of every run
    holds of every sequence of calls (src/core/engine.cpp:88-125, 171-241). */
module EngineCalls {
  import opened Records
  import opened Upserts
  import opened Bytes
  import opened LogLine
  import opened LogRoundTrip
  import opened LogRecovery
  import opened MemTable
  import opened Paths
  import opened EngineModel
  import opened EngineCompaction
  import opened EngineRuns

  /** What a compaction request may do: nothing below the threshold; with no table at all, fail and
      use up an id; otherwise one whole compaction. */
  ghost predicate CompactResult(e: Engine, threshold: nat, next: Engine, ok: bool) {
    if |e.sstables| < threshold then ok && next == e
    else if e.sstables == [] then !ok && next == e.(counter := e.counter + 1)
    else ok && exists out :: CanCompact(e, out) && next == CompactStep(e, out)
  }

  /** A flush and the compaction that may follow it. */
  ghost predicate FlushResult(e: Engine, threshold: nat, next: Engine) {
    if e.active == [] then next == e else CompactResult(FlushStep(e), threshold, next, true)
  }

  /** A put, and the flush it causes when the memtable has grown to the buffer size. */
  ghost predicate PutResult(e: Engine, r: LogEntry, buffer: nat, threshold: nat, next: Engine) {
    var w := WriteStep(e, r);
    if Cost(w.active) < buffer then next == w else FlushResult(w, threshold, next)
  }

  // ---- what these results are ----

  /** Below the threshold a request changes nothing; with no table it only uses up an id; otherwise all
      tables become one. The memtable and the log stay as they are. */
  lemma CompactMeans(e: Engine, threshold: nat, next: Engine, ok: bool)
    requires CompactResult(e, threshold, next, ok)
    ensures next.active == e.active && next.disk.log == e.disk.log && next.dir == e.dir
    ensures |e.sstables| < threshold ==> ok && next == e
    ensures |e.sstables| >= threshold ==> next.counter == e.counter + 1 && (ok <==> e.sstables != [])
    ensures |e.sstables| >= threshold && e.sstables == [] ==> next.disk == e.disk && next.sstables == []
    ensures |e.sstables| >= threshold && e.sstables != [] ==> |next.sstables| == 1 == |next.disk.manifest|
  {
    hide MergedPath, WithoutTables;
    if |e.sstables| >= threshold && e.sstables != [] {
      var out :| CanCompact(e, out) && next == CompactStep(e, out);
      CompactLog(e, out, 2 + |e.sstables|);
    }
  }

  /** An empty memtable is not flushed. Otherwise the memtable and the log are empty afterwards, and
      there is one table more, or one alone when that reaches the threshold. */
  lemma FlushMeans(e: Engine, threshold: nat, next: Engine)
    requires FlushResult(e, threshold, next)
    ensures e.active == [] ==> next == e
    ensures e.active != [] ==> next.active == [] && next.disk.log == [] && next.dir == e.dir
    ensures e.active != [] && |e.sstables| + 1 < threshold ==>
      |next.sstables| == |e.sstables| + 1 && next.counter == e.counter + 1
    ensures e.active != [] && |e.sstables| + 1 >= threshold ==> |next.sstables| == 1 && next.counter == e.counter + 2
  {
    hide CompactResult, DataPath;
    if e.active != [] {
      CompactMeans(FlushStep(e), threshold, next, true);
    }
  }

  /** A put flushes exactly when the records of the memtable with it, at 112 bytes each and the lengths
      of their keys and values, reach the buffer size. */
  lemma PutMeans(e: Engine, r: LogEntry, buffer: nat, threshold: nat, next: Engine)
    requires IsRecord(r) && PutResult(e, r, buffer, threshold, next)
    ensures var w := WriteStep(e, r).active;
      && (112 * |w| + KeyBytes(w) + ValueBytes(w) < buffer ==> next == WriteStep(e, r) && next.active != [])
      && (112 * |w| + KeyBytes(w) + ValueBytes(w) >= buffer ==> next.active == [] && next.disk.log == [])
      && (112 * |w| + KeyBytes(w) + ValueBytes(w) >= buffer && |e.sstables| + 1 < threshold ==>
            |next.sstables| == |e.sstables| + 1)
      && (112 * |w| + KeyBytes(w) + ValueBytes(w) >= buffer && |e.sstables| + 1 >= threshold ==> |next.sstables| == 1)
  {
    hide FlushResult, WriteStep, Cost, KeyBytes, ValueBytes;
    CostIs(WriteStep(e, r).active);
    WriteParts(e, r);
    WrittenPending(e, r);
    if Cost(WriteStep(e, r).active) >= buffer {
      FlushMeans(WriteStep(e, r), threshold, next);
    }
  }

  // ---- no clash where a compaction really happens ----

  ghost predicate CompactsSafely(e: Engine, threshold: nat) {
    |e.sstables| >= threshold ==> !Clash(e) && !DurableClash(e)
  }

  ghost predicate FlushesSafely(e: Engine, threshold: nat) {
    e.active != [] && |FlushStep(e).sstables| >= threshold ==> !Clash(FlushStep(e))
  }

  ghost predicate PutsSafely(e: Engine, r: LogEntry, buffer: nat, threshold: nat) {
    Cost(WriteStep(e, r).active) >= buffer ==> FlushesSafely(WriteStep(e, r), threshold)
  }

  /** A compaction that does not happen, or meets no clash, is safe. */
  lemma SafeWhen(e: Engine, r: LogEntry, buffer: nat, threshold: nat)
    ensures |e.sstables| < threshold || (!Clash(e) && !DurableClash(e)) ==> CompactsSafely(e, threshold)
    ensures e.active == [] || |e.sstables| + 1 < threshold || !Clash(FlushStep(e)) ==> FlushesSafely(e, threshold)
    ensures Cost(WriteStep(e, r).active) < buffer || FlushesSafely(WriteStep(e, r), threshold) ==>
      PutsSafely(e, r, buffer, threshold)
  {
    hide Clash, DurableClash, FlushState, DataPath;
  }

  /** And so is a call. */
  lemma CallSafeWhen(e: Engine, call: Call, buffer: nat, threshold: nat)
    ensures call.Delete? || call.Restart? ==> CallsSafely(e, call, buffer, threshold)
    ensures call.Put? && PutsSafely(e, call.r, buffer, threshold) ==> CallsSafely(e, call, buffer, threshold)
    ensures (call.FlushMemTable? || call.Close?) && FlushesSafely(e, threshold) ==>
      CallsSafely(e, call, buffer, threshold)
    ensures call.TriggerCompaction? && CompactsSafely(e, threshold) ==> CallsSafely(e, call, buffer, threshold)
  {
    hide PutsSafely, FlushesSafely, CompactsSafely;
  }

  lemma FlushCounts(e: Engine)
    requires e.active != []
    ensures FlushStep(e).counter == e.counter + 1 && FlushStep(e).sstables != [] && FlushStep(e).dir == e.dir
  {
  }

  lemma WriteParts(e: Engine, r: LogEntry)
    ensures var w := WriteStep(e, r);
      && w.dir == e.dir && w.counter == e.counter && w.sstables == e.sstables && w.active == ReplayOne(e.active, r)
      && w.disk == e.disk.(log := e.disk.log + [r])
  {
  }

  lemma CounterRaised(e: Engine)
    requires Inv(e)
    ensures Inv(e.(counter := e.counter + 1))
  {
    hide Sound, ExtractFileId, KeptMap, Contents, Sorted, Clean;
  }

  /** What a compaction request does to what clients see and to what is durable. */
  lemma CompactResultKeeps(e: Engine, threshold: nat, next: Engine, ok: bool)
    requires Inv(e) && CompactResult(e, threshold, next, ok)
    ensures Inv(next)
    ensures (|e.sstables| >= threshold ==> !Clash(e)) ==> View(next) == View(e)
    ensures (|e.sstables| >= threshold ==> !DurableClash(e)) ==> DurableView(next) == DurableView(e)
  {
    hide Inv, CanCompact, CompactStep, Clash, DurableClash;
    if |e.sstables| >= threshold {
      if e.sstables == [] {
        CounterRaised(e);
      } else {
        var out :| CanCompact(e, out) && next == CompactStep(e, out);
        CompactKeeps(e, out);
      }
    }
  }

  lemma FlushResultKeeps(e: Engine, threshold: nat, next: Engine)
    requires Inv(e) && e.counter < TWO_64 && FlushResult(e, threshold, next)
    ensures Inv(next) && (FlushesSafely(e, threshold) ==> View(next) == View(e))
  {
    hide Inv, CompactResult, Clash, View, FlushStep;
    if e.active != [] {
      FlushKeeps(e);
      CompactResultKeeps(FlushStep(e), threshold, next, true);
    }
  }

  /** After a put clients see the updated map, unless it flushed, reached the compaction threshold, and
      the compaction met a clash. */
  lemma PutView(e: Engine, r: LogEntry, buffer: nat, threshold: nat, next: Engine)
    requires Inv(e) && IsRecord(r) && e.counter < TWO_64 && PutResult(e, r, buffer, threshold, next)
    ensures Inv(next) && (PutsSafely(e, r, buffer, threshold) ==> View(next) == ViewAfter(View(e), r))
  {
    hide Inv, FlushResult, FlushesSafely, View, ViewAfter, WriteStep;
    var w := WriteStep(e, r);
    WriteKeeps(e, r);
    WriteParts(e, r);
    if Cost(w.active) >= buffer {
      FlushResultKeeps(w, threshold, next);
    }
  }

  // ---- what clients see after a call ----

  lemma CompactShows(e: Engine, threshold: nat, next: Engine, ok: bool)
    requires Inv(e) && CompactResult(e, threshold, next, ok)
    ensures |e.sstables| < threshold || !Clash(e) ==> View(next) == View(e)
  {
    hide Inv, CompactResult, Clash, View, DurableView, DurableClash;
    CompactResultKeeps(e, threshold, next, ok);
  }

  lemma FlushShows(e: Engine, threshold: nat, next: Engine)
    requires Inv(e) && e.counter < TWO_64 && FlushResult(e, threshold, next)
    ensures |e.sstables| + 1 < threshold || !Clash(FlushStep(e)) ==> View(next) == View(e)
  {
    hide Inv, FlushResult, Clash, View, DataPath, FlushState;
    FlushResultKeeps(e, threshold, next);
  }

  lemma PutShows(e: Engine, r: LogEntry, buffer: nat, threshold: nat, next: Engine)
    requires Inv(e) && IsRecord(r) && r.operation == PUT && e.counter < TWO_64
    requires PutResult(e, r, buffer, threshold, next)
    ensures Cost(WriteStep(e, r).active) < buffer || |e.sstables| + 1 < threshold
            || !Clash(FlushStep(WriteStep(e, r))) ==>
      View(next) == View(e)[r.key := r.value]
  {
    hide Inv, FlushResult, Clash, View, WriteStep, FlushStep, Cost;
    WriteKeeps(e, r);
    WriteParts(e, r);
    if Cost(WriteStep(e, r).active) >= buffer {
      FlushShows(WriteStep(e, r), threshold, next);
    }
  }

  lemma DeleteShows(e: Engine, r: LogEntry)
    requires Inv(e) && IsRecord(r) && r.operation == DELETE
    ensures View(WriteStep(e, r)) == View(e) - {r.key}
    ensures WriteStep(e, r).active == Upsert(e.active, Rec(r.key, "", true))
  {
    hide Inv, View, Upsert;
    WriteKeeps(e, r);
  }

  // ---- calls are runs ----

  datatype Call = Put(r: LogEntry) | Delete(r: LogEntry) | FlushMemTable | TriggerCompaction | Close | Restart

  /** The call can take the engine from one state to the other. */
  ghost predicate Serves(e: Engine, call: Call, buffer: nat, threshold: nat, next: Engine) {
    match call
    case Put(r) =>
      IsRecord(r) && r.operation == PUT && e.counter + 1 < TWO_64 && PutResult(e, r, buffer, threshold, next)
    case Delete(r) => IsRecord(r) && r.operation == DELETE && next == WriteStep(e, r)
    case FlushMemTable => e.counter + 1 < TWO_64 && FlushResult(e, threshold, next)
    case TriggerCompaction => e.counter < TWO_64 && exists ok :: CompactResult(e, threshold, next, ok)
    case Close => e.counter + 1 < TWO_64 && FlushResult(e, threshold, next)
    case Restart => next == Reopen(e.dir, e.disk)
  }

  ghost predicate CallsSafely(e: Engine, call: Call, buffer: nat, threshold: nat) {
    match call
    case Put(r) => PutsSafely(e, r, buffer, threshold)
    case Delete(_) => true
    case FlushMemTable => FlushesSafely(e, threshold)
    case TriggerCompaction => CompactsSafely(e, threshold)
    case Close => FlushesSafely(e, threshold)
    case Restart => true
  }

  /** The records that a run writes, in order. */
  function WritesOf(steps: seq<Step>): seq<LogEntry>
    decreases |steps|
  {
    if steps == [] then [] else (if steps[0].Write? then [steps[0].r] else []) + WritesOf(steps[1..])
  }

  function RecordOf(call: Call): seq<LogEntry> {
    match call
    case Put(r) => [r]
    case Delete(r) => [r]
    case _ => []
  }

  /** The records of the puts and deletes, in order. */
  function RecordsOf(calls: seq<Call>): seq<LogEntry>
    decreases |calls|
  {
    if calls == [] then [] else RecordsOf(calls[..|calls| - 1]) + RecordOf(calls[|calls| - 1])
  }

  lemma {:induction false} WritesConcat(a: seq<Step>, b: seq<Step>)
    ensures WritesOf(a + b) == WritesOf(a) + WritesOf(b)
    decreases |a|
  {
    if a == [] {
      assert a + b == b;
    } else {
      WritesConcat(a[1..], b);
      assert a + b == [a[0]] + (a[1..] + b);
      WritesCons(a[0], a[1..] + b);
      WritesCons(a[0], a[1..]);
      assert a == [a[0]] + a[1..];
    }
  }

  lemma WritesCons(s: Step, steps: seq<Step>)
    ensures WritesOf([s] + steps) == (if s.Write? then [s.r] else []) + WritesOf(steps)
  {
    assert ([s] + steps)[1..] == steps;
  }

  lemma OneWrite(s: Step)
    ensures WritesOf([s]) == if s.Write? then [s.r] else []
  {
    assert [s][1..] == [];
  }

  lemma {:induction false} RunConcat(e: Engine, a: seq<Step>, b: seq<Step>)
    requires IsRun(e, a)
    ensures IsRun(e, a + b) <==> IsRun(AfterRun(e, a), b)
    ensures AfterRun(e, a + b) == AfterRun(AfterRun(e, a), b)
    ensures ClashFree(e, a) ==> (ClashFree(e, a + b) <==> ClashFree(AfterRun(e, a), b))
    decreases |a|
  {
    hide Next, Allowed, MeetsNoClash;
    if a == [] {
      assert a + b == b;
    } else {
      RunConcat(Next(e, a[0]), a[1..], b);
      assert a + b == [a[0]] + (a[1..] + b);
      RunCons(e, a[0], a[1..] + b);
    }
  }

  lemma OneStep(e: Engine, s: Step)
    requires Allowed(e, s)
    ensures IsRun(e, [s]) && AfterRun(e, [s]) == Next(e, s) && (ClashFree(e, [s]) <==> MeetsNoClash(e, s))
  {
    hide Next, Allowed, MeetsNoClash;
    assert [s][1..] == [];
  }

  lemma CompactSteps(e: Engine, threshold: nat, next: Engine, ok: bool) returns (steps: seq<Step>)
    requires Inv(e) && e.counter < TWO_64 && CompactResult(e, threshold, next, ok)
    ensures IsRun(e, steps) && AfterRun(e, steps) == next && WritesOf(steps) == []
    ensures CompactsSafely(e, threshold) ==> ClashFree(e, steps)
  {
    hide Inv, CanCompact, CompactStep, Clash, DurableClash, IsRun, AfterRun, ClashFree;
    if |e.sstables| < threshold {
      steps := [];
      NoSteps(e);
    } else if e.sstables == [] {
      steps := [UseId];
      OneStep(e, UseId);
      OneWrite(UseId);
    } else {
      var out :| CanCompact(e, out) && next == CompactStep(e, out);
      steps := [Compact(out)];
      OneStep(e, Compact(out));
      OneWrite(Compact(out));
    }
  }

  lemma NoSteps(e: Engine)
    ensures IsRun(e, []) && AfterRun(e, []) == e && ClashFree(e, [])
  {
  }

  lemma FlushSteps(e: Engine, threshold: nat, next: Engine) returns (steps: seq<Step>)
    requires Inv(e) && e.counter + 1 < TWO_64 && FlushResult(e, threshold, next)
    ensures IsRun(e, steps) && AfterRun(e, steps) == next && WritesOf(steps) == []
    ensures FlushesSafely(e, threshold) ==> ClashFree(e, steps)
  {
    hide Inv, CompactResult, FlushStep, Clash, DurableClash, IsRun, AfterRun, ClashFree, Clean;
    if e.active == [] {
      steps := [];
      NoSteps(e);
    } else {
      FlushKeeps(e);
      FlushCounts(e);
      FlushedSurvives(e);
      CleanClash(FlushStep(e));
      OneStep(e, Flush);
      var rest := CompactSteps(FlushStep(e), threshold, next, true);
      RunConcat(e, [Flush], rest);
      OneWrite(Flush);
      WritesConcat([Flush], rest);
      steps := [Flush] + rest;
    }
  }

  lemma PutSteps(e: Engine, r: LogEntry, buffer: nat, threshold: nat, next: Engine) returns (steps: seq<Step>)
    requires Inv(e) && IsRecord(r) && e.counter + 1 < TWO_64 && PutResult(e, r, buffer, threshold, next)
    ensures IsRun(e, steps) && AfterRun(e, steps) == next && WritesOf(steps) == [r]
    ensures PutsSafely(e, r, buffer, threshold) ==> ClashFree(e, steps)
  {
    hide Inv, FlushResult, FlushesSafely, WriteStep, IsRun, AfterRun, ClashFree, IsRecord;
    WriteKeeps(e, r);
    WriteParts(e, r);
    OneStep(e, Write(r));
    OneWrite(Write(r));
    steps := [Write(r)];
    if Cost(WriteStep(e, r).active) >= buffer {
      var rest := FlushSteps(WriteStep(e, r), threshold, next);
      RunConcat(e, steps, rest);
      WritesConcat(steps, rest);
      steps := steps + rest;
    }
  }

  /** Every call makes a run of steps that writes its own record and no other, without a clash when no
      compaction it causes meets one. */
  lemma CallSteps(e: Engine, call: Call, buffer: nat, threshold: nat, next: Engine) returns (steps: seq<Step>)
    requires Inv(e) && Serves(e, call, buffer, threshold, next)
    ensures IsRun(e, steps) && AfterRun(e, steps) == next && WritesOf(steps) == RecordOf(call)
    ensures CallsSafely(e, call, buffer, threshold) ==> ClashFree(e, steps)
  {
    hide Inv, FlushResult, PutResult, CompactResult, FlushesSafely, PutsSafely, CompactsSafely, WriteStep, Reopen,
         IsRun, AfterRun, ClashFree, IsRecord;
    match call
    case Put(r) => steps := PutSteps(e, r, buffer, threshold, next);
    case Delete(r) =>
      OneStep(e, Write(r));
      OneWrite(Write(r));
      steps := [Write(r)];
    case FlushMemTable => steps := FlushSteps(e, threshold, next);
    case TriggerCompaction =>
      var ok :| CompactResult(e, threshold, next, ok);
      steps := CompactSteps(e, threshold, next, ok);
    case Close => steps := FlushSteps(e, threshold, next);
    case Restart =>
      OneStep(e, Stop);
      OneWrite(Stop);
      steps := [Stop];
  }

  /** `states` are the engines between the calls. */
  ghost predicate CallsRun(states: seq<Engine>, calls: seq<Call>, buffer: nat, threshold: nat) {
    |states| == |calls| + 1
    && forall i :: 0 <= i < |calls| ==> Serves(states[i], calls[i], buffer, threshold, states[i + 1])
  }

  ghost predicate AllSafe(states: seq<Engine>, calls: seq<Call>, buffer: nat, threshold: nat) {
    |states| == |calls| + 1
    && forall i :: 0 <= i < |calls| ==> CallsSafely(states[i], calls[i], buffer, threshold)
  }

  /** Every sequence of calls is a run that writes the records of its puts and deletes in order, so the
      two maps after it are those of the run. */
  lemma {:induction false} CallsAreRuns(states: seq<Engine>, calls: seq<Call>, buffer: nat, threshold: nat)
    returns (steps: seq<Step>)
    requires CallsRun(states, calls, buffer, threshold) && Inv(states[0])
    ensures IsRun(states[0], steps) && AfterRun(states[0], steps) == states[|calls|] && Inv(states[|calls|])
    ensures WritesOf(steps) == RecordsOf(calls)
    ensures AllSafe(states, calls, buffer, threshold) ==>
      ClashFree(states[0], steps) && Seen(states[|calls|]) == MapsAfter(Seen(states[0]), steps)
    decreases |calls|
  {
    hide Inv, Serves, CallsSafely, IsRun, AfterRun, ClashFree, Seen, MapsAfter, RecordOf;
    if calls == [] {
      steps := [];
      NoSteps(states[0]);
    } else {
      var n := |calls| - 1;
      var before := CallsAreRuns(states[..n + 1], calls[..n], buffer, threshold);
      var last := CallSteps(states[n], calls[n], buffer, threshold, states[n + 1]);
      RunConcat(states[0], before, last);
      WritesConcat(before, last);
      steps := before + last;
    }
    RunRefinesMap(states[0], steps);
  }

  // ---- what each call does to the two maps ----

  /** The put makes the memtable reach the buffer size. */
  predicate Fills(e: Engine, call: Call, buffer: nat) {
    call.Put? && Cost(WriteStep(e, call.r).active) >= buffer
  }

  function MapsCall(m: Maps, call: Call, fills: bool): Maps {
    match call
    case Put(r) => if fills then Flushed(Written(m, r)) else Written(m, r)
    case Delete(r) => Written(m, r)
    case FlushMemTable => MapsNext(m, Flush)
    case TriggerCompaction => m
    case Close => MapsNext(m, Flush)
    case Restart => Stopped(m, m.durable)
  }

  lemma CompactSeen(e: Engine, threshold: nat, next: Engine, ok: bool)
    requires Inv(e) && CompactResult(e, threshold, next, ok) && CompactsSafely(e, threshold)
    ensures Inv(next) && Seen(next) == Seen(e)
  {
    hide Inv, CanCompact, CompactStep, Clash, DurableClash, Seen;
    if |e.sstables| >= threshold {
      if e.sstables == [] {
        UseIdRefines(e);
      } else {
        var out :| CanCompact(e, out) && next == CompactStep(e, out);
        CompactRefines(e, out);
      }
    }
  }

  lemma FlushSeen(e: Engine, threshold: nat, next: Engine)
    requires Inv(e) && e.counter < TWO_64 && FlushResult(e, threshold, next) && FlushesSafely(e, threshold)
    ensures Inv(next) && Seen(next) == MapsNext(Seen(e), Flush)
  {
    hide Inv, CompactResult, FlushStep, Clash, DurableClash, View, DurableView, KeptMap, Clean;
    if e.active != [] {
      FlushRefines(e);
      FlushKeeps(e);
      FlushedSurvives(e);
      CleanClash(FlushStep(e));
      CompactSeen(FlushStep(e), threshold, next, true);
    }
  }

  lemma PutSeen(e: Engine, r: LogEntry, buffer: nat, threshold: nat, next: Engine)
    requires Inv(e) && IsRecord(r) && e.counter < TWO_64 && PutResult(e, r, buffer, threshold, next)
    requires PutsSafely(e, r, buffer, threshold)
    ensures Inv(next) && Seen(next) ==
      if Cost(WriteStep(e, r).active) >= buffer then Flushed(Written(Seen(e), r)) else Written(Seen(e), r)
  {
    hide Inv, FlushResult, FlushesSafely, WriteStep, IsRecord, Seen, ViewAfter;
    WriteRefines(e, r);
    WriteParts(e, r);
    if Cost(WriteStep(e, r).active) >= buffer {
      FlushSeen(WriteStep(e, r), threshold, next);
    }
  }

  /** Every call that meets no clash does to what clients see and to what is durable exactly this. */
  lemma CallRefines(e: Engine, call: Call, buffer: nat, threshold: nat, next: Engine)
    requires Inv(e) && Serves(e, call, buffer, threshold, next) && CallsSafely(e, call, buffer, threshold)
    ensures Inv(next) && Seen(next) == MapsCall(Seen(e), call, Fills(e, call, buffer))
  {
    hide Inv, FlushResult, PutResult, CompactResult, FlushesSafely, PutsSafely, CompactsSafely, WriteStep, Reopen,
         IsRecord, Seen, Flushed, Written, Stopped;
    match call
    case Put(r) => PutSeen(e, r, buffer, threshold, next);
    case Delete(r) => WriteRefines(e, r);
    case FlushMemTable => FlushSeen(e, threshold, next);
    case TriggerCompaction =>
      var ok :| CompactResult(e, threshold, next, ok);
      CompactSeen(e, threshold, next, ok);
    case Close => FlushSeen(e, threshold, next);
    case Restart => StepRefines(e, Stop);
  }

  /** What the call does to a plain map. */
  function CallAfter(view: map<string, string>, call: Call): map<string, string> {
    match call
    case Put(r) => ViewAfter(view, r)
    case Delete(r) => ViewAfter(view, r)
    case _ => view
  }

  function CallsAfter(view: map<string, string>, calls: seq<Call>): map<string, string> {
    if calls == [] then view else CallAfter(CallsAfter(view, calls[..|calls| - 1]), calls[|calls| - 1])
  }

  /** Every restart finds a log without hazardous keys. */
  predicate CleanRestarts(states: seq<Engine>, calls: seq<Call>)
    requires |states| == |calls| + 1
  {
    forall i :: 0 <= i < |calls| && calls[i].Restart? ==> Clean(states[i].disk.log)
  }

  lemma CallView(e: Engine, call: Call, buffer: nat, threshold: nat, next: Engine)
    requires Inv(e) && Serves(e, call, buffer, threshold, next) && CallsSafely(e, call, buffer, threshold)
    requires call.Restart? ==> Clean(e.disk.log)
    ensures Inv(next) && View(next) == CallAfter(View(e), call)
  {
    hide Inv, Serves, CallsSafely, View, DurableView, Clean, KeptMap, ViewAfter, Reopen, DurablyShown, Hazardous;
    CallRefines(e, call, buffer, threshold, next);
    ReopenKeepsIff(e);
  }

  /** After any calls that meet no clash and whose restarts find no hazardous key in the log, clients see
      the plain map with the same puts and deletes. */
  lemma {:induction false} CallsArePlain(states: seq<Engine>, calls: seq<Call>, buffer: nat, threshold: nat)
    requires CallsRun(states, calls, buffer, threshold) && Inv(states[0])
    requires AllSafe(states, calls, buffer, threshold) && CleanRestarts(states, calls)
    ensures Inv(states[|calls|]) && View(states[|calls|]) == CallsAfter(View(states[0]), calls)
    decreases |calls|
  {
    hide Inv, Serves, CallsSafely, View, ViewAfter, Clean;
    if calls != [] {
      var n := |calls| - 1;
      CallsArePlain(states[..n + 1], calls[..n], buffer, threshold);
      CallView(states[n], calls[n], buffer, threshold, states[n + 1]);
    }
  }
}
