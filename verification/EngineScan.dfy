/** What scans of the engine return, and exactly when that is the clients' view
    (src/core/engine.cpp:324-404). */
module EngineScan {
  import opened Keys
  import opened Records
  import opened Bytes
  import opened Paths
  import opened Merge
  import opened MergeChoice
  import opened ScanSpec
  import opened EngineModel
  import opened EngineCompaction

  /** The memtable has the largest generation; the tables follow, newest first. */
  function ScanInputs(e: Engine): seq<Input> {
    [Input(TWO_64 - 1, e.active)] + EngineInputs(e)
  }

  function ViewWithin(view: map<string, string>, range: Range): map<string, string> {
    map k | k in view && range.Covers(k) :: view[k]
  }

  lemma ScanHolds(e: Engine, i: int, k: string)
    ensures Holds(ScanInputs(e), i, k)
            <==> (i == 0 && k in Contents(e.active)) || (i > 0 && Holds(EngineInputs(e), i - 1, k))
  {
    hide Contents, Inputs;
    var (all, tables) := (ScanInputs(e), EngineInputs(e));
    assert all[0] == Input(TWO_64 - 1, e.active);
    assert 0 < i < |all| ==> all[i] == tables[i - 1];
  }

  lemma ScanHeld(e: Engine, i: nat, k: string)
    requires i > 0 && Holds(ScanInputs(e), i, k)
    ensures Holds(EngineInputs(e), i - 1, k) && Held(ScanInputs(e), i, k) == Held(EngineInputs(e), i - 1, k)
  {
    hide Contents, Inputs;
    assert ScanInputs(e)[i] == EngineInputs(e)[i - 1];
  }

  lemma GenerationBelow(e: Engine, i: nat)
    requires Inv(e) && e.counter < TWO_64 && i < |e.sstables|
    ensures EffectiveId(e.sstables, i) < TWO_64 - 1 && ScanInputs(e)[i + 1].id == EffectiveId(e.sstables, i)
  {
    hide ExtractFileId, Sound;
    TablesFall(e);
    var p := e.sstables[i];
    assert p in e.disk.manifest;
    if ExtractFileId(p) == 0 {
      ZeroIsLast(e.sstables, i);
    }
  }

  lemma ScanSorted(e: Engine)
    requires Inv(e)
    ensures AllSorted(ScanInputs(e))
  {
    hide ExtractFileId, Sorted, EffectiveId, Named, IdsAscend;
    forall i | 0 <= i < |e.sstables| ensures Sorted(TableOf(e.disk.tables, e.sstables[i])) {
      assert e.sstables[i] in e.disk.manifest;
    }
  }

  /** A key of the memtable is won by the memtable. */
  lemma MemTableWins(e: Engine, i: int, k: string)
    requires Inv(e) && e.counter < TWO_64 && k in Contents(e.active) && Wins(ScanInputs(e), i, k)
    ensures i == 0
  {
    hide Contents, Inv, EffectiveId;
    var ins := ScanInputs(e);
    ScanHolds(e, 0, k);
    assert Holds(ins, 0, k) && ins[0].id == TWO_64 - 1;
    if i > 0 {
      GenerationBelow(e, i - 1);
    }
  }

  lemma TableWins(e: Engine, i: int, k: string)
    requires k !in Contents(e.active)
    ensures Wins(ScanInputs(e), i, k) <==> i > 0 && Wins(EngineInputs(e), i - 1, k)
  {
    hide Contents, Inputs, ScanInputs, EngineInputs;
    var (all, tables) := (ScanInputs(e), EngineInputs(e));
    InputsShift(e);
    forall j ensures Holds(all, j, k) <==> j > 0 && Holds(tables, j - 1, k) { ScanHolds(e, j, k); }
    if Wins(all, i, k) {
      forall j | Holds(tables, j, k) ensures tables[j].id <= tables[i - 1].id {
        assert Holds(all, j + 1, k);
      }
    }
  }

  lemma InputsShift(e: Engine)
    ensures |ScanInputs(e)| == |EngineInputs(e)| + 1
    ensures forall j :: 0 <= j < |EngineInputs(e)| ==> ScanInputs(e)[j + 1] == EngineInputs(e)[j]
  {
  }

  lemma NoneHeld(e: Engine, k: string)
    requires Unheld(ScanInputs(e), k)
    ensures k !in Content(e)
  {
    hide Contents, Base, Inputs, NewestWins;
    forall j ensures !Holds(EngineInputs(e), j, k) {
      if Holds(EngineInputs(e), j, k) {
        assert j + 1 > 0;
        ScanHolds(e, j + 1, k);
      }
    }
    ScanHolds(e, 0, k);
    NewestIsBase(e.disk.tables, e.sstables);
    var _ := NewestHolder(EngineInputs(e), k);
  }

  lemma WinnerIsView(e: Engine, i: int, k: string)
    requires Inv(e) && e.counter < TWO_64 && !ClashesAt(e, k) && Wins(ScanInputs(e), i, k)
    ensures LiveValue(Held(ScanInputs(e), i, k)) == LiveAt(Content(e), k)
  {
    hide Contents, Inv, Base, ClashesAt, Inputs;
    assert Holds(ScanInputs(e), i, k);
    ScanHolds(e, i, k);
    if k in Contents(e.active) {
      MemTableWins(e, i, k);
    } else {
      TableWins(e, i, k);
      ScanHeld(e, i, k);
      WinnerShows(e, i - 1, k);
    }
  }

  /** A scan shows a key as lookups do, unless tables 0 and 1 clash there. */
  lemma ScanShows(e: Engine, range: Range, full: seq<Rec>, k: string)
    requires Inv(e) && e.counter < TWO_64 && IsScan(ScanInputs(e), range, full)
    requires range.Covers(k) && !ClashesAt(e, k)
    ensures LiveAt(Contents(full), k) == LiveAt(Content(e), k)
  {
    hide Contents, Inv, Sorted, ClashesAt, Content, Less, ScanInputs;
    var ins := ScanInputs(e);
    assert MergedAt(ins, true, k, Find(Contents(full), k));
    if Unheld(ins, k) && Find(Contents(full), k) == None {
      NoneHeld(e, k);
    } else {
      var i :| Wins(ins, i, k) && Find(Contents(full), k) == Emitted(Held(ins, i, k), true);
      WinnerIsView(e, i, k);
    }
  }

  lemma LiveWithin(m: map<string, Entry>, view: map<string, Entry>, range: Range)
    requires forall k :: LiveAt(m, k) == if range.Covers(k) then LiveAt(view, k) else None
    ensures Live(m) == ViewWithin(Live(view), range)
  {
    hide Less;
    forall k ensures k in Live(m) <==> k in ViewWithin(Live(view), range) {
      assert LiveAt(m, k) == if range.Covers(k) then LiveAt(view, k) else None;
    }
    forall k | k in Live(m) ensures Live(m)[k] == ViewWithin(Live(view), range)[k] {
      assert LiveAt(m, k) == if range.Covers(k) then LiveAt(view, k) else None;
    }
  }

  predicate NoneDeleted(recs: seq<Rec>) {
    forall i :: 0 <= i < |recs| ==> !recs[i].deleted
  }

  /** `full` lists the part of the view in the range, in key order. */
  ghost predicate Lists(full: seq<Rec>, view: map<string, string>, range: Range) {
    Sorted(full) && NoneDeleted(full) && Live(Contents(full)) == ViewWithin(view, range)
  }

  /** `results` are the first `limit` pairs of the view in the range, in key order; 0 is no limit. */
  ghost predicate ListsView(results: seq<(string, string)>, view: map<string, string>, range: Range, limit: nat) {
    exists full :: Lists(full, view, range) && results == Pairs(Taken(full, limit))
  }

  /** What a scan may return, whatever the heap does with equal ids. */
  ghost predicate ScanResult(results: seq<(string, string)>, inputs: seq<Input>, range: Range, limit: nat) {
    exists full :: IsScan(inputs, range, full) && results == Pairs(Taken(full, limit))
  }

  lemma PairAt(full: seq<Rec>, view: map<string, string>, range: Range, i: nat)
    requires Lists(full, view, range) && i < |full|
    ensures full[i].key in view && range.Covers(full[i].key) && view[full[i].key] == full[i].value
  {
    hide Less, Sorted;
    RecordBound(full, i);
    assert full[i].key in Live(Contents(full));
  }

  lemma KeyListed(full: seq<Rec>, view: map<string, string>, range: Range, k: string) returns (i: nat)
    requires Lists(full, view, range) && k in view && range.Covers(k)
    ensures i < |full| && full[i].key == k && full[i].value == view[k]
  {
    hide Less, Sorted;
    assert k in Live(Contents(full));
    i := KeyHasIndex(full, k);
    PairAt(full, view, range, i);
  }

  /** A listing ascends strictly, holds only pairs of the view in the range, at most `limit` of them,
      and misses none: neither when it is not cut, nor below the last pair when it is. */
  lemma ListingMeans(results: seq<(string, string)>, view: map<string, string>, range: Range, limit: nat)
    requires ListsView(results, view, range, limit)
    ensures forall i, j :: 0 <= i < j < |results| ==> Less(results[i].0, results[j].0)
    ensures forall i :: 0 <= i < |results| ==>
      results[i].0 in view && range.Covers(results[i].0) && view[results[i].0] == results[i].1
    ensures limit > 0 ==> |results| <= limit
    ensures forall k :: k in view && range.Covers(k) ==>
      (k, view[k]) in results || (0 < limit == |results| && Less(results[limit - 1].0, k))
  {
    hide Less, Contents, Live, ViewWithin, Lists;
    var full :| Lists(full, view, range) && results == Pairs(Taken(full, limit));
    ListedSorted(full, view, range);
    forall i | 0 <= i < |results|
      ensures results[i].0 in view && range.Covers(results[i].0) && view[results[i].0] == results[i].1
    {
      PairAt(full, view, range, i);
    }
    forall k | k in view && range.Covers(k)
      ensures (k, view[k]) in results || (0 < limit == |results| && Less(results[limit - 1].0, k))
    {
      var i := KeyListed(full, view, range, k);
      if i < |results| {
        assert results[i] == (k, view[k]);
      }
    }
  }

  lemma ListedSorted(full: seq<Rec>, view: map<string, string>, range: Range)
    requires Lists(full, view, range)
    ensures Sorted(full)
  {
  }

  /** What the bounds of a range are: both ends are inside, and an empty end is none. */
  lemma CoversBetween(start: string, end: string, k: string)
    ensures Between(start, end).Covers(k) <==> AtMost(start, k) && (end == "" || AtMost(k, end))
  {
    hide Less;
    Total(k, start);
    Total(end, k);
    Irreflexive(k);
    if Less(start, k) { Asymmetric(start, k); }
    if Less(k, end) { Asymmetric(k, end); }
  }

  lemma CoversPrefix(prefix: string, k: string)
    ensures WithPrefix(prefix).Covers(k) <==> |prefix| <= |k| && k[..|prefix|] == prefix
  {
  }

  lemma ResultInside(results: seq<(string, string)>, inputs: seq<Input>, range: Range, limit: nat)
    requires ScanResult(results, inputs, range, limit)
    ensures forall i :: 0 <= i < |results| ==> range.Covers(results[i].0)
    ensures forall i, j :: 0 <= i < j < |results| ==> Less(results[i].0, results[j].0)
    ensures limit > 0 ==> |results| <= limit
  {
    hide Less, Contents, MergedAt, Live;
    var full: seq<Rec> :| IsScan(inputs, range, full) && results == Pairs(Taken(full, limit));
    forall i | 0 <= i < |full| ensures range.Covers(full[i].key) {
      RecordBound(full, i);
    }
  }

  /** What a range scan returns, in terms of the keys alone: it ascends, stays between the bounds, both
      included, and respects the limit; and where no key between the bounds clashes it holds the view's
      pairs there, all of them unless the limit cut it behind its last key. */
  lemma ScanBetween(e: Engine, start: string, end: string, limit: nat, results: seq<(string, string)>)
    requires Inv(e) && ScanResult(results, ScanInputs(e), Between(start, end), limit)
    ensures forall i, j :: 0 <= i < j < |results| ==> Less(results[i].0, results[j].0)
    ensures forall i :: 0 <= i < |results| ==>
      AtMost(start, results[i].0) && (end == "" || AtMost(results[i].0, end))
    ensures limit > 0 ==> |results| <= limit
    ensures e.counter < TWO_64
            && (forall k :: AtMost(start, k) && (end == "" || AtMost(k, end)) ==> !ClashesAt(e, k)) ==>
      && (forall i :: 0 <= i < |results| ==> results[i].0 in View(e) && View(e)[results[i].0] == results[i].1)
      && (forall k :: k in View(e) && AtMost(start, k) && (end == "" || AtMost(k, end)) ==>
            (k, View(e)[k]) in results || (0 < limit == |results| && Less(results[limit - 1].0, k)))
  {
    hide Inv, View, Less, AtMost, ScanResult, ScanInputs, ClashesAt, Range.Covers, ListsView;
    var range := Between(start, end);
    ResultInside(results, ScanInputs(e), range, limit);
    forall k ensures range.Covers(k) <==> AtMost(start, k) && (end == "" || AtMost(k, end)) {
      CoversBetween(start, end, k);
    }
    if e.counter < TWO_64 && !ClashWithin(e, range) {
      ResultIsListing(e, range, limit, results);
      ListingMeans(results, View(e), range, limit);
    }
  }

  /** The same for a prefix scan: the keys that begin with the prefix. */
  lemma ScanPrefixed(e: Engine, prefix: string, limit: nat, results: seq<(string, string)>)
    requires Inv(e) && ScanResult(results, ScanInputs(e), WithPrefix(prefix), limit)
    ensures forall i, j :: 0 <= i < j < |results| ==> Less(results[i].0, results[j].0)
    ensures forall i :: 0 <= i < |results| ==>
      |prefix| <= |results[i].0| && results[i].0[..|prefix|] == prefix
    ensures limit > 0 ==> |results| <= limit
    ensures e.counter < TWO_64
            && (forall k :: |prefix| <= |k| && k[..|prefix|] == prefix ==> !ClashesAt(e, k)) ==>
      && (forall i :: 0 <= i < |results| ==> results[i].0 in View(e) && View(e)[results[i].0] == results[i].1)
      && (forall k :: k in View(e) && |prefix| <= |k| && k[..|prefix|] == prefix ==>
            (k, View(e)[k]) in results || (0 < limit == |results| && Less(results[limit - 1].0, k)))
  {
    hide Inv, View, Less, ScanResult, ScanInputs, ClashesAt, Range.Covers, ListsView;
    var range := WithPrefix(prefix);
    ResultInside(results, ScanInputs(e), range, limit);
    forall k ensures range.Covers(k) <==> |prefix| <= |k| && k[..|prefix|] == prefix {
      CoversPrefix(prefix, k);
    }
    if e.counter < TWO_64 && !ClashWithin(e, range) {
      ResultIsListing(e, range, limit, results);
      ListingMeans(results, View(e), range, limit);
    }
  }

  /** A scan lists no tombstone. */
  lemma ScanNoneDeleted(inputs: seq<Input>, range: Range, full: seq<Rec>)
    requires IsScan(inputs, range, full)
    ensures NoneDeleted(full)
  {
    hide Less, Contents, Wins;
    forall i | 0 <= i < |full| ensures !full[i].deleted {
      RecordBound(full, i);
      assert MergedAt(inputs, true, full[i].key, Find(Contents(full), full[i].key));
    }
  }

  ghost predicate ClashWithin(e: Engine, range: Range) {
    exists k :: range.Covers(k) && ClashesAt(e, k)
  }

  /** Without a clash in the range, the scanned list holds exactly the view's keys in the range. */
  lemma ScanIsView(e: Engine, range: Range, full: seq<Rec>)
    requires Inv(e) && e.counter < TWO_64 && IsScan(ScanInputs(e), range, full) && !ClashWithin(e, range)
    ensures Live(Contents(full)) == ViewWithin(View(e), range)
  {
    hide Contents, Inv, Content, Less, ScanInputs, MergedAt, ClashesAt;
    forall k ensures LiveAt(Contents(full), k) == if range.Covers(k) then LiveAt(Content(e), k) else None {
      if range.Covers(k) {
        ScanShows(e, range, full, k);
      }
    }
    LiveWithin(Contents(full), Content(e), range);
  }

  lemma ClashMerge(e: Engine, k: string) returns (out: seq<Rec>)
    requires Inv(e) && ClashesAt(e, k)
    ensures IsMerge(ScanInputs(e), true, out) && LiveAt(Contents(out), k) != LiveAt(Content(e), k)
  {
    hide Contents, Inv, IsMerge, Inputs, Base, TableMap, ScanInputs, Wins;
    var n := |e.sstables|;
    OldestWins(e, k);
    TableWins(e, n, k);
    WinsHolds(e, n, k);
    HoldsTable(e, n - 1, k);
    ScanHeld(e, n, k);
    out := MergeWith(ScanInputs(e), k, n);
    HoldsTable(e, n - 2, k);
    var newest := NewestTable(e, k);
    assert newest == n - 2;
  }

  lemma WinsHolds(e: Engine, i: int, k: string)
    requires Wins(ScanInputs(e), i, k)
    ensures Holds(ScanInputs(e), i, k)
  {
  }

  /** Without a clash in the range, what a scan returns is the listing of the view. */
  lemma ResultIsListing(e: Engine, range: Range, limit: nat, results: seq<(string, string)>)
    requires Inv(e) && e.counter < TWO_64 && ScanResult(results, ScanInputs(e), range, limit) && !ClashWithin(e, range)
    ensures ListsView(results, View(e), range, limit)
  {
    hide Inv, IsScan, View, Live, Contents, ViewWithin, ScanInputs, ClashWithin, Pairs, Taken;
    var full :| IsScan(ScanInputs(e), range, full) && results == Pairs(Taken(full, limit));
    ScanIsView(e, range, full);
    ScanNoneDeleted(ScanInputs(e), range, full);
    ScanIsSorted(ScanInputs(e), range, full);
    assert Lists(full, View(e), range);
  }

  lemma ScanIsSorted(inputs: seq<Input>, range: Range, full: seq<Rec>)
    requires IsScan(inputs, range, full)
    ensures Sorted(full)
  {
  }

  /** Some permitted scan shows the older value of a clashing key. */
  lemma ClashScan(e: Engine, range: Range, k: string) returns (full: seq<Rec>)
    requires Inv(e) && range.Covers(k) && ClashesAt(e, k)
    ensures IsScan(ScanInputs(e), range, full)
    ensures LiveAt(Contents(full), k) != LiveAt(Content(e), k)
  {
    hide Contents, Inv, Less, IsMerge, MergedAt, Content, Sorted, ClashesAt, ScanInputs;
    var ins := ScanInputs(e);
    var out := ClashMerge(e, k);
    var m := Within(Contents(out), range);
    full := Listing(m);
    forall x | range.Covers(x) ensures MergedAt(ins, true, x, Find(Contents(full), x)) {
      MergeAtKey(ins, out, x);
      assert Find(m, x) == Find(Contents(out), x);
    }
  }

  /** Scans agree with lookups, whatever the heap does with equal ids, exactly when tables 0 and 1
      do not clash in the range. */
  lemma ScanRightIff(e: Engine, range: Range)
    requires Inv(e) && e.counter < TWO_64
    ensures (forall full :: IsScan(ScanInputs(e), range, full) ==> Live(Contents(full)) == ViewWithin(View(e), range))
            <==> !ClashWithin(e, range)
  {
    hide Inv, IsScan, ClashesAt, Content, Contents, Live, ScanInputs, ViewWithin;
    if ClashWithin(e, range) {
      var k :| range.Covers(k) && ClashesAt(e, k);
      var full := ClashScan(e, range, k);
      DiffersWithin(Contents(full), Content(e), range, k);
    } else {
      forall full | IsScan(ScanInputs(e), range, full) ensures Live(Contents(full)) == ViewWithin(View(e), range) {
        ScanIsView(e, range, full);
      }
    }
  }

  lemma DiffersWithin(m: map<string, Entry>, view: map<string, Entry>, range: Range, k: string)
    requires range.Covers(k) && LiveAt(m, k) != LiveAt(view, k)
    ensures Live(m) != ViewWithin(Live(view), range)
  {
    hide Less;
    LiveIsLiveAt(m, k);
    LiveIsLiveAt(view, k);
  }

  /** After a compaction has completed, every scan and prefix scan is right. */
  lemma CompactedScans(e: Engine, range: Range, full: seq<Rec>)
    requires Inv(e) && e.counter < TWO_64 && Compacted(e) && IsScan(ScanInputs(e), range, full)
    ensures Live(Contents(full)) == ViewWithin(View(e), range)
  {
    hide Inv, IsScan, ClashesAt, Compacted, HasTie;
    CompactedNeverClashes(e);
    ScanIsView(e, range, full);
  }
}
