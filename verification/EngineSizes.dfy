/** How large the tables of an engine can become: a bound a caller can check before a flush or a
    compaction, because merged records come from the merged tables. */
module EngineSizes {
  import opened Records
  import opened Bytes
  import opened BloomFilter
  import opened TableFormat
  import opened SSTableReader
  import opened MemTable
  import opened Paths
  import opened Merge
  import opened EngineModel
  import opened EngineCompaction

  /** The bytes of the filter and the footer of a table. */
  const OVERHEAD: nat := 40 + (BIT_COUNT + 7) / 8 + FOOTER_SIZE

  /** At least the bytes a record adds to a table: itself, and its key once more in the sparse index. */
  function Weight(recs: seq<Rec>): nat {
    if recs == [] then 0
    else
      var (t, r) := (recs[..|recs| - 1], recs[|recs| - 1]);
      Weight(t) + 21 + 2 * |r.key| + |r.value|
  }

  /** The table file for these records stays below 2^64 bytes. */
  ghost predicate Fits(recs: seq<Rec>) {
    forall filter: Filter :: filter.WellFormed() && filter.bitCount == BIT_COUNT ==> |TableBytes(recs, filter)| < TWO_64
  }

  lemma RecordLength(r: Rec)
    ensures |RecordBytes(r)| <= 9 + |r.key| + |r.value|
    ensures forall offset :: |EntryBytes(IndexEntry(r.key, offset))| <= 12 + |r.key|
  {
    hide EncodeU32, EncodeU64;
    var n := |r.key| % TWO_32;
    assert |Stored(r.key)| == n <= |r.key|;
  }

  lemma {:induction false} DataLength(recs: seq<Rec>)
    ensures |DataBytes(recs)| + |IndexBytes(TableFormat.IndexOf(recs))| <= Weight(recs)
  {
    hide RecordBytes, EntryBytes;
    if recs == [] {
      assert TableFormat.IndexOf(recs) == [] && IndexBytes([]) == [];
    } else {
      var (n, t, r) := (|recs| - 1, recs[..|recs| - 1], recs[|recs| - 1]);
      DataLength(t);
      RecordLength(r);
      var (before, entry) := (TableFormat.IndexOf(t), IndexEntry(r.key, |DataBytes(t)|));
      IndexGrows(before, entry);
    }
  }

  lemma IndexGrows(before: seq<IndexEntry>, entry: IndexEntry)
    ensures |IndexBytes(before + [entry])| == |IndexBytes(before)| + |EntryBytes(entry)| && before + [] == before
  {
    hide EntryBytes;
    assert (before + [entry])[..|before|] == before;
  }

  lemma FilterLength(f: Filter)
    requires f.WellFormed() && f.bitCount == BIT_COUNT
    ensures |FilterBytes(f)| == 40 + (BIT_COUNT + 7) / 8
  {
    hide EncodeU64;
  }

  /** A table is no larger than the weight of its records, its filter and its footer. */
  lemma WeightFits(recs: seq<Rec>)
    requires Weight(recs) + OVERHEAD < TWO_64
    ensures Fits(recs)
  {
    hide DataBytes, IndexBytes, TableFormat.IndexOf, FilterBytes, FooterBytes, Weight;
    forall filter: Filter | filter.WellFormed() && filter.bitCount == BIT_COUNT
      ensures |TableBytes(recs, filter)| < TWO_64
    {
      DataLength(recs);
      FilterLength(filter);
    }
  }

  // ---- merged records ----

  lemma {:induction false} WeightConcat(a: seq<Rec>, b: seq<Rec>)
    ensures Weight(a + b) == Weight(a) + Weight(b)
  {
    if b == [] {
      assert a + b == a;
    } else {
      var n := |b| - 1;
      assert (a + b)[..|a| + n] == a + b[..n];
      WeightConcat(a, b[..n]);
    }
  }

  predicate AllDifferent(recs: seq<Rec>) {
    forall i, j :: 0 <= i < j < |recs| ==> recs[i] != recs[j]
  }

  /** Different records, each taken from a list, weigh no more than the list. */
  lemma {:induction false} DistinctWeight(a: seq<Rec>, b: seq<Rec>)
    requires AllDifferent(a) && forall r :: r in a ==> r in b
    ensures Weight(a) <= Weight(b)
    decreases |a|
  {
    if a != [] {
      var (n, x) := (|a| - 1, a[|a| - 1]);
      assert x in a;
      var i :| 0 <= i < |b| && b[i] == x;
      var rest := b[..i] + b[i + 1..];
      forall r | r in a[..n] ensures r in rest {
        var j :| 0 <= j < n && a[j] == r;
        assert r in a && r != x;
        var k :| 0 <= k < |b| && b[k] == r;
        assert if k < i then rest[k] == r else rest[k - 1] == r;
      }
      DistinctWeight(a[..n], rest);
      WeightWithout(b, i);
    }
  }

  lemma WeightWithout(b: seq<Rec>, i: nat)
    requires i < |b|
    ensures Weight(b) == Weight(b[..i] + b[i + 1..]) + 21 + 2 * |b[i].key| + |b[i].value|
  {
    assert b == (b[..i] + [b[i]]) + b[i + 1..];
    WeightConcat(b[..i] + [b[i]], b[i + 1..]);
    assert (b[..i] + [b[i]])[..i] == b[..i];
    WeightConcat(b[..i], b[i + 1..]);
  }

  function AllRecs(tables: map<string, seq<Rec>>, paths: seq<string>): seq<Rec> {
    if paths == [] then [] else TableOf(tables, paths[0]) + AllRecs(tables, paths[1..])
  }

  lemma {:induction false} TableIn(tables: map<string, seq<Rec>>, paths: seq<string>, j: nat, r: Rec)
    requires j < |paths| && r in TableOf(tables, paths[j])
    ensures r in AllRecs(tables, paths)
  {
    if j > 0 {
      TableIn(tables, paths[1..], j - 1, r);
    }
  }

  /** Every record of a merge is a record of one of its tables. */
  lemma MergedFrom(e: Engine, out: seq<Rec>, r: Rec)
    requires IsMerge(EngineInputs(e), true, out) && r in out
    ensures r in AllRecs(e.disk.tables, e.sstables)
  {
    hide Contents, AllRecs, Inputs;
    var i :| 0 <= i < |out| && out[i] == r;
    RecordBound(out, i);
    assert MergedAt(EngineInputs(e), true, r.key, Find(Contents(out), r.key));
    var j :| Wins(EngineInputs(e), j, r.key)
      && Find(Contents(out), r.key) == Emitted(Held(EngineInputs(e), j, r.key), true);
    assert Holds(EngineInputs(e), j, r.key);
    HoldsTable(e, j, r.key);
    var t := TableOf(e.disk.tables, e.sstables[j]);
    var l := KeyHasRecord(t, r.key);
    assert t[l] == r;
    TableIn(e.disk.tables, e.sstables, j, r);
  }

  /** The memtable and the open tables together stay below 2^64 bytes. */
  predicate Room(e: Engine) {
    Weight(e.active) + Weight(AllRecs(e.disk.tables, e.sstables)) + OVERHEAD < TWO_64
  }

  lemma {:induction false} WeightIs(recs: seq<Rec>)
    ensures Weight(recs) == 21 * |recs| + 2 * KeyBytes(recs) + ValueBytes(recs)
  {
    if recs != [] {
      WeightIs(recs[..|recs| - 1]);
    }
  }

  /** There is room when 21 bytes for each record, its key twice, its value, and 1279 bytes together stay
      below 2^64. */
  lemma RoomWhen(e: Engine)
    ensures var all := e.active + AllRecs(e.disk.tables, e.sstables);
      Room(e) <==> 21 * |all| + 2 * KeyBytes(all) + ValueBytes(all) + 1279 < 0x1_0000_0000_0000_0000
  {
    hide Weight, AllRecs, KeyBytes, ValueBytes;
    WeightConcat(e.active, AllRecs(e.disk.tables, e.sstables));
    WeightIs(e.active + AllRecs(e.disk.tables, e.sstables));
  }

  lemma RoomForMerge(e: Engine, out: seq<Rec>)
    requires Room(e) && CanCompact(e, out)
    ensures Fits(out)
  {
    hide Weight, AllRecs, Fits, MergedAt, Inputs;
    SortedDistinct(out);
    assert AllDifferent(out);
    forall r | r in out ensures r in AllRecs(e.disk.tables, e.sstables) {
      MergedFrom(e, out, r);
    }
    DistinctWeight(out, AllRecs(e.disk.tables, e.sstables));
    WeightFits(out);
  }

  lemma RoomForMemTable(e: Engine)
    requires Room(e)
    ensures Fits(e.active)
  {
    hide Weight, AllRecs, Fits;
    WeightFits(e.active);
  }

  lemma {:induction false} AllRecsFrame(tables: map<string, seq<Rec>>, next: map<string, seq<Rec>>, paths: seq<string>)
    requires forall p :: p in paths ==> TableOf(next, p) == TableOf(tables, p)
    ensures AllRecs(next, paths) == AllRecs(tables, paths)
  {
    if paths != [] {
      assert paths[0] in paths;
      AllRecsFrame(tables, next, paths[1..]);
    }
  }

  /** A flush moves the memtable's records into a table. */
  lemma RoomAfterFlush(e: Engine)
    requires Inv(e) && e.counter < TWO_64 && Room(e)
    ensures Room(FlushStep(e))
  {
    hide Sound, IdsBelow, Weight, DataPath, KeptMap;
    if e.active != [] {
      var (path, tables) := (DataPath(e.dir, e.counter), e.disk.tables);
      var next := tables[path := e.active];
      NewPaths(e);
      assert forall p :: p in e.sstables ==> p in e.disk.manifest;
      AllRecsFrame(tables, next, e.sstables);
      assert ([path] + e.sstables)[1..] == e.sstables;
      WeightConcat(e.active, AllRecs(tables, e.sstables));
      assert Weight([]) == 0 by { NoWeight(); }
    }
  }

  lemma NoWeight()
    ensures Weight([]) == 0
  {
  }
}
