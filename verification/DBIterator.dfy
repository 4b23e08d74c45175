/** The merged iterator over memtables and tables (src/core/db_iterator.cpp). */
module DBIterator {
  import opened Keys
  import opened Records
  import opened Upserts
  import opened PriorityQueue
  import opened Merge
  import opened MergeHeap
  import opened ScanSpec
  import opened SkipList
  import opened SSTableIterator
  import opened Bytes
  import Compactor

  /** One source of the merge: a memtable cursor or a table cursor. */
  class DBIteratorSource {
    const generation: nat
    const mem: Iterator?
    const sst: SSTableIterator?

    constructor OverMemTable(generation: nat, mem: Iterator)
      ensures this.generation == generation && this.mem == mem && sst == null
    {
      this.generation, this.mem, sst := generation, mem, null;
    }

    constructor OverTable(generation: nat, sst: SSTableIterator)
      ensures this.generation == generation && this.sst == sst && mem == null
    {
      this.generation, this.sst, mem := generation, sst, null;
    }

    ghost function Cursor(): set<object> {
      if mem != null then {mem} else if sst != null then {sst} else {}
    }

    /** `shared` holds the list a memtable cursor walks, and not the cursor. */
    ghost predicate Over(shared: set<object>)
      reads shared, Cursor()
    {
      && (mem != null ==> sst == null && mem.list in shared && mem.list.Repr <= shared && mem.Inv())
      && Cursor() !! shared
    }

    lemma CursorApart(shared: set<object>)
      requires Over(shared)
      ensures Cursor() !! shared
    {
    }

    /** Every record of the source. */
    ghost function All(shared: set<object>): seq<Rec>
      requires Over(shared)
      reads shared, Cursor()
    {
      if mem != null then mem.list.Recs() else if sst != null then TableFormat.Scan(sst.file, sst.dataEnd, 0) else []
    }

    /** The records still to come, the current one first. */
    ghost function Rest(shared: set<object>): seq<Rec>
      requires Over(shared)
      reads shared, Cursor()
    {
      if mem != null then mem.Rest() else if sst != null then sst.Rest() else []
    }

    method Valid(ghost shared: set<object>) returns (valid: bool)
      requires Over(shared)
      ensures valid <==> Rest(shared) != []
    {
      hide Iterator.Inv, Iterator.Rest;
      if mem != null {
        mem.Current();
        return mem.Valid();
      }
      return sst != null && sst.valid;
    }

    /** `Key`, `Value` and `IsDeleted` of the current record. */
    method Current(ghost shared: set<object>) returns (r: Rec)
      requires Over(shared) && Rest(shared) != []
      ensures r == Rest(shared)[0]
    {
      hide Iterator.Inv, Iterator.Rest;
      if mem != null {
        mem.Current();
        r := Rec(mem.node.key, mem.node.entry.value, mem.node.entry.deleted);
      } else {
        r := sst.record;
      }
    }

    method Next(ghost shared: set<object>)
      requires Over(shared)
      modifies Cursor()
      ensures Over(shared) && All(shared) == old(All(shared))
      ensures Rest(shared) == if old(Rest(shared)) == [] then [] else old(Rest(shared))[1..]
    {
      hide Iterator.Inv, Iterator.Rest, SkipList.Valid, SkipList.Recs, SSTableIterator.Rest, TableFormat.Scan;
      if mem != null {
        mem.Next();
      }
      if sst != null {
        sst.Next();
      }
    }

    method SeekToFirst(ghost shared: set<object>)
      requires Over(shared)
      modifies Cursor()
      ensures Over(shared) && All(shared) == old(All(shared)) && Rest(shared) == All(shared)
    {
      hide Iterator.Rest, SkipList.Valid, SkipList.Recs, SSTableIterator.Rest, TableFormat.Scan;
      if mem != null {
        mem.SeekToFirst();
      }
      if sst != null {
        sst.SeekToFirst();
      }
    }

    /** A memtable cursor descends the skip list; a table cursor reads on from the first record. */
    method Seek(target: string, ghost shared: set<object>)
      requires Over(shared)
      modifies Cursor()
      ensures Over(shared) && All(shared) == old(All(shared)) && Rest(shared) == From(All(shared), target)
    {
      hide Iterator.Rest, SkipList.Valid, SkipList.Recs, IndexOf;
      if mem != null {
        mem.Seek(target);
      } else if sst != null {
        SeekTable(sst, target);
      }
    }
  }

  lemma FromNext(recs: seq<Rec>, i: nat, target: string)
    requires i < |recs| && Less(recs[i].key, target)
    ensures IndexOf(recs, target, i) == IndexOf(recs, target, i + 1)
  {
  }

  method SeekTable(sst: SSTableIterator, target: string)
    modifies sst
    ensures sst.Rest() == From(TableFormat.Scan(sst.file, sst.dataEnd, 0), target)
  {
    hide TableFormat.Scan, Less;
    sst.SeekToFirst();
    ghost var (all, i) := (sst.Rest(), 0);
    while sst.valid && Less(sst.record.key, target)
      invariant 0 <= i <= |all| && sst.Rest() == all[i..]
      invariant IndexOf(all, target, 0) == IndexOf(all, target, i)
      decreases |all| - i
    {
      FromNext(all, i, target);
      sst.Next();
      i := i + 1;
    }
  }

  // ---- the sources together ----

  ghost function Cursors(sources: seq<DBIteratorSource>): set<object> {
    set i, o | 0 <= i < |sources| && o in sources[i].Cursor() :: o
  }

  /** Every source has a cursor of its own, over lists that no cursor belongs to. */
  ghost predicate Separate(sources: seq<DBIteratorSource>, shared: set<object>)
    reads shared, Cursors(sources)
  {
    && (forall i :: 0 <= i < |sources| ==> sources[i].Over(shared))
    && forall i, j :: 0 <= i < j < |sources| ==> sources[i].Cursor() !! sources[j].Cursor()
  }

  ghost predicate AtRests(sources: seq<DBIteratorSource>, shared: set<object>, streams: seq<Input>,
                          rests: seq<seq<Rec>>)
    requires Separate(sources, shared)
    reads shared, Cursors(sources)
  {
    && |rests| == |sources| == |streams|
    && forall i :: 0 <= i < |sources| ==>
        streams[i] == Input(sources[i].generation, sources[i].All(shared)) && sources[i].Rest(shared) == rests[i]
  }

  function Ids(streams: seq<Input>): (ids: seq<nat>)
    ensures |ids| == |streams| && forall i :: 0 <= i < |ids| ==> ids[i] == streams[i].id
  {
    seq(|streams|, i requires 0 <= i < |streams| => streams[i].id)
  }

  const UNIT: Rec -> () := (r: Rec) => ()

  lemma SlotIsNode(id: nat, i: nat, rest: seq<Rec>)
    ensures SlotOf(id, i, rest, UNIT) == if rest == [] then None else Some(HeapNode(rest[0].key, id, i, ()))
  {
  }

  /** Pushes the node of source `i`, if it has a current record. */
  method PushSource(heap: Heap<()>, source: DBIteratorSource, i: nat, ghost shared: set<object>)
    requires heap.Valid() && source.Over(shared) && heap !in shared && heap !in source.Cursor()
    modifies heap
    ensures heap.Valid() && source.Over(shared)
    ensures source.All(shared) == old(source.All(shared)) && source.Rest(shared) == old(source.Rest(shared))
    ensures var slot := SlotOf(source.generation, i, source.Rest(shared), UNIT);
      multiset(heap.nodes) == old(multiset(heap.nodes)) + (if slot.None? then multiset{} else multiset{slot.value})
  {
    hide DBIteratorSource.Over, DBIteratorSource.Rest, DBIteratorSource.All, SlotOf, IsFront;
    SlotIsNode(source.generation, i, source.Rest(shared));
    var valid := source.Valid(shared);
    if valid {
      var r := source.Current(shared);
      heap.Push(HeapNode(r.key, source.generation, i, ()));
    }
  }

  /** Advancing source `i` moves that source alone. */
  method AdvanceSource(sources: seq<DBIteratorSource>, i: nat, ghost shared: set<object>, ghost streams: seq<Input>,
                       ghost rests: seq<seq<Rec>>)
    returns (ghost next: seq<seq<Rec>>)
    requires Separate(sources, shared) && AtRests(sources, shared, streams, rests)
    requires i < |sources| && rests[i] != []
    modifies sources[i].Cursor()
    ensures Separate(sources, shared) && AtRests(sources, shared, streams, next)
    ensures next == rests[i := rests[i][1..]]
  {
    hide DBIteratorSource.Over, DBIteratorSource.Rest, DBIteratorSource.All;
    sources[i].CursorApart(shared);
    sources[i].Next(shared);
    next := rests[i := rests[i][1..]];
    forall j | 0 <= j < |sources| && j != i
      ensures sources[j].Over(shared) && sources[j].All(shared) == streams[j].recs
      ensures sources[j].Rest(shared) == rests[j]
    {
      assert old(sources[j].Over(shared)) && sources[j].Cursor() !! sources[i].Cursor();
      assert old(sources[j].All(shared)) == streams[j].recs && old(sources[j].Rest(shared)) == rests[j];
    }
  }

  /** Pops the front node, reads its record, advances its source and pushes the source's next record. */
  method AdvanceFront(heap: Heap<()>, sources: seq<DBIteratorSource>, ghost shared: set<object>,
                      ghost streams: seq<Input>, ghost rests: seq<seq<Rec>>)
    returns (r: Rec, ghost source: nat, ghost next: seq<seq<Rec>>)
    requires heap.Valid() && heap.nodes != [] && heap !in shared && heap !in Cursors(sources)
    requires Separate(sources, shared) && AtRests(sources, shared, streams, rests)
    requires Mirrors(heap.nodes, Ids(streams), rests, UNIT)
    modifies heap, Cursors(sources)
    ensures heap.Valid() && Separate(sources, shared) && AtRests(sources, shared, streams, next)
    ensures Mirrors(heap.nodes, Ids(streams), next, UNIT)
    ensures source < |rests| && rests[source] != [] && r == rests[source][0] && r.key == old(heap.Top()).key
    ensures source == old(heap.Top()).source && next == rests[source := rests[source][1..]]
  {
    hide Represents, SlotOf, IsFront, Mirrors, AtRests, Separate, DBIteratorSource.Over, DBIteratorSource.Rest,
         DBIteratorSource.All;
    var front := heap.Top();
    ghost var before := heap.nodes;
    FrontIsLeast(before, front, Ids(streams), rests, UNIT);
    heap.Pop();
    var i := front.source;
    source := i;
    SourceAt(sources, shared, streams, rests, i);
    r := sources[i].Current(shared);
    next := AdvanceSource(sources, i, shared, streams, rests);
    SourceAt(sources, shared, streams, next, i);
    PushSource(heap, sources[i], i, shared);
    Advanced(before, heap.nodes, front, Ids(streams), rests, next, UNIT);
  }

  lemma SourceAt(sources: seq<DBIteratorSource>, shared: set<object>, streams: seq<Input>, rests: seq<seq<Rec>>, i: nat)
    requires Separate(sources, shared) && AtRests(sources, shared, streams, rests) && i < |rests|
    ensures |rests| == |sources| == |streams| && sources[i].Over(shared) && sources[i].Rest(shared) == rests[i]
    ensures streams[i] == Input(sources[i].generation, sources[i].All(shared))
    ensures sources[i].Cursor() <= Cursors(sources)
  {
    hide DBIteratorSource.Over, DBIteratorSource.Rest, DBIteratorSource.All;
  }

  /** Repositions source `i` alone. */
  method SeekSource(sources: seq<DBIteratorSource>, i: nat, target: string, ghost shared: set<object>,
                    ghost streams: seq<Input>, ghost rests: seq<seq<Rec>>)
    returns (ghost next: seq<seq<Rec>>)
    requires Separate(sources, shared) && AtRests(sources, shared, streams, rests) && i < |sources|
    modifies sources[i].Cursor()
    ensures Separate(sources, shared) && AtRests(sources, shared, streams, next)
    ensures next == rests[i := From(streams[i].recs, target)]
  {
    hide DBIteratorSource.Over, DBIteratorSource.Rest, DBIteratorSource.All, From, Less;
    sources[i].CursorApart(shared);
    if target != "" {
      sources[i].Seek(target, shared);
    } else {
      sources[i].SeekToFirst(shared);
      FromEmpty(streams[i].recs);
    }
    next := rests[i := From(streams[i].recs, target)];
    forall j | 0 <= j < |sources| && j != i
      ensures sources[j].Over(shared) && sources[j].All(shared) == streams[j].recs
      ensures sources[j].Rest(shared) == rests[j]
    {
      assert old(sources[j].Over(shared)) && sources[j].Cursor() !! sources[i].Cursor();
      assert old(sources[j].All(shared)) == streams[j].recs && old(sources[j].Rest(shared)) == rests[j];
    }
  }

  lemma FromEmpty(recs: seq<Rec>)
    ensures From(recs, "") == recs
  {
  }

  lemma NoneMirrored(ids: seq<nat>, rests: seq<seq<Rec>>)
    requires |ids| == |rests| && forall i :: 0 <= i < |rests| ==> rests[i] == []
    ensures Mirrors([], ids, rests, UNIT)
  {
  }

  lemma AtRestsLengths(sources: seq<DBIteratorSource>, shared: set<object>, streams: seq<Input>, rests: seq<seq<Rec>>)
    requires Separate(sources, shared) && AtRests(sources, shared, streams, rests)
    ensures |rests| == |sources| == |streams|
  {
  }

  function Started(cut: seq<Input>): (rests: seq<seq<Rec>>)
    ensures |rests| == |cut| && forall i :: 0 <= i < |rests| ==> rests[i] == cut[i].recs
  {
    seq(|cut|, i requires 0 <= i < |cut| => cut[i].recs)
  }

  /** Positions every source at the first key not below the target and fills the heap. */
  method Fill(heap: Heap<()>, sources: seq<DBIteratorSource>, target: string, ghost shared: set<object>,
              ghost streams: seq<Input>, ghost was: seq<seq<Rec>>)
    returns (ghost rests: seq<seq<Rec>>)
    requires heap.Valid() && heap.nodes == [] && heap !in shared && heap !in Cursors(sources)
    requires Separate(sources, shared) && AtRests(sources, shared, streams, was)
    modifies heap, Cursors(sources)
    ensures heap.Valid() && Separate(sources, shared) && AtRests(sources, shared, streams, rests)
    ensures rests == Started(Cut(streams, target)) && Mirrors(heap.nodes, Ids(streams), rests, UNIT)
  {
    hide Represents, SlotOf, IsFront, Mirrors, AtRests, Separate, From,
         DBIteratorSource.Over, DBIteratorSource.Rest, DBIteratorSource.All;
    AtRestsLengths(sources, shared, streams, was);
    rests := was;
    ghost var filled: seq<seq<Rec>> := seq(|sources|, _ => []);
    NoneMirrored(Ids(streams), filled);
    for i := 0 to |sources|
      invariant heap.Valid() && Separate(sources, shared) && AtRests(sources, shared, streams, rests)
      invariant |rests| == |filled| == |sources| && Mirrors(heap.nodes, Ids(streams), filled, UNIT)
      invariant forall j :: 0 <= j < i ==> rests[j] == filled[j] == From(streams[j].recs, target)
      invariant forall j :: i <= j < |sources| ==> filled[j] == []
    {
      ghost var before, had := heap.nodes, filled;
      SourceAt(sources, shared, streams, rests, i);
      rests := SeekSource(sources, i, target, shared, streams, rests);
      SourceAt(sources, shared, streams, rests, i);
      filled := filled[i := rests[i]];
      PushSource(heap, sources[i], i, shared);
      Filled(before, heap.nodes, Ids(streams), i, had, filled, UNIT);
    }
    assert filled == rests;
  }

  /** Pops and advances every older source that holds the candidate's key. */
  method DrainKey(heap: Heap<()>, sources: seq<DBIteratorSource>, key: string, ghost shared: set<object>,
                  ghost streams: seq<Input>, ghost start: seq<seq<Rec>>, ghost first: seq<seq<Rec>>)
    returns (ghost rests: seq<seq<Rec>>)
    requires heap.Valid() && heap !in shared && heap !in Cursors(sources)
    requires Separate(sources, shared) && AtRests(sources, shared, streams, first)
    requires Mirrors(heap.nodes, Ids(streams), first, UNIT) && Draining(first, start, key)
    modifies heap, Cursors(sources)
    ensures heap.Valid() && Separate(sources, shared) && AtRests(sources, shared, streams, rests)
    ensures Mirrors(heap.nodes, Ids(streams), rests, UNIT)
    ensures |rests| == |start| && forall i :: 0 <= i < |rests| ==> rests[i] == Past(start[i], key)
    ensures Remaining(rests) <= Remaining(first)
  {
    hide Represents, SlotOf, Mirrors, AtRests, Draining, Sorted, Separate, Cursors;
    ghost var ids := Ids(streams);
    rests := first;
    while heap.nodes != [] && heap.Top().key == key
      invariant heap.Valid() && Separate(sources, shared) && AtRests(sources, shared, streams, rests)
      invariant Mirrors(heap.nodes, ids, rests, UNIT)
      invariant Draining(rests, start, key) && Remaining(rests) <= Remaining(first)
      decreases Remaining(rests)
    {
      ghost var was := rests;
      FrontIsLeast(heap.nodes, heap.Top(), ids, rests, UNIT);
      ghost var source;
      var duplicate;
      duplicate, source, rests := AdvanceFront(heap, sources, shared, streams, rests);
      RemainingDrops(was, source);
      DrainStep(was, start, key, source);
    }
    DrainingLength(rests, start, key);
    Drained(heap.nodes, ids, rests, start, key, UNIT);
  }

  /** What holds between rounds: `out` lists the live records of the cut streams up to the bound. */
  ghost predicate Merging(heap: Heap<()>, sources: seq<DBIteratorSource>, shared: set<object>, streams: seq<Input>,
                          target: string, rests: seq<seq<Rec>>, out: seq<Rec>, bound: Option<string>)
    requires Separate(sources, shared)
    reads heap, shared, Cursors(sources)
  {
    && heap.Valid() && AtRests(sources, shared, streams, rests) && Mirrors(heap.nodes, Ids(streams), rests, UNIT)
    && Progress(Cut(streams, target), rests, bound) && MergedUpTo(Cut(streams, target), true, out, bound)
  }

  /** One round: the winner is taken and its duplicates are drained. */
  method TakeKey(heap: Heap<()>, sources: seq<DBIteratorSource>, ghost shared: set<object>, ghost streams: seq<Input>,
                 ghost target: string, ghost start: seq<seq<Rec>>, ghost out: seq<Rec>, ghost bound: Option<string>)
    returns (r: Rec, ghost rests: seq<seq<Rec>>)
    requires heap.nodes != [] && heap !in shared && heap !in Cursors(sources) && Separate(sources, shared)
    requires Merging(heap, sources, shared, streams, target, start, out, bound)
    modifies heap, Cursors(sources)
    ensures Separate(sources, shared) && Remaining(rests) < Remaining(start) && Above(bound, r.key)
    ensures heap.Valid() && AtRests(sources, shared, streams, rests)
    ensures Merging(heap, sources, shared, streams, target, rests, if r.deleted then out else out + [r], Some(r.key))
    ensures forall k :: Above(bound, k) && Less(k, r.key) ==> Unheld(Cut(streams, target), k)
  {
    hide Represents, SlotOf, Mirrors, AtRests, Draining, Sorted, Separate, Cursors, Progress, MergedUpTo, Wins,
         Held, AllFrom, From, Unheld, Less;
    ghost var (ins, ids) := (Cut(streams, target), Ids(streams));
    FrontIsLeast(heap.nodes, heap.Top(), ids, start, UNIT);
    ghost var w;
    r, w, rests := AdvanceFront(heap, sources, shared, streams, start);
    RemainingDrops(start, w);
    LengthsAgree(ins, start, bound);
    FrontWins(ins, start, bound, w);
    forall k | Above(bound, k) && Less(k, r.key) ensures Unheld(ins, k) {
      NothingBetween(ins, start, bound, r.key, k);
    }
    DrainStart(ins, start, bound, r.key);
    DrainStep(start, start, r.key, w);
    rests := DrainKey(heap, sources, r.key, shared, streams, start, rests);
    ProgressStep(ins, start, bound, r.key, rests);
    MergedStep(ins, true, out, start, bound, w, if r.deleted then out else out + [r]);
  }

  // ---- collecting the sources ----

  ghost predicate Feeds(sources: seq<DBIteratorSource>, shared: set<object>, streams: seq<Input>)
    requires Separate(sources, shared)
    reads shared, Cursors(sources)
  {
    && |streams| == |sources|
    && forall i :: 0 <= i < |sources| ==> streams[i] == Input(sources[i].generation, sources[i].All(shared))
  }

  lemma SourceAdded(sources: seq<DBIteratorSource>, source: DBIteratorSource, shared: set<object>, streams: seq<Input>)
    requires Separate(sources, shared) && source.Over(shared) && source.Cursor() !! Cursors(sources)
    requires Feeds(sources, shared, streams)
    ensures Separate(sources + [source], shared)
    ensures Feeds(sources + [source], shared, streams + [Input(source.generation, source.All(shared))])
  {
    hide DBIteratorSource.Over, DBIteratorSource.All, DBIteratorSource.Cursor;
    var all := sources + [source];
    forall i, j | 0 <= i < j < |all| ensures all[i].Cursor() !! all[j].Cursor() {
      assert all[i].Cursor() <= Cursors(sources);
    }
  }

  lemma CursorsAdded(sources: seq<DBIteratorSource>, source: DBIteratorSource)
    ensures Cursors(sources + [source]) == Cursors(sources) + source.Cursor()
  {
    hide DBIteratorSource.Cursor;
    var all := sources + [source];
    assert all[|sources|] == source;
    assert forall i :: 0 <= i < |sources| ==> all[i] == sources[i];
    forall o: object | o in Cursors(sources) ensures o in Cursors(all) {
      var i :| 0 <= i < |sources| && o in sources[i].Cursor();
      assert o in all[i].Cursor();
    }
    forall o: object | o in source.Cursor() ensures o in Cursors(all) {
      assert o in all[|sources|].Cursor();
    }
  }

  /** A memtable cursor over a list in `shared`. */
  ghost predicate MemReady(mem: Iterator?, shared: set<object>)
    reads mem, shared
  {
    mem != null ==> mem !in shared && mem.list in shared && mem.list.Repr <= shared && mem.Inv()
  }

  ghost function MemStream(mem: Iterator?, generation: nat, shared: set<object>): seq<Input>
    requires MemReady(mem, shared)
    reads mem, shared
  {
    if mem == null then [] else [Input(generation, mem.list.Recs())]
  }

  function TableStreams(inputs: seq<Compactor.CompactorInput>): seq<Input> {
    if inputs == [] then []
    else
      var last := inputs[|inputs| - 1];
      TableStreams(inputs[..|inputs| - 1]) +
        if last.cursor == null then [] else [Input(last.fileId, Compactor.Stream(last))]
  }

  ghost predicate Ready(active: Iterator?, immutable: Iterator?, inputs: seq<Compactor.CompactorInput>,
                        shared: set<object>)
    reads active, immutable, shared
  {
    && MemReady(active, shared) && MemReady(immutable, shared) && (active == null || active != immutable)
    && Compactor.Separate(inputs) && Compactor.Iterators(inputs) !! shared
  }

  /** The streams of a merged iterator: the memtables with the two largest generations, then the tables. */
  ghost function StreamsIn(active: Iterator?, immutable: Iterator?, inputs: seq<Compactor.CompactorInput>,
                           shared: set<object>): seq<Input>
    requires Ready(active, immutable, inputs, shared)
    reads active, immutable, shared
  {
    MemStream(active, TWO_64 - 1, shared) + MemStream(immutable, TWO_64 - 2, shared) + TableStreams(inputs)
  }

  lemma MemStreamsFirst(active: Iterator, immutable: Iterator, inputs: seq<Compactor.CompactorInput>,
                        shared: set<object>)
    requires Ready(active, immutable, inputs, shared)
    ensures StreamsIn(active, immutable, inputs, shared) ==
      [Input(0xFFFF_FFFF_FFFF_FFFF, active.list.Recs()), Input(0xFFFF_FFFF_FFFF_FFFE, immutable.list.Recs())]
      + TableStreams(inputs)
  {
    hide SkipList.Recs, TableStreams, Compactor.Separate, Compactor.Iterators, Iterator.Inv;
  }

  method AddMemTable(sources: seq<DBIteratorSource>, mem: Iterator?, generation: nat, ghost shared: set<object>,
                     ghost streams: seq<Input>)
    returns (more: seq<DBIteratorSource>)
    requires Separate(sources, shared) && Feeds(sources, shared, streams)
    requires MemReady(mem, shared) && (mem != null ==> mem !in Cursors(sources))
    ensures Separate(more, shared) && MemReady(mem, shared)
    ensures Feeds(more, shared, streams + MemStream(mem, generation, shared))
    ensures Cursors(more) == Cursors(sources) + if mem == null then {} else {mem}
  {
    hide Separate, Feeds, Iterator.Inv, SkipList.Valid, SkipList.Recs;
    more := sources;
    if mem != null {
      var source := new DBIteratorSource.OverMemTable(generation, mem);
      SourceAdded(sources, source, shared, streams);
      CursorsAdded(sources, source);
      more := more + [source];
    } else {
      assert streams + [] == streams;
    }
  }

  method AddTable(sources: seq<DBIteratorSource>, input: Compactor.CompactorInput, ghost shared: set<object>,
                  ghost streams: seq<Input>)
    returns (more: seq<DBIteratorSource>)
    requires Separate(sources, shared) && Feeds(sources, shared, streams)
    requires input.cursor != null ==> input.cursor !in Cursors(sources) && input.cursor !in shared
    ensures Separate(more, shared)
    ensures Feeds(more, shared, streams +
      if input.cursor == null then [] else [Input(input.fileId, Compactor.Stream(input))])
    ensures Cursors(more) == Cursors(sources) + if input.cursor == null then {} else {input.cursor}
  {
    hide Separate, Feeds, TableFormat.Scan;
    more := sources;
    if input.cursor != null {
      var source := new DBIteratorSource.OverTable(input.fileId, input.cursor);
      SourceAdded(sources, source, shared, streams);
      CursorsAdded(sources, source);
      more := more + [source];
    } else {
      assert streams + [] == streams;
    }
  }

  lemma NoSources(shared: set<object>)
    ensures Separate([], shared) && Feeds([], shared, []) && Cursors([]) == {}
  {
  }

  /** The cursors the merged iterator moves. */
  ghost predicate CursorsAmong(sources: seq<DBIteratorSource>, active: Iterator?, immutable: Iterator?,
                               inputs: seq<Compactor.CompactorInput>, n: nat)
  {
    forall o :: o in Cursors(sources) ==>
      o == active || o == immutable || exists j :: 0 <= j < n && j < |inputs| && o == inputs[j].cursor
  }

  method InitMemTables(active: Iterator?, immutable: Iterator?, ghost shared: set<object>)
    returns (sources: seq<DBIteratorSource>)
    requires MemReady(active, shared) && MemReady(immutable, shared) && (active == null || active != immutable)
    ensures MemReady(active, shared) && MemReady(immutable, shared)
    ensures Separate(sources, shared)
    ensures Feeds(sources, shared, MemStream(active, TWO_64 - 1, shared) + MemStream(immutable, TWO_64 - 2, shared))
    ensures CursorsAmong(sources, active, immutable, [], 0)
  {
    hide Separate, Feeds, MemReady, MemStream, Cursors;
    NoSources(shared);
    sources := AddMemTable([], active, TWO_64 - 1, shared, []);
    assert [] + MemStream(active, TWO_64 - 1, shared) == MemStream(active, TWO_64 - 1, shared);
    sources := AddMemTable(sources, immutable, TWO_64 - 2, shared, MemStream(active, TWO_64 - 1, shared));
  }

  method InitSources(active: Iterator?, immutable: Iterator?, inputs: seq<Compactor.CompactorInput>,
                     ghost shared: set<object>)
    returns (sources: seq<DBIteratorSource>)
    requires Ready(active, immutable, inputs, shared)
    ensures Ready(active, immutable, inputs, shared) && Separate(sources, shared)
    ensures Feeds(sources, shared, StreamsIn(active, immutable, inputs, shared))
    ensures CursorsAmong(sources, active, immutable, inputs, |inputs|)
  {
    hide Separate, Feeds, MemReady, MemStream, Cursors;
    sources := InitMemTables(active, immutable, shared);
    ghost var mems := MemStream(active, TWO_64 - 1, shared) + MemStream(immutable, TWO_64 - 2, shared);
    assert mems + TableStreams([]) == mems;
    for i := 0 to |inputs|
      invariant MemReady(active, shared) && MemReady(immutable, shared)
      invariant mems == MemStream(active, TWO_64 - 1, shared) + MemStream(immutable, TWO_64 - 2, shared)
      invariant Separate(sources, shared) && Feeds(sources, shared, mems + TableStreams(inputs[..i]))
      invariant CursorsAmong(sources, active, immutable, inputs, i)
    {
      assert inputs[..i + 1][..i] == inputs[..i];
      ghost var had := mems + TableStreams(inputs[..i]);
      sources := AddTable(sources, inputs[i], shared, had);
      assert mems + TableStreams(inputs[..i + 1]) ==
        had + if inputs[i].cursor == null then [] else [Input(inputs[i].fileId, Compactor.Stream(inputs[i]))];
    }
    assert inputs[..|inputs|] == inputs;
  }

  // ---- what the state of the merge says about the scan ----

  predicate InEnd(end: string, k: string) { end == "" || !Less(end, k) }

  predicate AllInEnd(end: string, recs: seq<Rec>) {
    forall k :: k in Contents(recs) ==> InEnd(end, k)
  }

  lemma MergedInside(streams: seq<Input>, target: string, out: seq<Rec>, bound: Option<string>, k: string)
    requires AllSorted(streams) && MergedUpTo(Cut(streams, target), true, out, bound)
    ensures k in Contents(out) ==> !Less(k, target)
    ensures !Less(k, target) && !Above(bound, k) ==> MergedAt(streams, true, k, Find(Contents(out), k))
  {
    hide Less, Contents, AllSorted, Cut, Unheld;
    var cut := Cut(streams, target);
    if !Above(bound, k) {
      if k in Contents(out) {
        var i :| Wins(cut, i, k);
        CutHolds(streams, target, i, k);
      }
      if !Less(k, target) {
        CutMerged(streams, target, true, k, Find(Contents(out), k));
      }
    }
  }

  lemma SettledNow(streams: seq<Input>, target: string, end: string, out: seq<Rec>, bound: Option<string>)
    requires AllSorted(streams) && MergedUpTo(Cut(streams, target), true, out, bound) && AllInEnd(end, out)
    ensures Settled(streams, Between(target, end), out, bound)
  {
    hide Less, Contents, AllSorted, Cut, MergedAt;
    forall k
      ensures k in Contents(out) ==> !Less(k, target)
      ensures !Less(k, target) && !Above(bound, k) ==> MergedAt(streams, true, k, Find(Contents(out), k))
    {
      MergedInside(streams, target, out, bound, k);
    }
  }

  /** When every remaining key is past the end, nothing in the range is missing. */
  lemma FinishedAt(streams: seq<Input>, target: string, end: string, out: seq<Rec>, bound: Option<string>)
    requires AllSorted(streams) && MergedUpTo(Cut(streams, target), true, out, bound) && AllInEnd(end, out)
    requires forall k :: Above(bound, k) && InEnd(end, k) ==> Unheld(Cut(streams, target), k)
    ensures IsScan(streams, Between(target, end), out)
  {
    hide Less, Contents, AllSorted, Cut, MergedAt, Unheld, Sorted;
    SettledNow(streams, target, end, out, bound);
    forall k | Between(target, end).Covers(k) ensures MergedAt(streams, true, k, Find(Contents(out), k)) {
      if Above(bound, k) {
        UnheldMerged(Cut(streams, target), true, k);
        CutMerged(streams, target, true, k, None);
      }
    }
  }

  lemma NothingPastEnd(cut: seq<Input>, end: string, key: string, bound: Option<string>)
    requires end != "" && Less(end, key)
    requires forall k :: Above(bound, k) && Less(k, key) ==> Unheld(cut, k)
    ensures forall k :: Above(bound, k) && InEnd(end, k) ==> Unheld(cut, k)
  {
    hide Less, Unheld, Above;
    forall k | Above(bound, k) && InEnd(end, k) ensures Less(k, key) {
      Total(k, end);
      Transitive(k, end, key);
    }
  }

  lemma NothingLeft(cut: seq<Input>, rests: seq<seq<Rec>>, bound: Option<string>)
    requires Progress(cut, rests, bound) && forall i :: 0 <= i < |rests| ==> rests[i] == []
    ensures forall k :: Above(bound, k) ==> Unheld(cut, k)
  {
    forall k | Above(bound, k) ensures Unheld(cut, k) {
      forall i ensures !Holds(cut, i, k) {
        if Holds(cut, i, k) { HeldIsAhead(cut, rests, bound, i, k); }
      }
    }
  }

  lemma MergingUpTo(heap: Heap<()>, sources: seq<DBIteratorSource>, shared: set<object>, streams: seq<Input>,
                    target: string, rests: seq<seq<Rec>>, out: seq<Rec>, bound: Option<string>)
    requires Separate(sources, shared) && Merging(heap, sources, shared, streams, target, rests, out, bound)
    ensures MergedUpTo(Cut(streams, target), true, out, bound)
    ensures heap.nodes == [] ==> forall k :: Above(bound, k) ==> Unheld(Cut(streams, target), k)
  {
    hide MergedUpTo, Mirrors, AtRests, Separate, Above, Unheld;
    if heap.nodes == [] {
      EmptyIsDone(heap.nodes, Ids(streams), rests, UNIT);
      NothingLeft(Cut(streams, target), rests, bound);
    }
  }

  lemma InEndAppend(end: string, out: seq<Rec>, r: Rec)
    requires AllInEnd(end, out) && InEnd(end, r.key)
    ensures AllInEnd(end, out + [r])
  {
    assert (out + [r])[..|out|] == out;
  }

  lemma MergingStarts(heap: Heap<()>, sources: seq<DBIteratorSource>, shared: set<object>, streams: seq<Input>,
                      target: string)
    requires heap.Valid() && Separate(sources, shared) && AllSorted(streams)
    requires AtRests(sources, shared, streams, Started(Cut(streams, target)))
    requires Mirrors(heap.nodes, Ids(streams), Started(Cut(streams, target)), UNIT)
    ensures Merging(heap, sources, shared, streams, target, Started(Cut(streams, target)), [], None)
  {
    hide Separate, AtRests, Mirrors, AllSorted, Sorted, RestAbove;
    var cut := Cut(streams, target);
    CutSorted(streams, target);
    MergeStart(cut, true);
    assert Started(cut) == seq(|cut|, i requires 0 <= i < |cut| => cut[i].recs);
  }

  lemma AmongWithin(sources: seq<DBIteratorSource>, active: Iterator?, immutable: Iterator?,
                    inputs: seq<Compactor.CompactorInput>)
    requires CursorsAmong(sources, active, immutable, inputs, |inputs|)
    ensures forall o: object :: o in Cursors(sources) ==>
      o == active || o == immutable || o in Compactor.Iterators(inputs)
  {
    hide Cursors;
  }

  ghost function RestsOf(sources: seq<DBIteratorSource>, shared: set<object>): (rests: seq<seq<Rec>>)
    requires Separate(sources, shared)
    reads shared, Cursors(sources)
    ensures |rests| == |sources| && forall i :: 0 <= i < |rests| ==> rests[i] == sources[i].Rest(shared)
  {
    seq(|sources|, i requires 0 <= i < |sources| && Separate(sources, shared) reads shared, Cursors(sources) =>
      sources[i].Rest(shared))
  }

  lemma FedAtRests(sources: seq<DBIteratorSource>, shared: set<object>, streams: seq<Input>)
    requires Separate(sources, shared) && Feeds(sources, shared, streams)
    ensures AtRests(sources, shared, streams, RestsOf(sources, shared))
  {
  }

  lemma EmptyRange(streams: seq<Input>, start: string, end: string)
    requires end != "" && Less(end, start)
    ensures IsScan(streams, Between(start, end), []) && AllInEnd(end, [])
  {
    forall k ensures !Between(start, end).Covers(k) {
      Total(k, start);
      if k == start || Less(start, k) { Transitive(end, start, k); }
    }
  }

  /** The merged iterator. `emitted` lists the records it has stood on since it was positioned,
      the current one last. */
  class DBIterator {
    const sources: seq<DBIteratorSource>
    const startKey: string
    const endKey: string
    const heap: Heap<()>
    var currentKey: string
    var currentValue: string
    var valid: bool

    ghost const shared: set<object>
    ghost const streams: seq<Input>
    ghost var sought: string
    ghost var rests: seq<seq<Rec>>
    ghost var bound: Option<string>
    ghost var emitted: seq<Rec>

    ghost function Footprint(): set<object> { {this, heap} + Cursors(sources) }

    ghost predicate Structure()
      reads Footprint(), shared
    {
      && {this, heap} !! shared && {this, heap} !! Cursors(sources)
      && heap.Valid() && Separate(sources, shared) && AtRests(sources, shared, streams, rests) && AllSorted(streams)
    }

    /** Standing on the last emitted record, or past the end with nothing in the range missed. */
    ghost predicate Inv()
      reads Footprint(), shared
    {
      && Structure() && AllInEnd(endKey, emitted)
      && if valid then
           && emitted != [] && emitted[|emitted| - 1] == Rec(currentKey, currentValue, false)
           && Merging(heap, sources, shared, streams, sought, rests, emitted, bound)
         else IsScan(streams, Between(sought, endKey), emitted)
    }

    lemma InvStructure()
      requires Inv()
      ensures Structure()
    {
    }

    /** Collects the sources and positions the iterator at the first live key of the range. */
    constructor (active: Iterator?, immutable: Iterator?, inputs: seq<Compactor.CompactorInput>,
                 startKey: string, endKey: string, ghost shared: set<object>)
      requires Ready(active, immutable, inputs, shared) && AllSorted(StreamsIn(active, immutable, inputs, shared))
      modifies if active == null then {} else {active}, if immutable == null then {} else {immutable},
               Compactor.Iterators(inputs)
      ensures Inv() && sought == startKey && this.startKey == startKey && this.endKey == endKey && this.shared == shared
      ensures streams == old(StreamsIn(active, immutable, inputs, shared))
      ensures fresh(heap) && CursorsAmong(sources, active, immutable, inputs, |inputs|)
      ensures emitted == if valid then [Rec(currentKey, currentValue, false)] else []
    {
      hide Separate, AtRests, Mirrors, AllSorted, Sorted, IsScan, Ready, StreamsIn, Feeds, AllInEnd, Merging,
           CursorsAmong;

      var list := InitSources(active, immutable, inputs, shared);
      AmongWithin(list, active, immutable, inputs);
      var h := new Heap<()>();
      sources, heap := list, h;
      this.startKey, this.endKey := startKey, endKey;
      currentKey, currentValue, valid := "", "", false;
      this.shared, streams := shared, StreamsIn(active, immutable, inputs, shared);
      sought, bound, emitted := "", None, [];
      FedAtRests(list, shared, StreamsIn(active, immutable, inputs, shared));
      rests := RestsOf(list, shared);
      new;
      SeekToFirst();
    }

    /** Takes the next key off the heap; past the end of the range, nothing in it was missed. */
    method TakeCandidate() returns (r: Rec)
      requires Structure() && AllInEnd(endKey, emitted) && heap.nodes != []
      requires Merging(heap, sources, shared, streams, sought, rests, emitted, bound)
      modifies Cursors(sources), heap, `rests
      ensures Structure() && Remaining(rests) < old(Remaining(rests))
      ensures Merging(heap, sources, shared, streams, sought, rests,
                      if r.deleted then emitted else emitted + [r], Some(r.key))
      ensures endKey != "" && Less(endKey, r.key) ==> IsScan(streams, Between(sought, endKey), emitted)
    {
      hide Separate, AtRests, Merging, AllSorted, MergedUpTo, IsScan, Unheld, Less, AllInEnd, Cursors, Above, Remaining;
      MergingUpTo(heap, sources, shared, streams, sought, rests, emitted, bound);
      ghost var next;
      r, next := TakeKey(heap, sources, shared, streams, sought, rests, emitted, bound);
      rests := next;
      if endKey != "" && Less(endKey, r.key) {
        NothingPastEnd(Cut(streams, sought), endKey, r.key, bound);
        FinishedAt(streams, sought, endKey, emitted, bound);
      }
    }

    method FindNextAliveKey()
      requires Structure() && AllInEnd(endKey, emitted)
      requires Merging(heap, sources, shared, streams, sought, rests, emitted, bound)
      modifies Footprint()
      ensures Inv() && sought == old(sought)
      ensures emitted == old(emitted) + if valid then [Rec(currentKey, currentValue, false)] else []
      ensures valid ==> Remaining(rests) < old(Remaining(rests))
    {
      hide Separate, AtRests, Merging, AllSorted, MergedUpTo, IsScan, Unheld, Less, AllInEnd, Cursors, Above, Remaining;
      while heap.nodes != []
        invariant Structure() && AllInEnd(endKey, emitted) && sought == old(sought) && emitted == old(emitted)
        invariant Remaining(rests) <= old(Remaining(rests))
        invariant Merging(heap, sources, shared, streams, sought, rests, emitted, bound)
        decreases Remaining(rests)
      {
        var r := TakeCandidate();
        if endKey != "" && Less(endKey, r.key) {
          valid, currentKey, currentValue := false, "", "";
          return;
        }
        bound := Some(r.key);
        if !r.deleted {
          InEndAppend(endKey, emitted, r);
          emitted := emitted + [r];
          currentKey, currentValue, valid := r.key, r.value, true;
          return;
        }
      }
      MergingUpTo(heap, sources, shared, streams, sought, rests, emitted, bound);
      FinishedAt(streams, sought, endKey, emitted, bound);
      valid, currentKey, currentValue := false, "", "";
    }

    /** Empties the heap, positions every source and takes the first live key. */
    method Position(target: string)
      requires Structure()
      modifies Footprint()
      ensures Inv() && sought == target
      ensures emitted == if valid then [Rec(currentKey, currentValue, false)] else []
    {
      hide Separate, AtRests, Mirrors, AllSorted, Sorted, IsScan, Merging;
      heap.Clear();
      ghost var next := Fill(heap, sources, target, shared, streams, rests);
      MergingStarts(heap, sources, shared, streams, target);
      rests, bound, emitted, sought := next, None, [], target;
      FindNextAliveKey();
    }

    method SeekToFirst()
      requires Structure()
      modifies Footprint()
      ensures Inv() && sought == startKey
      ensures emitted == if valid then [Rec(currentKey, currentValue, false)] else []
    {
      Position(startKey);
    }

    /** Positions at the first live key not below the target, which is first raised to the start
        of the range; past the end of the range the iterator is invalid. */
    method Seek(target: string)
      requires Structure()
      modifies Footprint()
      ensures Inv() && sought == if startKey != "" && Less(target, startKey) then startKey else target
      ensures emitted == if valid then [Rec(currentKey, currentValue, false)] else []
    {
      hide Separate, AtRests, Mirrors, AllSorted, Sorted, IsScan, Merging, Less;
      var start := if startKey != "" && Less(target, startKey) then startKey else target;
      if endKey != "" && Less(endKey, start) {
        heap.Clear();
        sought, emitted := start, [];
        EmptyRange(streams, start, endKey);
        valid, currentKey, currentValue := false, "", "";
        return;
      }
      Position(start);
    }

    /** Moves to the next live key. */
    method Next()
      requires Inv()
      modifies Footprint()
      ensures Inv() && sought == old(sought)
      ensures emitted == old(emitted) + if valid then [Rec(currentKey, currentValue, false)] else []
      ensures valid ==> Remaining(rests) < old(Remaining(rests))
    {
      hide Separate, AtRests, Mirrors, AllSorted, Sorted, IsScan, Cursors, Merging, Remaining;
      if !valid {
        return;
      }
      FindNextAliveKey();
    }

    /** What has been emitted starts a permitted scan of the range, and is all of it once the
        iterator is invalid. */
    lemma Completion() returns (full: seq<Rec>)
      requires Inv()
      ensures IsScan(streams, Between(sought, endKey), full)
      ensures |emitted| <= |full| && full[..|emitted|] == emitted && (!valid ==> full == emitted)
    {
      hide Separate, AtRests, Mirrors, AllSorted, Sorted, IsScan, Cursors, Progress, MergedUpTo, Settled;
      if valid {
        SettledNow(streams, sought, endKey, emitted, bound);
        full := SettledExtends(streams, Between(sought, endKey), emitted, bound);
      } else {
        full := emitted;
      }
    }
  }
}
