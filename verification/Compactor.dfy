/** The k-way newest-wins merge with tombstone purge (src/core/compactor.cpp). */
module Compactor {
  import opened Records
  import opened PriorityQueue
  import opened Merge
  import opened MergeHeap
  import opened BloomFilter
  import opened TableFormat
  import opened SSTableBuilder
  import opened SSTableIterator

  datatype CompactorInput = CompactorInput(fileId: nat, cursor: SSTableIterator?)

  /** The records an input contributes; a missing iterator contributes none. */
  function Stream(input: CompactorInput): seq<Rec> {
    if input.cursor == null then [] else Scan(input.cursor.file, input.cursor.dataEnd, 0)
  }

  function Streams(inputs: seq<CompactorInput>): (ins: seq<Input>)
    ensures |ins| == |inputs|
    ensures forall i :: 0 <= i < |ins| ==> ins[i] == Input(inputs[i].fileId, Stream(inputs[i]))
  {
    seq(|inputs|, i requires 0 <= i < |inputs| => Input(inputs[i].fileId, Stream(inputs[i])))
  }

  function Ids(inputs: seq<CompactorInput>): (ids: seq<nat>)
    ensures |ids| == |inputs| && forall i :: 0 <= i < |ids| ==> ids[i] == inputs[i].fileId
  {
    seq(|inputs|, i requires 0 <= i < |inputs| => inputs[i].fileId)
  }

  ghost function Iterators(inputs: seq<CompactorInput>): set<SSTableIterator> {
    set i | 0 <= i < |inputs| && inputs[i].cursor != null :: inputs[i].cursor
  }

  /** Every input reads its file through an iterator of its own. */
  predicate Separate(inputs: seq<CompactorInput>) {
    forall i, j :: 0 <= i < j < |inputs| && inputs[i].cursor != null ==> inputs[i].cursor != inputs[j].cursor
  }

  /** What input `i` has left. */
  ghost function Rest(input: CompactorInput): seq<Rec>
    reads if input.cursor == null then {} else {input.cursor}
  {
    if input.cursor == null then [] else input.cursor.Rest()
  }

  ghost predicate AtRests(inputs: seq<CompactorInput>, rests: seq<seq<Rec>>)
    reads Iterators(inputs)
  {
    |rests| == |inputs| && forall i :: 0 <= i < |inputs| ==> Rest(inputs[i]) == rests[i]
  }

  /** Every record of every input has been taken. */
  ghost predicate Consumed(inputs: seq<CompactorInput>)
    reads Iterators(inputs)
  {
    forall i :: 0 <= i < |inputs| ==> Rest(inputs[i]) == []
  }

  const ENTRY: Rec -> Entry := (r: Rec) => r.ToEntry()

  function NodeAt(input: CompactorInput, i: nat, r: Rec): HeapNode<Entry> {
    HeapNode(r.key, input.fileId, i, r.ToEntry())
  }

  lemma SlotIsNode(input: CompactorInput, i: nat, rest: seq<Rec>)
    ensures SlotOf(input.fileId, i, rest, ENTRY) == if rest == [] then None else Some(NodeAt(input, i, rest[0]))
  {
  }

  /** Advances the iterator of input `i` and pushes its next record, if there is one. */
  method PushNext(heap: Heap<Entry>, input: CompactorInput, i: nat)
    requires heap.Valid() && input.cursor != null && Rest(input) != []
    modifies heap, input.cursor
    ensures heap.Valid() && Rest(input) == old(Rest(input))[1..]
    ensures var slot := SlotOf(input.fileId, i, Rest(input), ENTRY);
      multiset(heap.nodes) == old(multiset(heap.nodes)) + (if slot.None? then multiset{} else multiset{slot.value})
  {
    hide Scan, SlotOf, IsFront;
    input.cursor.Next();
    SlotIsNode(input, i, Rest(input));
    if input.cursor.valid {
      heap.Push(NodeAt(input, i, input.cursor.record));
    }
  }

  /** Pops the front node, advances its iterator and pushes the iterator's next record. */
  method AdvanceFront(heap: Heap<Entry>, inputs: seq<CompactorInput>, ghost rests: seq<seq<Rec>>)
    returns (front: HeapNode<Entry>, ghost next: seq<seq<Rec>>)
    requires heap.Valid() && heap.nodes != [] && Separate(inputs) && AtRests(inputs, rests)
    requires Mirrors(heap.nodes, Ids(inputs), rests, ENTRY)
    modifies heap, Iterators(inputs)
    ensures heap.Valid() && front == old(heap.Top())
    ensures front.source < |rests| && rests[front.source] != []
    ensures next == rests[front.source := rests[front.source][1..]]
    ensures AtRests(inputs, next) && Mirrors(heap.nodes, Ids(inputs), next, ENTRY)
  {
    hide Represents, Scan, SlotOf, IsFront, Mirrors;
    front := heap.Top();
    ghost var before := heap.nodes;
    FrontIsLeast(before, front, Ids(inputs), rests, ENTRY);
    heap.Pop();
    var i := front.source;
    assert Rest(inputs[i]) == rests[i];
    PushNext(heap, inputs[i], i);
    next := rests[i := rests[i][1..]];
    forall j | 0 <= j < |inputs| ensures Rest(inputs[j]) == next[j] {
      assert j != i ==> old(Rest(inputs[j])) == rests[j];
      assert inputs[j].cursor != null ==> inputs[j].cursor in Iterators(inputs);
    }
    MirrorsIds(before, Ids(inputs), rests, ENTRY);
    Advanced(before, heap.nodes, front, Ids(inputs), rests, next, ENTRY);
  }

  /** Positions every iterator at its first record and fills the heap. */
  method Start(heap: Heap<Entry>, inputs: seq<CompactorInput>) returns (ghost rests: seq<seq<Rec>>)
    requires heap.Valid() && heap.nodes == [] && Separate(inputs)
    modifies heap, Iterators(inputs)
    ensures heap.Valid() && |rests| == |inputs|
    ensures forall i :: 0 <= i < |inputs| ==> rests[i] == Stream(inputs[i])
    ensures AtRests(inputs, rests) && Mirrors(heap.nodes, Ids(inputs), rests, ENTRY)
  {
    hide Represents, Scan;
    rests := seq(|inputs|, _ => []);
    NoneMirrored(Ids(inputs), rests);
    for i := 0 to |inputs|
      invariant heap.Valid() && |rests| == |inputs|
      invariant forall j :: 0 <= j < i ==> rests[j] == Stream(inputs[j]) && Rest(inputs[j]) == rests[j]
      invariant forall j :: i <= j < |inputs| ==> rests[j] == []
      invariant Mirrors(heap.nodes, Ids(inputs), rests, ENTRY)
    {
      ghost var before, was := heap.nodes, rests;
      rests := rests[i := Stream(inputs[i])];
      var it := inputs[i].cursor;
      if it != null {
        it.SeekToFirst();
        if it.valid {
          heap.Push(NodeAt(inputs[i], i, it.record));
        }
      }
      Filled(before, heap.nodes, Ids(inputs), i, was, rests, ENTRY);
    }
  }

  lemma NoneMirrored(ids: seq<nat>, rests: seq<seq<Rec>>)
    requires |ids| == |rests| && forall i :: 0 <= i < |rests| ==> rests[i] == []
    ensures Mirrors([], ids, rests, ENTRY)
  {
  }

  /** Pops and advances every older stream that holds the winner's key. */
  method DrainDuplicates(heap: Heap<Entry>, inputs: seq<CompactorInput>, key: string,
                         ghost start: seq<seq<Rec>>, ghost first: seq<seq<Rec>>)
    returns (ghost rests: seq<seq<Rec>>)
    requires heap.Valid() && Separate(inputs) && AtRests(inputs, first)
    requires Mirrors(heap.nodes, Ids(inputs), first, ENTRY) && Draining(first, start, key)
    modifies heap, Iterators(inputs)
    ensures heap.Valid() && AtRests(inputs, rests) && Mirrors(heap.nodes, Ids(inputs), rests, ENTRY)
    ensures |rests| == |start| && forall i :: 0 <= i < |rests| ==> rests[i] == Past(start[i], key)
    ensures Remaining(rests) <= Remaining(first)
  {
    hide Represents, Scan, SlotOf, Mirrors, AtRests, Draining, Sorted;
    ghost var ids := Ids(inputs);
    rests := first;
    while heap.nodes != [] && heap.Top().key == key
      invariant heap.Valid() && AtRests(inputs, rests) && Mirrors(heap.nodes, ids, rests, ENTRY)
      invariant Draining(rests, start, key) && Remaining(rests) <= Remaining(first)
      decreases Remaining(rests)
    {
      ghost var was := rests;
      FrontIsLeast(heap.nodes, heap.Top(), ids, rests, ENTRY);
      var duplicate;
      duplicate, rests := AdvanceFront(heap, inputs, rests);
      RemainingDrops(was, duplicate.source);
      DrainStep(was, start, key, duplicate.source);
    }
    DrainingLength(rests, start, key);
    Drained(heap.nodes, ids, rests, start, key, ENTRY);
  }

  /** Writes the winning record: a tombstone only when tombstones are kept, and without value. */
  method Emit(builder: SSTableBuilder, winner: HeapNode<Entry>, purge: bool) returns (added: bool)
    requires builder.Valid() && !builder.finished
    modifies builder, builder.bloom`bits
    ensures builder.Valid() && !builder.finished && added
    ensures var e := Emitted(winner.payload, purge);
      builder.added == old(builder.added) +
        (if e.None? then [] else [Rec(winner.key, e.value.value, e.value.deleted)])
  {
    added := true;
    if winner.payload.deleted {
      if !purge {
        added := builder.Add(winner.key, "", true);
      }
    } else {
      added := builder.Add(winner.key, winner.payload.value, false);
    }
  }

  /** Everything the merge loop keeps. */
  ghost predicate Merging(heap: Heap<Entry>, inputs: seq<CompactorInput>, builder: SSTableBuilder, purge: bool,
                          rests: seq<seq<Rec>>, bound: Option<string>)
    reads heap, builder, builder.bloom, Iterators(inputs)
  {
    && heap.Valid() && builder.Valid() && !builder.finished
    && AtRests(inputs, rests) && Mirrors(heap.nodes, Ids(inputs), rests, ENTRY)
    && Progress(Streams(inputs), rests, bound)
    && MergedUpTo(Streams(inputs), purge, builder.added, bound)
  }

  /** One round of the merge: the winner is taken, its duplicates are drained, and it is emitted. */
  method MergeKey(heap: Heap<Entry>, inputs: seq<CompactorInput>, builder: SSTableBuilder, purge: bool,
                  ghost start: seq<seq<Rec>>, ghost bound: Option<string>)
    returns (ghost rests: seq<seq<Rec>>, ghost key: string)
    requires Separate(inputs) && heap.nodes != [] && Merging(heap, inputs, builder, purge, start, bound)
    modifies heap, builder, builder.bloom`bits, Iterators(inputs)
    ensures Merging(heap, inputs, builder, purge, rests, Some(key)) && Remaining(rests) < Remaining(start)
  {
    hide Represents, Scan, SlotOf, Mirrors, AtRests, Draining, Sorted, Progress, MergedUpTo, Wins, Held, AllFrom,
         Covers, DataBytes, IndexOf;
    ghost var ins, ids := Streams(inputs), Ids(inputs);
    FrontIsLeast(heap.nodes, heap.Top(), ids, start, ENTRY);
    var winner;
    winner, rests := AdvanceFront(heap, inputs, start);
    key := winner.key;
    ghost var w := winner.source;
    RemainingDrops(start, w);
    LengthsAgree(ins, start, bound);
    FrontWins(ins, start, bound, w);
    DrainStart(ins, start, bound, key);
    DrainStep(start, start, key, w);
    rests := DrainDuplicates(heap, inputs, winner.key, start, rests);
    ghost var emitted := builder.added;
    var added := Emit(builder, winner, purge);
    ProgressStep(ins, start, bound, key, rests);
    MergedStep(ins, purge, emitted, start, bound, w, builder.added);
  }

  lemma MergingStarts(heap: Heap<Entry>, inputs: seq<CompactorInput>, builder: SSTableBuilder, purge: bool,
                      rests: seq<seq<Rec>>)
    requires heap.Valid() && builder.Valid() && !builder.finished && builder.added == []
    requires AtRests(inputs, rests) && Mirrors(heap.nodes, Ids(inputs), rests, ENTRY)
    requires |rests| == |inputs| && forall i :: 0 <= i < |inputs| ==> rests[i] == Stream(inputs[i])
    requires AllSorted(Streams(inputs))
    ensures Merging(heap, inputs, builder, purge, rests, None)
  {
    hide Mirrors, Sorted, Scan, Covers, DataBytes, IndexOf, RestAbove, MergedUpTo;
    var ins := Streams(inputs);
    MergeStart(ins, purge);
    assert rests == seq(|ins|, i requires 0 <= i < |ins| => ins[i].recs);
  }

  lemma MergingEnds(heap: Heap<Entry>, inputs: seq<CompactorInput>, builder: SSTableBuilder, purge: bool,
                    rests: seq<seq<Rec>>, bound: Option<string>)
    requires Merging(heap, inputs, builder, purge, rests, bound) && heap.nodes == []
    ensures builder.Valid() && !builder.finished && builder.bloom.Value().WellFormed()
    ensures IsMerge(Streams(inputs), purge, builder.added)
    ensures Consumed(inputs)
  {
    hide Sorted, Scan, Covers, DataBytes, IndexOf, RestAbove, Represents, IsMerge;
    EmptyIsDone(heap.nodes, Ids(inputs), rests, ENTRY);
    MergedAll(Streams(inputs), purge, builder.added, rests, bound);
  }

  /** Rounds until the heap is empty. */
  method MergeKeys(heap: Heap<Entry>, inputs: seq<CompactorInput>, builder: SSTableBuilder, purge: bool,
                   ghost start: seq<seq<Rec>>)
    requires Separate(inputs) && Merging(heap, inputs, builder, purge, start, None)
    modifies heap, builder, builder.bloom`bits, Iterators(inputs)
    ensures builder.Valid() && !builder.finished && builder.bloom.Value().WellFormed()
    ensures IsMerge(Streams(inputs), purge, builder.added) && Consumed(inputs)
  {
    hide Merging, Consumed, IsMerge, Stream, SSTableBuilder.Valid, Filter.WellFormed, Remaining, Iterators;
    ghost var (rests, bound: Option<string>) := (start, None);
    while heap.nodes != []
      invariant Merging(heap, inputs, builder, purge, rests, bound)
      decreases Remaining(rests)
    {
      ghost var key;
      rests, key := MergeKey(heap, inputs, builder, purge, rests, bound);
      bound := Some(key);
    }
    MergingEnds(heap, inputs, builder, purge, rests, bound);
  }

  /** Merges the inputs into one table. On ascending inputs the records written are a permitted
      newest-wins merge of them, tombstones dropped exactly when purging, and every input record
      is consumed once. */
  method Compact(inputs: seq<CompactorInput>, outputPath: string, purge: bool, bloom: BloomFilter)
    returns (ok: bool, written: Option<string>, ghost out: seq<Rec>)
    requires Separate(inputs) && AllSorted(Streams(inputs))
    requires bloom.Value().WellFormed() && bloom.bitCount > 0
    modifies Iterators(inputs), bloom`bits
    ensures ok == (inputs == [] || outputPath != "")
    ensures written.Some? <==> inputs != [] && outputPath != ""
    ensures written.Some? ==>
      && written.value == TableBytes(out, bloom.Value()) && IsTable(written.value, out, bloom.hash)
      && bloom.Value().WellFormed()
      && IsMerge(Streams(inputs), purge, out)
      && Consumed(inputs)
  {
    if inputs == [] {
      return true, None, [];
    }
    if outputPath == "" {
      return false, None, [];
    }
    hide Merging, AtRests, Consumed, TableBytes, IsTable, Mirrors, IsMerge, Stream, Covers, DataBytes, IndexOf,
         Scan, AllSorted, SSTableBuilder.Valid, Filter.WellFormed, Remaining;
    var heap := new Heap<Entry>();
    ghost var rests := Start(heap, inputs);
    var builder := new SSTableBuilder(bloom);
    MergingStarts(heap, inputs, builder, purge, rests);
    MergeKeys(heap, inputs, builder, purge, rests);
    out := builder.added;
    ok := builder.Finish();
    written := Some(builder.file);
  }
}
