/** The heap of a k-way merge against the streams it merges: one node per stream that still has
    records, holding that stream's current key. */
module MergeHeap {
  import opened Keys
  import opened Records
  import opened PriorityQueue
  import opened Merge

  function SlotOf<P>(id: nat, i: nat, rest: seq<Rec>, payload: Rec -> P): Option<HeapNode<P>> {
    if rest == [] then None else Some(HeapNode(rest[0].key, id, i, payload(rest[0])))
  }

  function Slots<P>(ids: seq<nat>, rests: seq<seq<Rec>>, payload: Rec -> P): (slots: seq<Option<HeapNode<P>>>)
    requires |ids| == |rests|
    ensures |slots| == |rests|
    ensures forall i :: 0 <= i < |slots| ==> slots[i] == SlotOf(ids[i], i, rests[i], payload)
  {
    seq(|rests|, i requires 0 <= i < |rests| => SlotOf(ids[i], i, rests[i], payload))
  }

  /** The heap invariant of both merges. */
  ghost predicate Mirrors<P(!new)>(nodes: seq<HeapNode<P>>, ids: seq<nat>, rests: seq<seq<Rec>>, payload: Rec -> P) {
    |ids| == |rests| && Represents(multiset(nodes), Slots(ids, rests, payload))
  }

  /** The front holds the least remaining key, and among streams at that key a largest id. */
  lemma FrontIsLeast<P(!new)>(nodes: seq<HeapNode<P>>, n: HeapNode<P>, ids: seq<nat>, rests: seq<seq<Rec>>,
                              payload: Rec -> P)
    requires Mirrors(nodes, ids, rests, payload) && n in nodes && IsFront(n, nodes)
    ensures n.source < |rests| && rests[n.source] != []
    ensures n == HeapNode(rests[n.source][0].key, ids[n.source], n.source, payload(rests[n.source][0]))
    ensures AllFrom(rests, n.key)
    ensures forall i :: 0 <= i < |rests| && rests[i] != [] && rests[i][0].key == n.key ==> ids[i] <= ids[n.source]
  {
    var slots := Slots(ids, rests, payload);
    assert n in multiset(nodes);
    assert slots[n.source] == Some(n);
    forall i | 0 <= i < |rests| && rests[i] != []
      ensures AtMost(n.key, rests[i][0].key) && (rests[i][0].key == n.key ==> ids[i] <= ids[n.source])
    {
      var m := slots[i].value;
      assert m in multiset(nodes);
      var j :| 0 <= j < |nodes| && nodes[j] == m;
      assert !After(n, nodes[j]);
      Total(n.key, m.key);
    }
  }

  /** An empty heap means that every stream is used up. */
  lemma EmptyIsDone<P(!new)>(nodes: seq<HeapNode<P>>, ids: seq<nat>, rests: seq<seq<Rec>>, payload: Rec -> P)
    requires Mirrors(nodes, ids, rests, payload) && nodes == []
    ensures forall i :: 0 <= i < |rests| ==> rests[i] == []
  {
    forall i | 0 <= i < |rests| ensures rests[i] == [] {
      assert Slots(ids, rests, payload)[i] == SlotOf(ids[i], i, rests[i], payload);
    }
  }

  function Remaining(rests: seq<seq<Rec>>): nat {
    if rests == [] then 0 else |rests[0]| + Remaining(rests[1..])
  }

  lemma {:induction false} RemainingDrops(rests: seq<seq<Rec>>, i: nat)
    requires i < |rests| && rests[i] != []
    ensures Remaining(rests[i := rests[i][1..]]) == Remaining(rests) - 1
  {
    var next := rests[i := rests[i][1..]];
    if i == 0 {
      assert next[1..] == rests[1..];
    } else {
      RemainingDrops(rests[1..], i - 1);
      assert next[1..] == rests[1..][i - 1 := rests[i][1..]];
    }
  }

  /** Popping the front, advancing its stream and pushing its next record keeps the invariant. */
  lemma Advanced<P(!new)>(before: seq<HeapNode<P>>, after: seq<HeapNode<P>>, n: HeapNode<P>, ids: seq<nat>,
                          rests: seq<seq<Rec>>, next: seq<seq<Rec>>, payload: Rec -> P)
    requires Mirrors(before, ids, rests, payload) && n in before && n.source < |rests| && rests[n.source] != []
    requires next == rests[n.source := rests[n.source][1..]]
    requires var slot := SlotOf(ids[n.source], n.source, next[n.source], payload);
      multiset(after) == multiset(before) - multiset{n} + (if slot.None? then multiset{} else multiset{slot.value})
    ensures Mirrors(after, ids, next, payload)
  {
    hide Represents, SlotOf;
    var slots := Slots(ids, rests, payload);
    var slot := SlotOf(ids[n.source], n.source, next[n.source], payload);
    assert n in multiset(before);
    Popped(multiset(before), slots, n);
    var without := slots[n.source := None];
    SlotSource(ids[n.source], n.source, next[n.source], payload);
    if slot.Some? {
      Pushed(multiset(before) - multiset{n}, without, slot.value);
      assert Slots(ids, next, payload) == without[n.source := slot];
    } else {
      assert Slots(ids, next, payload) == without;
      assert multiset(after) == multiset(before) - multiset{n};
    }
  }

  lemma SlotSource<P>(id: nat, i: nat, rest: seq<Rec>, payload: Rec -> P)
    ensures SlotOf(id, i, rest, payload).Some? ==> SlotOf(id, i, rest, payload).value.source == i
  {
  }

  /** Pushing the first record of stream `i`, whose slot was empty. */
  lemma Filled<P(!new)>(before: seq<HeapNode<P>>, after: seq<HeapNode<P>>, ids: seq<nat>, i: nat,
                        rests: seq<seq<Rec>>, next: seq<seq<Rec>>, payload: Rec -> P)
    requires Mirrors(before, ids, rests, payload) && i < |rests| && rests[i] == []
    requires |next| == |rests| && next == rests[i := next[i]]
    requires var slot := SlotOf(ids[i], i, next[i], payload);
      multiset(after) == multiset(before) + (if slot.None? then multiset{} else multiset{slot.value})
    ensures Mirrors(after, ids, next, payload)
  {
    hide Represents;
    var slots, slot := Slots(ids, rests, payload), SlotOf(ids[i], i, next[i], payload);
    if slot.Some? {
      Pushed(multiset(before), slots, slot.value);
      assert Slots(ids, next, payload) == slots[i := slot];
    } else {
      assert Slots(ids, next, payload) == slots;
      assert multiset(after) == multiset(before);
    }
  }

  /** Streams in the middle of draining `k`: each has lost its record at `k`, or still holds it. */
  ghost predicate Draining(rests: seq<seq<Rec>>, start: seq<seq<Rec>>, k: string) {
    && |rests| == |start| && AllFrom(rests, k)
    && (forall i :: 0 <= i < |rests| ==> Sorted(rests[i]) && Past(rests[i], k) == Past(start[i], k))
  }

  lemma DrainStep(rests: seq<seq<Rec>>, start: seq<seq<Rec>>, k: string, i: nat)
    requires Draining(rests, start, k) && i < |rests| && rests[i] != [] && rests[i][0].key == k
    ensures Draining(rests[i := rests[i][1..]], start, k)
  {
    var tail := rests[i][1..];
    SortedTail(rests[i]);
    if tail != [] {
      Asymmetric(k, tail[0].key);
    }
  }

  /** When the front has left `k`, every stream is past it. */
  lemma Drained<P(!new)>(nodes: seq<HeapNode<P>>, ids: seq<nat>, rests: seq<seq<Rec>>, start: seq<seq<Rec>>,
                         k: string, payload: Rec -> P)
    requires Mirrors(nodes, ids, rests, payload) && Draining(rests, start, k)
    requires nodes == [] || (IsFront(nodes[0], nodes) && nodes[0].key != k)
    ensures forall i :: 0 <= i < |rests| ==> rests[i] == Past(start[i], k)
  {
    if nodes == [] {
      EmptyIsDone(nodes, ids, rests, payload);
    } else {
      FrontIsLeast(nodes, nodes[0], ids, rests, payload);
      forall i | 0 <= i < |rests| ensures rests[i] == Past(rests[i], k) {
        if rests[i] != [] && rests[i][0].key == k {
          assert AtMost(nodes[0].key, k) && AtMost(k, nodes[0].key);
          Asymmetric(k, nodes[0].key);
        }
      }
    }
  }

  lemma MirrorsIds<P(!new)>(nodes: seq<HeapNode<P>>, ids: seq<nat>, rests: seq<seq<Rec>>, payload: Rec -> P)
    requires Mirrors(nodes, ids, rests, payload)
    ensures |ids| == |rests|
  {
  }

  lemma DrainingLength(rests: seq<seq<Rec>>, start: seq<seq<Rec>>, k: string)
    requires Draining(rests, start, k)
    ensures |rests| == |start|
  {
  }

  lemma LengthsAgree(inputs: seq<Input>, rests: seq<seq<Rec>>, bound: Option<string>)
    requires Progress(inputs, rests, bound)
    ensures |rests| == |inputs|
  {
  }

  lemma DrainStart(inputs: seq<Input>, rests: seq<seq<Rec>>, bound: Option<string>, k: string)
    requires Progress(inputs, rests, bound) && AllFrom(rests, k)
    ensures Draining(rests, rests, k)
  {
  }
}
