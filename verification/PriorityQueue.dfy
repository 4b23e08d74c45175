/** The min-heap of both merges. A `std::priority_queue` promises only that its front is some
    minimal element: among nodes that compare equal, which one comes first is not fixed, and
    here it is left open. */
module PriorityQueue {
  import opened Keys
  import opened Records

  datatype HeapNode<+P> = HeapNode(key: string, generation: nat, source: nat, payload: P)

  /** `a > b`: by key, and for one key the larger generation comes first. */
  predicate After<P>(a: HeapNode<P>, b: HeapNode<P>) {
    if a.key != b.key then Less(b.key, a.key) else a.generation < b.generation
  }

  predicate IsFront<P>(n: HeapNode<P>, nodes: seq<HeapNode<P>>) {
    forall i :: 0 <= i < |nodes| ==> !After(n, nodes[i])
  }

  lemma AfterTransitive<P>(a: HeapNode<P>, b: HeapNode<P>, c: HeapNode<P>)
    requires After(a, b) && After(b, c)
    ensures After(a, c)
  {
    Transitive(c.key, b.key, a.key);
    if c.key == a.key && c.key != b.key { Asymmetric(c.key, b.key); }
  }

  lemma {:induction false} FrontExists<P>(nodes: seq<HeapNode<P>>) returns (i: nat)
    requires nodes != []
    ensures i < |nodes| && IsFront(nodes[i], nodes)
  {
    var m := |nodes| - 1;
    i := m;
    Irreflexive(nodes[m].key);
    if m > 0 {
      var j := FrontExists(nodes[..m]);
      forall l | 0 <= l < m ensures !After(nodes[j], nodes[l]) {
        assert nodes[..m][l] == nodes[l];
      }
      if After(nodes[j], nodes[m]) {
        forall l | 0 <= l < m ensures !After(nodes[m], nodes[l]) {
          if After(nodes[m], nodes[l]) { AfterTransitive(nodes[j], nodes[m], nodes[l]); }
        }
      } else {
        i := j;
      }
    }
  }

  lemma SwapToFront<P>(nodes: seq<HeapNode<P>>, i: nat)
    requires i < |nodes| && IsFront(nodes[i], nodes)
    ensures var swapped := nodes[0 := nodes[i]][i := nodes[0]];
      swapped[0] == nodes[i] && IsFront(nodes[i], swapped) && multiset(swapped) == multiset(nodes)
  {
    var swapped := nodes[0 := nodes[i]][i := nodes[0]];
    forall l | 0 <= l < |swapped| ensures !After(nodes[i], swapped[l]) {
      var from := if l == i then 0 else if l == 0 then i else l;
      assert swapped[l] == nodes[from];
    }
  }

  class Heap<P> {
    var nodes: seq<HeapNode<P>>

    predicate Valid()
      reads this
    {
      nodes == [] || IsFront(nodes[0], nodes)
    }

    constructor ()
      ensures Valid() && nodes == []
    {
      nodes := [];
    }

    /** Moves some minimal element to the front. */
    method Arrange()
      modifies this
      ensures Valid() && multiset(nodes) == old(multiset(nodes))
    {
      if nodes != [] {
        ghost var witnessed := FrontExists(nodes);
        var i :| 0 <= i < |nodes| && IsFront(nodes[i], nodes);
        SwapToFront(nodes, i);
        nodes := nodes[0 := nodes[i]][i := nodes[0]];
      }
    }

    method Push(n: HeapNode<P>)
      requires Valid()
      modifies this
      ensures Valid() && multiset(nodes) == old(multiset(nodes)) + multiset{n}
    {
      nodes := nodes + [n];
      Arrange();
    }

    function Top(): (n: HeapNode<P>)
      requires Valid() && nodes != []
      reads this
      ensures n in nodes && IsFront(n, nodes)
    {
      nodes[0]
    }

    method Pop()
      requires Valid() && nodes != []
      modifies this
      ensures Valid() && multiset(nodes) == old(multiset(nodes)) - multiset{old(Top())}
    {
      assert nodes == [nodes[0]] + nodes[1..];
      nodes := nodes[1..];
      Arrange();
    }

    method Clear()
      requires Valid()
      modifies this
      ensures Valid() && nodes == []
    {
      while nodes != []
        invariant Valid()
        decreases |multiset(nodes)|
      {
        Pop();
      }
    }
  }

  /** `slots[i]` is the node source `i` has in the heap, if any: one node per valid source. */
  ghost predicate Represents<P(!new)>(ns: multiset<HeapNode<P>>, slots: seq<Option<HeapNode<P>>>) {
    && (forall n :: n in ns ==> n.source < |slots| && slots[n.source] == Some(n) && ns[n] == 1)
    && (forall i :: 0 <= i < |slots| && slots[i].Some? ==> slots[i].value in ns && slots[i].value.source == i)
  }

  lemma Pushed<P(!new)>(ns: multiset<HeapNode<P>>, slots: seq<Option<HeapNode<P>>>, n: HeapNode<P>)
    requires Represents(ns, slots) && n.source < |slots| && slots[n.source].None?
    ensures Represents(ns + multiset{n}, slots[n.source := Some(n)])
  {
    assert n !in ns;
  }

  lemma Popped<P(!new)>(ns: multiset<HeapNode<P>>, slots: seq<Option<HeapNode<P>>>, n: HeapNode<P>)
    requires Represents(ns, slots) && n in ns
    ensures n.source < |slots| && Represents(ns - multiset{n}, slots[n.source := None])
  {
    assert n.source < |slots|;
  }
}
