/** The skip list of the memtable (src/core/skiplist.cpp). Heights are drawn at random in the
    source; here they are any number from 1 to 16. */
module SkipList {
  import opened Keys
  import opened Records
  import opened Upserts

  const MAX_HEIGHT: nat := 16

  class Node {
    const key: string
    var entry: Entry
    const forward: array<Node?>

    constructor (key: string, entry: Entry, height: nat)
      ensures this.key == key && this.entry == entry && forward.Length == height && fresh(forward)
      ensures forall l :: 0 <= l < height ==> forward[l] == null
    {
      this.key, this.entry := key, entry;
      forward := new Node?[height](_ => null);
    }
  }

  // ---- a spine: the head, then the nodes in key order ----

  function Height(n: Node): nat { n.forward.Length }

  function At(spine: seq<Node>, i: nat): Node? {
    if i < |spine| then spine[i] else null
  }

  /** The next node after `i` that reaches level `l`. */
  function NextAt(spine: seq<Node>, i: nat, l: nat): (j: nat)
    requires i < |spine|
    ensures i < j <= |spine| && (j < |spine| ==> l < Height(spine[j]))
    ensures forall m :: i < m < j ==> Height(spine[m]) <= l
    decreases |spine| - i
  {
    if i + 1 == |spine| || l < Height(spine[i + 1]) then i + 1 else NextAt(spine, i + 1, l)
  }

  /** The last node before `p` that reaches level `l`; the head reaches every level. */
  function PrevAt(spine: seq<Node>, p: nat, l: nat): (i: nat)
    requires 0 < p <= |spine|
    ensures i < p && (i == 0 || l < Height(spine[i]))
    ensures forall m :: i < m < p ==> Height(spine[m]) <= l
  {
    if p == 1 || l < Height(spine[p - 1]) then p - 1 else PrevAt(spine, p - 1, l)
  }

  predicate KeysAscend(spine: seq<Node>) {
    forall i, j :: 1 <= i < j < |spine| ==> Less(spine[i].key, spine[j].key)
  }

  predicate HeightsFit(spine: seq<Node>, maxHeight: nat) {
    && 1 <= maxHeight <= MAX_HEIGHT && spine != [] && Height(spine[0]) == MAX_HEIGHT
    && forall i :: 1 <= i < |spine| ==> 1 <= Height(spine[i]) <= maxHeight
  }

  predicate Distinct(spine: seq<Node>) {
    forall i, j :: 0 <= i < j < |spine| ==> spine[i] != spine[j] && spine[i].forward != spine[j].forward
  }

  ghost function Arrays(spine: seq<Node>): set<array<Node?>> {
    set i | 0 <= i < |spine| :: spine[i].forward
  }

  ghost function Nodes(spine: seq<Node>): set<Node> {
    set i | 0 <= i < |spine| :: spine[i]
  }

  /** At every level each node points to the next node that reaches that level: so the list of a
      level is a sublist of the list below it. */
  ghost predicate Linked(spine: seq<Node>)
    reads Arrays(spine)
  {
    forall i, l :: 0 <= i < |spine| && 0 <= l < Height(spine[i]) ==>
      spine[i].forward[l] == At(spine, NextAt(spine, i, l))
  }

  /** The first position, after the head, whose key is not below `key`. */
  function Position(spine: seq<Node>, key: string, from: nat): (p: nat)
    requires 1 <= from <= |spine|
    ensures from <= p <= |spine|
    ensures forall i :: from <= i < p ==> Less(spine[i].key, key)
    ensures p < |spine| ==> !Less(spine[p].key, key)
    decreases |spine| - from
  {
    if from == |spine| || !Less(spine[from].key, key) then from else Position(spine, key, from + 1)
  }

  lemma AllBefore(spine: seq<Node>, key: string, j: nat)
    requires KeysAscend(spine) && 1 <= j < |spine|
    ensures Less(spine[j].key, key) <==> j < Position(spine, key, 1)
  {
    var p := Position(spine, key, 1);
    if p < j && Less(spine[j].key, key) {
      Transitive(spine[p].key, spine[j].key, key);
    }
  }

  /** The last node below the key that reaches level `l`. */
  function PredOf(spine: seq<Node>, key: string, l: nat): (i: nat)
    requires spine != []
    ensures i < |spine|
  {
    PrevAt(spine, Position(spine, key, 1), l)
  }

  /** The first node whose key is not below the key. */
  function Ceiling(spine: seq<Node>, key: string): Node?
    requires spine != []
  {
    At(spine, Position(spine, key, 1))
  }

  /** A search for the key can stand at `xi` on this level. */
  predicate OnPath(spine: seq<Node>, key: string, xi: nat, level: nat) {
    && spine != [] && xi < Position(spine, key, 1) && level < Height(spine[xi])
    && xi <= PrevAt(spine, Position(spine, key, 1), level)
  }

  /** `update` holds the predecessors on the levels from `low` up to `high`. */
  predicate Recorded(update: seq<Node>, spine: seq<Node>, key: string, low: nat, high: nat) {
    && |update| == MAX_HEIGHT && high <= MAX_HEIGHT && spine != []
    && forall l :: low <= l < high ==> update[l] == spine[PredOf(spine, key, l)]
  }

  lemma RecordOne(update: seq<Node>, spine: seq<Node>, key: string, level: nat, high: nat)
    requires Recorded(update, spine, key, level + 1, high) && level < high
    ensures Recorded(update[level := spine[PredOf(spine, key, level)]], spine, key, level, high)
  {
    hide PredOf;
  }

  lemma RecordNone(update: seq<Node>, spine: seq<Node>, key: string, high: nat)
    requires |update| == MAX_HEIGHT && high <= MAX_HEIGHT && spine != []
    ensures Recorded(update, spine, key, high, high)
  {
  }

  lemma StartsOnPath(spine: seq<Node>, key: string, maxHeight: nat)
    requires HeightsFit(spine, maxHeight)
    ensures 1 <= maxHeight <= MAX_HEIGHT && spine != [] && MAX_HEIGHT == Height(spine[0])
    ensures OnPath(spine, key, 0, maxHeight - 1)
  {
  }

  lemma PathInside(spine: seq<Node>, key: string, xi: nat, level: nat)
    requires OnPath(spine, key, xi, level)
    ensures xi < |spine| && level < Height(spine[xi])
  {
  }

  lemma SpineHeights(spine: seq<Node>, maxHeight: nat)
    requires HeightsFit(spine, maxHeight)
    ensures spine != [] && 1 <= maxHeight <= MAX_HEIGHT && Height(spine[0]) == MAX_HEIGHT
    ensures forall i :: 0 <= i < |spine| ==> 1 <= Height(spine[i])
  {
  }

  /** One step of the search: to the right while the next key is still below the target, and down
      when this node is the level's last before the target. */
  lemma Traverse(spine: seq<Node>, key: string, xi: nat, level: nat, maxHeight: nat)
    requires HeightsFit(spine, maxHeight) && KeysAscend(spine) && xi < |spine| && level < Height(spine[xi])
    requires xi < Position(spine, key, 1) && xi <= PrevAt(spine, Position(spine, key, 1), level)
    ensures var (p, j) := (Position(spine, key, 1), NextAt(spine, xi, level));
      if j < |spine| && Less(spine[j].key, key) then j < p && j <= PrevAt(spine, p, level)
      else
        && PrevAt(spine, p, level) == xi && (level > 0 ==> xi <= PrevAt(spine, p, level - 1))
        && (level == 0 ==> j == p)
  {
    var (p, j) := (Position(spine, key, 1), NextAt(spine, xi, level));
    if j < |spine| {
      AllBefore(spine, key, j);
    }
    if level == 0 {
      assert j == xi + 1;
    }
  }

  // ---- a new node in the spine ----

  function Inserted(spine: seq<Node>, p: nat, node: Node): seq<Node>
    requires p <= |spine|
  {
    spine[..p] + [node] + spine[p..]
  }

  /** Where an old position lies in the new spine. */
  function Moved(p: nat, j: nat): nat { if j < p then j else j + 1 }

  lemma NextUnique(spine: seq<Node>, i: nat, l: nat, j: nat)
    requires i < j <= |spine| && (j < |spine| ==> l < Height(spine[j]))
    requires forall m :: i < m < j ==> Height(spine[m]) <= l
    ensures NextAt(spine, i, l) == j
  {
  }

  /** How the successors change: the node's predecessor on each of its levels now reaches the node,
      the node reaches the predecessor's old successor, and everything else stays. */
  lemma NextAfterInsert(spine: seq<Node>, p: nat, node: Node, i: nat, l: nat)
    requires 0 < p <= |spine| && i < |spine| && l < Height(spine[i])
    ensures NextAt(Inserted(spine, p, node), Moved(p, i), l) ==
      if l < Height(node) && i == PrevAt(spine, p, l) then p else Moved(p, NextAt(spine, i, l))
  {
    hide NextAt, PrevAt;
    var (after, j) := (Inserted(spine, p, node), NextAt(spine, i, l));
    var q := PrevAt(spine, p, l);
    assert forall m :: 0 <= m < |spine| ==> after[Moved(p, m)] == spine[m];
    assert after[p] == node;
    if l < Height(node) && i == q {
      forall m | i < m < p ensures Height(after[m]) <= l { assert after[m] == spine[m]; }
      NextUnique(after, i, l, p);
    } else {
      forall m | Moved(p, i) < m < Moved(p, j) ensures Height(after[m]) <= l {
        if m < p { assert after[m] == spine[m]; } else if m > p { assert after[m] == spine[m - 1]; }
      }
      NextUnique(after, Moved(p, i), l, Moved(p, j));
    }
  }

  lemma NextOfInserted(spine: seq<Node>, p: nat, node: Node, l: nat)
    requires 0 < p <= |spine| && l < Height(node)
    ensures NextAt(Inserted(spine, p, node), p, l) == Moved(p, NextAt(spine, PrevAt(spine, p, l), l))
    ensures p <= NextAt(spine, PrevAt(spine, p, l), l)
  {
    hide NextAt, PrevAt;
    var (after, j) := (Inserted(spine, p, node), NextAt(spine, PrevAt(spine, p, l), l));
    forall m | p < m < Moved(p, j) ensures Height(after[m]) <= l { assert after[m] == spine[m - 1]; }
    if j < |spine| { assert after[Moved(p, j)] == spine[j]; }
    NextUnique(after, p, l, Moved(p, j));
  }

  lemma AtMoved(spine: seq<Node>, p: nat, node: Node, j: nat)
    requires p <= |spine| && j <= |spine|
    ensures At(Inserted(spine, p, node), Moved(p, j)) == At(spine, j)
    ensures At(Inserted(spine, p, node), p) == node
  {
  }

  /** What position `i` points to at level `l` once the node is linked in below `levels`. */
  function Target(spine: seq<Node>, p: nat, node: Node, levels: nat, i: nat, l: nat): Node?
    requires 0 < p <= |spine| && i < |spine|
  {
    if l < levels && i == PrevAt(spine, p, l) then node else At(spine, NextAt(spine, i, l))
  }

  lemma TargetStep(spine: seq<Node>, p: nat, node: Node, level: nat, i: nat, l: nat)
    requires 0 < p <= |spine| && i < |spine|
    ensures Target(spine, p, node, level + 1, i, l) ==
      if l == level && i == PrevAt(spine, p, level) then node else Target(spine, p, node, level, i, l)
  {
  }

  /** The pointers while the new node is linked in on the levels below `levels`. */
  ghost predicate PartlyLinked(spine: seq<Node>, p: nat, node: Node, levels: nat)
    requires 0 < p <= |spine|
    reads Arrays(spine), node.forward
  {
    && levels <= Height(node)
    && (forall i, l :: 0 <= i < |spine| && 0 <= l < Height(spine[i]) ==>
          spine[i].forward[l] == Target(spine, p, node, levels, i, l))
    && (forall l :: 0 <= l < levels ==> node.forward[l] == At(spine, NextAt(spine, PrevAt(spine, p, l), l)))
  }

  lemma LinkedAfter(spine: seq<Node>, p: nat, node: Node)
    requires 0 < p <= |spine| && PartlyLinked(spine, p, node, Height(node))
    ensures Linked(Inserted(spine, p, node))
  {
    hide NextAt, PrevAt, Inserted;
    var after := Inserted(spine, p, node);
    InsertedAt(spine, p, node);
    forall i, l | 0 <= i < |after| && 0 <= l < Height(after[i])
      ensures after[i].forward[l] == At(after, NextAt(after, i, l))
    {
      InsertedIs(spine, p, node, i);
      if i == p {
        NextOfInserted(spine, p, node, l);
        AtMoved(spine, p, node, NextAt(spine, PrevAt(spine, p, l), l));
      } else {
        var k := if i < p then i else i - 1;
        NextAfterInsert(spine, p, node, k, l);
        AtMoved(spine, p, node, NextAt(spine, k, l));
      }
    }
  }

  lemma InsertedAt(spine: seq<Node>, p: nat, node: Node)
    requires p <= |spine|
    ensures |Inserted(spine, p, node)| == |spine| + 1
    ensures forall i :: 0 <= i <= |spine| ==>
      Inserted(spine, p, node)[i] == if i < p then spine[i] else if i == p then node else spine[i - 1]
  {
  }

  lemma InsertedIs(spine: seq<Node>, p: nat, node: Node, i: nat)
    requires p <= |spine| && i <= |spine|
    ensures |Inserted(spine, p, node)| == |spine| + 1
    ensures Inserted(spine, p, node)[i] == if i < p then spine[i] else if i == p then node else spine[i - 1]
  {
  }

  lemma SpineOwned(spine: seq<Node>)
    ensures forall i :: 0 <= i < |spine| ==> spine[i] in Nodes(spine)
    ensures forall a :: a in Arrays(spine) ==> exists i :: 0 <= i < |spine| && a == spine[i].forward
  {
  }

  lemma InsertedOwns(spine: seq<Node>, p: nat, node: Node)
    requires p <= |spine|
    ensures Nodes(Inserted(spine, p, node)) == Nodes(spine) + {node}
    ensures Arrays(Inserted(spine, p, node)) == Arrays(spine) + {node.forward}
  {
    var after := Inserted(spine, p, node);
    InsertedAt(spine, p, node);
    assert node == after[p];
    forall n | n in Nodes(spine) ensures n in Nodes(after) && n.forward in Arrays(after) {
      var i :| 0 <= i < |spine| && spine[i] == n;
      assert after[Moved(p, i)] == n;
    }
    assert forall a :: a in Arrays(spine) ==> exists n :: n in Nodes(spine) && n.forward == a;
  }

  /** No node reaches a level above the old maximum: only the head does. */
  lemma HeadAbove(spine: seq<Node>, maxHeight: nat, p: nat)
    requires HeightsFit(spine, maxHeight) && 0 < p <= |spine|
    ensures forall l :: maxHeight <= l ==> PrevAt(spine, p, l) == 0
  {
  }

  lemma HeightsRaised(spine: seq<Node>, oldMax: nat, newMax: nat)
    requires HeightsFit(spine, oldMax) && oldMax <= newMax <= MAX_HEIGHT
    ensures HeightsFit(spine, newMax)
  {
  }

  lemma InsertedHeights(spine: seq<Node>, p: nat, node: Node, oldMax: nat, newMax: nat)
    requires HeightsFit(spine, oldMax) && 0 < p <= |spine|
    requires oldMax <= newMax <= MAX_HEIGHT && 1 <= Height(node) <= newMax
    ensures HeightsFit(Inserted(spine, p, node), newMax)
  {
  }

  lemma InsertedDistinct(spine: seq<Node>, p: nat, node: Node)
    requires Distinct(spine) && p <= |spine|
    requires forall i :: 0 <= i < |spine| ==> spine[i] != node && spine[i].forward != node.forward
    ensures Distinct(Inserted(spine, p, node))
  {
    InsertedAt(spine, p, node);
    var after := Inserted(spine, p, node);
    forall i, j | 0 <= i < j < |after| ensures after[i] != after[j] && after[i].forward != after[j].forward {
      assert after[i] == if i < p then spine[i] else if i == p then node else spine[i - 1];
      assert after[j] == if j < p then spine[j] else if j == p then node else spine[j - 1];
    }
  }

  lemma InsertedAscends(spine: seq<Node>, p: nat, node: Node)
    requires KeysAscend(spine) && 0 < p <= |spine| && p == Position(spine, node.key, 1)
    requires p < |spine| ==> spine[p].key != node.key
    ensures KeysAscend(Inserted(spine, p, node))
  {
    hide Less;
    InsertedAt(spine, p, node);
    forall j | p <= j < |spine| ensures Less(node.key, spine[j].key) {
      Total(spine[p].key, node.key);
      Transitive(node.key, spine[p].key, spine[j].key);
    }
    var after := Inserted(spine, p, node);
    forall i, j | 1 <= i < j < |after| ensures Less(after[i].key, after[j].key) {
      assert after[i] == if i < p then spine[i] else if i == p then node else spine[i - 1];
      assert after[j] == if j < p then spine[j] else if j == p then node else spine[j - 1];
    }
  }

  /** One level of the insertion: the node takes over its predecessor's pointer. */
  method LinkLevel(node: Node, prev: Node?, level: nat, ghost spine: seq<Node>, ghost p: nat)
    requires spine != [] && Height(spine[0]) == MAX_HEIGHT && Distinct(spine) && 0 < p <= |spine|
    requires PartlyLinked(spine, p, node, level) && level < Height(node) <= MAX_HEIGHT
    requires node.forward !in Arrays(spine) && prev == spine[PrevAt(spine, p, level)]
    modifies Arrays(spine), node.forward
    ensures PartlyLinked(spine, p, node, level + 1)
  {
    hide NextAt, At, Target;
    ghost var q := PrevAt(spine, p, level);
    hide PrevAt;
    assert forall i :: 0 <= i < |spine| ==> spine[i].forward in Arrays(spine);
    SpineSeparate(spine, q);
    assert prev.forward[level] == At(spine, NextAt(spine, q, level)) by { TargetBefore(spine, p, node, level); }
    node.forward[level] := prev.forward[level];
    prev.forward[level] := node;
    forall i, l | 0 <= i < |spine| && 0 <= l < Height(spine[i])
      ensures spine[i].forward[l] == Target(spine, p, node, level + 1, i, l)
    {
      TargetStep(spine, p, node, level, i, l);
      assert old(spine[i].forward[l]) == Target(spine, p, node, level, i, l);
    }
  }

  lemma TargetBefore(spine: seq<Node>, p: nat, node: Node, level: nat)
    requires 0 < p <= |spine|
    ensures var q := PrevAt(spine, p, level);
      Target(spine, p, node, level, q, level) == At(spine, NextAt(spine, q, level))
  {
  }

  lemma SpineSeparate(spine: seq<Node>, q: nat)
    requires Distinct(spine) && q < |spine|
    ensures forall i :: 0 <= i < |spine| && i != q ==> spine[i].forward != spine[q].forward
  {
  }

  lemma NodesSeparate(spine: seq<Node>, q: nat)
    requires Distinct(spine) && q < |spine|
    ensures forall i :: 0 <= i < |spine| && i != q ==> spine[i] != spine[q]
  {
  }

  lemma {:induction false} PositionFrom(spine: seq<Node>, recs: seq<Rec>, key: string, from: nat)
    requires |spine| == |recs| + 1 && from <= |recs|
    requires forall i :: 0 <= i < |recs| ==> recs[i].key == spine[i + 1].key
    ensures Position(spine, key, from + 1) == IndexOf(recs, key, from) + 1
    decreases |recs| - from
  {
    hide Less;
    if from < |recs| && Less(recs[from].key, key) {
      PositionFrom(spine, recs, key, from + 1);
    }
  }

  class SkipList {
    const head: Node
    var maxHeight: nat
    ghost var nodes: seq<Node>
    ghost var Repr: set<object>

    ghost function Spine(): seq<Node>
      reads this
    {
      [head] + nodes
    }

    /** Everything the list may write to. */
    ghost function Footprint(): set<object>
      reads this
    {
      {this} + Nodes(Spine()) + Arrays(Spine())
    }

    ghost predicate Valid()
      reads this, Repr
      ensures Valid() ==> this in Repr
    {
      && Repr == Footprint() && HeightsFit(Spine(), maxHeight) && Distinct(Spine()) && KeysAscend(Spine())
      && Linked(Spine())
    }

    /** The contents, in key order. */
    ghost function Recs(): (recs: seq<Rec>)
      requires Valid()
      reads this, Repr
      ensures |recs| == |nodes|
    {
      seq(|nodes|, i requires 0 <= i < |nodes| reads this, Nodes(Spine()) =>
        assert Spine()[i + 1] == nodes[i];
        Rec(nodes[i].key, nodes[i].entry.value, nodes[i].entry.deleted))
    }

    constructor ()
      ensures Valid() && nodes == [] && fresh(Repr)
    {
      head := new Node("", Entry("", false), MAX_HEIGHT);
      maxHeight := 1;
      nodes := [];
      new;
      Repr := Footprint();
    }

    lemma PointerAt(i: nat, l: nat)
      requires Valid() && i < |Spine()| && l < Height(Spine()[i])
      ensures var (next, j) := (Spine()[i].forward[l], NextAt(Spine(), i, l));
        next == At(Spine(), j) && if j < |Spine()| then next == Spine()[j] else next == null
    {
    }

    /** Drops every node. */
    method Clear()
      requires Valid()
      modifies Repr
      ensures Valid() && Recs() == [] && Repr <= old(Repr)
    {
      forall l | 0 <= l < MAX_HEIGHT {
        head.forward[l] := null;
      }
      nodes := [];
      maxHeight := 1;
      Repr := Footprint();
    }

    method Empty() returns (empty: bool)
      requires Valid()
      ensures empty <==> Recs() == []
    {
      assert NextAt(Spine(), 0, 0) == 1 by {
        if |Spine()| > 1 { assert 1 <= Height(Spine()[1]); }
      }
      empty := head.forward[0] == null;
    }

    /** Any height the random draw can give. */
    method RandomHeight() returns (height: nat)
      ensures 1 <= height <= MAX_HEIGHT
    {
      height :| 1 <= height <= MAX_HEIGHT;
    }

    /** One step of the search: to the right while the next key is still below the target, and down
        when this node is the level's last before the target. */
    lemma SearchStep(key: string, xi: nat, level: nat) returns (j: nat)
      requires Valid() && OnPath(Spine(), key, xi, level)
      ensures var (spine, next) := (Spine(), Spine()[xi].forward[level]);
        if next != null && Less(next.key, key) then
          xi < j && OnPath(spine, key, j, level) && spine[j] == next
        else
          && spine[xi] == spine[PredOf(spine, key, level)]
          && (if level == 0 then next == Ceiling(spine, key) else OnPath(spine, key, xi, level - 1))
    {
      hide Less, NextAt, PrevAt, Position, KeysAscend;
      j := NextAt(Spine(), xi, level);
      PointerAt(xi, level);
      Traverse(Spine(), key, xi, level, maxHeight);
    }

    /** The first node whose key is not below `key`, and its predecessor on every level in use. */
    method FindGreaterOrEqual(key: string) returns (found: Node?, update: seq<Node>)
      requires Valid()
      ensures found == Ceiling(Spine(), key)
      ensures Recorded(update, Spine(), key, 0, maxHeight)
    {
      ghost var spine := Spine();
      StartsOnPath(spine, key, maxHeight);
      var x: Node, level: nat := head, maxHeight - 1;
      ghost var xi: nat := 0;
      assert x == spine[0];
      hide SkipList.Valid, SkipList.Spine, OnPath, PredOf, Ceiling, Less, Recorded;
      update := seq(MAX_HEIGHT, _ => head);
      RecordNone(update, spine, key, maxHeight);
      while true
        invariant 0 <= level < maxHeight <= MAX_HEIGHT == |update|
        invariant xi < |spine| && x == spine[xi] && level < Height(x) && OnPath(spine, key, xi, level)
        invariant Recorded(update, spine, key, level + 1, maxHeight)
        decreases level, |spine| - xi
      {
        ghost var j := SearchStep(key, xi, level);
        var next := x.forward[level];
        if next != null && Less(next.key, key) {
          x, xi := next, j;
          PathInside(spine, key, xi, level);
        } else {
          RecordOne(update, spine, key, level, maxHeight);
          update := update[level := x];
          if level == 0 {
            return next, update;
          }
          level := level - 1;
          PathInside(spine, key, xi, level);
        }
      }
    }

    method Find(key: string) returns (entry: Option<Entry>)
      requires Valid()
      ensures entry == Records.Find(Contents(Recs()), key)
    {
      var x, _ := FindGreaterOrEqual(key);
      RecsSorted();
      FindAtPosition(key);
      if x != null && x.key == key {
        return Some(x.entry);
      }
      return None;
    }

    lemma RecsSorted()
      requires Valid()
      ensures Sorted(Recs())
    {
      forall i, j | 0 <= i < j < |nodes| ensures Less(Recs()[i].key, Recs()[j].key) {
        assert Spine()[i + 1] == nodes[i] && Spine()[j + 1] == nodes[j];
      }
    }

    /** Looking a key up is looking at the position where it belongs. */
    lemma FindAtPosition(key: string)
      requires Valid()
      ensures var x := At(Spine(), Position(Spine(), key, 1));
        Records.Find(Contents(Recs()), key) == if x != null && x.key == key then Some(x.entry) else None
    {
      hide Contents, Linked, HeightsFit, Distinct, Sorted;
      var (spine, recs) := (Spine(), Recs());
      var p := Position(spine, key, 1);
      RecsSorted();
      if p < |spine| && spine[p].key == key {
        assert recs[p - 1].key == key;
        RecordBound(recs, p - 1);
      } else if key in Contents(recs) {
        var i := KeyHasIndex(recs, key);
        AllBefore(spine, key, i + 1);
        assert spine[i + 1].key == key;
        Irreflexive(key);
      }
    }

    /** The position in the spine is one past the index in the contents. */
    lemma PositionIsIndex(key: string)
      requires Valid()
      ensures Position(Spine(), key, 1) == IndexOf(Recs(), key, 0) + 1
    {
      PositionFrom(Spine(), Recs(), key, 0);
    }

    lemma UpsertHere(r: Rec)
      requires Valid()
      ensures var (spine, recs) := (Spine(), Recs());
        var p := Position(spine, r.key, 1);
        Upsert(recs, r) == if p < |spine| && spine[p].key == r.key then recs[p - 1 := r]
                           else recs[..p - 1] + [r] + recs[p - 1..]
    {
      hide Less, Position, IndexOf, Linked, HeightsFit, KeysAscend;
      PositionIsIndex(r.key);
      assert forall i :: 0 <= i < |nodes| ==> Recs()[i].key == Spine()[i + 1].key;
    }

    /** Threads the new node into every level it reaches, behind its predecessors. */
    method Link(node: Node, update: seq<Node>, ghost p: nat)
      requires HeightsFit(Spine(), maxHeight) && Distinct(Spine()) && Linked(Spine()) && 0 < p <= |Spine()|
      requires Height(node) <= |update| == MAX_HEIGHT && node.forward !in Arrays(Spine())
      requires forall l :: 0 <= l < Height(node) ==> update[l] == Spine()[PrevAt(Spine(), p, l)]
      modifies Arrays(Spine()), node.forward
      ensures PartlyLinked(Spine(), p, node, Height(node))
    {
      hide NextAt, PrevAt;
      ghost var spine := Spine();
      for i := 0 to Height(node)
        invariant PartlyLinked(spine, p, node, i)
      {
        LinkLevel(node, update[i], i, spine, p);
      }
    }

    /** Raises the list's height; above the old height the head is the only predecessor. */
    method Raise(height: nat, update: seq<Node>, ghost p: nat) returns (raised: seq<Node>)
      requires HeightsFit(Spine(), maxHeight) && 0 < p <= |Spine()| && 1 <= height <= MAX_HEIGHT
      requires |update| == MAX_HEIGHT
      requires forall l :: 0 <= l < maxHeight ==> update[l] == Spine()[PrevAt(Spine(), p, l)]
      modifies `maxHeight
      ensures maxHeight == if height > old(maxHeight) then height else old(maxHeight)
      ensures |raised| == MAX_HEIGHT
      ensures forall l :: 0 <= l < maxHeight ==> raised[l] == Spine()[PrevAt(Spine(), p, l)]
    {
      HeadAbove(Spine(), maxHeight, p);
      hide PrevAt;
      raised := update;
      if height > maxHeight {
        for i := maxHeight to height
          invariant |raised| == MAX_HEIGHT
          invariant forall l :: 0 <= l < i ==> raised[l] == Spine()[PrevAt(Spine(), p, l)]
        {
          raised := raised[i := head];
        }
        maxHeight := height;
      }
    }

    /** Puts a new node with a random height at position `p`. */
    method Splice(key: string, entry: Entry, update: seq<Node>, ghost p: nat) returns (node: Node)
      requires Valid() && |update| == MAX_HEIGHT
      requires p == Position(Spine(), key, 1) && (p < |Spine()| ==> Spine()[p].key != key)
      requires forall l :: 0 <= l < maxHeight ==> update[l] == Spine()[PrevAt(Spine(), p, l)]
      modifies this, Arrays(Spine())
      ensures Valid() && fresh(node) && fresh(node.forward) && node.key == key && node.entry == entry
      ensures nodes == old(nodes[..p - 1]) + [node] + old(nodes[p - 1..])
      ensures Repr == old(Repr) + {node, node.forward}
    {
      hide Less, PrevAt, NextAt, HeightsFit, KeysAscend, Distinct, PartlyLinked, Position, Linked;
      ghost var spine, oldMax := Spine(), maxHeight;
      SpineHeights(spine, oldMax);
      var height := RandomHeight();
      var raised := Raise(height, update, p);
      node := new Node(key, entry, height);
      HeightsRaised(spine, oldMax, maxHeight);
      Link(node, raised, p);
      nodes := nodes[..p - 1] + [node] + nodes[p - 1..];
      Repr := Repr + {node, node.forward};
      assert Spine() == Inserted(spine, p, node);
      InsertedHeights(spine, p, node, oldMax, maxHeight);
      InsertedDistinct(spine, p, node);
      InsertedAscends(spine, p, node);
      LinkedAfter(spine, p, node);
      InsertedOwns(spine, p, node);
    }

    /** The contents after a node was put at index `i` of a list with contents `recs`. */
    lemma RecsInserted(recs: seq<Rec>, was: seq<Node>, node: Node, i: nat)
      requires Valid() && |recs| == |was| && i <= |was| && nodes == was[..i] + [node] + was[i..]
      requires forall j :: 0 <= j < |was| ==> recs[j] == Rec(was[j].key, was[j].entry.value, was[j].entry.deleted)
      ensures Recs() == recs[..i] + [Rec(node.key, node.entry.value, node.entry.deleted)] + recs[i..]
    {
    }

    /** The same, seen on the contents. */
    method InsertNew(key: string, entry: Entry, update: seq<Node>, ghost p: nat) returns (node: Node)
      requires Valid() && |update| == MAX_HEIGHT
      requires p == Position(Spine(), key, 1) && (p < |Spine()| ==> Spine()[p].key != key)
      requires forall l :: 0 <= l < maxHeight ==> update[l] == Spine()[PrevAt(Spine(), p, l)]
      modifies this, Arrays(Spine())
      ensures Valid() && fresh(node) && fresh(node.forward)
      ensures Repr == old(Repr) + {node, node.forward}
      ensures Recs() == old(Recs())[..p - 1] + [Rec(key, entry.value, entry.deleted)] + old(Recs())[p - 1..]
    {
      hide Less, PrevAt, NextAt, HeightsFit, KeysAscend, Linked, Distinct, Position, Nodes, Arrays;
      ghost var was, recs := nodes, Recs();
      node := Splice(key, entry, update, p);
      RecsInserted(recs, was, node, p - 1);
    }

    /** Overwrites the entry of the node at position `p`. */
    method Overwrite(node: Node, entry: Entry, ghost p: nat)
      requires Valid() && 0 < p < |Spine()| && node == Spine()[p]
      modifies node`entry
      ensures Valid() && Repr == old(Repr)
      ensures Recs() == old(Recs())[p - 1 := Rec(node.key, entry.value, entry.deleted)]
    {
      hide HeightsFit, KeysAscend, NextAt, At, Less;
      ghost var recs := Recs();
      NodesSeparate(Spine(), p);
      assert forall i :: 0 <= i < |nodes| ==> nodes[i] == Spine()[i + 1];
      node.entry := entry;
    }

    /** Inserts the key, or updates its entry in place; the other levels follow. */
    method Insert(key: string, entry: Entry)
      requires Valid()
      modifies Repr
      ensures Valid() && fresh(Repr - old(Repr))
      ensures Recs() == Upsert(old(Recs()), Rec(key, entry.value, entry.deleted))
    {
      hide Less, PrevAt, NextAt, HeightsFit, KeysAscend, Linked, Distinct, Position, Upsert, Nodes, Arrays;
      ghost var spine := Spine();
      ghost var p := Position(spine, key, 1);
      UpsertHere(Rec(key, entry.value, entry.deleted));
      SpineOwned(spine);
      var x, update := FindGreaterOrEqual(key);
      if x != null && x.key == key {
        Overwrite(x, entry, p);
        return;
      }
      var node := InsertNew(key, entry, update, p);
    }

    /** Every level is the sorted list of the nodes that reach it: a pointer leads to the next such
        node in key order, skipping only nodes that do not reach the level. */
    lemma LevelOrder(i: nat, l: nat)
      requires Valid() && i < |Spine()| && l < Height(Spine()[i])
      ensures var (spine, next) := (Spine(), Spine()[i].forward[l]);
        if next == null then forall m :: i < m < |spine| ==> Height(spine[m]) <= l
        else exists j :: i < j < |spine| && spine[j] == next && l < Height(next)
               && (i > 0 ==> Less(spine[i].key, next.key))
               && forall m :: i < m < j ==> Height(spine[m]) <= l
    {
      hide Less;
      var (spine, j) := (Spine(), NextAt(Spine(), i, l));
      assert spine[i].forward[l] == At(spine, j);
    }
  }

  /** A cursor over the list (`SkipList::Iterator`). */
  class Iterator {
    const list: SkipList
    var node: Node?
    ghost var at: nat

    ghost predicate Inv()
      reads this, list, list.Repr
    {
      list.Valid() && 1 <= at <= |list.Spine()| && node == At(list.Spine(), at)
    }

    /** The records still to come, the current one first. */
    ghost function Rest(): seq<Rec>
      requires Inv()
      reads this, list, list.Repr
    {
      list.Recs()[at - 1..]
    }

    constructor (list: SkipList)
      requires list.Valid()
      ensures Inv() && this.list == list && Rest() == []
    {
      this.list := list;
      node := null;
      at := |list.Spine()|;
    }

    predicate Valid()
      reads this
    {
      node != null
    }

    method SeekToFirst()
      requires list.Valid()
      modifies this
      ensures Inv() && Rest() == list.Recs()
    {
      hide NextAt;
      FirstIsNext(list.Spine(), 0, list.maxHeight);
      node := list.head.forward[0];
      at := 1;
    }

    method Seek(target: string)
      requires list.Valid()
      modifies this
      ensures Inv() && Rest() == list.Recs()[IndexOf(list.Recs(), target, 0)..]
    {
      hide NextAt, KeysAscend, HeightsFit, Distinct, Position;
      var found, _ := list.FindGreaterOrEqual(target);
      node := found;
      at := Position(list.Spine(), target, 1);
      list.PositionIsIndex(target);
    }

    method Next()
      requires Inv()
      modifies this
      ensures Inv() && Rest() == if old(Rest()) == [] then [] else old(Rest())[1..]
    {
      hide NextAt;
      if node != null {
        FirstIsNext(list.Spine(), at, list.maxHeight);
        node := node.forward[0];
        at := at + 1;
      }
    }

    /** The current record, when there is one. */
    lemma Current()
      requires Inv()
      ensures Valid() <==> Rest() != []
      ensures Valid() ==> Rest()[0] == Rec(node.key, node.entry.value, node.entry.deleted)
    {
      hide Linked, KeysAscend, HeightsFit, Distinct;
      if node != null {
        assert list.Spine()[at] == list.nodes[at - 1];
      }
    }
  }

  lemma FirstIsNext(spine: seq<Node>, i: nat, maxHeight: nat)
    requires HeightsFit(spine, maxHeight) && i < |spine|
    ensures NextAt(spine, i, 0) == i + 1 && 0 < Height(spine[i])
  {
  }
}
