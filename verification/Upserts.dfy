/** Updating a strictly ascending record list: replace the record of the key, or insert it in place. */
module Upserts {
  import opened Keys
  import opened Records

  /** The first index, from `from`, whose key is not below `key`. */
  function IndexOf(recs: seq<Rec>, key: string, from: nat): (p: nat)
    requires from <= |recs|
    ensures from <= p <= |recs|
    ensures forall i :: from <= i < p ==> Less(recs[i].key, key)
    ensures p < |recs| ==> !Less(recs[p].key, key)
    decreases |recs| - from
  {
    if from == |recs| || !Less(recs[from].key, key) then from else IndexOf(recs, key, from + 1)
  }

  function Upsert(recs: seq<Rec>, r: Rec): seq<Rec> {
    var p := IndexOf(recs, r.key, 0);
    if p < |recs| && recs[p].key == r.key then recs[p := r] else recs[..p] + [r] + recs[p..]
  }

  lemma UpsertSorted(recs: seq<Rec>, r: Rec)
    requires Sorted(recs)
    ensures Sorted(Upsert(recs, r))
  {
    var p := IndexOf(recs, r.key, 0);
    if p < |recs| && recs[p].key != r.key {
      Total(recs[p].key, r.key);
      forall j | p <= j < |recs| ensures Less(r.key, recs[j].key) {
        Transitive(r.key, recs[p].key, recs[j].key);
      }
    }
  }

  /** The list after an update stands for the updated map. */
  lemma UpsertContents(recs: seq<Rec>, r: Rec)
    requires Sorted(recs)
    ensures Sorted(Upsert(recs, r)) && Contents(Upsert(recs, r)) == Contents(recs)[r.key := r.ToEntry()]
  {
    UpsertSorted(recs, r);
    var next := Upsert(recs, r);
    forall k ensures Find(Contents(next), k) == Find(Contents(recs)[r.key := r.ToEntry()], k) {
      UpsertFind(recs, r, k);
    }
    SameFind(Contents(next), Contents(recs)[r.key := r.ToEntry()]);
  }

  lemma UpsertFind(recs: seq<Rec>, r: Rec, k: string)
    requires Sorted(recs)
    ensures Find(Contents(Upsert(recs, r)), k) == if k == r.key then Some(r.ToEntry()) else Find(Contents(recs), k)
  {
    hide Contents, Less;
    var (p, next) := (IndexOf(recs, r.key, 0), Upsert(recs, r));
    UpsertSorted(recs, r);
    assert next[p] == r;
    RecordBound(next, p);
    if k != r.key {
      if k in Contents(recs) { UpsertKeeps(recs, r, k); }
      if k in Contents(next) { UpsertAdds(recs, r, k); }
    }
  }

  lemma UpsertKeeps(recs: seq<Rec>, r: Rec, k: string)
    requires Sorted(recs) && k != r.key && k in Contents(recs)
    ensures k in Contents(Upsert(recs, r)) && Contents(Upsert(recs, r))[k] == Contents(recs)[k]
  {
    hide Contents, Less;
    var (p, next) := (IndexOf(recs, r.key, 0), Upsert(recs, r));
    UpsertSorted(recs, r);
    var i := KeyHasIndex(recs, k);
    var j := if i < p || |next| == |recs| then i else i + 1;
    assert next[j] == recs[i];
    RecordBound(recs, i);
    RecordBound(next, j);
  }

  lemma UpsertAdds(recs: seq<Rec>, r: Rec, k: string)
    requires Sorted(recs) && k != r.key && k in Contents(Upsert(recs, r))
    ensures k in Contents(recs)
  {
    hide Contents, Less;
    var (p, next) := (IndexOf(recs, r.key, 0), Upsert(recs, r));
    var i := KeyHasIndex(next, k);
    var j := if i < p || |next| == |recs| then i else i - 1;
    assert next[i] == recs[j];
    RecordBound(recs, j);
  }
}
