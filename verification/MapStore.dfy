/** The engine as its Python clients see it: a map from keys to values, read with `get` and
    `prefix_scan` (src/bindings/python_bindings.cpp:18-48). */
module MapStore {
  import opened Keys
  import opened Records
  import opened Upserts
  import opened MemTable
  import opened EngineModel
  import opened EngineScan
  import opened ScanSpec

  class MapStore {
    var recs: seq<Rec>

    ghost predicate Valid()
      reads this
    {
      Sorted(recs)
    }

    ghost function View(): map<string, string>
      reads this
    {
      Live(Contents(recs))
    }

    constructor ()
      ensures Valid() && View() == map[]
    {
      recs := [];
      new;
      NoContents();
    }

    method Get(key: string) returns (value: Option<string>)
      requires Valid()
      ensures value == Lookup(View(), key)
    {
      hide Contents, IndexOf;
      FindIndexed(recs, key);
      var p := IndexOf(recs, key, 0);
      if p < |recs| && recs[p].key == key && !recs[p].deleted {
        return Some(recs[p].value);
      }
      return None;
    }

    method Put(key: string, value: string)
      requires Valid()
      modifies this
      ensures Valid() && View() == old(View())[key := value]
    {
      hide Contents, Upsert, Live;
      UpsertContents(recs, PutRec(key, value));
      LiveUpdate(Contents(recs), key, Entry(value, false));
      recs := Upsert(recs, PutRec(key, value));
    }

    method Delete(key: string)
      requires Valid()
      modifies this
      ensures Valid() && View() == old(View()) - {key}
    {
      hide Contents, Upsert, Live;
      UpsertContents(recs, DeleteRec(key));
      LiveUpdate(Contents(recs), key, TOMBSTONE);
      recs := Upsert(recs, DeleteRec(key));
    }

    method PrefixScan(prefix: string, limit: nat) returns (items: seq<(string, string)>)
      requires Valid()
      ensures ListsView(items, View(), WithPrefix(prefix), limit)
    {
      hide Lists, HasPrefix;
      items := [];
      ghost var full: seq<Rec> := [];
      for i := 0 to |recs|
        invariant full == Matching(recs[..i], prefix) && items == Pairs(full)
      {
        assert recs[..i + 1][..i] == recs[..i];
        if HasPrefix(recs[i].key, prefix) && !recs[i].deleted {
          items, full := items + [(recs[i].key, recs[i].value)], full + [recs[i]];
        }
      }
      assert recs[..|recs|] == recs;
      MatchingLists(recs, prefix);
      if 0 < limit < |items| {
        items := items[..limit];
      }
      assert items == Pairs(Taken(full, limit));
    }
  }

  lemma LiveUpdate(m: map<string, Entry>, k: string, e: Entry)
    ensures Live(m[k := e]) == if e.deleted then Live(m) - {k} else Live(m)[k := e.value]
  {
  }

  /** The live records with the prefix. */
  function Matching(recs: seq<Rec>, prefix: string): seq<Rec> {
    if recs == [] then []
    else
      var (t, r) := (recs[..|recs| - 1], recs[|recs| - 1]);
      if HasPrefix(r.key, prefix) && !r.deleted then Matching(t, prefix) + [r] else Matching(t, prefix)
  }

  lemma {:induction false} MatchingLists(recs: seq<Rec>, prefix: string)
    requires Sorted(recs)
    ensures Lists(Matching(recs, prefix), Live(Contents(recs)), WithPrefix(prefix))
    ensures forall k :: k in Contents(Matching(recs, prefix)) ==> k in Contents(recs)
  {
    hide HasPrefix, Less, Lists, Contents, Sorted;
    if recs == [] {
      NothingListed(prefix);
    } else {
      var (t, r) := (recs[..|recs| - 1], recs[|recs| - 1]);
      assert Sorted(t) by { SortedButLast(recs); }
      MatchingLists(t, prefix);
      ContentsGrow(recs);
      MatchingStep(t, r, prefix, Matching(t, prefix));
    }
  }

  lemma NothingListed(prefix: string)
    ensures Lists([], Live(Contents([])), WithPrefix(prefix))
  {
    hide HasPrefix;
  }

  lemma SortedButLast(recs: seq<Rec>)
    requires Sorted(recs) && recs != []
    ensures Sorted(recs[..|recs| - 1])
  {
  }

  lemma ContentsGrow(recs: seq<Rec>)
    requires Sorted(recs) && recs != []
    ensures var (t, r) := (recs[..|recs| - 1], recs[|recs| - 1]);
      recs == t + [r] && r.key !in Contents(t) && Contents(recs) == Contents(t)[r.key := r.ToEntry()]
  {
    hide Less, Sorted;
    LastIsGreatest(recs);
    var (t, r) := (recs[..|recs| - 1], recs[|recs| - 1]);
    assert recs == t + [r];
    hide AtMost;
    ContentsLast(t, r);
  }

  lemma MatchingStep(t: seq<Rec>, r: Rec, prefix: string, before: seq<Rec>)
    requires Lists(before, Live(Contents(t)), WithPrefix(prefix)) && r.key !in Contents(t) && Sorted(t + [r])
    requires forall k :: k in Contents(before) ==> k in Contents(t)
    ensures Lists(if HasPrefix(r.key, prefix) && !r.deleted then before + [r] else before,
                  Live(Contents(t)[r.key := r.ToEntry()]), WithPrefix(prefix))
    ensures HasPrefix(r.key, prefix) && !r.deleted ==> Contents(before + [r]) == Contents(before)[r.key := r.ToEntry()]
  {
    hide HasPrefix, Less, Contents, Sorted, Live, ViewWithin;
    WithinUpdate(Contents(t), r, prefix);
    if HasPrefix(r.key, prefix) && !r.deleted {
      MatchingMore(t, r, before);
      LiveUpdate(Contents(before), r.key, r.ToEntry());
    }
  }

  lemma MatchingMore(t: seq<Rec>, r: Rec, before: seq<Rec>)
    requires Sorted(before) && Sorted(t + [r]) && forall k :: k in Contents(before) ==> k in Contents(t)
    ensures Sorted(before + [r]) && Contents(before + [r]) == Contents(before)[r.key := r.ToEntry()]
  {
    hide Less, Contents;
    assert (before + [r])[..|before|] == before;
    forall i | 0 <= i < |before| ensures Less(before[i].key, r.key) {
      RecordBound(before, i);
      var j := KeyHasIndex(t, before[i].key);
      assert (t + [r])[j] == t[j] && (t + [r])[|t|] == r;
    }
    ContentsLast(before, r);
  }

  lemma ContentsLast(before: seq<Rec>, r: Rec)
    ensures Contents(before + [r]) == Contents(before)[r.key := r.ToEntry()]
  {
    assert (before + [r])[..|before|] == before;
  }

  lemma WithinUpdate(m: map<string, Entry>, r: Rec, prefix: string)
    requires r.key !in m
    ensures ViewWithin(Live(m[r.key := r.ToEntry()]), WithPrefix(prefix)) ==
      if HasPrefix(r.key, prefix) && !r.deleted then ViewWithin(Live(m), WithPrefix(prefix))[r.key := r.value]
      else ViewWithin(Live(m), WithPrefix(prefix))
  {
    hide HasPrefix;
  }
}
