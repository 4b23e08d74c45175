/** What a range or prefix scan over merged streams must return, independent of how it runs. */
module ScanSpec {
  import opened Keys
  import opened Records
  import opened Upserts
  import opened Merge
  import opened MergeChoice

  /** An empty bound is no bound. */
  datatype Range = Between(start: string, end: string) | WithPrefix(prefix: string) {
    predicate Covers(k: string) {
      match this
      case Between(start, end) => !Less(k, start) && (end == "" || !Less(end, k))
      case WithPrefix(prefix) => HasPrefix(k, prefix)
    }
  }

  /** `full` is a permitted list of the live records in the range, strictly ascending. */
  ghost predicate IsScan(inputs: seq<Input>, range: Range, full: seq<Rec>) {
    && Sorted(full)
    && (forall k :: range.Covers(k) ==> MergedAt(inputs, true, k, Find(Contents(full), k)))
    && forall k :: k in Contents(full) ==> range.Covers(k)
  }

  /** The first `limit` records; 0 is no limit. */
  function Taken(full: seq<Rec>, limit: nat): seq<Rec> {
    if 0 < limit < |full| then full[..limit] else full
  }

  /** The part of a map in a range. */
  function Within(m: map<string, Entry>, range: Range): map<string, Entry> {
    map k | k in m && range.Covers(k) :: m[k]
  }

  /** With ids ordered by recency the list is determined: the live records in the range of the
      newest-wins merge. */
  lemma ScanIsLive(inputs: seq<Input>, range: Range, full: seq<Rec>)
    requires RecencyOrdered(inputs) && IsScan(inputs, range, full)
    ensures Contents(full) == Within(Purged(NewestWins(inputs)), range)
  {
    hide Contents, MergedAt, NewestWins, Less;
    var w := Within(Purged(NewestWins(inputs)), range);
    forall k ensures Find(Contents(full), k) == Find(w, k) {
      if range.Covers(k) {
        MergedNewest(inputs, true, k, Find(Contents(full), k));
      }
    }
    SameFind(Contents(full), w);
  }

  // ---- streams cut at a start key ----

  /** The records with keys from `target` on. */
  function From(recs: seq<Rec>, target: string): seq<Rec> {
    recs[IndexOf(recs, target, 0)..]
  }

  lemma FromHolds(recs: seq<Rec>, target: string, k: string)
    requires Sorted(recs)
    ensures Sorted(From(recs, target))
    ensures Find(Contents(From(recs, target)), k) == if Less(k, target) then None else Find(Contents(recs), k)
  {
    hide Contents, Less;
    var (p, cut) := (IndexOf(recs, target, 0), From(recs, target));
    if k in Contents(recs) {
      var i := KeyHasIndex(recs, k);
      RecordBound(recs, i);
      if i >= p {
        assert cut[i - p] == recs[i];
        RecordBound(cut, i - p);
        FromAbove(recs, target, p, i);
      }
    }
    if k in Contents(cut) {
      var i := KeyHasIndex(cut, k);
      assert recs[p + i] == cut[i];
      RecordBound(recs, p + i);
      FromAbove(recs, target, p, p + i);
    }
  }

  lemma FromAbove(recs: seq<Rec>, target: string, p: nat, i: nat)
    requires Sorted(recs) && p <= i < |recs| && !Less(recs[p].key, target)
    ensures !Less(recs[i].key, target)
  {
    if p < i && Less(recs[i].key, target) {
      Transitive(recs[p].key, recs[i].key, target);
    }
  }

  function Cut(inputs: seq<Input>, target: string): (cut: seq<Input>)
    ensures |cut| == |inputs|
    ensures forall i :: 0 <= i < |cut| ==> cut[i] == Input(inputs[i].id, From(inputs[i].recs, target))
  {
    seq(|inputs|, i requires 0 <= i < |inputs| => Input(inputs[i].id, From(inputs[i].recs, target)))
  }

  lemma CutHolds(inputs: seq<Input>, target: string, i: int, k: string)
    requires AllSorted(inputs)
    ensures Holds(Cut(inputs, target), i, k) <==> Holds(inputs, i, k) && !Less(k, target)
    ensures Holds(Cut(inputs, target), i, k) ==> Held(Cut(inputs, target), i, k) == Held(inputs, i, k)
  {
    hide Contents, Less, From, Sorted;
    if 0 <= i < |inputs| {
      FromHolds(inputs[i].recs, target, k);
    }
  }

  lemma CutSorted(inputs: seq<Input>, target: string)
    requires AllSorted(inputs)
    ensures AllSorted(Cut(inputs, target))
  {
    hide Contents, Less, From, Sorted;
    forall i | 0 <= i < |inputs| ensures Sorted(Cut(inputs, target)[i].recs) {
      FromHolds(inputs[i].recs, target, "");
    }
  }

  /** From the start key on, the cut streams allow exactly the outcomes of the whole ones. */
  lemma CutMerged(inputs: seq<Input>, target: string, purge: bool, k: string, result: Option<Entry>)
    requires AllSorted(inputs) && !Less(k, target)
    ensures MergedAt(Cut(inputs, target), purge, k, result) <==> MergedAt(inputs, purge, k, result)
  {
    hide Contents, Less, From, Sorted, Cut, Holds, Wins, AllSorted;
    var cut := Cut(inputs, target);
    forall i
      ensures Holds(cut, i, k) <==> Holds(inputs, i, k)
      ensures Holds(cut, i, k) ==> Held(cut, i, k) == Held(inputs, i, k)
      ensures Wins(cut, i, k) <==> Wins(inputs, i, k)
      ensures Wins(cut, i, k) ==> Holds(cut, i, k)
    {
      CutHolds(inputs, target, i, k);
      CutWins(inputs, target, i, k);
    }
  }

  lemma CutWins(inputs: seq<Input>, target: string, i: int, k: string)
    requires AllSorted(inputs) && !Less(k, target)
    ensures Wins(Cut(inputs, target), i, k) <==> Wins(inputs, i, k)
    ensures Wins(inputs, i, k) ==> Holds(inputs, i, k)
  {
    hide Contents, Less, From, Sorted, AllSorted, Holds;
    var cut := Cut(inputs, target);
    forall j ensures Holds(cut, j, k) <==> Holds(inputs, j, k) {
      CutHolds(inputs, target, j, k);
    }
    forall j | Holds(cut, j, k) || Holds(inputs, j, k) ensures 0 <= j < |inputs| && cut[j].id == inputs[j].id {
      HoldsIndex(inputs, j, k);
    }
  }

  lemma HoldsIndex(inputs: seq<Input>, j: int, k: string)
    requires Holds(inputs, j, k)
    ensures 0 <= j < |inputs|
  {
  }

  // ---- a scan that stops early stops on a prefix of some permitted list ----

  lemma SomeMerge(inputs: seq<Input>) returns (out: seq<Rec>)
    ensures IsMerge(inputs, true, out)
  {
    if exists k :: !Unheld(inputs, k) {
      var k :| !Unheld(inputs, k);
      WinnerExists(inputs, k);
      var i :| Wins(inputs, i, k);
      out := MergeWith(inputs, k, i);
    } else {
      out := [];
    }
  }

  lemma {:induction false} ContentsConcat(a: seq<Rec>, b: seq<Rec>)
    ensures Contents(a + b) == Contents(a) + Contents(b)
  {
    if b == [] {
      assert a + b == a;
    } else {
      var n := |b| - 1;
      assert (a + b)[..|a| + n] == a + b[..n];
      ContentsConcat(a, b[..n]);
    }
  }

  /** Everything up to the bound is settled: some permitted list starts with `out`. */
  ghost predicate Settled(inputs: seq<Input>, range: Range, out: seq<Rec>, bound: Option<string>) {
    && Sorted(out)
    && (forall k :: k in Contents(out) ==> range.Covers(k) && !Above(bound, k))
    && forall k :: range.Covers(k) && !Above(bound, k) ==> MergedAt(inputs, true, k, Find(Contents(out), k))
  }

  lemma SettledExtends(inputs: seq<Input>, range: Range, out: seq<Rec>, bound: Option<string>) returns (full: seq<Rec>)
    requires Settled(inputs, range, out, bound)
    ensures IsScan(inputs, range, full) && |out| <= |full| && full[..|out|] == out
  {
    hide Contents, MergedAt, Less, Sorted;
    var all := SomeMerge(inputs);
    var m := map k | k in Contents(all) && range.Covers(k) && Above(bound, k) :: Contents(all)[k];
    var tail := Listing(m);
    full := out + tail;
    ContentsConcat(out, tail);
    SortedConcat(out, tail, bound);
    forall k | range.Covers(k) ensures MergedAt(inputs, true, k, Find(Contents(full), k)) {
      if Above(bound, k) {
        assert Find(Contents(full), k) == Find(Contents(all), k);
        MergeAtKey(inputs, all, k);
      } else {
        assert Find(Contents(full), k) == Find(Contents(out), k);
      }
    }
  }

  lemma MergeAtKey(inputs: seq<Input>, out: seq<Rec>, k: string)
    requires IsMerge(inputs, true, out)
    ensures MergedAt(inputs, true, k, Find(Contents(out), k))
  {
  }

  lemma SortedConcat(a: seq<Rec>, b: seq<Rec>, bound: Option<string>)
    requires Sorted(a) && Sorted(b)
    requires forall k :: k in Contents(a) ==> !Above(bound, k)
    requires forall k :: k in Contents(b) ==> Above(bound, k)
    ensures Sorted(a + b)
  {
    hide Contents, Above;
    forall i, j | 0 <= i < |a| && 0 <= j < |b| ensures Less(a[i].key, b[j].key) {
      RecordBound(a, i);
      RecordBound(b, j);
      BelowBound(bound, a[i].key, b[j].key);
    }
  }

  // ---- prefix scans ----

  /** The records before the first whose key lacks the prefix. */
  function WhilePrefixed(recs: seq<Rec>, prefix: string): seq<Rec> {
    if recs == [] || !HasPrefix(recs[0].key, prefix) then [] else [recs[0]] + WhilePrefixed(recs[1..], prefix)
  }

  lemma {:induction false} PrefixedSplit(recs: seq<Rec>, prefix: string)
    ensures var n := |WhilePrefixed(recs, prefix)|;
      && n <= |recs| && WhilePrefixed(recs, prefix) == recs[..n]
      && (forall i :: 0 <= i < n ==> HasPrefix(recs[i].key, prefix))
      && (n < |recs| ==> !HasPrefix(recs[n].key, prefix))
  {
    hide HasPrefix;
    if recs != [] && HasPrefix(recs[0].key, prefix) {
      PrefixedSplit(recs[1..], prefix);
    }
  }

  lemma PrefixedUpTo(recs: seq<Rec>, prefix: string, n: nat)
    requires n <= |recs| && forall i :: 0 <= i < n ==> HasPrefix(recs[i].key, prefix)
    ensures n <= |WhilePrefixed(recs, prefix)| && WhilePrefixed(recs, prefix)[..n] == recs[..n]
    ensures n < |recs| && !HasPrefix(recs[n].key, prefix) ==> WhilePrefixed(recs, prefix) == recs[..n]
    ensures n == |recs| ==> WhilePrefixed(recs, prefix) == recs
  {
    hide HasPrefix;
    PrefixedSplit(recs, prefix);
  }

  /** In a scan from the prefix on, the keys with the prefix come first, in one run. */
  lemma PrefixedIsScan(inputs: seq<Input>, prefix: string, full: seq<Rec>)
    requires IsScan(inputs, Between(prefix, ""), full)
    ensures IsScan(inputs, WithPrefix(prefix), WhilePrefixed(full, prefix))
  {
    hide Contents, MergedAt, Less, Sorted, HasPrefix;
    var (run, n) := (WhilePrefixed(full, prefix), |WhilePrefixed(full, prefix)|);
    PrefixedSplit(full, prefix);
    PrefixOfSorted(full, n);
    forall k ensures Find(Contents(run), k) == if HasPrefix(k, prefix) then Find(Contents(full), k) else None {
      if k in Contents(run) {
        var i := KeyHasIndex(run, k);
        assert full[i] == run[i];
        RecordBound(run, i);
        RecordBound(full, i);
      }
      if k in Contents(full) && HasPrefix(k, prefix) {
        var i := KeyHasIndex(full, k);
        RecordBound(full, i);
        RunHolds(inputs, prefix, full, n, i);
        assert run[i] == full[i];
        RecordBound(run, i);
      }
    }
    forall k | HasPrefix(k, prefix) ensures !Less(k, prefix) {
      PrefixNotBelow(prefix, k);
    }
  }

  lemma PrefixOfSorted(recs: seq<Rec>, n: nat)
    requires Sorted(recs) && n <= |recs|
    ensures Sorted(recs[..n])
  {
  }

  lemma PrefixNotBelow(prefix: string, k: string)
    requires HasPrefix(k, prefix)
    ensures AtMost(prefix, k) && !Less(k, prefix)
  {
    PrefixRun(prefix, k, k);
    Irreflexive(k);
    if Less(prefix, k) { Asymmetric(prefix, k); }
  }

  lemma RunHolds(inputs: seq<Input>, prefix: string, full: seq<Rec>, n: nat, i: nat)
    requires IsScan(inputs, Between(prefix, ""), full) && n <= |full| && i < |full|
    requires n < |full| ==> !HasPrefix(full[n].key, prefix)
    requires HasPrefix(full[i].key, prefix)
    ensures i < n
  {
    hide Contents, MergedAt, Less, HasPrefix;
    if n <= i {
      RecordBound(full, n);
      Total(full[n].key, prefix);
      PrefixRun(prefix, full[n].key, full[i].key);
    }
  }

  /** The key and value of each record. */
  function Pairs(recs: seq<Rec>): (pairs: seq<(string, string)>)
    ensures |pairs| == |recs| && forall i :: 0 <= i < |pairs| ==> pairs[i] == (recs[i].key, recs[i].value)
  {
    seq(|recs|, i requires 0 <= i < |recs| => (recs[i].key, recs[i].value))
  }

  // ---- collecting a scan from an iterator ----

  /** The emitted records before the current one. */
  function Collected(emitted: seq<Rec>, valid: bool): seq<Rec> {
    if valid && emitted != [] then emitted[..|emitted| - 1] else emitted
  }

  lemma CollectMore(emitted: seq<Rec>, r: Rec, next: seq<Rec>, valid: bool)
    requires emitted != [] && emitted[|emitted| - 1] == r && |next| == (if valid then 1 else 0)
    ensures Collected(emitted + next, valid) == Collected(emitted, true) + [r]
    ensures Pairs(Collected(emitted + next, valid)) == Pairs(Collected(emitted, true)) + [(r.key, r.value)]
  {
  }

  /** When collecting stops, by the limit or at the end, it holds the first records of the scan. */
  lemma CollectedTaken(full: seq<Rec>, emitted: seq<Rec>, valid: bool, limit: nat)
    requires |emitted| <= |full| && full[..|emitted|] == emitted
    requires (valid ==> emitted != []) && (!valid ==> full == emitted)
    requires limit > 0 ==> |Collected(emitted, valid)| <= limit
    requires valid ==> 0 < limit <= |Collected(emitted, valid)|
    ensures Collected(emitted, valid) == Taken(full, limit)
  {
  }

  /** The same for a prefix scan, which also stops at the first key without the prefix. */
  lemma CollectedPrefixed(full: seq<Rec>, emitted: seq<Rec>, valid: bool, limit: nat, prefix: string)
    requires |emitted| <= |full| && full[..|emitted|] == emitted
    requires (valid ==> emitted != []) && (!valid ==> full == emitted)
    requires limit > 0 ==> |Collected(emitted, valid)| <= limit
    requires forall i :: 0 <= i < |Collected(emitted, valid)| ==> HasPrefix(Collected(emitted, valid)[i].key, prefix)
    requires valid ==> 0 < limit <= |Collected(emitted, valid)| || !HasPrefix(emitted[|emitted| - 1].key, prefix)
    ensures Collected(emitted, valid) == Taken(WhilePrefixed(full, prefix), limit)
  {
    hide HasPrefix;
    var n := |Collected(emitted, valid)|;
    assert full[..n] == Collected(emitted, valid);
    assert valid ==> full[n] == emitted[n];
    PrefixedUpTo(full, prefix, n);
  }
}
