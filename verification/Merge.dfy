/** What a newest-wins merge of record streams must produce, independent of how it runs. */
module Merge {
  import opened Keys
  import opened Records

  /** One stream and the id that decides between records of one key. */
  datatype Input = Input(id: nat, recs: seq<Rec>)

  predicate AllSorted(inputs: seq<Input>) {
    forall i :: 0 <= i < |inputs| ==> Sorted(inputs[i].recs)
  }

  predicate Holds(inputs: seq<Input>, i: int, k: string) {
    0 <= i < |inputs| && k in Contents(inputs[i].recs)
  }

  function Held(inputs: seq<Input>, i: int, k: string): Entry
    requires Holds(inputs, i, k)
  {
    Contents(inputs[i].recs)[k]
  }

  /** No holder of `k` has a larger id: the heap order allows `i` to win. */
  ghost predicate Wins(inputs: seq<Input>, i: int, k: string) {
    Holds(inputs, i, k) && forall j :: Holds(inputs, j, k) ==> inputs[j].id <= inputs[i].id
  }

  ghost predicate Unheld(inputs: seq<Input>, k: string) {
    forall i :: !Holds(inputs, i, k)
  }

  /** What a merge writes for the winning entry: tombstones lose their value, or are dropped. */
  function Emitted(e: Entry, purge: bool): Option<Entry> {
    if !e.deleted then Some(e) else if purge then None else Some(TOMBSTONE)
  }

  /** `result` is a permitted outcome at key `k`. */
  ghost predicate MergedAt(inputs: seq<Input>, purge: bool, k: string, result: Option<Entry>) {
    (Unheld(inputs, k) && result == None) ||
    exists i :: Wins(inputs, i, k) && result == Emitted(Held(inputs, i, k), purge)
  }

  /** `out` is a permitted outcome of merging `inputs`. */
  ghost predicate IsMerge(inputs: seq<Input>, purge: bool, out: seq<Rec>) {
    Sorted(out) && forall k :: MergedAt(inputs, purge, k, Find(Contents(out), k))
  }

  /** Any two inputs that share a key have ids ordered by recency; the newest input comes first. */
  ghost predicate RecencyOrdered(inputs: seq<Input>) {
    forall i, j, k {:trigger Holds(inputs, i, k), Holds(inputs, j, k)} ::
      i < j && Holds(inputs, i, k) && Holds(inputs, j, k) ==> inputs[j].id < inputs[i].id
  }

  /** Ids that fall from input to input are ordered by recency. */
  lemma FallingIds(inputs: seq<Input>)
    requires forall i, j :: 0 <= i < j < |inputs| ==> inputs[j].id < inputs[i].id
    ensures RecencyOrdered(inputs)
  {
  }

  function Maps(inputs: seq<Input>): (ms: seq<map<string, Entry>>)
    ensures |ms| == |inputs| && forall i :: 0 <= i < |ms| ==> ms[i] == Contents(inputs[i].recs)
  {
    seq(|inputs|, i requires 0 <= i < |inputs| => Contents(inputs[i].recs))
  }

  /** The reference result: the newest record of every key. */
  function NewestWins(inputs: seq<Input>): map<string, Entry> {
    Layered(Maps(inputs))
  }

  lemma NewestHolder(inputs: seq<Input>, k: string) returns (i: nat)
    ensures Unheld(inputs, k) ==> k !in NewestWins(inputs)
    ensures !Unheld(inputs, k) ==>
      && Holds(inputs, i, k) && (forall j :: 0 <= j < i ==> !Holds(inputs, j, k))
      && k in NewestWins(inputs) && NewestWins(inputs)[k] == Held(inputs, i, k)
  {
    i := 0;
    if k in NewestWins(inputs) {
      i := LayeredHolder(Maps(inputs), k);
      LayeredFirst(Maps(inputs), i, k);
      assert Holds(inputs, i, k);
      assert forall j :: 0 <= j < i ==> k !in Maps(inputs)[j];
    } else if !Unheld(inputs, k) {
      var j :| Holds(inputs, j, k);
      HolderIsLayered(Maps(inputs), j, k);
    }
  }

  lemma {:induction false} HolderIsLayered(ms: seq<map<string, Entry>>, j: nat, k: string)
    requires j < |ms| && k in ms[j]
    ensures k in Layered(ms)
  {
    if j > 0 {
      HolderIsLayered(ms[1..], j - 1, k);
    }
  }

  /** With ids ordered by recency the outcome is determined at every key: the newest wins. */
  lemma MergedNewest(inputs: seq<Input>, purge: bool, k: string, result: Option<Entry>)
    requires RecencyOrdered(inputs) && MergedAt(inputs, purge, k, result)
    ensures result == if k in NewestWins(inputs) then Emitted(NewestWins(inputs)[k], purge) else None
  {
    var newest := NewestHolder(inputs, k);
    if !Unheld(inputs, k) {
      var i :| Wins(inputs, i, k) && result == Emitted(Held(inputs, i, k), purge);
      assert Holds(inputs, newest, k) && Holds(inputs, i, k);
    }
  }

  /** Purging every table at once is safe, so a merge keeps the live view. */
  lemma MergeKeepsLive(inputs: seq<Input>, purge: bool, out: seq<Rec>)
    requires RecencyOrdered(inputs) && IsMerge(inputs, purge, out)
    ensures Live(Contents(out)) == Live(NewestWins(inputs))
    ensures purge ==> Contents(out) == Purged(NewestWins(inputs))
    ensures !purge ==>
      && Contents(out).Keys == NewestWins(inputs).Keys
      && forall k :: k in Contents(out) ==>
        var e := NewestWins(inputs)[k]; Contents(out)[k] == if e.deleted then Entry("", true) else e
  {
    hide Contents, NewestWins;
    var m, n := Contents(out), NewestWins(inputs);
    forall k
      ensures Find(m, k) == if k in n then Emitted(n[k], purge) else None
    {
      MergedNewest(inputs, purge, k, Find(m, k));
    }
    SameLive(m, n, purge);
    if !purge {
      assert forall k :: k in m <==> Find(m, k) != None;
    }
  }

  lemma SameLive(m: map<string, Entry>, n: map<string, Entry>, purge: bool)
    requires forall k :: Find(m, k) == if k in n then Emitted(n[k], purge) else None
    ensures Live(m) == Live(n)
    ensures purge ==> m == Purged(n)
  {
    forall k ensures (k in m && !m[k].deleted <==> k in n && !n[k].deleted)
    {
      assert Find(m, k) == if k in n then Emitted(n[k], purge) else None;
    }
    forall k | k in Live(m) ensures Live(m)[k] == Live(n)[k] {
      assert Find(m, k) == if k in n then Emitted(n[k], purge) else None;
    }
    if purge {
      forall k ensures k in m <==> k in Purged(n) {
        assert Find(m, k) == if k in n then Emitted(n[k], purge) else None;
      }
      forall k | k in m ensures m[k] == Purged(n)[k] {
        assert Find(m, k) == if k in n then Emitted(n[k], purge) else None;
      }
    }
  }

  /** Two permitted outcomes of one recency-ordered merge are the same table. */
  lemma MergeUnique(inputs: seq<Input>, purge: bool, a: seq<Rec>, b: seq<Rec>)
    requires RecencyOrdered(inputs) && IsMerge(inputs, purge, a) && IsMerge(inputs, purge, b)
    ensures a == b
  {
    forall k ensures Find(Contents(a), k) == Find(Contents(b), k) {
      MergedNewest(inputs, purge, k, Find(Contents(a), k));
      MergedNewest(inputs, purge, k, Find(Contents(b), k));
    }
    SameFind(Contents(a), Contents(b));
    ContentsInjective(a, b);
  }

  // ---- progress of a merge that has emitted every key up to a bound ----

  predicate Above(bound: Option<string>, k: string) {
    bound.None? || Less(bound.value, k)
  }

  /** `rest` is the part of `recs` above the bound. */
  ghost predicate RestAbove(recs: seq<Rec>, rest: seq<Rec>, bound: Option<string>) {
    && Sorted(rest)
    && forall k :: Find(Contents(rest), k) == if Above(bound, k) then Find(Contents(recs), k) else None
  }

  ghost predicate Progress(inputs: seq<Input>, rests: seq<seq<Rec>>, bound: Option<string>) {
    |rests| == |inputs| && forall i :: 0 <= i < |inputs| ==> RestAbove(inputs[i].recs, rests[i], bound)
  }

  /** `out` is a permitted outcome for the keys up to the bound. */
  ghost predicate MergedUpTo(inputs: seq<Input>, purge: bool, out: seq<Rec>, bound: Option<string>) {
    && Sorted(out)
    && (forall k :: k in Contents(out) ==> !Above(bound, k))
    && forall k :: !Above(bound, k) ==> MergedAt(inputs, purge, k, Find(Contents(out), k))
  }

  /** A stream past `k`, when its head is not below `k`. */
  function Past(rest: seq<Rec>, k: string): seq<Rec> {
    if rest != [] && rest[0].key == k then rest[1..] else rest
  }

  /** Every remaining record is at `k` or above. */
  predicate AllFrom(rests: seq<seq<Rec>>, k: string) {
    forall i :: 0 <= i < |rests| && rests[i] != [] ==> AtMost(k, rests[i][0].key)
  }

  lemma SortedTail(rest: seq<Rec>)
    requires Sorted(rest) && rest != []
    ensures Sorted(rest[1..]) && forall i :: 0 <= i < |rest[1..]| ==> Less(rest[0].key, rest[1..][i].key)
  {
  }

  lemma FindTail(rest: seq<Rec>, k: string)
    requires Sorted(rest) && rest != []
    ensures Find(Contents(rest[1..]), k) == if k == rest[0].key then None else Find(Contents(rest), k)
  {
    hide Contents, Less;
    var tail := rest[1..];
    SortedTail(rest);
    ContentsAt(rest);
    ContentsAt(tail);
    if k in Contents(tail) {
      var i :| 0 <= i < |tail| && tail[i].key == k;
      assert rest[i + 1] == tail[i];
      Asymmetric(rest[0].key, k);
    }
    if k in Contents(rest) && k != rest[0].key {
      var i :| 0 <= i < |rest| && rest[i].key == k;
      assert rest[i] == tail[i - 1];
    }
  }

  lemma ContentsTail(rest: seq<Rec>)
    requires Sorted(rest) && rest != []
    ensures Sorted(rest[1..])
    ensures forall k :: Find(Contents(rest[1..]), k) == if k == rest[0].key then None else Find(Contents(rest), k)
  {
    hide Contents, Find;
    SortedTail(rest);
    forall k ensures Find(Contents(rest[1..]), k) == if k == rest[0].key then None else Find(Contents(rest), k) {
      FindTail(rest, k);
    }
  }

  lemma HeadIsLeast(rest: seq<Rec>, k: string)
    requires Sorted(rest) && k in Contents(rest)
    ensures rest != [] && AtMost(rest[0].key, k)
  {
    ContentsAt(rest);
    var i :| 0 <= i < |rest| && rest[i].key == k;
  }

  lemma HeadHeld(rest: seq<Rec>)
    requires Sorted(rest) && rest != []
    ensures Find(Contents(rest), rest[0].key) == Some(rest[0].ToEntry())
  {
    ContentsAt(rest);
  }

  /** Advancing a stream past `k` moves its bound to `k`. */
  lemma PastAbove(recs: seq<Rec>, rest: seq<Rec>, bound: Option<string>, k: string)
    requires RestAbove(recs, rest, bound) && Above(bound, k)
    requires rest != [] ==> AtMost(k, rest[0].key)
    ensures RestAbove(recs, Past(rest, k), Some(k))
  {
    hide Sorted, Contents;
    var past := Past(rest, k);
    if rest != [] { ContentsTail(rest); }
    forall x ensures Find(Contents(past), x) == if Above(Some(k), x) then Find(Contents(recs), x) else None {
      if Less(k, x) {
        Irreflexive(k);
        if bound.Some? { Transitive(bound.value, k, x); }
      } else if x in Contents(past) {
        assert Find(Contents(past), x).Some? && Find(Contents(rest), x).Some?;
        HeadIsLeast(rest, x);
        Transitive(k, rest[0].key, x);
        assert false;
      }
    }
  }

  lemma ProgressStep(inputs: seq<Input>, rests: seq<seq<Rec>>, bound: Option<string>, k: string, next: seq<seq<Rec>>)
    requires Progress(inputs, rests, bound) && Above(bound, k) && AllFrom(rests, k)
    requires |next| == |rests| && forall i :: 0 <= i < |next| ==> next[i] == Past(rests[i], k)
    ensures Progress(inputs, next, Some(k))
  {
    forall i | 0 <= i < |inputs| ensures RestAbove(inputs[i].recs, next[i], Some(k)) {
      PastAbove(inputs[i].recs, rests[i], bound, k);
    }
  }

  /** A key above the bound that some input holds is still to come in that input. */
  lemma HeldIsAhead(inputs: seq<Input>, rests: seq<seq<Rec>>, bound: Option<string>, i: int, k: string)
    requires Progress(inputs, rests, bound) && Above(bound, k) && Holds(inputs, i, k)
    ensures k in Contents(rests[i]) && rests[i] != [] && AtMost(rests[i][0].key, k)
  {
    hide Sorted, Contents;
    assert Find(Contents(rests[i]), k) == Find(Contents(inputs[i].recs), k);
    HeadIsLeast(rests[i], k);
  }

  /** The front of the heap is a winner among all the inputs. */
  lemma FrontWins(inputs: seq<Input>, rests: seq<seq<Rec>>, bound: Option<string>, w: nat)
    requires Progress(inputs, rests, bound) && w < |rests| && rests[w] != []
    requires AllFrom(rests, rests[w][0].key)
    requires forall i :: 0 <= i < |rests| && rests[i] != [] && rests[i][0].key == rests[w][0].key ==>
      inputs[i].id <= inputs[w].id
    ensures Above(bound, rests[w][0].key)
    ensures Wins(inputs, w, rests[w][0].key) && Held(inputs, w, rests[w][0].key) == rests[w][0].ToEntry()
  {
    hide Sorted, Contents;
    var k := rests[w][0].key;
    HeadHeld(rests[w]);
    assert Find(Contents(rests[w]), k) == if Above(bound, k) then Find(Contents(inputs[w].recs), k) else None;
    assert Holds(inputs, w, k);
    forall j | Holds(inputs, j, k) ensures inputs[j].id <= inputs[w].id {
      HeldIsAhead(inputs, rests, bound, j, k);
      if rests[j][0].key != k { Asymmetric(rests[j][0].key, k); }
    }
  }

  /** No input holds a key strictly between the bound and the least head. */
  lemma NothingBetween(inputs: seq<Input>, rests: seq<seq<Rec>>, bound: Option<string>, k: string, x: string)
    requires Progress(inputs, rests, bound) && AllFrom(rests, k) && Above(bound, x) && Less(x, k)
    ensures Unheld(inputs, x)
  {
    forall i ensures !Holds(inputs, i, x) {
      if Holds(inputs, i, x) {
        HeldIsAhead(inputs, rests, bound, i, x);
        Transitive(k, rests[i][0].key, x);
        Asymmetric(x, k);
      }
    }
  }

  lemma AppendLast(out: seq<Rec>, r: Rec)
    requires Sorted(out) && forall k :: k in Contents(out) ==> Less(k, r.key)
    ensures Sorted(out + [r]) && Contents(out + [r]) == Contents(out)[r.key := r.ToEntry()]
  {
    ContentsAt(out);
    assert (out + [r])[..|out|] == out;
    assert forall i :: 0 <= i < |out| ==> out[i].key in Contents(out);
  }

  lemma WinnerMerged(inputs: seq<Input>, purge: bool, w: int, k: string)
    requires Wins(inputs, w, k)
    ensures MergedAt(inputs, purge, k, Emitted(Held(inputs, w, k), purge))
  {
  }

  lemma UnheldMerged(inputs: seq<Input>, purge: bool, k: string)
    requires Unheld(inputs, k)
    ensures MergedAt(inputs, purge, k, None)
  {
  }

  /** Emitting the winner extends the outcome to its key. */
  lemma MergedStep(inputs: seq<Input>, purge: bool, out: seq<Rec>, rests: seq<seq<Rec>>, bound: Option<string>,
                   w: nat, next: seq<Rec>)
    requires MergedUpTo(inputs, purge, out, bound) && Progress(inputs, rests, bound)
    requires w < |rests| && rests[w] != [] && AllFrom(rests, rests[w][0].key)
    requires Above(bound, rests[w][0].key)
    requires Wins(inputs, w, rests[w][0].key) && Held(inputs, w, rests[w][0].key) == rests[w][0].ToEntry()
    requires var r, e := rests[w][0], Emitted(rests[w][0].ToEntry(), purge);
      next == if e.None? then out else out + [Rec(r.key, e.value.value, e.value.deleted)]
    ensures MergedUpTo(inputs, purge, next, Some(rests[w][0].key))
  {
    hide Sorted, Contents, Progress, AllFrom, MergedAt, Wins, Unheld, Less;
    var k := rests[w][0].key;
    forall x | x in Contents(out) ensures Less(x, k) {
      BelowBound(bound, x, k);
    }
    if next != out {
      AppendLast(out, next[|next| - 1]);
    }
    Irreflexive(k);
    assert forall x :: x in Contents(next) ==> x == k || x in Contents(out);
    forall x | !Above(Some(k), x) ensures MergedAt(inputs, purge, x, Find(Contents(next), x)) {
      if x != k {
        assert Find(Contents(next), x) == Find(Contents(out), x);
        Total(x, k);
        if Above(bound, x) {
          NothingBetween(inputs, rests, bound, k, x);
          UnheldMerged(inputs, purge, x);
        }
      } else {
        WinnerMerged(inputs, purge, w, k);
      }
    }
    forall x | x in Contents(next) ensures !Above(Some(k), x) {
      if x != k { Asymmetric(x, k); }
    }
  }

  lemma BelowBound(bound: Option<string>, x: string, k: string)
    requires !Above(bound, x) && Above(bound, k)
    ensures Less(x, k)
  {
    Total(bound.value, x);
    Transitive(x, bound.value, k);
  }

  /** When every stream is used up the outcome is complete. */
  lemma MergedAll(inputs: seq<Input>, purge: bool, out: seq<Rec>, rests: seq<seq<Rec>>, bound: Option<string>)
    requires MergedUpTo(inputs, purge, out, bound) && Progress(inputs, rests, bound)
    requires forall i :: 0 <= i < |rests| ==> rests[i] == []
    ensures IsMerge(inputs, purge, out)
  {
    forall k ensures MergedAt(inputs, purge, k, Find(Contents(out), k)) {
      if Above(bound, k) {
        forall i ensures !Holds(inputs, i, k) {
          if Holds(inputs, i, k) { HeldIsAhead(inputs, rests, bound, i, k); }
        }
      }
    }
  }

  lemma MergeStart(inputs: seq<Input>, purge: bool)
    requires AllSorted(inputs)
    ensures MergedUpTo(inputs, purge, [], None)
    ensures Progress(inputs, seq(|inputs|, i requires 0 <= i < |inputs| => inputs[i].recs), None)
  {
  }
}
