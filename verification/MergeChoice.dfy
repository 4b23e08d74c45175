/** Every choice the heap may make is a real outcome: for any winner at a key there is a table a
    merge may write in which that winner prevails. */
module MergeChoice {
  import opened Records
  import opened Upserts
  import opened Merge

  /** Every finite map is the contents of a strictly ascending list. */
  lemma {:induction false} Listing(m: map<string, Entry>) returns (recs: seq<Rec>)
    ensures Sorted(recs) && Contents(recs) == m
    decreases |m|
  {
    if m == map[] {
      recs := [];
    } else {
      var k :| k in m;
      var rest := m - {k};
      assert m.Keys == rest.Keys + {k};
      var before := Listing(rest);
      var r := Rec(k, m[k].value, m[k].deleted);
      UpsertContents(before, r);
      recs := Upsert(before, r);
      assert rest[k := m[k]] == m;
    }
  }

  lemma {:induction false} WinnerAmong(inputs: seq<Input>, k: string, n: nat) returns (i: int)
    requires n <= |inputs| && exists j :: j < n && Holds(inputs, j, k)
    ensures Holds(inputs, i, k) && i < n && forall j :: j < n && Holds(inputs, j, k) ==> inputs[j].id <= inputs[i].id
  {
    var j0 :| j0 < n && Holds(inputs, j0, k);
    if exists j :: j < n - 1 && Holds(inputs, j, k) {
      i := WinnerAmong(inputs, k, n - 1);
      if Holds(inputs, n - 1, k) && inputs[n - 1].id > inputs[i].id {
        i := n - 1;
      }
    } else {
      i := n - 1;
    }
  }

  lemma WinnerExists(inputs: seq<Input>, k: string)
    requires !Unheld(inputs, k)
    ensures exists i :: Wins(inputs, i, k)
  {
    var j :| Holds(inputs, j, k);
    var i := WinnerAmong(inputs, k, |inputs|);
    assert Wins(inputs, i, k);
  }

  /** The outcome at `x` when `w` prevails at `k` and some winner elsewhere. */
  ghost function Outcome(inputs: seq<Input>, k: string, w: int, x: string): Option<Entry>
    requires Wins(inputs, w, k)
  {
    if Unheld(inputs, x) then None
    else if x == k then Emitted(Held(inputs, w, k), true)
    else
      WinnerExists(inputs, x);
      var i :| Wins(inputs, i, x);
      Emitted(Held(inputs, i, x), true)
  }

  lemma OutcomeMerged(inputs: seq<Input>, k: string, w: int, x: string)
    requires Wins(inputs, w, k)
    ensures MergedAt(inputs, true, x, Outcome(inputs, k, w, x))
    ensures Outcome(inputs, k, w, x).Some? ==> x in NewestWins(inputs)
  {
    hide NewestWins;
    if !Unheld(inputs, x) {
      var _ := NewestHolder(inputs, x);
      if x != k {
        WinnerExists(inputs, x);
      }
    }
  }

  lemma MergeWith(inputs: seq<Input>, k: string, w: int) returns (out: seq<Rec>)
    requires Wins(inputs, w, k)
    ensures IsMerge(inputs, true, out) && Find(Contents(out), k) == Emitted(Held(inputs, w, k), true)
  {
    hide Outcome, NewestWins, MergedAt;
    var keys := NewestWins(inputs).Keys;
    var m := map x | x in keys && Outcome(inputs, k, w, x).Some? :: Outcome(inputs, k, w, x).value;
    forall x ensures Find(m, x) == Outcome(inputs, k, w, x) && MergedAt(inputs, true, x, Find(m, x)) {
      OutcomeMerged(inputs, k, w, x);
    }
    out := Listing(m);
    OutcomeAt(inputs, k, w);
  }

  lemma OutcomeAt(inputs: seq<Input>, k: string, w: int)
    requires Wins(inputs, w, k)
    ensures Outcome(inputs, k, w, k) == Emitted(Held(inputs, w, k), true)
  {
    assert Holds(inputs, w, k);
  }
}
