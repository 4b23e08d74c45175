/** Records of a table, the maps they stand for, and the live view of a stack of tables. */
module Records {
  import opened Keys

  datatype Option<+T> = None | Some(value: T)

  /** What a key is bound to; `deleted` marks a tombstone. */
  datatype Entry = Entry(value: string, deleted: bool)

  datatype Rec = Rec(key: string, value: string, deleted: bool) {
    function ToEntry(): Entry { Entry(value, deleted) }
  }

  const TOMBSTONE := Entry("", true)

  predicate Sorted(t: seq<Rec>) {
    forall i, j :: 0 <= i < j < |t| ==> Less(t[i].key, t[j].key)
  }

  /** The map a record list stands for. */
  function Contents(t: seq<Rec>): map<string, Entry> {
    if t == [] then map[] else Contents(t[..|t| - 1])[t[|t| - 1].key := t[|t| - 1].ToEntry()]
  }

  function Find(m: map<string, Entry>, k: string): Option<Entry> {
    if k in m then Some(m[k]) else None
  }

  lemma SortedDistinct(t: seq<Rec>)
    requires Sorted(t)
    ensures forall i, j :: 0 <= i < |t| && 0 <= j < |t| && i != j ==> t[i].key != t[j].key
  {
    forall i, j | 0 <= i < j < |t| ensures t[i].key != t[j].key {
      Asymmetric(t[i].key, t[j].key);
    }
  }

  lemma {:induction false} KeyHasIndex(t: seq<Rec>, k: string) returns (i: nat)
    requires k in Contents(t)
    ensures i < |t| && t[i].key == k
  {
    var n := |t| - 1;
    i := n;
    if t[n].key != k {
      i := KeyHasIndex(t[..n], k);
    }
  }

  lemma {:induction false} KeyHasRecord(t: seq<Rec>, k: string) returns (i: nat)
    requires k in Contents(t)
    ensures i < |t| && t[i].key == k && t[i].ToEntry() == Contents(t)[k]
  {
    var n := |t| - 1;
    i := n;
    if t[n].key != k {
      i := KeyHasRecord(t[..n], k);
    }
  }

  lemma {:induction false} RecordBound(t: seq<Rec>, i: nat)
    requires Sorted(t) && i < |t|
    ensures t[i].key in Contents(t) && Contents(t)[t[i].key] == t[i].ToEntry()
  {
    var n := |t| - 1;
    if i < n {
      Asymmetric(t[i].key, t[n].key);
      RecordBound(t[..n], i);
    }
  }

  /** A strictly ascending list is looked up by position and by key alike. */
  lemma ContentsAt(t: seq<Rec>)
    requires Sorted(t)
    ensures forall i :: 0 <= i < |t| ==> t[i].key in Contents(t) && Contents(t)[t[i].key] == t[i].ToEntry()
    ensures forall k :: k in Contents(t) ==> exists i :: 0 <= i < |t| && t[i].key == k
  {
    forall i | 0 <= i < |t| ensures t[i].key in Contents(t) && Contents(t)[t[i].key] == t[i].ToEntry() {
      RecordBound(t, i);
    }
    forall k | k in Contents(t) ensures exists i :: 0 <= i < |t| && t[i].key == k {
      var i := KeyHasIndex(t, k);
    }
  }

  lemma LastIsGreatest(t: seq<Rec>)
    requires Sorted(t) && t != []
    ensures t[|t| - 1].key in Contents(t) && Contents(t)[t[|t| - 1].key] == t[|t| - 1].ToEntry()
    ensures t[|t| - 1].key !in Contents(t[..|t| - 1])
    ensures forall k :: k in Contents(t) ==> AtMost(k, t[|t| - 1].key)
  {
    SortedDistinct(t);
    ContentsAt(t[..|t| - 1]);
    forall k | k in Contents(t) ensures AtMost(k, t[|t| - 1].key) {
      ContentsAt(t);
      var i :| 0 <= i < |t| && t[i].key == k;
    }
  }

  lemma RemoveAdded(m: map<string, Entry>, k: string, e: Entry)
    requires k !in m
    ensures m[k := e] - {k} == m
  {
  }

  lemma ContentsButLast(t: seq<Rec>)
    requires Sorted(t) && t != []
    ensures Contents(t[..|t| - 1]) == Contents(t) - {t[|t| - 1].key}
  {
    LastIsGreatest(t);
    RemoveAdded(Contents(t[..|t| - 1]), t[|t| - 1].key, t[|t| - 1].ToEntry());
  }

  lemma GreatestEqual(a: seq<Rec>, b: seq<Rec>)
    requires Sorted(a) && Sorted(b) && Contents(a) == Contents(b) && a != [] && b != []
    ensures a[|a| - 1] == b[|b| - 1]
  {
    LastIsGreatest(a);
    LastIsGreatest(b);
    var x, y := a[|a| - 1].key, b[|b| - 1].key;
    if x != y { Asymmetric(x, y); }
  }

  /** A strictly ascending list is determined by its map. */
  lemma {:induction false} ContentsInjective(a: seq<Rec>, b: seq<Rec>)
    requires Sorted(a) && Sorted(b) && Contents(a) == Contents(b)
    ensures a == b
  {
    if a == [] {
      if b != [] { LastIsGreatest(b); }
    } else {
      LastIsGreatest(a);
      GreatestEqual(a, b);
      ContentsButLast(a);
      ContentsButLast(b);
      ContentsInjective(a[..|a| - 1], b[..|b| - 1]);
      assert a == a[..|a| - 1] + [a[|a| - 1]] && b == b[..|b| - 1] + [b[|b| - 1]];
    }
  }

  lemma SameFind(m: map<string, Entry>, n: map<string, Entry>)
    requires forall k :: Find(m, k) == Find(n, k)
    ensures m == n
  {
    forall k ensures k in m <==> k in n {
      assert Find(m, k) == Find(n, k);
    }
    forall k | k in m ensures m[k] == n[k] {
      assert Find(m, k) == Find(n, k);
    }
  }

  /** The client's view: a key is present exactly when it is found and not deleted. */
  function Live(m: map<string, Entry>): map<string, string> {
    map k | k in m && !m[k].deleted :: m[k].value
  }

  /** A stack of maps, newest first: the newest binding of a key wins. */
  function Layered(ms: seq<map<string, Entry>>): map<string, Entry> {
    if ms == [] then map[] else Layered(ms[1..]) + ms[0]
  }

  /** Without tombstones. */
  function Purged(m: map<string, Entry>): map<string, Entry> {
    map k | k in m && !m[k].deleted :: m[k]
  }

  /** Layering picks the first map, from the newest, that binds the key. */
  lemma {:induction false} LayeredFirst(ms: seq<map<string, Entry>>, i: nat, k: string)
    requires i < |ms| && k in ms[i]
    requires forall j :: 0 <= j < i ==> k !in ms[j]
    ensures k in Layered(ms) && Layered(ms)[k] == ms[i][k]
  {
    if i > 0 {
      LayeredFirst(ms[1..], i - 1, k);
    }
  }

  lemma {:induction false} LayeredHolder(ms: seq<map<string, Entry>>, k: string) returns (i: nat)
    requires k in Layered(ms)
    ensures i < |ms| && k in ms[i] && forall j :: 0 <= j < i ==> k !in ms[j]
  {
    if k in ms[0] {
      i := 0;
    } else {
      var j := LayeredHolder(ms[1..], k);
      i := j + 1;
      forall j' | 0 <= j' < i ensures k !in ms[j'] {
        if j' > 0 { assert ms[j'] == ms[1..][j' - 1]; }
      }
    }
  }
}
