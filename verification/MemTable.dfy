/** The memtable: a skip list, its log, and its memory accounting (src/core/memtable.cpp). */
module MemTable {
  import opened Keys
  import opened Records
  import opened Upserts
  import opened Decimal
  import opened JsonText
  import opened LogLine
  import opened LogRoundTrip
  import opened LogRecovery
  import opened SkipList
  import opened Storage

  /** `sizeof(SkipList::Node)` on a 64-bit libstdc++. */
  const NODE_SIZE: nat := 80

  function NodeMemory(key: string, value: string): nat {
    NODE_SIZE + |key| + |value| + 32
  }

  /** The memory accounted to a list of records. */
  function Cost(recs: seq<Rec>): nat {
    if recs == [] then 0 else NodeMemory(recs[0].key, recs[0].value) + Cost(recs[1..])
  }

  function KeyBytes(recs: seq<Rec>): nat {
    if recs == [] then 0 else KeyBytes(recs[..|recs| - 1]) + |recs[|recs| - 1].key|
  }

  function ValueBytes(recs: seq<Rec>): nat {
    if recs == [] then 0 else ValueBytes(recs[..|recs| - 1]) + |recs[|recs| - 1].value|
  }

  /** What the memory of a list of records is: 112 bytes for each, and the lengths of all keys and values. */
  lemma {:induction false} CostIs(recs: seq<Rec>)
    ensures Cost(recs) == 112 * |recs| + KeyBytes(recs) + ValueBytes(recs)
  {
    if recs != [] {
      var n := |recs| - 1;
      assert recs == recs[..n] + [recs[n]] && [recs[n]][1..] == [];
      CostIs(recs[..n]);
      CostConcat(recs[..n], [recs[n]]);
    }
  }

  /** Each further record counts with its own lengths, from nothing. */
  lemma CostGrows(recs: seq<Rec>, r: Rec)
    ensures Cost([]) == KeyBytes([]) == ValueBytes([]) == 0
    ensures Cost(recs + [r]) == Cost(recs) + 112 + |r.key| + |r.value|
    ensures KeyBytes(recs + [r]) == KeyBytes(recs) + |r.key|
    ensures ValueBytes(recs + [r]) == ValueBytes(recs) + |r.value|
  {
    assert (recs + [r])[..|recs|] == recs;
    CostIs(recs);
    CostIs(recs + [r]);
  }

  function PutRec(key: string, value: string): Rec { Rec(key, value, false) }

  function DeleteRec(key: string): Rec { Rec(key, "", true) }

  function ReplayOne(recs: seq<Rec>, e: LogEntry): seq<Rec> {
    if e.operation == PUT then Upsert(recs, PutRec(e.key, e.value))
    else if e.operation == DELETE then Upsert(recs, DeleteRec(e.key))
    else recs
  }

  /** A put binds its value, a delete a tombstone; an entry with another operation is passed over. */
  lemma ReplayOneMeans(recs: seq<Rec>, e: LogEntry)
    ensures e.operation == "PUT" ==> ReplayOne(recs, e) == Upsert(recs, Rec(e.key, e.value, false))
    ensures e.operation == "DELETE" ==> ReplayOne(recs, e) == Upsert(recs, Rec(e.key, "", true))
    ensures e.operation != "PUT" && e.operation != "DELETE" ==> ReplayOne(recs, e) == recs
  {
  }

  /** The records after replaying a log into an empty memtable. */
  function Replay(entries: seq<LogEntry>): seq<Rec> {
    if entries == [] then [] else ReplayOne(Replay(entries[..|entries| - 1]), entries[|entries| - 1])
  }

  lemma {:induction false} ReplaySorted(entries: seq<LogEntry>)
    ensures Sorted(Replay(entries))
  {
    if entries != [] {
      var (before, e) := (Replay(entries[..|entries| - 1]), entries[|entries| - 1]);
      ReplaySorted(entries[..|entries| - 1]);
      UpsertSorted(before, PutRec(e.key, e.value));
      UpsertSorted(before, DeleteRec(e.key));
    }
  }

  lemma {:induction false} CostConcat(a: seq<Rec>, b: seq<Rec>)
    ensures Cost(a + b) == Cost(a) + Cost(b)
  {
    if a == [] {
      assert a + b == b;
    } else {
      CostConcat(a[1..], b);
      assert (a + b)[1..] == a[1..] + b;
    }
  }

  lemma CostSplit(recs: seq<Rec>, i: nat)
    requires i < |recs|
    ensures Cost(recs) == Cost(recs[..i]) + NodeMemory(recs[i].key, recs[i].value) + Cost(recs[i + 1..])
  {
    assert recs == recs[..i] + recs[i..] && recs[i..][1..] == recs[i + 1..];
    CostConcat(recs[..i], recs[i..]);
  }

  /** How one update changes the accounted memory: by the difference of the value lengths when the
      key is there, and by a whole node otherwise. */
  lemma CostUpsert(recs: seq<Rec>, r: Rec)
    requires Sorted(recs)
    ensures match Find(Contents(recs), r.key)
      case Some(e) => Cost(Upsert(recs, r)) + |e.value| == Cost(recs) + |r.value| && |e.value| <= Cost(recs)
                      && |Upsert(recs, r)| == |recs|
      case None => Cost(Upsert(recs, r)) == Cost(recs) + NodeMemory(r.key, r.value) && |Upsert(recs, r)| == |recs| + 1
  {
    hide Less, Contents;
    var (p, next) := (IndexOf(recs, r.key, 0), Upsert(recs, r));
    FindIndexed(recs, r.key);
    CostSplit(next, p);
    assert next[..p] == recs[..p];
    if |next| == |recs| {
      CostSplit(recs, p);
      assert next[p + 1..] == recs[p + 1..];
    } else {
      assert next[p + 1..] == recs[p..] && recs == recs[..p] + recs[p..];
      CostConcat(recs[..p], recs[p..]);
    }
  }

  lemma FindIndexed(recs: seq<Rec>, k: string)
    requires Sorted(recs)
    ensures var p := IndexOf(recs, k, 0);
      Find(Contents(recs), k) == if p < |recs| && recs[p].key == k then Some(recs[p].ToEntry()) else None
  {
    hide Contents, Less;
    var p := IndexOf(recs, k, 0);
    if p < |recs| && recs[p].key == k {
      RecordBound(recs, p);
    } else if k in Contents(recs) {
      var i := KeyHasIndex(recs, k);
      Irreflexive(k);
    }
  }

  /** The accounting depends on the contents alone, not on the operations that led to them. */
  lemma HistoryIndependent(a: seq<Rec>, b: seq<Rec>)
    requires Sorted(a) && Sorted(b) && Contents(a) == Contents(b)
    ensures Cost(a) == Cost(b) && |a| == |b|
  {
    ContentsInjective(a, b);
  }

  /** The log behind a memtable (`WAL`). */
  class Wal {
    const disk: Disk

    constructor (disk: Disk)
      ensures this.disk == disk
    {
      this.disk := disk;
    }

    /** Formats one line and appends it; the clock reading is a parameter. */
    method Append(operation: string, key: string, value: string, timestamp: nat) returns (ok: bool)
      modifies disk
      ensures ok
      ensures disk.Now() == old(disk.Now()).(wal := old(disk.wal) + FormatLine(operation, key, value, timestamp) + "\n")
      ensures disk.wal == old(disk.wal) + "{\"operation\":\"" + Escape(operation) + "\",\"key\":\"" + Escape(key)
                          + "\",\"value\":\"" + Escape(value) + "\",\"timestamp\":" + Digits(timestamp) + "}" + "\n"
      ensures disk.history == old(disk.history) + [disk.Now()]
    {
      hide Escape, Digits;
      var o := EscapeJSON(operation);
      var k := EscapeJSON(key);
      var v := EscapeJSON(value);
      var body := BEFORE_OPERATION + o + BEFORE_KEY + k + BEFORE_VALUE + v + BEFORE_TIMESTAMP;
      disk.AppendWal(body + Digits(timestamp) + "}" + "\n");
      ok := true;
    }

    method Recover() returns (entries: seq<LogEntry>)
      ensures entries == Recovered(disk.wal)
    {
      entries := LogRecovery.Recover(disk.wal);
    }
  }

  class MemTable {
    const list: SkipList
    const wal: Wal?
    var usage: nat
    var count: nat
    var immutable: bool

    ghost var Repr: set<object>

    /** The accounting invariant: usage is the cost of the contents, count their number. */
    ghost predicate Valid()
      reads this, Repr
      ensures Valid() ==> this in Repr
    {
      && this in Repr && list in Repr && list.Repr <= Repr && this !in list.Repr
      && (wal != null ==> wal.disk !in Repr)
      && list.Valid()
      && usage == Cost(list.Recs()) && count == |list.Recs()|
    }

    ghost function Recs(): seq<Rec>
      requires Valid()
      reads this, Repr
    {
      list.Recs()
    }

    /** Opens the log and replays it; without a log the memtable starts empty. */
    constructor (wal: Wal?)
      ensures Valid() && !immutable && this.wal == wal && fresh(Repr)
      ensures Recs() == if wal == null then [] else Replay(Recovered(wal.disk.wal))
    {
      hide SkipList.Valid, SkipList.Spine, Upsert, Recovered, Replay;
      list := new SkipList();
      this.wal := wal;
      usage, count, immutable := 0, 0, false;
      new;
      Repr := {this} + list.Repr;
      if wal != null {
        var entries := wal.Recover();
        RecoverFrom(entries);
      }
    }

    /** Replays log entries; an entry with another operation is passed over. */
    method RecoverFrom(entries: seq<LogEntry>)
      requires Valid() && Recs() == []
      modifies Repr
      ensures Valid() && fresh(Repr - old(Repr))
      ensures Recs() == Replay(entries) && immutable == old(immutable)
    {
      hide SkipList.Valid, SkipList.Recs, SkipList.Spine, Upsert, Cost, Contents;
      for i := 0 to |entries|
        invariant Valid() && fresh(Repr - old(Repr))
        invariant Recs() == Replay(entries[..i]) && immutable == old(immutable)
      {
        var e := entries[i];
        assert entries[..i + 1][..i] == entries[..i];
        if e.operation == PUT {
          Apply(PutRec(e.key, e.value));
        } else if e.operation == DELETE {
          Apply(DeleteRec(e.key));
        }
      }
      assert entries[..|entries|] == entries;
    }

    /** Accounts for one update and makes it. No subtraction goes below zero. */
    method Apply(r: Rec)
      requires Valid()
      modifies Repr
      ensures Valid() && fresh(Repr - old(Repr))
      ensures Recs() == Upsert(old(Recs()), r) && immutable == old(immutable)
    {
      hide SkipList.Valid, SkipList.Recs, SkipList.Spine, Upsert, Cost, Contents;
      list.RecsSorted();
      CostUpsert(list.Recs(), r);
      var existing := list.Find(r.key);
      if existing.Some? {
        if |r.value| >= |existing.value.value| {
          usage := usage + (|r.value| - |existing.value.value|);
        } else {
          usage := usage - (|existing.value.value| - |r.value|);
        }
      } else {
        usage := usage + NodeMemory(r.key, r.value);
        count := count + 1;
      }
      list.Insert(r.key, Entry(r.value, r.deleted));
      Repr := Repr + list.Repr;
    }

    /** Logs the write, then makes it; an immutable memtable refuses. */
    method Put(key: string, value: string, timestamp: nat) returns (ok: bool)
      requires Valid()
      modifies Repr, if wal == null then {} else {wal.disk}
      ensures Valid() && fresh(Repr - old(Repr)) && ok == !old(immutable) && immutable == old(immutable)
      ensures Recs() == if ok then Upsert(old(Recs()), PutRec(key, value)) else old(Recs())
      ensures wal != null && ok ==>
        && wal.disk.Now() == old(wal.disk.Now()).(
             wal := old(wal.disk.wal) + FormatLine(PUT, key, value, timestamp) + "\n")
        && wal.disk.history == old(wal.disk.history) + [wal.disk.Now()]
      ensures wal != null && !ok ==> unchanged(wal.disk)
    {
      hide SkipList.Valid, SkipList.Recs, SkipList.Spine, Upsert, Cost, Contents, FormatLine;
      if immutable {
        return false;
      }
      if wal != null {
        var logged := wal.Append(PUT, key, value, timestamp);
        if !logged {
          return false;
        }
      }
      Apply(PutRec(key, value));
      return true;
    }

    method Delete(key: string, timestamp: nat) returns (ok: bool)
      requires Valid()
      modifies Repr, if wal == null then {} else {wal.disk}
      ensures Valid() && fresh(Repr - old(Repr)) && ok == !old(immutable) && immutable == old(immutable)
      ensures Recs() == if ok then Upsert(old(Recs()), DeleteRec(key)) else old(Recs())
      ensures wal != null && ok ==>
        && wal.disk.Now() == old(wal.disk.Now()).(
             wal := old(wal.disk.wal) + FormatLine(DELETE, key, "", timestamp) + "\n")
        && wal.disk.history == old(wal.disk.history) + [wal.disk.Now()]
      ensures wal != null && !ok ==> unchanged(wal.disk)
    {
      hide SkipList.Valid, SkipList.Recs, SkipList.Spine, Upsert, Cost, Contents, FormatLine;
      if immutable {
        return false;
      }
      if wal != null {
        var logged := wal.Append(DELETE, key, "", timestamp);
        if !logged {
          return false;
        }
      }
      Apply(DeleteRec(key));
      return true;
    }

    /** Found with a value, deleted by a tombstone, or absent. */
    method Get(key: string) returns (found: bool, value: string, deleted: bool)
      requires Valid()
      ensures Find(Contents(Recs()), key) ==
        if found then Some(Entry(value, false)) else if deleted then Some(Entry(value, true)) else None
      ensures !(found && deleted)
    {
      hide SkipList.Valid, SkipList.Recs, SkipList.Spine, Upsert, Cost, Contents;
      var entry := list.Find(key);
      if entry.None? {
        return false, "", false;
      }
      if entry.value.deleted {
        return false, entry.value.value, true;
      }
      return true, entry.value.value, false;
    }

    method Empty() returns (empty: bool)
      requires Valid()
      ensures empty <==> Recs() == []
    {
      empty := list.Empty();
    }

    method MarkImmutable()
      requires Valid()
      modifies `immutable
      ensures Valid() && immutable && Recs() == old(Recs()) && Repr == old(Repr)
    {
      hide SkipList.Valid, SkipList.Recs, SkipList.Spine, Upsert, Cost, Contents;
      immutable := true;
    }

    method Clear()
      requires Valid()
      modifies Repr
      ensures Valid() && Recs() == [] && usage == 0 && count == 0 && !immutable
    {
      hide SkipList.Valid, SkipList.Spine;
      list.Clear();
      usage, count, immutable := 0, 0, false;
    }
  }
}
