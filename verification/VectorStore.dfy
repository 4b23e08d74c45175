/** The id counter of the vector store (python/ltm/vector_index.py:260-328). */
module VectorStore {
  import opened Keys
  import opened Records
  import opened EngineModel
  import opened EngineScan
  import opened ScanSpec
  import opened MapStore
  import opened Decimal
  import opened PaddedKeys
  import opened PythonText

  const PREFIX := "vec:"
  const COUNTER_KEY := "meta:vector_id_counter"

  function VecKey(id: nat): string { PREFIX + Padded(id) }

  /** A payload's key reads back: `vec:`, then the id in at least eight digits, without a leading zero
      when there are more. Different ids have different keys, and none is the counter's. */
  lemma VecKeyText(id: nat)
    ensures |VecKey(id)| >= 12 && VecKey(id)[..4] == "vec:"
    ensures AllDigits(VecKey(id)[4..]) && Value(VecKey(id)[4..]) == id
    ensures |VecKey(id)| > 12 ==> VecKey(id)[4] != '0'
    ensures VecKey(id) != "meta:vector_id_counter"
    ensures forall other: nat :: VecKey(other) == VecKey(id) ==> other == id
  {
    hide Padded, Value;
    PaddedText(id);
    assert VecKey(id)[4..] == Padded(id);
    assert VecKey(id)[0] == 'v' && COUNTER_KEY[0] == 'm';
    forall other: nat | VecKey(other) == VecKey(id) ensures other == id {
      assert VecKey(other)[4..] == Padded(other);
      PaddedInjective(other, id);
    }
  }

  /** What rehydration takes from a payload: its id, or nothing when the payload does not parse or its
      embedding does not fit the index. */
  type IdOf = string -> Option<int>

  predicate HasId(view: map<string, string>, idOf: IdOf, key: string) {
    key in view && HasPrefix(key, PREFIX) && idOf(view[key]).Some?
  }

  /** The largest id among the stored payloads, or -1. */
  ghost predicate IsMaxId(view: map<string, string>, idOf: IdOf, maxId: int) {
    && (forall k :: HasId(view, idOf, k) ==> idOf(view[k]).value <= maxId)
    && (maxId == -1 || exists k :: HasId(view, idOf, k) && idOf(view[k]).value == maxId)
    && maxId >= -1
  }

  /** The counter from its stored text and the largest stored id. */
  function CounterFrom(text: Option<string>, maxId: int): int {
    var stored := if text.Some? then PythonInt(text.value) else None;
    var c := if stored.Some? then stored.value else if maxId >= 0 then maxId + 1 else 0;
    if maxId >= c then maxId + 1 else c
  }

  /** Opening on this view sets the counter to `c`. */
  ghost predicate RehydratesTo(view: map<string, string>, idOf: IdOf, c: int) {
    exists maxId :: IsMaxId(view, idOf, maxId) && c == CounterFrom(Lookup(view, COUNTER_KEY), maxId)
  }

  /** Opening sets the counter to the smallest number that is not negative, not below the stored one
      when its text reads as one, and above every stored id. */
  lemma RehydratesMeans(view: map<string, string>, idOf: IdOf, c: int)
    requires RehydratesTo(view, idOf, c)
    ensures c >= 0 && forall k :: HasId(view, idOf, k) ==> idOf(view[k]).value < c
    ensures var text := Lookup(view, "meta:vector_id_counter");
      var stored := if text.Some? then PythonInt(text.value) else None;
      && (stored.Some? ==> c >= stored.value)
      && (c == 0 || stored == Some(c) || exists k :: HasId(view, idOf, k) && idOf(view[k]).value == c - 1)
  {
    hide PythonInt, Lookup, HasId;
    var maxId :| IsMaxId(view, idOf, maxId) && c == CounterFrom(Lookup(view, COUNTER_KEY), maxId);
  }

  lemma HasIdMeans(view: map<string, string>, idOf: IdOf, k: string)
    ensures HasId(view, idOf, k) <==> k in view && |k| >= 4 && k[..4] == "vec:" && idOf(view[k]).Some?
  {
  }

  class VectorStore {
    const engine: MapStore
    const idOf: IdOf
    var idCounter: int

    constructor (engine: MapStore, idOf: IdOf)
      requires engine.Valid()
      ensures this.engine == engine && this.idOf == idOf
      ensures RehydratesTo(engine.View(), idOf, idCounter) && idCounter >= 0
    {
      this.engine, this.idOf, idCounter := engine, idOf, 0;
      new;
      RehydrateIndex();
    }

    method RehydrateIndex()
      requires engine.Valid()
      modifies this
      ensures RehydratesTo(engine.View(), idOf, idCounter) && idCounter >= 0
      ensures forall k :: HasId(engine.View(), idOf, k) ==> idOf(engine.View()[k]).value < idCounter
      ensures var text := Lookup(engine.View(), "meta:vector_id_counter");
        var stored := if text.Some? then PythonInt(text.value) else None;
        && (stored.Some? ==> idCounter >= stored.value)
        && (idCounter == 0 || stored == Some(idCounter) || exists k ::
              HasId(engine.View(), idOf, k) && idOf(engine.View()[k]).value == idCounter - 1)
    {
      hide Lists, MapStore.View, HasPrefix, IsMaxId, PythonInt, HasId, Lookup;
      var maxId := -1;
      var items := engine.PrefixScan(PREFIX, 0);
      ghost var full: seq<Rec> :| Lists(full, engine.View(), WithPrefix(PREFIX)) && items == Pairs(Taken(full, 0));
      NoneSeen(full, idOf);
      for i := 0 to |items|
        invariant MaxAmong(full, i, idOf, maxId)
      {
        var id := idOf(items[i].1);
        OneMoreSeen(full, i, idOf, maxId);
        if id.Some? && id.value > maxId {
          maxId := id.value;
        }
      }
      AllSeen(full, engine.View(), idOf, maxId);
      MaxIdBound(engine.View(), idOf, maxId);
      var text := engine.Get(COUNTER_KEY);
      if text.Some? {
        var stored := PythonInt(text.value);
        if stored.Some? {
          idCounter := stored.value;
        } else {
          idCounter := if maxId >= 0 then maxId + 1 else 0;
        }
      } else {
        idCounter := if maxId >= 0 then maxId + 1 else 0;
      }
      if maxId >= idCounter {
        idCounter := maxId + 1;
      }
      assert idCounter == CounterFrom(text, maxId);
      RehydratesMeans(engine.View(), idOf, idCounter);
    }

    /** Takes the next id, stores the payload under it, then the counter. */
    method Add(payload: string) returns (id: int)
      requires engine.Valid() && idCounter >= 0
      modifies this, engine
      ensures engine.Valid() && id == old(idCounter) && idCounter == id + 1
      ensures engine.View() == Added(old(engine.View()), id, payload)
      ensures engine.View() == old(engine.View())["vec:" + Padded(id) := payload]
                                                 ["meta:vector_id_counter" := PythonStr(id + 1)]
    {
      hide MapStore.View, Padded, PythonStr;
      id := idCounter;
      idCounter := idCounter + 1;
      engine.Put(VecKey(id), payload);
      engine.Put(COUNTER_KEY, PythonStr(idCounter));
    }
  }

  function Stored(view: map<string, string>, id: nat, payload: string): map<string, string> {
    view[VecKey(id) := payload]
  }

  function Added(view: map<string, string>, id: nat, payload: string): map<string, string> {
    Stored(view, id, payload)[COUNTER_KEY := PythonStr(id + 1)]
  }

  // ---- the largest id of a listing ----

  ghost predicate MaxAmong(full: seq<Rec>, n: int, idOf: IdOf, maxId: int) {
    && 0 <= n <= |full| && maxId >= -1
    && (forall i :: 0 <= i < n && idOf(full[i].value).Some? ==> idOf(full[i].value).value <= maxId)
    && (maxId == -1 || exists i :: 0 <= i < n && idOf(full[i].value) == Some(maxId))
  }

  lemma MaxIdBound(view: map<string, string>, idOf: IdOf, maxId: int)
    requires IsMaxId(view, idOf, maxId)
    ensures maxId >= -1
  {
  }

  lemma NoneSeen(full: seq<Rec>, idOf: IdOf)
    ensures MaxAmong(full, 0, idOf, -1)
  {
  }

  lemma OneMoreSeen(full: seq<Rec>, n: nat, idOf: IdOf, maxId: int)
    requires MaxAmong(full, n, idOf, maxId) && n < |full|
    ensures var id := idOf(full[n].value);
      MaxAmong(full, n + 1, idOf, if id.Some? && id.value > maxId then id.value else maxId)
  {
    if maxId != -1 {
      var i :| 0 <= i < n && idOf(full[i].value) == Some(maxId);
      assert i < n + 1;
    }
  }

  lemma AllSeen(full: seq<Rec>, view: map<string, string>, idOf: IdOf, maxId: int)
    requires Lists(full, view, WithPrefix(PREFIX)) && MaxAmong(full, |full|, idOf, maxId)
    ensures IsMaxId(view, idOf, maxId)
  {
    hide Lists, HasPrefix;
    forall k | HasId(view, idOf, k) ensures idOf(view[k]).value <= maxId {
      var i := KeyListed(full, view, WithPrefix(PREFIX), k);
    }
    if maxId != -1 {
      var i :| 0 <= i < |full| && idOf(full[i].value) == Some(maxId);
      PairAt(full, view, WithPrefix(PREFIX), i);
      assert HasId(view, idOf, full[i].key);
    }
  }

  // ---- the counter never falls behind an id that was used ----

  /** Something stored keeps every id below `c` from being used again. */
  ghost predicate Guards(view: map<string, string>, idOf: IdOf, c: int) {
    || c == 0
    || CounterFromText(Lookup(view, COUNTER_KEY), c)
    || exists k :: HasId(view, idOf, k) && idOf(view[k]).value >= c - 1
  }

  /** The stored counter reads as a number of at least `c`. */
  predicate CounterFromText(text: Option<string>, c: int) {
    text.Some? && PythonInt(text.value).Some? && PythonInt(text.value).value >= c
  }

  lemma GuardedReopen(view: map<string, string>, idOf: IdOf, c: int, reopened: int)
    requires Guards(view, idOf, c) && RehydratesTo(view, idOf, reopened)
    ensures reopened >= c
  {
    hide HasPrefix, PythonInt;
  }

  /** Whatever the counter's text, opening sets a counter that what is stored guards. */
  lemma ReopenGuarded(view: map<string, string>, idOf: IdOf, c: int)
    requires RehydratesTo(view, idOf, c)
    ensures Guards(view, idOf, c) && c >= 0
  {
    hide HasPrefix, PythonInt;
    var maxId :| IsMaxId(view, idOf, maxId) && c == CounterFrom(Lookup(view, COUNTER_KEY), maxId);
    if maxId != -1 {
      var k :| HasId(view, idOf, k) && idOf(view[k]).value == maxId;
    }
  }

  lemma StoredGuards(view: map<string, string>, idOf: IdOf, id: nat, payload: string)
    requires idOf(payload) == Some(id)
    ensures Guards(Stored(view, id, payload), idOf, id + 1)
  {
    hide VecKey, PythonInt, Value;
    VecKeyText(id);
    assert HasId(Stored(view, id, payload), idOf, VecKey(id));
  }

  lemma AddedGuards(view: map<string, string>, idOf: IdOf, id: nat, payload: string)
    ensures Guards(Added(view, id, payload), idOf, id + 1)
  {
    hide HasPrefix, VecKey, PythonInt;
    PythonIntOfStr(id + 1);
  }

  // ---- runs: adds, stops between the two puts of an add, and reopens ----

  datatype Event = Add(payload: string) | StopInAdd(payload: string, reopened: nat) | Reopen(reopened: nat)

  function ViewNext(view: map<string, string>, c: nat, event: Event): map<string, string> {
    match event
    case Add(payload) => Added(view, c, payload)
    case StopInAdd(payload, _) => Stored(view, c, payload)
    case Reopen(_) => view
  }

  function CounterNext(c: nat, event: Event): nat {
    match event
    case Add(_) => c + 1
    case StopInAdd(_, reopened) => reopened
    case Reopen(reopened) => reopened
  }

  /** Payloads carry the id they are stored under, and a reopen sets the counter from what is stored. */
  ghost predicate Happens(view: map<string, string>, idOf: IdOf, c: nat, event: Event) {
    && (!event.Reopen? ==> idOf(event.payload) == Some(c))
    && (!event.Add? ==> RehydratesTo(ViewNext(view, c, event), idOf, event.reopened))
  }

  /** The views and the counters before, between and after the events. */
  ghost predicate IsRun(views: seq<map<string, string>>, counters: seq<nat>, idOf: IdOf, events: seq<Event>) {
    && |views| == |counters| == |events| + 1
    && forall i :: 0 <= i < |events| ==>
        && Happens(views[i], idOf, counters[i], events[i])
        && views[i + 1] == ViewNext(views[i], counters[i], events[i])
        && counters[i + 1] == CounterNext(counters[i], events[i])
  }

  lemma EventKeeps(view: map<string, string>, idOf: IdOf, c: nat, event: Event)
    requires Guards(view, idOf, c) && Happens(view, idOf, c, event)
    ensures var (v, d) := (ViewNext(view, c, event), CounterNext(c, event));
      Guards(v, idOf, d) && d >= (if event.Reopen? then c else c + 1)
  {
    hide Guards, RehydratesTo, Stored, Added;
    match event
    case Add(payload) => AddedGuards(view, idOf, c, payload);
    case StopInAdd(payload, reopened) =>
      StoredGuards(view, idOf, c, payload);
      GuardedReopen(Stored(view, c, payload), idOf, c + 1, reopened);
      ReopenGuarded(Stored(view, c, payload), idOf, reopened);
    case Reopen(reopened) =>
      GuardedReopen(view, idOf, c, reopened);
      ReopenGuarded(view, idOf, reopened);
  }

  lemma UnderPrefix(id: nat)
    ensures HasPrefix(VecKey(id), PREFIX)
  {
  }

  /** An event stores at most its payload, under its id's key, and the counter. */
  lemma EventStores(view: map<string, string>, c: nat, event: Event)
    ensures var v := ViewNext(view, c, event);
      && (!event.Reopen? ==> VecKey(c) in v && v[VecKey(c)] == event.payload)
      && forall k :: HasPrefix(k, PREFIX) && (event.Reopen? || k != VecKey(c)) ==> Lookup(v, k) == Lookup(view, k)
  {
    hide VecKey, PythonStr, Value;
    VecKeyText(c);
    assert COUNTER_KEY[..4] == "meta";
  }

  /** No id is allocated twice over any adds, reopens, and stops between the two puts of an add: the
      ids of a run strictly ascend. */
  lemma {:induction false} IdsNeverRepeat(views: seq<map<string, string>>, counters: seq<nat>, idOf: IdOf,
                                          events: seq<Event>, n: nat)
    requires IsRun(views, counters, idOf, events) && Guards(views[0], idOf, counters[0]) && n <= |events|
    ensures Guards(views[n], idOf, counters[n])
    ensures forall i :: 0 <= i < n ==> counters[i] <= counters[n] && (!events[i].Reopen? ==> counters[i] < counters[n])
  {
    hide Guards, Happens, ViewNext, CounterNext;
    if n > 0 {
      IdsNeverRepeat(views, counters, idOf, events, n - 1);
      EventKeeps(views[n - 1], idOf, counters[n - 1], events[n - 1]);
    }
  }

  /** From any store the counter was opened on, the empty one included, whatever its counter's text. */
  lemma OpenedIdsNeverRepeat(views: seq<map<string, string>>, counters: seq<nat>, idOf: IdOf, events: seq<Event>)
    requires IsRun(views, counters, idOf, events) && RehydratesTo(views[0], idOf, counters[0])
    ensures forall i, j :: 0 <= i < j <= |events| && !events[i].Reopen? ==> counters[i] < counters[j]
    ensures forall i :: 0 <= i < |events| && events[i].Add? ==> counters[i + 1] == counters[i] + 1
  {
    hide RehydratesTo, Guards, Happens, ViewNext;
    ReopenGuarded(views[0], idOf, counters[0]);
    forall i, j | 0 <= i < j <= |events| && !events[i].Reopen? ensures counters[i] < counters[j] {
      IdsNeverRepeat(views, counters, idOf, events, j);
    }
  }

  /** After the first `n` events every payload given so far is stored under the key of its id, each key
      is another's, and whatever else was stored under the prefix is as it was. */
  lemma {:induction false} PayloadsStay(views: seq<map<string, string>>, counters: seq<nat>, idOf: IdOf,
                                        events: seq<Event>, n: nat)
    requires IsRun(views, counters, idOf, events) && RehydratesTo(views[0], idOf, counters[0]) && n <= |events|
    ensures forall i :: 0 <= i < n && !events[i].Reopen? ==>
      Lookup(views[n], "vec:" + Padded(counters[i])) == Some(events[i].payload)
    ensures forall i, j :: 0 <= i < j < n && !events[i].Reopen? && !events[j].Reopen? ==>
      "vec:" + Padded(counters[i]) != "vec:" + Padded(counters[j])
    ensures forall k ::
      (&& HasPrefix(k, "vec:")
       && forall i :: 0 <= i < n && !events[i].Reopen? ==> k != "vec:" + Padded(counters[i]))
      ==> Lookup(views[n], k) == Lookup(views[0], k)
  {
    hide RehydratesTo, Happens, ViewNext, CounterNext, Padded, Value, HasPrefix;
    if n > 0 {
      var (c, last) := (counters[n - 1], events[n - 1]);
      PayloadsStay(views, counters, idOf, events, n - 1);
      EventStores(views[n - 1], c, last);
      OpenedIdsNeverRepeat(views, counters, idOf, events);
      forall i | 0 <= i < n - 1 && !events[i].Reopen?
        ensures VecKey(counters[i]) != VecKey(c) && HasPrefix(VecKey(counters[i]), PREFIX)
      {
        VecKeyText(counters[i]);
        UnderPrefix(counters[i]);
      }
    }
  }
}
