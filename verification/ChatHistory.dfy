/** The chat log (python/ltm/chat_history.py): turns of a session in key order over the map. */
module ChatHistory {
  import opened Keys
  import opened Records
  import opened EngineModel
  import opened EngineScan
  import opened ScanSpec
  import opened MapStore
  import opened PaddedKeys
  import opened PythonText

  function Prefix(session: string): string { "chat:" + session + ":" }

  lemma PrefixText(session: string)
    ensures Prefix(session) == "chat:" + session + ":"
  {
  }

  function TurnKey(session: string, turn: int): string { Prefix(session) + PaddedInt(turn) }

  function MetaKey(session: string): string { "meta:chat_turn:" + session }

  /** The entries of a session whose messages since the last clear are `log`. */
  function Entries(session: string, log: seq<string>): map<string, string> {
    if log == [] then map[]
    else
      var n := |log| - 1;
      Entries(session, log[..n])[TurnKey(session, n) := log[n]]
  }

  /** What `get` gives for the turn counter. */
  function Counter(n: nat): Option<string> {
    if n == 0 then None else Some(PythonStr(n - 1))
  }

  /** The map holds exactly these messages of the session. */
  ghost predicate Holds(view: map<string, string>, session: string, log: seq<string>) {
    && ViewWithin(view, WithPrefix(Prefix(session))) == Entries(session, log)
    && Lookup(view, MetaKey(session)) == Counter(|log|)
  }

  /** The last `n` messages; all of them without a number, none for a number that is not positive. */
  function Recent(log: seq<string>, lastN: Option<int>): seq<string> {
    match lastN
    case None => log
    case Some(n) => if n <= 0 then [] else if n < |log| then log[|log| - n..] else log
  }

  lemma RecentMeans(log: seq<string>, lastN: Option<int>)
    ensures lastN.None? ==> Recent(log, lastN) == log
    ensures lastN.Some? && lastN.value <= 0 ==> Recent(log, lastN) == []
    ensures lastN.Some? && 0 < lastN.value < |log| ==> Recent(log, lastN) == log[|log| - lastN.value..]
    ensures lastN.Some? && |log| <= lastN.value && 0 < lastN.value ==> Recent(log, lastN) == log
  {
  }

  // ---- which keys belong to which session ----

  /** The session id `other` does not continue `session` behind a colon. */
  predicate Separate(session: string, other: string) {
    other != session && !HasPrefix(other, session + ":")
  }

  lemma TurnHasPrefix(session: string, turn: int)
    ensures HasPrefix(TurnKey(session, turn), Prefix(session))
  {
  }

  lemma MetaIsApart(session: string, other: string)
    ensures !HasPrefix(MetaKey(other), Prefix(session))
    ensures other != session ==> MetaKey(other) != MetaKey(session)
  {
    assert MetaKey(other)[0] == 'm' && Prefix(session)[0] == 'c';
    assert MetaKey(other)[15..] == other && MetaKey(session)[15..] == session;
  }

  lemma KeysDiffer(session: string, other: string, turn: int)
    ensures TurnKey(other, turn) != MetaKey(session)
  {
    assert TurnKey(other, turn)[0] == 'c' && MetaKey(session)[0] == 'm';
  }

  lemma TailPrefix(p: string, a: string, b: string)
    ensures HasPrefix(p + a, p + b) <==> HasPrefix(a, b)
  {
    if |b| <= |a| {
      assert (p + a)[..|p + b|] == p + a[..|b|];
      assert (p + b)[|p|..] == b && (p + a[..|b|])[|p|..] == a[..|b|];
    }
  }

  /** A turn of another session falls under this session's prefix exactly when the other id
      continues this one behind a colon. */
  lemma SessionsOverlapIff(session: string, other: string, turn: int)
    ensures HasPrefix(TurnKey(other, turn), Prefix(session)) <==> !Separate(session, other)
  {
    hide PaddedInt;
    var (s, o, d) := (session + ":", other + ":", PaddedInt(turn));
    assert TurnKey(other, turn) == "chat:" + (o + d) && Prefix(session) == "chat:" + s;
    TailPrefix("chat:", o + d, s);
    PaddedIntHasNoColon(turn);
    OverlapIff(session, other, d);
  }

  predicate NoColon(s: string) {
    forall i :: 0 <= i < |s| ==> s[i] != ':'
  }

  lemma ColonInside(session: string, other: string, d: string)
    requires NoColon(d) && HasPrefix(other + ":" + d, session + ":")
    ensures |session| <= |other|
  {
    var (s, k) := (session + ":", other + ":" + d);
    assert forall i :: |other| < i < |k| ==> k[i] == d[i - |other| - 1];
    assert k[|session|] == k[..|s|][|session|] == ':';
  }

  lemma OverlapOnly(session: string, other: string, d: string)
    requires NoColon(d) && HasPrefix(other + ":" + d, session + ":")
    ensures other == session || HasPrefix(other, session + ":")
  {
    var (s, k) := (session + ":", other + ":" + d);
    ColonInside(session, other, d);
    if |session| == |other| {
      assert k[..|other|] == other && s[..|session|] == session;
      assert k[..|s|][..|session|] == k[..|session|];
    } else {
      assert k[..|s|] == other[..|s|];
    }
  }

  lemma OverlapIff(session: string, other: string, d: string)
    requires NoColon(d)
    ensures HasPrefix(other + ":" + d, session + ":") <==> other == session || HasPrefix(other, session + ":")
  {
    var (s, k) := (session + ":", other + ":" + d);
    assert HasPrefix(other, s) ==> k[..|s|] == other[..|s|];
    assert other == session ==> k[..|s|] == s;
    if HasPrefix(k, s) {
      OverlapOnly(session, other, d);
    }
  }

  // ---- the listing of a session ----

  function TurnRecs(session: string, log: seq<string>): (recs: seq<Rec>)
    ensures |recs| == |log|
    ensures forall i :: 0 <= i < |log| ==> recs[i] == Rec(TurnKey(session, i), log[i], false)
  {
    seq(|log|, i requires 0 <= i < |log| => Rec(TurnKey(session, i), log[i], false))
  }

  lemma {:induction false} TurnsListed(session: string, log: seq<string>)
    ensures Live(Contents(TurnRecs(session, log))) == Entries(session, log)
  {
    hide TurnKey, Live;
    if log == [] {
      assert Live(map[]) == map[] by { NothingLive(); }
    } else {
      var (n, recs) := (|log| - 1, TurnRecs(session, log));
      assert recs[..n] == TurnRecs(session, log[..n]);
      TurnsListed(session, log[..n]);
      LiveUpdate(Contents(recs[..n]), TurnKey(session, n), Entry(log[n], false));
    }
  }

  lemma NothingLive()
    ensures Live(map[]) == map[]
  {
  }

  /** Turn keys ascend with the turn exactly up to 10^8 turns. */
  lemma TurnOrderIff(session: string, log: seq<string>)
    ensures Sorted(TurnRecs(session, log)) <==> |log| <= TEN_TO_THE_8
  {
    hide Less, Padded;
    KeysInOrderIff(|log|);
    forall i, j | 0 <= i < j < |log|
      ensures Less(TurnRecs(session, log)[i].key, TurnRecs(session, log)[j].key) <==> Less(Padded(i), Padded(j))
    {
      SamePrefixOrder(Prefix(session), Padded(i), Padded(j));
    }
  }

  lemma SameLive(a: seq<Rec>, b: seq<Rec>)
    requires Sorted(a) && Sorted(b) && NoneDeleted(a) && NoneDeleted(b) && Live(Contents(a)) == Live(Contents(b))
    ensures a == b
  {
    hide Less, Live, Contents;
    AllLive(a);
    AllLive(b);
    LiveDetermines(Contents(a), Contents(b));
    ContentsInjective(a, b);
  }

  lemma AllLive(a: seq<Rec>)
    requires NoneDeleted(a)
    ensures forall k :: k in Contents(a) ==> !Contents(a)[k].deleted
  {
    hide Contents;
    forall k | k in Contents(a) ensures !Contents(a)[k].deleted {
      var i := KeyHasRecord(a, k);
    }
  }

  lemma LiveDetermines(m: map<string, Entry>, n: map<string, Entry>)
    requires Live(m) == Live(n)
    requires (forall k :: k in m ==> !m[k].deleted) && forall k :: k in n ==> !n[k].deleted
    ensures m == n
  {
    assert forall k :: k in m <==> k in Live(m);
    assert forall k :: k in n <==> k in Live(n);
    assert forall k :: k in m ==> m[k] == Entry(Live(m)[k], false);
    assert forall k :: k in n ==> n[k] == Entry(Live(n)[k], false);
  }

  /** The scan of a session lists its messages in the order they were appended exactly up to 10^8
      turns. */
  lemma ScanIsLog(full: seq<Rec>, view: map<string, string>, session: string, log: seq<string>)
    requires Lists(full, view, WithPrefix(Prefix(session))) && Holds(view, session, log)
    ensures full == TurnRecs(session, log) <==> |log| <= TEN_TO_THE_8
  {
    hide Less, Sorted, Live, Contents, TurnKey;
    TurnsListed(session, log);
    TurnOrderIff(session, log);
    if |log| <= TEN_TO_THE_8 {
      SameLive(full, TurnRecs(session, log));
    }
  }

  // ---- what the operations do to the sessions ----

  /** The view after an append: the turn, then the counter. */
  function Appended(view: map<string, string>, session: string, n: int, payload: string): map<string, string> {
    view[TurnKey(session, n) := payload][MetaKey(session) := PythonStr(n)]
  }

  lemma WithinPut(view: map<string, string>, prefix: string, key: string, value: string)
    ensures ViewWithin(view[key := value], WithPrefix(prefix)) ==
      if HasPrefix(key, prefix) then ViewWithin(view, WithPrefix(prefix))[key := value]
      else ViewWithin(view, WithPrefix(prefix))
  {
    hide HasPrefix;
  }

  lemma AppendHolds(view: map<string, string>, session: string, log: seq<string>, payload: string)
    requires Holds(view, session, log)
    ensures Holds(Appended(view, session, |log|, payload), session, log + [payload])
  {
    hide TurnKey, MetaKey, ViewWithin, Prefix, PythonStr;
    var (n, p, key) := (|log|, Prefix(session), TurnKey(session, |log|));
    TurnHasPrefix(session, n);
    MetaIsApart(session, session);
    WithinPut(view, p, key, payload);
    WithinPut(view[key := payload], p, MetaKey(session), PythonStr(n));
    assert (log + [payload])[..n] == log;
  }

  /** An append to another session leaves this one as it was. */
  lemma AppendElsewhere(view: map<string, string>, session: string, log: seq<string>, other: string, n: int,
                        payload: string)
    requires Holds(view, session, log) && Separate(session, other)
    ensures Holds(Appended(view, other, n, payload), session, log)
  {
    hide TurnKey, MetaKey, ViewWithin, Prefix, PythonStr, Separate;
    var (p, key) := (Prefix(session), TurnKey(other, n));
    SessionsOverlapIff(session, other, n);
    MetaIsApart(session, other);
    KeysDiffer(session, other, n);
    assert other != session by { SeparateDiffers(session, other); }
    WithinPut(view, p, key, payload);
    WithinPut(view[key := payload], p, MetaKey(other), PythonStr(n));
  }

  lemma SeparateDiffers(session: string, other: string)
    requires Separate(session, other)
    ensures other != session
  {
  }

  /** The view after a clear. */
  function Cleared(view: map<string, string>, session: string): map<string, string> {
    map k | k in view && !HasPrefix(k, Prefix(session)) && k != MetaKey(session) :: view[k]
  }

  lemma ClearedMeans(view: map<string, string>, session: string)
    ensures forall k ::
      Lookup(Cleared(view, session), k) ==
      if HasPrefix(k, "chat:" + session + ":") || k == "meta:chat_turn:" + session then None else Lookup(view, k)
  {
    hide HasPrefix;
  }

  lemma ClearHolds(view: map<string, string>, session: string)
    ensures Holds(Cleared(view, session), session, [])
  {
    hide HasPrefix, Prefix, MetaKey;
    assert ViewWithin(Cleared(view, session), WithPrefix(Prefix(session))) == map[];
  }

  /** Clearing another session leaves this one as it was. */
  lemma ClearElsewhere(view: map<string, string>, session: string, log: seq<string>, other: string)
    requires Holds(view, session, log) && Separate(session, other) && Separate(other, session)
    ensures Holds(Cleared(view, other), session, log)
  {
    hide HasPrefix, Prefix, MetaKey, Entries, Counter;
    var m := Cleared(view, other);
    MetaIsApart(session, other);
    MetaIsApart(other, session);
    forall k | k in view && HasPrefix(k, Prefix(session)) ensures k in m {
      PrefixesApart(session, other, k);
    }
    assert ViewWithin(m, WithPrefix(Prefix(session))) == ViewWithin(view, WithPrefix(Prefix(session)));
  }

  /** No key at all lies under two separate sessions. */
  lemma PrefixesApart(session: string, other: string, key: string)
    requires Separate(session, other) && Separate(other, session) && HasPrefix(key, Prefix(session))
    ensures !HasPrefix(key, Prefix(other))
  {
    var (p, q) := (Prefix(session), Prefix(other));
    if HasPrefix(key, q) {
      if |q| <= |p| {
        assert key[..|p|][..|q|] == key[..|q|];
        assert HasPrefix(p, q);
        PrefixNested(other, session);
      } else {
        assert key[..|q|][..|p|] == key[..|p|];
        assert HasPrefix(q, p);
        PrefixNested(session, other);
      }
    }
  }

  lemma PrefixNested(session: string, other: string)
    requires HasPrefix(Prefix(other), Prefix(session))
    ensures !Separate(session, other)
  {
    TailPrefix("chat:", other + ":", session + ":");
    assert Prefix(other) == "chat:" + (other + ":") && Prefix(session) == "chat:" + (session + ":");
    OverlapIff(session, other, "");
    assert other + ":" + "" == other + ":";
  }

  lemma ColonFree(session: string, other: string)
    requires session != other && forall i :: 0 <= i < |other| ==> other[i] != ':'
    ensures Separate(session, other)
  {
    assert (session + ":")[|session|] == ':';
  }

  // ---- the client ----

  datatype Event = Append(session: string, payload: string) | Clear(session: string)

  /** The turn the next append of the session takes; none when the counter is no number and `int`
      raises. */
  function NextTurn(view: map<string, string>, session: string): Option<int> {
    match Lookup(view, MetaKey(session))
    case None => Some(0)
    case Some(text) =>
      var n := PythonInt(text);
      if n.Some? then Some(n.value + 1) else None
  }

  /** An append that raises changes nothing. */
  function ViewNext(view: map<string, string>, event: Event): map<string, string> {
    match event
    case Append(session, payload) =>
      var turn := NextTurn(view, session);
      if turn.Some? then Appended(view, session, turn.value, payload) else view
    case Clear(session) => Cleared(view, session)
  }

  class ChatHistory {
    const engine: MapStore

    constructor (engine: MapStore)
      ensures this.engine == engine
    {
      this.engine := engine;
    }

    /** Stores the message under the next turn, then the counter. The message arrives as its JSON text. */
    method AppendMessage(session: string, payload: string) returns (ok: bool)
      requires engine.Valid()
      modifies engine
      ensures engine.Valid() && engine.View() == ViewNext(old(engine.View()), Append(session, payload))
      ensures ok <==> NextTurn(old(engine.View()), session).Some?
      ensures var (view, meta) := (old(engine.View()), "meta:chat_turn:" + session);
        && (meta !in view ==>
              && ok
              && engine.View() == view["chat:" + session + ":" + PaddedInt(0) := payload][meta := PythonStr(0)])
        && (meta in view && PythonInt(view[meta]).Some? ==>
              var n := PythonInt(view[meta]).value + 1;
              && ok
              && engine.View() == view["chat:" + session + ":" + PaddedInt(n) := payload][meta := PythonStr(n)])
        && (meta in view && PythonInt(view[meta]).None? ==> !ok && engine.View() == view)
    {
      hide PythonStr, PythonInt, PaddedInt, MapStore.View;
      var meta := engine.Get(MetaKey(session));
      var turn := 0;
      if meta.Some? {
        var n := PythonInt(meta.value);
        if n.None? {
          return false;
        }
        turn := n.value + 1;
      }
      engine.Put(TurnKey(session, turn), payload);
      engine.Put(MetaKey(session), PythonStr(turn));
      ok := true;
    }

    /** The payloads under the session's prefix in key order, or the last of them; up to 10^8 turns
        these are the messages since the last clear in the order they were appended. */
    method GetHistory(session: string, lastN: Option<int>, ghost log: seq<string>)
      returns (messages: seq<string>, ghost full: seq<Rec>)
      requires engine.Valid()
      ensures messages == Recent(Payloads(full), lastN)
      ensures |messages| == (if lastN.None? then |full| else if lastN.value <= 0 then 0
                             else if lastN.value < |full| then lastN.value else |full|)
      ensures forall i :: 0 <= i < |messages| ==> messages[i] == full[|full| - |messages| + i].value
      ensures |log| <= TEN_TO_THE_8 && Holds(engine.View(), session, log) ==>
        && messages == Recent(log, lastN)
        && |messages| == (if lastN.None? then |log| else if lastN.value <= 0 then 0
                          else if lastN.value < |log| then lastN.value else |log|)
      ensures |log| <= TEN_TO_THE_8 && Holds(engine.View(), session, log) ==>
        forall i :: 0 <= i < |messages| <= |log| ==> messages[i] == log[|log| - |messages| + i]
      ensures Lists(full, engine.View(), WithPrefix("chat:" + session + ":"))
    {
      hide *;
      PrefixText(session);
      var items := engine.PrefixScan(Prefix(session), 0);
      full := ListedRecs(items, engine.View(), WithPrefix(Prefix(session)));
      messages := [];
      for i := 0 to |items|
        invariant |messages| == i && forall j :: 0 <= j < i ==> messages[j] == items[j].1
      {
        messages := messages + [items[i].1];
      }
      assert messages == Payloads(full);
      ListingIsLog(full, engine.View(), session, log);
      RecentMeans(messages, lastN);
      match lastN
      case None =>
      case Some(n) =>
        if n <= 0 {
          messages := [];
        } else if n < |messages| {
          messages := messages[|messages| - n..];
        }
    }

    /** Deletes every key under the session's prefix, then the counter. */
    method ClearSession(session: string)
      requires engine.Valid()
      modifies engine
      ensures engine.Valid() && engine.View() == Cleared(old(engine.View()), session)
      ensures Holds(engine.View(), session, [])
      ensures forall k ::
        Lookup(engine.View(), k) ==
        if HasPrefix(k, "chat:" + session + ":") || k == "meta:chat_turn:" + session then None
        else Lookup(old(engine.View()), k)
    {
      hide HasPrefix, Prefix, MetaKey, Live, Contents, Holds;
      ghost var view := engine.View();
      ClearHolds(view, session);
      var items := engine.PrefixScan(Prefix(session), 0);
      ghost var full: seq<Rec> :|
        Lists(full, engine.View(), WithPrefix(Prefix(session))) && items == Pairs(Taken(full, 0));
      for i := 0 to |items|
        invariant engine.Valid() && engine.View() == view - KeysBefore(full, i)
      {
        KeysBeforeNext(full, i);
        engine.Delete(items[i].0);
        assert view - KeysBefore(full, i) - {full[i].key} == view - KeysBefore(full, i + 1);
      }
      ListedKeys(full, view, Prefix(session));
      engine.Delete(MetaKey(session));
      ClearedMeans(view, session);
    }
  }

  lemma ListedRecs(items: seq<(string, string)>, view: map<string, string>, range: Range) returns (full: seq<Rec>)
    requires ListsView(items, view, range, 0)
    ensures Lists(full, view, range) && |items| == |full|
    ensures forall i :: 0 <= i < |items| ==> items[i].1 == full[i].value
  {
    hide Lists;
    full :| Lists(full, view, range) && items == Pairs(Taken(full, 0));
  }

  lemma ListingIsLog(full: seq<Rec>, view: map<string, string>, session: string, log: seq<string>)
    requires Lists(full, view, WithPrefix(Prefix(session)))
    ensures |log| <= TEN_TO_THE_8 && Holds(view, session, log) ==> Payloads(full) == log
  {
    hide Lists, Holds, TurnKey, Prefix;
    if |log| <= TEN_TO_THE_8 && Holds(view, session, log) {
      ScanIsLog(full, view, session, log);
    }
  }

  function Payloads(full: seq<Rec>): (texts: seq<string>)
    ensures |texts| == |full| && forall i :: 0 <= i < |full| ==> texts[i] == full[i].value
  {
    seq(|full|, i requires 0 <= i < |full| => full[i].value)
  }

  function KeysBefore(recs: seq<Rec>, n: nat): set<string>
    requires n <= |recs|
  {
    set i | 0 <= i < n :: recs[i].key
  }

  lemma KeysBeforeNext(recs: seq<Rec>, i: nat)
    requires i < |recs|
    ensures KeysBefore(recs, i + 1) == KeysBefore(recs, i) + {recs[i].key}
  {
  }

  /** The listed keys are exactly the keys with the prefix. */
  lemma ListedKeys(full: seq<Rec>, view: map<string, string>, prefix: string)
    requires Lists(full, view, WithPrefix(prefix))
    ensures forall k :: k in KeysBefore(full, |full|) <==> k in view && HasPrefix(k, prefix)
  {
    hide HasPrefix, Sorted;
    AllLive(full);
    forall k ensures k in KeysBefore(full, |full|) <==> k in view && HasPrefix(k, prefix) {
      assert k in Live(Contents(full)) <==> k in view && HasPrefix(k, prefix);
      if k in Contents(full) {
        var i := KeyHasIndex(full, k);
      }
      if k in KeysBefore(full, |full|) {
        var i :| 0 <= i < |full| && full[i].key == k;
        RecordBound(full, i);
      }
    }
  }

  // ---- a stop between the two puts of an append ----

  /** The message is listed, but the next append writes over it: it was never acknowledged. */
  lemma StoppedAppendIsReplaced(view: map<string, string>, session: string, log: seq<string>, lost: string,
                                next: string)
    requires Holds(view, session, log)
    ensures ViewWithin(view[TurnKey(session, |log|) := lost], WithPrefix(Prefix(session)))
            == Entries(session, log + [lost])
    ensures Holds(Appended(view[TurnKey(session, |log|) := lost], session, |log|, next), session, log + [next])
  {
    hide MetaKey, ViewWithin, Prefix, PythonStr, TurnKey;
    var key := TurnKey(session, |log|);
    TurnHasPrefix(session, |log|);
    WithinPut(view, Prefix(session), key, lost);
    assert (log + [lost])[..|log|] == log;
    AppendHolds(view, session, log, next);
    assert view[key := lost][key := next] == view[key := next];
  }

  // ---- whole runs over many sessions ----

  function ViewAfterAll(view: map<string, string>, events: seq<Event>): map<string, string> {
    if events == [] then view else ViewNext(ViewAfterAll(view, events[..|events| - 1]), events[|events| - 1])
  }

  /** The session's messages since its last clear. */
  function LogAfter(events: seq<Event>, session: string): seq<string> {
    if events == [] then []
    else
      var (log, last) := (LogAfter(events[..|events| - 1], session), events[|events| - 1]);
      if last.session != session then log else if last.Clear? then [] else log + [last.payload]
  }

  /** Every event is on the session or on one that is apart from it. */
  predicate Apart(events: seq<Event>, session: string) {
    forall i :: 0 <= i < |events| ==>
      events[i].session == session || (Separate(session, events[i].session) && Separate(events[i].session, session))
  }

  /** Ids without a colon are all apart. */
  lemma ApartWhen(events: seq<Event>, session: string)
    requires NoColon(session) && forall i :: 0 <= i < |events| ==> NoColon(events[i].session)
    ensures Apart(events, session)
  {
    hide Separate;
    forall i | 0 <= i < |events| && events[i].session != session
      ensures Separate(session, events[i].session) && Separate(events[i].session, session)
    {
      ColonFree(session, events[i].session);
      ColonFree(events[i].session, session);
    }
  }

  lemma NextTurnIs(view: map<string, string>, session: string, log: seq<string>)
    requires Holds(view, session, log)
    ensures NextTurn(view, session) == Some(|log|)
  {
    hide PythonInt, PythonStr, MetaKey, ViewWithin;
    if |log| > 0 {
      PythonIntOfStr(|log| - 1);
    }
  }

  lemma EmptyHolds(session: string)
    ensures Holds(map[], session, [])
  {
    assert ViewWithin(map[], WithPrefix(Prefix(session))) == map[];
  }

  /** After any appends and clears over sessions apart from this one, it holds exactly its own
      messages since its last clear, in the order they were appended. */
  lemma {:induction false} RunHolds(events: seq<Event>, session: string)
    requires Apart(events, session)
    ensures Holds(ViewAfterAll(map[], events), session, LogAfter(events, session))
  {
    hide Holds, Separate, Appended, Cleared, NextTurn;
    if events == [] {
      EmptyHolds(session);
    } else {
      var (before, last) := (events[..|events| - 1], events[|events| - 1]);
      var (view, log) := (ViewAfterAll(map[], before), LogAfter(before, session));
      RunHolds(before, session);
      match last
      case Append(other, payload) =>
        if other == session {
          NextTurnIs(view, session, log);
          AppendHolds(view, session, log, payload);
        } else if NextTurn(view, other).Some? {
          AppendElsewhere(view, session, log, other, NextTurn(view, other).value, payload);
        }
      case Clear(other) =>
        if other == session {
          ClearHolds(view, session);
        } else {
          ClearElsewhere(view, session, log, other);
        }
    }
  }
}
