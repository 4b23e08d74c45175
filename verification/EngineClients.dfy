/** The Python clients on the engine: their theorems hold of the engine's view over whole runs of calls
    (python/ltm/chat_history.py, python/ltm/vector_index.py). */
module EngineClients {
  import opened Keys
  import opened Records
  import opened Bytes
  import opened LogRoundTrip
  import opened LogRecovery
  import opened EngineModel
  import opened EngineCalls
  import opened EngineScan
  import opened ScanSpec
  import opened PaddedKeys
  import opened PythonText
  import Chat = ChatHistory
  import Vector = VectorStore

  predicate Puts(call: Call, key: string, value: string) {
    call.Put? && call.r.operation == PUT && call.r.key == key && call.r.value == value
  }

  predicate Deletes(call: Call, key: string) {
    call.Delete? && call.r.operation == DELETE && call.r.key == key
  }

  lemma CallsSnoc(view: map<string, string>, calls: seq<Call>, call: Call)
    ensures CallsAfter(view, calls + [call]) == CallAfter(CallsAfter(view, calls), call)
  {
    assert (calls + [call])[..|calls|] == calls;
  }

  lemma OneCall(view: map<string, string>, call: Call)
    ensures CallsAfter(view, [call]) == CallAfter(view, call)
  {
    CallsSnoc(view, [], call);
    assert [] + [call] == [call];
  }

  lemma TwoPuts(view: map<string, string>, calls: seq<Call>, k0: string, v0: string, k1: string, v1: string)
    requires |calls| == 2 && Puts(calls[0], k0, v0) && Puts(calls[1], k1, v1)
    ensures CallsAfter(view, calls) == view[k0 := v0][k1 := v1]
  {
    assert calls == [calls[0]] + [calls[1]];
    CallsSnoc(view, [calls[0]], calls[1]);
    OneCall(view, calls[0]);
  }

  /** The calls take the engine from one state to the other, without a clash, and each restart finds a
      log without hazardous keys. */
  ghost predicate Leads(e: Engine, next: Engine, states: seq<Engine>, calls: seq<Call>, buffer: nat, threshold: nat) {
    && CallsRun(states, calls, buffer, threshold) && AllSafe(states, calls, buffer, threshold)
    && CleanRestarts(states, calls) && states[0] == e && states[|calls|] == next
  }

  lemma LeadsTo(e: Engine, next: Engine, states: seq<Engine>, calls: seq<Call>, buffer: nat, threshold: nat)
    requires Inv(e) && Leads(e, next, states, calls, buffer, threshold)
    ensures Inv(next) && View(next) == CallsAfter(View(e), calls)
  {
    CallsArePlain(states, calls, buffer, threshold);
  }

  /** One call after another: each is served, is safe, and restarts on a log without hazardous keys. */
  lemma LeadsOn(e: Engine, states: seq<Engine>, calls: seq<Call>, last: Engine, call: Call, next: Engine, buffer: nat,
                threshold: nat)
    ensures Leads(e, e, [e], [], buffer, threshold)
    ensures Leads(e, last, states, calls, buffer, threshold) && Serves(last, call, buffer, threshold, next)
            && CallsSafely(last, call, buffer, threshold) && (call.Restart? ==> Clean(last.disk.log)) ==>
      Leads(e, next, states + [next], calls + [call], buffer, threshold)
  {
    hide Serves, CallsSafely, Clean;
  }

  // ---- chat ----

  /** The calls of one chat operation: none when the counter does not read as a number; the turn, then
      the counter; or a delete of every listed key, then of the counter. */
  ghost predicate ChatCalls(view: map<string, string>, event: Chat.Event, calls: seq<Call>) {
    match event
    case Append(session, payload) =>
      var turn := Chat.NextTurn(view, session);
      if turn.None? then calls == []
      else
        && |calls| == 2 && Puts(calls[0], Chat.TurnKey(session, turn.value), payload)
        && Puts(calls[1], Chat.MetaKey(session), PythonStr(turn.value))
    case Clear(session) =>
      exists full :: Lists(full, view, WithPrefix(Chat.Prefix(session))) && ClearCalls(full, session, calls)
  }

  predicate ClearCalls(full: seq<Rec>, session: string, calls: seq<Call>) {
    && |calls| == |full| + 1 && Deletes(calls[|full|], Chat.MetaKey(session))
    && forall i :: 0 <= i < |full| ==> Deletes(calls[i], full[i].key)
  }

  lemma {:induction false} DeletesListed(view: map<string, string>, full: seq<Rec>, calls: seq<Call>)
    requires |calls| == |full| && forall i :: 0 <= i < |full| ==> Deletes(calls[i], full[i].key)
    ensures CallsAfter(view, calls) == view - Chat.KeysBefore(full, |full|)
  {
    if full == [] {
      assert Chat.KeysBefore(full, 0) == {};
    } else {
      var n := |full| - 1;
      DeletesListed(view, full[..n], calls[..n]);
      assert calls == calls[..n] + [calls[n]];
      CallsSnoc(view, calls[..n], calls[n]);
      Chat.KeysBeforeNext(full, n);
      assert Chat.KeysBefore(full[..n], n) == Chat.KeysBefore(full, n);
    }
  }

  /** The calls of a chat operation do to the view what the operation does to a plain map. */
  lemma ChatView(view: map<string, string>, event: Chat.Event, calls: seq<Call>)
    requires ChatCalls(view, event, calls)
    ensures CallsAfter(view, calls) == Chat.ViewNext(view, event)
  {
    hide Lists, Chat.NextTurn, Chat.TurnKey, Chat.MetaKey, Chat.Prefix, PythonStr;
    match event
    case Append(session, payload) =>
      var turn := Chat.NextTurn(view, session);
      if turn.Some? {
        TwoPuts(view, calls, Chat.TurnKey(session, turn.value), payload, Chat.MetaKey(session), PythonStr(turn.value));
      }
    case Clear(session) =>
      var full: seq<Rec> :| Lists(full, view, WithPrefix(Chat.Prefix(session))) && ClearCalls(full, session, calls);
      ClearView(view, full, session, calls);
  }

  lemma ClearView(view: map<string, string>, full: seq<Rec>, session: string, calls: seq<Call>)
    requires Lists(full, view, WithPrefix(Chat.Prefix(session))) && ClearCalls(full, session, calls)
    ensures CallsAfter(view, calls) == Chat.Cleared(view, session)
  {
    hide Lists, Chat.MetaKey, Chat.Prefix, HasPrefix;
    var (n, keys) := (|full|, Chat.KeysBefore(full, |full|));
    DeletesListed(view, full, calls[..n]);
    assert calls == calls[..n] + [calls[n]];
    CallsSnoc(view, calls[..n], calls[n]);
    Chat.ListedKeys(full, view, Chat.Prefix(session));
    assert view - keys - {Chat.MetaKey(session)} == Chat.Cleared(view, session);
  }

  ghost predicate ChatOrRestart(view: map<string, string>, event: Option<Chat.Event>, calls: seq<Call>) {
    if event.Some? then ChatCalls(view, event.value, calls) else calls == [Close, Restart]
  }

  /** One chat operation, or none for closing and opening again, takes the engine from one state to the
      other by calls that meet no clash. */
  ghost predicate ChatServes(e: Engine, event: Option<Chat.Event>, buffer: nat, threshold: nat, next: Engine) {
    exists states, calls ::
      Leads(e, next, states, calls, buffer, threshold) && ChatOrRestart(View(e), event, calls)
  }

  lemma ChatServed(e: Engine, event: Option<Chat.Event>, buffer: nat, threshold: nat, next: Engine)
    requires Inv(e) && ChatServes(e, event, buffer, threshold, next)
    ensures Inv(next) && View(next) == if event.Some? then Chat.ViewNext(View(e), event.value) else View(e)
  {
    hide Inv, View, Leads, ChatCalls, Chat.ViewNext;
    var states, calls :|
      Leads(e, next, states, calls, buffer, threshold) && ChatOrRestart(View(e), event, calls);
    LeadsTo(e, next, states, calls, buffer, threshold);
    match event
    case Some(ev) => ChatView(View(e), ev, calls);
    case None =>
      assert [Close, Restart] == [Close] + [Restart];
      CallsSnoc(View(e), [Close], Restart);
      OneCall(View(e), Close);
  }

  ghost predicate ChatRun(states: seq<Engine>, events: seq<Option<Chat.Event>>, buffer: nat, threshold: nat) {
    |states| == |events| + 1
    && forall i :: 0 <= i < |events| ==> ChatServes(states[i], events[i], buffer, threshold, states[i + 1])
  }

  /** The calls of an append: the message under its turn's key, then the counter. */
  lemma AppendServes(e: Engine, session: string, payload: string, states: seq<Engine>, calls: seq<Call>, buffer: nat,
                     threshold: nat, next: Engine)
    requires Leads(e, next, states, calls, buffer, threshold) && |calls| == 2
    requires Chat.NextTurn(View(e), session).Some?
    requires var turn := Chat.NextTurn(View(e), session).value;
      && Puts(calls[0], "chat:" + session + ":" + PaddedInt(turn), payload)
      && Puts(calls[1], "meta:chat_turn:" + session, PythonStr(turn))
    ensures ChatServes(e, Some(Chat.Append(session, payload)), buffer, threshold, next)
  {
    hide Leads, View, PaddedInt, PythonStr, Chat.NextTurn;
    assert ChatCalls(View(e), Chat.Append(session, payload), calls);
  }

  /** Those of a clear: a delete of every listed key, then of the counter; and those of opening again. */
  lemma ClearServes(e: Engine, session: string, full: seq<Rec>, states: seq<Engine>, calls: seq<Call>, buffer: nat,
                    threshold: nat, next: Engine)
    requires Leads(e, next, states, calls, buffer, threshold)
    requires Lists(full, View(e), WithPrefix("chat:" + session + ":")) && |calls| == |full| + 1
    requires forall i :: 0 <= i < |full| ==> Deletes(calls[i], full[i].key)
    requires Deletes(calls[|full|], "meta:chat_turn:" + session)
    ensures ChatServes(e, Some(Chat.Clear(session)), buffer, threshold, next)
  {
    hide Leads, View, Lists;
    assert ClearCalls(full, session, calls);
    assert ChatCalls(View(e), Chat.Clear(session), calls);
  }

  lemma RestartServes(e: Engine, states: seq<Engine>, buffer: nat, threshold: nat, next: Engine)
    requires Leads(e, next, states, [Close, Restart], buffer, threshold)
    ensures ChatServes(e, None, buffer, threshold, next)
  {
    hide Leads, View;
    assert ChatOrRestart(View(e), None, [Close, Restart]);
  }

  /** Runs grow by what is served. */
  lemma ChatRunGrows(states: seq<Engine>, events: seq<Option<Chat.Event>>, event: Option<Chat.Event>, next: Engine,
                     buffer: nat, threshold: nat)
    ensures |states| == 1 ==> ChatRun(states, [], buffer, threshold)
    ensures ChatRun(states, events, buffer, threshold)
            && ChatServes(states[|events|], event, buffer, threshold, next) ==>
      ChatRun(states + [next], events + [event], buffer, threshold)
  {
    hide ChatServes;
  }

  function Happened(events: seq<Option<Chat.Event>>): seq<Chat.Event> {
    if events == [] then []
    else
      var last := events[|events| - 1];
      Happened(events[..|events| - 1]) + if last.Some? then [last.value] else []
  }

  lemma {:induction false} ChatViews(states: seq<Engine>, events: seq<Option<Chat.Event>>, buffer: nat, threshold: nat)
    requires ChatRun(states, events, buffer, threshold) && Inv(states[0])
    ensures Inv(states[|events|]) && View(states[|events|]) == Chat.ViewAfterAll(View(states[0]), Happened(events))
    decreases |events|
  {
    hide Inv, View, ChatServes, Chat.ViewNext;
    if events != [] {
      var (n, last) := (|events| - 1, events[|events| - 1]);
      ChatViews(states[..n + 1], events[..n], buffer, threshold);
      ChatServed(states[n], last, buffer, threshold, states[n + 1]);
      if last.Some? {
        assert Happened(events)[..|Happened(events)| - 1] == Happened(events[..n]);
      } else {
        assert Happened(events[..n]) + [] == Happened(events[..n]);
      }
    }
  }

  /** From an engine that shows nothing, after any chat operations and restarts served without a clash,
      each session that is apart from the others is held in the engine's view: its messages since its
      last clear, in order. */
  lemma ChatOnEngine(states: seq<Engine>, events: seq<Option<Chat.Event>>, buffer: nat, threshold: nat, session: string)
    requires ChatRun(states, events, buffer, threshold) && Inv(states[0]) && View(states[0]) == map[]
    requires Chat.Apart(Happened(events), session)
    ensures Inv(states[|events|])
    ensures Chat.Holds(View(states[|events|]), session, Chat.LogAfter(Happened(events), session))
  {
    hide Inv, View, ChatRun, Chat.Apart, Chat.Holds, Chat.LogAfter;
    ChatViews(states, events, buffer, threshold);
    Chat.RunHolds(Happened(events), session);
  }

  /** What the engine's prefix scan returns for a held session is its messages in order, up to 10^8. */
  lemma HistoryOnEngine(e: Engine, results: seq<(string, string)>, session: string, log: seq<string>)
    requires Inv(e) && e.counter < TWO_64 && Chat.Holds(View(e), session, log) && |log| <= TEN_TO_THE_8
    requires ScanResult(results, ScanInputs(e), WithPrefix(Chat.Prefix(session)), 0)
    requires !ClashWithin(e, WithPrefix(Chat.Prefix(session)))
    ensures |results| == |log| && forall i :: 0 <= i < |log| ==> results[i].1 == log[i]
  {
    hide Inv, View, Chat.Holds, ScanResult, ClashWithin, Lists, Chat.Prefix, Chat.TurnKey;
    var range := WithPrefix(Chat.Prefix(session));
    ResultIsListing(e, range, 0, results);
    var full: seq<Rec> :| Lists(full, View(e), range) && results == Pairs(Taken(full, 0));
    Chat.ScanIsLog(full, View(e), session, log);
  }

  // ---- vectors ----

  /** The calls of an add, of one stopped between its two puts, and of a reopen. */
  predicate VectorCalls(c: nat, event: Vector.Event, calls: seq<Call>) {
    match event
    case Add(payload) =>
      && |calls| == 2 && Puts(calls[0], Vector.VecKey(c), payload)
      && Puts(calls[1], Vector.COUNTER_KEY, PythonStr(c + 1))
    case StopInAdd(payload, _) => |calls| == 2 && Puts(calls[0], Vector.VecKey(c), payload) && calls[1] == Restart
    case Reopen(_) => calls == [Restart]
  }

  lemma VectorView(view: map<string, string>, c: nat, event: Vector.Event, calls: seq<Call>)
    requires VectorCalls(c, event, calls)
    ensures CallsAfter(view, calls) == Vector.ViewNext(view, c, event)
  {
    hide Vector.VecKey, PythonStr;
    match event
    case Add(payload) => TwoPuts(view, calls, Vector.VecKey(c), payload, Vector.COUNTER_KEY, PythonStr(c + 1));
    case StopInAdd(payload, _) =>
      assert calls == [calls[0]] + [Restart];
      CallsSnoc(view, [calls[0]], Restart);
      OneCall(view, calls[0]);
    case Reopen(_) => OneCall(view, Restart);
  }

  /** One event takes the engine from one state to the other by calls that meet no clash; payloads carry
      their id, and a reopen sets the counter from what the engine shows. */
  ghost predicate VectorServes(e: Engine, idOf: Vector.IdOf, c: nat, event: Vector.Event, buffer: nat, threshold: nat,
                               next: Engine) {
    && (!event.Reopen? ==> idOf(event.payload) == Some(c))
    && (!event.Add? ==> Vector.RehydratesTo(View(next), idOf, event.reopened))
    && exists states, calls :: Leads(e, next, states, calls, buffer, threshold) && VectorCalls(c, event, calls)
  }

  /** The engine's states and the store's counters before, between and after the events. */
  ghost predicate VectorRun(states: seq<Engine>, counters: seq<nat>, idOf: Vector.IdOf, events: seq<Vector.Event>,
                            buffer: nat, threshold: nat)
  {
    && |states| == |counters| == |events| + 1
    && forall i :: 0 <= i < |events| ==>
        && VectorServes(states[i], idOf, counters[i], events[i], buffer, threshold, states[i + 1])
        && counters[i + 1] == Vector.CounterNext(counters[i], events[i])
  }

  /** The calls of an add: the payload under its id's key, then the counter. */
  lemma AddServes(e: Engine, idOf: Vector.IdOf, c: nat, payload: string, states: seq<Engine>, calls: seq<Call>,
                  buffer: nat, threshold: nat, next: Engine)
    requires Leads(e, next, states, calls, buffer, threshold) && |calls| == 2 && idOf(payload) == Some(c)
    requires Puts(calls[0], "vec:" + Padded(c), payload)
    requires Puts(calls[1], "meta:vector_id_counter", PythonStr(c + 1))
    ensures VectorServes(e, idOf, c, Vector.Add(payload), buffer, threshold, next)
  {
    hide Leads, Padded, PythonStr;
    assert VectorCalls(c, Vector.Add(payload), calls);
  }

  /** Those of an add stopped behind its first put, and of opening again; the counter is then read from what
      the engine shows. */
  lemma StopServes(e: Engine, idOf: Vector.IdOf, c: nat, payload: string, put: Call, states: seq<Engine>,
                   reopened: nat, buffer: nat, threshold: nat, next: Engine)
    requires Vector.RehydratesTo(View(next), idOf, reopened)
    ensures Leads(e, next, states, [put, Restart], buffer, threshold) && idOf(payload) == Some(c)
            && Puts(put, "vec:" + Padded(c), payload) ==>
      VectorServes(e, idOf, c, Vector.StopInAdd(payload, reopened), buffer, threshold, next)
    ensures Leads(e, next, states, [Restart], buffer, threshold) ==>
      VectorServes(e, idOf, c, Vector.Reopen(reopened), buffer, threshold, next)
  {
    hide Leads, Padded, PythonStr, View, Vector.RehydratesTo;
    if idOf(payload) == Some(c) && Puts(put, "vec:" + Padded(c), payload) {
      assert VectorCalls(c, Vector.StopInAdd(payload, reopened), [put, Restart]);
    }
    assert VectorCalls(c, Vector.Reopen(reopened), [Restart]);
  }

  /** Runs grow by what is served; an add raises the counter by one, a reopen sets it. */
  lemma VectorRunGrows(states: seq<Engine>, counters: seq<nat>, idOf: Vector.IdOf, events: seq<Vector.Event>,
                       event: Vector.Event, next: Engine, buffer: nat, threshold: nat)
    ensures |states| == |counters| == 1 ==> VectorRun(states, counters, idOf, [], buffer, threshold)
    ensures VectorRun(states, counters, idOf, events, buffer, threshold)
            && VectorServes(states[|events|], idOf, counters[|events|], event, buffer, threshold, next) ==>
      var c := if event.Add? then counters[|events|] + 1 else event.reopened;
      VectorRun(states + [next], counters + [c], idOf, events + [event], buffer, threshold)
  {
    hide VectorServes;
  }

  lemma VectorServed(e: Engine, idOf: Vector.IdOf, c: nat, event: Vector.Event, buffer: nat, threshold: nat,
                     next: Engine)
    requires VectorServes(e, idOf, c, event, buffer, threshold, next) && Inv(e)
    ensures Inv(next) && View(next) == Vector.ViewNext(View(e), c, event)
    ensures Vector.Happens(View(e), idOf, c, event)
  {
    hide Inv, View, Leads, VectorCalls, Vector.RehydratesTo, Vector.ViewNext;
    var states, calls :| Leads(e, next, states, calls, buffer, threshold) && VectorCalls(c, event, calls);
    LeadsTo(e, next, states, calls, buffer, threshold);
    VectorView(View(e), c, event, calls);
  }

  function Views(states: seq<Engine>): (views: seq<map<string, string>>)
    ensures |views| == |states| && forall i :: 0 <= i < |states| ==> views[i] == View(states[i])
  {
    seq(|states|, i requires 0 <= i < |states| => View(states[i]))
  }

  lemma {:induction false} VectorInv(states: seq<Engine>, counters: seq<nat>, idOf: Vector.IdOf,
                                     events: seq<Vector.Event>, buffer: nat, threshold: nat, n: nat)
    requires VectorRun(states, counters, idOf, events, buffer, threshold) && Inv(states[0]) && n <= |events|
    ensures Inv(states[n])
  {
    hide Inv, VectorServes, Vector.CounterNext;
    if n > 0 {
      VectorInv(states, counters, idOf, events, buffer, threshold, n - 1);
      VectorServed(states[n - 1], idOf, counters[n - 1], events[n - 1], buffer, threshold, states[n]);
    }
  }

  lemma VectorViews(states: seq<Engine>, counters: seq<nat>, idOf: Vector.IdOf, events: seq<Vector.Event>,
                    buffer: nat, threshold: nat)
    requires VectorRun(states, counters, idOf, events, buffer, threshold) && Inv(states[0])
    ensures Vector.IsRun(Views(states), counters, idOf, events)
  {
    hide Inv, View, VectorServes, Vector.ViewNext, Vector.CounterNext, Vector.Happens;
    forall i | 0 <= i < |events|
      ensures Vector.Happens(View(states[i]), idOf, counters[i], events[i])
      ensures View(states[i + 1]) == Vector.ViewNext(View(states[i]), counters[i], events[i])
    {
      VectorInv(states, counters, idOf, events, buffer, threshold, i);
      VectorServed(states[i], idOf, counters[i], events[i], buffer, threshold, states[i + 1]);
    }
  }

  /** On the engine, from any store the counter was opened on, no id is allocated twice over any adds,
      reopens, and stops between the two puts of an add. */
  lemma VectorIdsOnEngine(states: seq<Engine>, counters: seq<nat>, idOf: Vector.IdOf, events: seq<Vector.Event>,
                          buffer: nat, threshold: nat)
    requires VectorRun(states, counters, idOf, events, buffer, threshold) && Inv(states[0])
    requires Vector.RehydratesTo(View(states[0]), idOf, counters[0])
    ensures Inv(states[|events|])
    ensures forall i, j :: 0 <= i < j <= |events| && !events[i].Reopen? ==> counters[i] < counters[j]
  {
    hide Inv, View, VectorServes, Vector.RehydratesTo, Vector.IsRun, Vector.CounterNext;
    VectorInv(states, counters, idOf, events, buffer, threshold, |events|);
    VectorViews(states, counters, idOf, events, buffer, threshold);
    Vector.OpenedIdsNeverRepeat(Views(states), counters, idOf, events);
  }

  /** And after any of these events the engine shows every payload given so far under a key of its own,
      and whatever else was stored under the prefix as it was. */
  lemma VectorPayloadsOnEngine(states: seq<Engine>, counters: seq<nat>, idOf: Vector.IdOf, events: seq<Vector.Event>,
                               buffer: nat, threshold: nat, n: nat)
    requires VectorRun(states, counters, idOf, events, buffer, threshold) && Inv(states[0]) && n <= |events|
    requires Vector.RehydratesTo(View(states[0]), idOf, counters[0])
    ensures forall i :: 0 <= i < n && !events[i].Reopen? ==>
      Lookup(View(states[n]), "vec:" + Padded(counters[i])) == Some(events[i].payload)
    ensures forall i, j :: 0 <= i < j < n && !events[i].Reopen? && !events[j].Reopen? ==>
      "vec:" + Padded(counters[i]) != "vec:" + Padded(counters[j])
    ensures forall k ::
      (&& HasPrefix(k, "vec:")
       && forall i :: 0 <= i < n && !events[i].Reopen? ==> k != "vec:" + Padded(counters[i]))
      ==> Lookup(View(states[n]), k) == Lookup(View(states[0]), k)
  {
    hide Inv, View, VectorServes, Vector.RehydratesTo, Vector.IsRun, Vector.CounterNext, Padded, HasPrefix;
    VectorViews(states, counters, idOf, events, buffer, threshold);
    Vector.PayloadsStay(Views(states), counters, idOf, events, n);
  }
}
