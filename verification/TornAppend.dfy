/** Appending behind a torn last line (src/core/wal.cpp:101-117): the log is opened for appending as it
    is, so the next record joins the fragment. What replay then reads, wherever the line was torn. */
module TornAppend {
  import opened Records
  import opened Decimal
  import opened JsonText
  import opened LogLine
  import opened LogRoundTrip
  import opened LogTheorems
  import opened LogRecovery
  import opened JoinedFields

  // ---- where the texts of a line end ----

  function OperationEnd(r: LogEntry): nat { |ToKey(r.operation)| }
  function KeyStart(r: LogEntry): nat { |ToKeyText(r.operation)| }
  function KeyEnd(r: LogEntry): nat { |ToValue(r.operation, r.key)| }
  function ValueStart(r: LogEntry): nat { |ToValueText(r.operation, r.key)| }
  function ValueEnd(r: LogEntry): nat { |ToTimestamp(r.operation, r.key, r.value)| }
  function BodyEnd(r: LogEntry): nat { |LineBody(r.operation, r.key, r.value)| }

  lemma Positions(r: LogEntry)
    requires IsRecord(r)
    ensures OperationEnd(r) == 14 + |r.operation| && KeyStart(r) == OperationEnd(r) + 9
    ensures KeyEnd(r) == KeyStart(r) + |Escape(r.key)| && ValueStart(r) == KeyEnd(r) + 11
    ensures ValueEnd(r) == ValueStart(r) + |Escape(r.value)| && BodyEnd(r) == ValueEnd(r) + 14 < |LineOf(r)|
  {
    hide Escape, Digits;
    OperationEscapes(r.operation);
  }

  // ---- what the joined line reads as ----

  /** A text torn in the middle ends with the next line's opening brace. A tear inside an escape
      sequence leaves what the reader makes of its beginning. */
  function TornText(text: string, j: nat): string
    requires j <= |Escape(text)|
  {
    Unescape(Escape(text)[..j] + "{")
  }

  function JoinedOperation(r: LogEntry, n: nat, next: LogEntry): string {
    if n <= 12 then next.operation
    else if n == 13 then "operation"
    else if n <= 14 + |r.operation| then r.operation[..n - 14] + "{"
    else r.operation
  }

  function JoinedKey(r: LogEntry, n: nat, next: LogEntry): string
    requires IsRecord(r)
  {
    Positions(r);
    if n <= OperationEnd(r) + 6 then next.key
    else if n == OperationEnd(r) + 7 then next.operation
    else if n == OperationEnd(r) + 8 then "operation"
    else if n <= KeyEnd(r) then TornText(r.key, n - KeyStart(r))
    else r.key
  }

  function JoinedValue(r: LogEntry, n: nat, next: LogEntry): string
    requires IsRecord(r)
  {
    Positions(r);
    if n <= KeyEnd(r) || (n <= KeyEnd(r) + 8 && !Completes(r.key, "value")) then next.value
    else if n <= KeyEnd(r) + 9 then next.operation
    else if n == KeyEnd(r) + 10 then "operation"
    else if n <= ValueEnd(r) then TornText(r.value, n - ValueStart(r))
    else r.value
  }

  function JoinedTimestamp(r: LogEntry, n: nat, next: LogEntry): Option<int>
    requires IsRecord(r)
  {
    if n > KeyEnd(r) && Hazardous(r.key) then None
    else if n <= ValueEnd(r) || (n <= ValueEnd(r) + 12 && !Hazardous(r.value)) then
      if Hazardous(next.key) then None else Some(next.timestamp)
    else if n <= BodyEnd(r) then None
    else if n - BodyEnd(r) < |Digits(r.timestamp)| then Some(Value(Digits(r.timestamp)[..n - BodyEnd(r)]))
    else Some(r.timestamp)
  }

  /** The record read from the first `n` characters of a line with the next line behind them, or none
      when replay stops there. */
  function JoinedEntry(r: LogEntry, n: nat, next: LogEntry): Option<LogEntry>
    requires IsRecord(r)
  {
    var timestamp := JoinedTimestamp(r, n, next);
    if timestamp.None? then None
    else
      Some(LogEntry(JoinedOperation(r, n, next), JoinedKey(r, n, next), JoinedValue(r, n, next), timestamp.value))
  }

  // ---- the fields, one by one ----

  lemma LineForms(r: LogEntry)
    requires IsRecord(r)
    ensures BEFORE_OPERATION <= LineOf(r) && BEFORE_OPERATION + (r.operation + "\"") <= LineOf(r)
    ensures ToKey(r.operation) + "\",\"" + "key" + "\":" + ("\"" + Escape(r.key) + "\"") <= LineOf(r)
    ensures ToValue(r.operation, r.key) + "\",\"" + "value" + "\":" + ("\"" + Escape(r.value) + "\"") <= LineOf(r)
    ensures LineOf(r) == ToTimestamp(r.operation, r.key, r.value) + "\",\"" + "timestamp" + "\":"
                         + (Digits(r.timestamp) + "}")
    ensures ToValue(r.operation, r.key) + BEFORE_VALUE <= LineOf(r)
  {
    hide Escape, Digits;
    OperationEscapes(r.operation);
    var (op, k, v, d) := (r.operation, Escape(r.key), Escape(r.value), Digits(r.timestamp));
    FirstForms(op, BEFORE_KEY, k, BEFORE_VALUE, v, BEFORE_TIMESTAMP, d);
    KeyForm(BEFORE_OPERATION + op, k, BEFORE_VALUE, v, BEFORE_TIMESTAMP, d);
    ValueForm(BEFORE_OPERATION + op + BEFORE_KEY + k, v, BEFORE_TIMESTAMP, d);
    TimestampForm(BEFORE_OPERATION + op + BEFORE_KEY + k + BEFORE_VALUE + v, d);
  }

  lemma FirstForms(op: string, bk: string, k: string, bv: string, v: string, bt: string, d: string)
    requires bk != "" && bk[0] == '"'
    ensures var line := BEFORE_OPERATION + op + bk + k + bv + v + bt + d + "}";
      BEFORE_OPERATION <= line && BEFORE_OPERATION + (op + "\"") <= line
  {
    var line := BEFORE_OPERATION + op + bk + k + bv + v + bt + d + "}";
    assert line == BEFORE_OPERATION + (op + bk + k + bv + v + bt + d + "}");
    assert bk == "\"" + bk[1..];
    assert line == (BEFORE_OPERATION + (op + "\"")) + (bk[1..] + k + bv + v + bt + d + "}");
  }

  lemma KeyForm(s: string, k: string, bv: string, v: string, bt: string, d: string)
    requires bv != "" && bv[0] == '"'
    ensures s + "\",\"" + "key" + "\":" + ("\"" + k + "\"") <= s + BEFORE_KEY + k + bv + v + bt + d + "}"
  {
    assert bv == "\"" + bv[1..] && BEFORE_KEY == "\",\"" + "key" + "\":" + "\"";
    var lead := s + "\",\"" + "key" + "\":" + ("\"" + k + "\"");
    assert s + BEFORE_KEY + k + bv + v + bt + d + "}" == lead + (bv[1..] + v + bt + d + "}");
  }

  lemma ValueForm(s: string, v: string, bt: string, d: string)
    requires bt != "" && bt[0] == '"'
    ensures s + "\",\"" + "value" + "\":" + ("\"" + v + "\"") <= s + BEFORE_VALUE + v + bt + d + "}"
    ensures s + BEFORE_VALUE <= s + BEFORE_VALUE + v + bt + d + "}"
  {
    assert bt == "\"" + bt[1..] && BEFORE_VALUE == "\",\"" + "value" + "\":" + "\"";
    var lead := s + "\",\"" + "value" + "\":" + ("\"" + v + "\"");
    assert s + BEFORE_VALUE + v + bt + d + "}" == lead + (bt[1..] + d + "}");
    assert s + BEFORE_VALUE + v + bt + d + "}" == (s + BEFORE_VALUE) + (v + bt + d + "}");
  }

  lemma TimestampForm(s: string, d: string)
    ensures s + BEFORE_TIMESTAMP + d + "}" == s + "\",\"" + "timestamp" + "\":" + (d + "}")
  {
    assert BEFORE_TIMESTAMP == "\",\"" + "timestamp" + "\":";
  }

  lemma OperationRead(r: LogEntry, n: nat, next: LogEntry)
    requires IsRecord(r) && IsRecord(next) && n <= |LineOf(r)|
    ensures var f := StringField(LineOf(r)[..n] + LineOf(next), "operation");
      f.Some? && Unescape(f.value) == JoinedOperation(r, n, next)
  {
    hide StringField, LineOf, Unescape, Escaped, ColonOf, Free;
    var (line, op) := (LineOf(r), r.operation);
    LineForms(r);
    PlainOperation(next);
    PlainOperation(r);
    if n <= 13 {
      CutWithin(BEFORE_OPERATION, line, n);
      EarlyTear(n, next);
      PlainIsEscaped("operation");
    } else if n <= 14 + |op| {
      CutInText(BEFORE_OPERATION[..13], op, line, n) by { FirstText(op, line); }
      var e := op[..n - 14] + "{";
      assert BEFORE_OPERATION[..13] + "\"" == BEFORE_OPERATION;
      CutQuote(BEFORE_OPERATION, op, n - 14, next);
      PlainIsEscaped(e);
      OperationText(e, LineOf(next)[2..]);
    } else {
      var x := BEFORE_OPERATION + (op + "\"");
      CutBehind(x, line, n);
      var rest := line[|x|..n] + LineOf(next);
      assert line[..n] + LineOf(next) == BEFORE_OPERATION + op + "\"" + rest;
      OperationText(op, rest);
    }
  }

  lemma FirstText(op: string, line: string)
    requires BEFORE_OPERATION + (op + "\"") <= line
    ensures BEFORE_OPERATION[..13] + ("\"" + op + "\"") <= line
  {
    assert BEFORE_OPERATION[..13] + ("\"" + op + "\"") == BEFORE_OPERATION + (op + "\"");
  }

  lemma PlainOperation(r: LogEntry)
    requires IsRecord(r)
    ensures Escaped(r.operation) && Unescape(r.operation) == r.operation
    ensures forall i :: 0 <= i < |r.operation| ==>
      ' ' <= r.operation[i] && r.operation[i] != '"' && r.operation[i] != '\\'
  {
    hide Escaped, Unescape;
    PlainIsEscaped(r.operation);
  }

  /** Torn before the operation's opening quote. */
  lemma EarlyTear(n: nat, next: LogEntry)
    requires IsRecord(next) && n <= 13
    ensures StringField(BEFORE_OPERATION[..n] + LineOf(next), "operation")
            == Some(if n <= 12 then next.operation else "operation")
  {
    hide StringField, LineOf, ColonOf, Free;
    var (torn, name) := (BEFORE_OPERATION[..n], "operation");
    var line := torn + LineOf(next);
    StartChars(torn, next);
    if n <= 12 {
      OccursFrom(line, name, n + 1);
      assert line == "" + torn + LineOf(next) && "" + torn == torn;
      assert Free("", name) by { NothingFree(name); }
      GapColon("", torn, name, n + 1, next);
      GapFields(torn, name, next);
    } else {
      FirstColon(torn, next);
      ColonFields(torn, name, next);
    }
  }

  lemma NothingFree(name: string)
    ensures Free("", name)
  {
  }

  lemma FirstColon(torn: string, next: LogEntry)
    requires IsRecord(next) && torn == BEFORE_OPERATION[..13]
    ensures torn[12] == ':' && ColonOf(torn + LineOf(next), "operation") == 12
  {
    hide LineOf, FindFrom;
    var (line, name) := (torn + LineOf(next), "operation");
    assert torn == "{" + Quoted(name) + ":";
    assert line == "{" + Quoted(name) + (":" + LineOf(next));
    assert line[1..12] == Quoted(name);
    assert line[0] == torn[0] && line[12] == torn[12];
    FindFromOne(line, Quoted(name));
    FindCharAt(line, ':', 12, 12);
  }

  lemma KeyRead(r: LogEntry, n: nat, next: LogEntry)
    requires IsRecord(r) && IsRecord(next) && n <= |LineOf(r)|
    ensures var f := StringField(LineOf(r)[..n] + LineOf(next), "key");
      f.Some? && Unescape(f.value) == JoinedKey(r, n, next)
  {
    hide StringField, LineOf, Unescape, Escaped, Free, Escape, NameTorn, IsRecord;
    var (before, name) := (ToKey(r.operation), "key");
    Positions(r);
    LineForms(r);
    RecordParts(r);
    LiteralsFree(r.operation);
    EscapeIsEscaped(r.key);
    if Free(LineOf(r)[..n], name) {
      NextKey(LineOf(r)[..n], next);
    }
    StringRead(before, name, Escape(r.key), LineOf(r), n, next, Escape(next.key));
    KeyTorn(r, n);
    EscapeRoundTrip(r.key);
    EscapeRoundTrip(next.key);
    PlainOperation(next);
    PlainIsEscaped("operation");
  }

  lemma KeyTorn(r: LogEntry, n: nat)
    requires IsRecord(r)
    ensures NameTorn(ToKey(r.operation), "key", n) <==> n <= OperationEnd(r) + 6
  {
    var s := ToKey(r.operation);
    assert (s + "\"")[|s| - 1] != 'y';
    if Completed(s, "key") {
      OccursChars(s + "\"", "key", |s| - 4);
    }
  }

  lemma ValueRead(r: LogEntry, n: nat, next: LogEntry)
    requires IsRecord(r) && IsRecord(next) && n <= |LineOf(r)|
    ensures var f := StringField(LineOf(r)[..n] + LineOf(next), "value");
      f.Some? && Unescape(f.value) == JoinedValue(r, n, next)
  {
    hide StringField, LineOf, Unescape, Escaped, Free, Escape, NameTorn, IsRecord, Completes;
    var (before, name) := (ToValue(r.operation, r.key), "value");
    Positions(r);
    LineForms(r);
    RecordParts(r);
    LiteralsFree(r.operation);
    FreeAfterEscaped(ToKeyText(r.operation), r.key, name);
    EscapeIsEscaped(r.value);
    if Free(LineOf(r)[..n], name) {
      NextValue(LineOf(r)[..n], next);
    }
    StringRead(before, name, Escape(r.value), LineOf(r), n, next, Escape(next.value));
    ValueTorn(r, n);
    EscapeRoundTrip(r.value);
    EscapeRoundTrip(next.value);
    PlainOperation(next);
    PlainIsEscaped("operation");
  }

  lemma ValueTorn(r: LogEntry, n: nat)
    requires IsRecord(r)
    ensures NameTorn(ToValue(r.operation, r.key), "value", n)
            <==> n <= KeyEnd(r) || (n <= KeyEnd(r) + 8 && !Completes(r.key, "value"))
  {
    hide Escape, Completes, OccursAt;
    ToValueQuoted(r.operation, r.key);
    CompletesIff(ToKey(r.operation) + "\",\"key\":", r.key, "value");
  }

  lemma TimestampRead(r: LogEntry, n: nat, next: LogEntry)
    requires IsRecord(r) && IsRecord(next) && n <= |LineOf(r)|
    ensures IntegerField(LineOf(r)[..n] + LineOf(next), "timestamp") == JoinedTimestamp(r, n, next)
  {
    hide IntegerField, LineOf, Free, Escape, NameTorn, IsRecord, Hazardous, ToTimestamp, ToValue, Digits, Value;
    var name := "timestamp";
    Positions(r);
    LineForms(r);
    RecordParts(r);
    if Free(LineOf(r)[..n], name) {
      NextTimestamp(LineOf(r)[..n], next);
    }
    if !Hazardous(r.key) {
      FreeToTimestamp(r.operation, r.key, r.value);
      DigitsValue(r.timestamp);
      var nextTimestamp := if Hazardous(next.key) then None else Some(next.timestamp);
      var before := ToTimestamp(r.operation, r.key, r.value);
      IntegerRead(before, name, Digits(r.timestamp), LineOf(r), n, next, nextTimestamp);
      TimestampTorn(r, n);
    } else if n <= KeyEnd(r) {
      FreeToValue(r.operation, r.key);
      CutWithin(ToValue(r.operation, r.key) + BEFORE_VALUE, LineOf(r), n);
      FreeCut(ToValue(r.operation, r.key), name, n);
      assert LineOf(r)[..n] == ToValue(r.operation, r.key)[..n];
    } else {
      HazardRead(r, n, next);
    }
  }

  lemma RecordParts(r: LogEntry)
    requires IsRecord(r)
    ensures IsOperation(r.operation) && 0 <= r.timestamp <= INT64_MAX
  {
  }

  lemma TimestampTorn(r: LogEntry, n: nat)
    requires IsRecord(r)
    ensures NameTorn(ToTimestamp(r.operation, r.key, r.value), "timestamp", n)
            <==> n <= ValueEnd(r) || (n <= ValueEnd(r) + 12 && !Hazardous(r.value))
  {
    hide Escape, Completes, OccursAt, Hazardous;
    var before := ToValue(r.operation, r.key) + "\",\"value\":";
    assert BEFORE_VALUE == "\",\"value\":" + "\"";
    assert ToTimestamp(r.operation, r.key, r.value) == before + "\"" + Escape(r.value);
    HazardCompletes(r.value);
    CompletesIff(before, r.value, "timestamp");
  }

  /** Behind a hazardous key the timestamp's name is complete, and no digit follows the next colon. */
  lemma HazardRead(r: LogEntry, n: nat, next: LogEntry)
    requires IsRecord(r) && IsRecord(next) && Hazardous(r.key) && KeyEnd(r) < n <= |LineOf(r)|
    ensures IntegerField(LineOf(r)[..n] + LineOf(next), "timestamp") == None
  {
    hide IntegerField, LineOf, Free, Escape, Hazardous, ToValue, OccursAt, ColonOf;
    LineForms(r);
    FreeToValue(r.operation, r.key);
    HazardOccurs(r.operation, r.key);
    HazardCases(ToValue(r.operation, r.key), LineOf(r), "timestamp", n, next);
  }

  lemma HazardCases(s: string, line: string, name: string, n: nat, next: LogEntry)
    requires IsRecord(next) && Free(s, name) && name == "timestamp" && |s| < n <= |line|
    requires OccursAt(s + "\"", Quoted(name), |s| - 10) && s + BEFORE_VALUE <= line
    ensures IntegerField(line[..n] + LineOf(next), name) == None
  {
    hide IntegerField, LineOf, Free, OccursAt;
    var full := s + BEFORE_VALUE;
    if n <= |s| + 10 {
      var gap := full[|s|..n];
      CutWithin(full, line, n);
      assert line[..n] == s + gap;
      assert forall i :: 0 <= i < |gap| ==> gap[i] == BEFORE_VALUE[i];
      HazardGap(s, gap, name, next);
    } else {
      CutBehind(full, line, n);
      HazardTail(s, line[|full|..n] + LineOf(next), name);
      assert line[..n] + LineOf(next) == full + (line[|full|..n] + LineOf(next));
    }
  }

  lemma HazardTail(s: string, after: string, name: string)
    requires Free(s, name) && name == "timestamp" && OccursAt(s + "\"", Quoted(name), |s| - 10)
    ensures IntegerField(s + BEFORE_VALUE + after, name) == None
  {
    hide IntegerField, Free, OccursAt;
    var tail := BEFORE_VALUE + after;
    assert s + BEFORE_VALUE + after == s + tail && (s + tail)[..|s + tail|] == s + tail;
    assert tail[..11] == BEFORE_VALUE;
    CutTimestamp(s, tail, name, |s + tail|);
  }

  lemma HazardGap(s: string, gap: string, name: string, next: LogEntry)
    requires IsRecord(next) && Free(s, name) && name == "timestamp" && 0 < |gap| <= 10
    requires OccursAt(s + "\"", Quoted(name), |s| - 10)
    requires forall i :: 0 <= i < |gap| ==> gap[i] == BEFORE_VALUE[i]
    ensures IntegerField(s + gap + LineOf(next), name) == None
  {
    hide IntegerField, LineOf, Free, ColonOf, OccursAt;
    assert s + gap + LineOf(next) == (s + "\"") + (gap[1..] + LineOf(next));
    OccursInLonger(s + "\"", gap[1..] + LineOf(next), Quoted(name), |s| - 10);
    if |gap| <= 9 {
      GapColon(s, gap, name, |s| - 10, next);
      GapFields(s + gap, name, next);
    } else {
      HazardColon(s, gap, name, next);
      NoDigits(s + gap + LineOf(next), name);
    }
  }

  lemma HazardColon(s: string, gap: string, name: string, next: LogEntry)
    requires IsRecord(next) && Free(s, name) && name == "timestamp" && |gap| == 10
    requires OccursAt(s + gap + LineOf(next), Quoted(name), |s| - 10)
    requires forall i :: 0 <= i < |gap| ==> gap[i] == BEFORE_VALUE[i]
    ensures var line := s + gap + LineOf(next);
      ColonOf(line, name) == |s| + 9 && |line| > |s| + 10 && line[|s| + 10] == '{'
  {
    hide FindFrom, LineOf, Free, OccursAt;
    var line := s + gap + LineOf(next);
    StartChars(s + gap, next);
    OccursChars(line, name, |s| - 10);
    FindIsFirst(line, Quoted(name), 0, |s| - 10);
    var pos := FindFrom(line, Quoted(name), 0);
    assert line == s + (gap + LineOf(next));
    FreePrefix(s, gap + LineOf(next), name, pos);
    assert forall i :: 0 <= i < 10 ==> line[|s| + i] == BEFORE_VALUE[i];
    FindCharAt(line, ':', pos + 11, |s| + 9);
  }

  /** What a fragment with the next line behind it reads as, for every record and every tear. */
  lemma JoinedParses(r: LogEntry, n: nat, next: LogEntry)
    requires IsRecord(r) && IsRecord(next) && n <= |LineOf(r)|
    ensures Parsed(LineOf(r)[..n] + LineOf(next)) == JoinedEntry(r, n, next)
  {
    hide StringField, IntegerField, Unescape, LineOf, IsRecord, JoinedOperation, JoinedKey, JoinedValue,
         JoinedTimestamp;
    OperationRead(r, n, next);
    KeyRead(r, n, next);
    ValueRead(r, n, next);
    TimestampRead(r, n, next);
  }

  // ---- when the next record survives, and when replay goes on ----

  /** Replay reads the joined line and goes on behind it. Torn up to the end of its key, the line must
      have a harmless key behind it; torn later, its own key must be harmless, and before the first
      timestamp digit the next key too, and the tear must not reach the timestamp's closing quote, nor
      its opening one behind a value that ends like a hazardous key. */
  predicate ReadsOn(r: LogEntry, n: nat, next: LogEntry)
    requires IsRecord(r)
  {
    if n <= KeyEnd(r) then !Hazardous(next.key)
    else
      && !Hazardous(r.key)
      && (n > BodyEnd(r) ||
          (!Hazardous(next.key) && (n <= ValueEnd(r) || (n <= ValueEnd(r) + 12 && !Hazardous(r.value)))))
  }

  /** Appending behind a torn line, wherever it was torn: the two records become one, or replay stops
      there for good, and then nothing appended later is read either. */
  lemma JoinedAppend(rs: seq<LogEntry>, r: LogEntry, n: nat, next: LogEntry, more: string)
    requires AreRecords(rs) && IsRecord(r) && IsRecord(next) && n <= |LineOf(r)|
    ensures JoinedEntry(r, n, next).Some? <==> ReadsOn(r, n, next)
    ensures Recovered(LogText(rs) + (LineOf(r)[..n] + LineOf(next) + "\n" + more)) ==
      if !Clean(rs) then Kept(rs)
      else if ReadsOn(r, n, next) then rs + ([JoinedEntry(r, n, next).value] + Recovered(more))
      else rs
  {
    hide Hazardous, Recovered, LogText, Parsed, LineOf, JoinedOperation, JoinedKey, JoinedValue, LineBody, ToKey,
         ToTimestamp, ToValue, IsRecord;
    var line := LineOf(r)[..n] + LineOf(next);
    JoinedParses(r, n, next);
    Positions(r);
    LineOneLine(r);
    LineOneLine(next);
    RecoverThen(rs, line + "\n" + more);
    RecoverLine(line, more);
    assert rs + [] == rs;
  }

  /** The records do the same to every map. */
  predicate SameEffect(a: LogEntry, b: LogEntry) {
    a.operation == b.operation && a.key == b.key && (a.operation == PUT ==> a.value == b.value)
  }

  /** The torn line stops short of the operation's closing colon, or what is read of it agrees with the
      next record. */
  predicate NextSurvives(r: LogEntry, n: nat, next: LogEntry)
    requires IsRecord(r)
  {
    && ReadsOn(r, n, next)
    && (n <= 12 ||
        (&& OperationEnd(r) < n && r.operation == next.operation
         && (n <= OperationEnd(r) + 6 || JoinedKey(r, n, next) == next.key)
         && (n <= KeyEnd(r) || next.operation == DELETE || JoinedValue(r, n, next) == next.value)))
  }

  /** The record appended behind a torn line does to every map what it was written for exactly under
      this condition. */
  lemma NextSurvivesIff(r: LogEntry, n: nat, next: LogEntry)
    requires IsRecord(r) && IsRecord(next) && n <= |LineOf(r)|
    ensures var read := Parsed(LineOf(r)[..n] + LineOf(next));
      (read.Some? && SameEffect(read.value, next)) <==> NextSurvives(r, n, next)
  {
    hide Hazardous, Parsed, LineOf, LineBody, ToKey, ToTimestamp, ToValue, ToValueText, TornText, Completes, ToKeyText;
    JoinedParses(r, n, next);
    Positions(r);
    NoBraceOperation(r, n, next);
  }

  lemma NoBraceOperation(r: LogEntry, n: nat, next: LogEntry)
    requires IsRecord(r) && IsRecord(next)
    ensures 12 < n <= 14 + |r.operation| ==> JoinedOperation(r, n, next) != next.operation
  {
    var o := JoinedOperation(r, n, next);
    if n > 13 && n <= 14 + |r.operation| {
      assert o[|o| - 1] == '{';
    }
  }

  // ---- tears between characters, and the two worst cases ----

  lemma {:induction false} EscapePrefix(s: string, m: nat)
    requires m <= |s|
    ensures |Escape(s[..m])| <= |Escape(s)| && Escape(s)[..|Escape(s[..m])|] == Escape(s[..m])
    decreases |s| - m
  {
    hide EscapeChar;
    if m == |s| {
      assert s[..m] == s;
    } else {
      EscapePrefix(s, m + 1);
      assert s[..m + 1][..m] == s[..m];
    }
  }

  /** A text torn between two characters reads as what was written of it and a brace. */
  lemma TornBetween(text: string, m: nat)
    requires m <= |text|
    ensures |Escape(text[..m])| <= |Escape(text)| && TornText(text, |Escape(text[..m])|) == text[..m] + "{"
  {
    hide EscapeChar, Unescape;
    EscapePrefix(text, m);
    assert (text[..m] + "{")[..m] == text[..m];
    PlainChar('{');
    assert Escape(text[..m] + "{") == Escape(text[..m]) + "{";
    EscapeRoundTrip(text[..m] + "{");
  }

  /** A record torn in its value takes the next one with it: both are read as one record, with the next
      one's timestamp. */
  lemma TornInValue(r: LogEntry, m: nat, next: LogEntry)
    requires IsRecord(r) && IsRecord(next) && !Hazardous(r.key) && !Hazardous(next.key) && m <= |r.value|
    ensures var n := ValueStart(r) + |Escape(r.value[..m])|;
      && n <= |LineOf(r)|
      && Parsed(LineOf(r)[..n] + LineOf(next))
         == Some(LogEntry(r.operation, r.key, r.value[..m] + "{", next.timestamp))
  {
    hide Hazardous, Parsed, LineOf, LineBody, TornText, Completes, Escape, ToKey, ToValue, ToTimestamp, ToValueText;
    var n := ValueStart(r) + |Escape(r.value[..m])|;
    Positions(r);
    TornBetween(r.value, m);
    JoinedParses(r, n, next);
  }

  /** A record torn behind its first timestamp digit, even between its last brace and the line break,
      is read back, but the next one is lost. */
  lemma SwallowedAppend(rs: seq<LogEntry>, r: LogEntry, n: nat, next: LogEntry, more: string)
    requires AreRecords(rs) && Clean(rs) && IsRecord(r) && IsRecord(next) && !Hazardous(r.key)
    requires BodyEnd(r) < n <= |LineOf(r)|
    ensures Recovered(LogText(rs) + (LineOf(r)[..n] + LineOf(next) + "\n" + more))
            == rs + (TornEntry(r, n) + Recovered(more))
  {
    hide Hazardous, Recovered, LogText, Digits, LineOf, Completes, Value, LineBody, ToKey, ToTimestamp, ToValue,
         IsRecord;
    JoinedAppend(rs, r, n, next, more);
    Positions(r);
    assert [JoinedEntry(r, n, next).value] == TornEntry(r, n);
  }

  /** Torn just before its first timestamp digit, a record blocks the log: nothing appended later is
      ever read. */
  lemma BlockedAppend(rs: seq<LogEntry>, r: LogEntry, next: LogEntry, more: string)
    requires AreRecords(rs) && Clean(rs) && IsRecord(r) && IsRecord(next)
    ensures Recovered(LogText(rs) + (LineBody(r.operation, r.key, r.value) + LineOf(next) + "\n" + more)) == rs
  {
    hide Hazardous, Recovered, LogText, Escape, LineOf, LineBody, ToKey, ToTimestamp, ToValue, IsRecord, JoinedEntry;
    Positions(r);
    BodyIsCut(r);
    JoinedAppend(rs, r, BodyEnd(r), next, more);
  }

  lemma BodyIsCut(r: LogEntry)
    requires IsRecord(r)
    ensures BodyEnd(r) <= |LineOf(r)| && LineOf(r)[..BodyEnd(r)] == LineBody(r.operation, r.key, r.value)
  {
    hide LineBody;
  }
}
