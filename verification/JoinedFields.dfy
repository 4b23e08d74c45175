/** The fields of a line that is a fragment with the next line behind it: which of the two each field
    is read from (src/core/wal.cpp:19-98). */
module JoinedFields {
  import opened Records
  import opened Decimal
  import opened JsonText
  import opened LogLine
  import opened LogRoundTrip
  import opened LogTheorems
  import opened LogRecovery

  /** The text, in quotes, ends with the quoted name. */
  predicate Completes(text: string, name: string) {
    text == name || EndsWith(text, "\"" + name)
  }

  lemma HazardCompletes(key: string)
    ensures Hazardous(key) <==> Completes(key, "timestamp")
  {
    HazardousEnds(key);
  }

  /** The closing quote of an escaped text completes the name exactly when the text does. */
  lemma CompletesIff(before: string, text: string, name: string)
    requires IsName(name)
    ensures var s := before + "\"" + Escape(text);
      OccursAt(s + "\"", Quoted(name), |s| - |name| - 1) <==> Completes(text, name)
  {
    hide Escape, EndsWith, OccursAt;
    QuotedWord(text, name);
    EndsInQuoted(before, Escape(text), name);
    OccursAtEnd(before + "\"" + Escape(text), name);
  }

  // ---- the next line behind its opening brace ----

  function AfterBrace(next: LogEntry): string {
    "\"operation\":\"" + next.operation + BEFORE_KEY
  }

  function Behind(next: LogEntry): string
    requires IsRecord(next)
  {
    AfterBrace(next) + Escape(next.key) + BEFORE_VALUE + Escape(next.value) + BEFORE_TIMESTAMP
    + (Digits(next.timestamp) + "}")
  }

  lemma NextShape(next: LogEntry)
    requires IsRecord(next)
    ensures LineOf(next) == "{" + Behind(next)
  {
    hide Escape, Digits;
    OperationEscapes(next.operation);
    assert BEFORE_OPERATION == "{" + "\"operation\":\"";
    Rejoin("{", "\"operation\":\"", next.operation, BEFORE_KEY, Escape(next.key), BEFORE_VALUE, Escape(next.value),
           BEFORE_TIMESTAMP, Digits(next.timestamp));
  }

  lemma Rejoin(a: string, b: string, c: string, d: string, e: string, f: string, g: string, h: string, i: string)
    ensures (a + b) + c + d + e + f + g + h + i + "}" == a + ((b + c + d) + e + f + g + h + (i + "}"))
  {
  }

  /** The first fourteen characters of a line, and its operation up to the closing quote. */
  lemma NextStart(next: LogEntry) returns (rest: string)
    requires IsRecord(next)
    ensures LineOf(next) == "{\"operation\":" + ("\"" + next.operation + "\"" + rest)
  {
    hide Escape, Digits;
    NextShape(next);
    rest := BEFORE_KEY[1..] + Escape(next.key) + BEFORE_VALUE + Escape(next.value) + BEFORE_TIMESTAMP
            + (Digits(next.timestamp) + "}");
    StartShape(next.operation, BEFORE_KEY, Escape(next.key), BEFORE_VALUE, Escape(next.value), BEFORE_TIMESTAMP,
               Digits(next.timestamp));
  }

  lemma StartShape(op: string, bk: string, k: string, bv: string, v: string, bt: string, d: string)
    requires bk != "" && bk[0] == '"'
    ensures "{" + (("\"operation\":\"" + op + bk) + k + bv + v + bt + (d + "}"))
            == "{\"operation\":" + ("\"" + op + "\"" + (bk[1..] + k + bv + v + bt + (d + "}")))
  {
    assert bk == "\"" + bk[1..];
    assert "\"operation\":\"" == "\"operation\":" + "\"" && "{\"operation\":" == "{" + "\"operation\":";
  }

  lemma StartChars(before: string, next: LogEntry)
    requires IsRecord(next)
    ensures var (line, n) := (before + LineOf(next), |before|);
      && |line| > n + 13 && line[n] == '{' && line[n + 1] == '"' && line[n + 11] == '"'
      && line[n + 12] == ':' && line[n + 13] == '"'
      && line[n + 2..n + 11] == "operation" && forall i :: n <= i < n + 12 ==> line[i] != ':'
  {
    hide LineOf;
    var rest := NextStart(next);
    var (start, tail) := ("{\"operation\":", "\"" + next.operation + "\"" + rest);
    var line := before + LineOf(next);
    assert line == before + start + tail;
    assert forall i :: 0 <= i < 13 ==> line[|before| + i] == start[i];
    assert line[|before| + 13] == tail[0];
  }

  // ---- a field read from the next line ----

  lemma BraceEnds(s: string, name: string)
    requires s != "" && s[|s| - 1] == '{' && IsName(name)
    ensures !OccursAt(s + "\"", Quoted(name), |s| - |name| - 1)
  {
    assert (s + "\"")[|s| - 1] == '{';
    if OccursAt(s + "\"", Quoted(name), |s| - |name| - 1) {
      OccursChars(s + "\"", name, |s| - |name| - 1);
    }
  }

  lemma BraceFree(s: string, name: string)
    requires Free(s, name) && IsName(name)
    ensures Free(s + "{", name)
  {
    forall i ensures !OccursAt(s + "{", Quoted(name), i) {
      if OccursAt(s + "{", Quoted(name), i) {
        OccursChars(s + "{", name, i);
        OccursInPrefix(s, "{", Quoted(name), i);
      }
    }
  }

  lemma StartFree(next: LogEntry)
    requires IsRecord(next)
    ensures Free("\"operation\":\"" + next.operation, "key")
    ensures Free(AfterBrace(next), "value") && Free(AfterBrace(next), "timestamp")
  {
    hide Free;
    KeyStartFree(next);
    ValueStartFree(next);
    FreeBySecond(AfterBrace(next), "timestamp");
  }

  lemma KeyStartFree(next: LogEntry)
    requires IsRecord(next)
    ensures Free("\"operation\":\"" + next.operation, "key")
  {
    hide Free;
    FreeBySecond("\"operation\":\"" + next.operation, "key");
  }

  lemma ValueStartFree(next: LogEntry)
    requires IsRecord(next)
    ensures Free(AfterBrace(next), "value")
  {
    hide Free;
    FreeBySecond(AfterBrace(next), "value");
  }

  /** Behind a fragment without the name, the key and the value are those of the next line. */
  lemma NextKey(torn: string, next: LogEntry)
    requires IsRecord(next) && Free(torn, "key")
    ensures StringField(torn + LineOf(next), "key") == Some(Escape(next.key))
  {
    hide Free, StringField, Escape, OccursAt, LineOf, Digits;
    var (s, start) := (torn + "{", "\"operation\":\"" + next.operation);
    var rest := BEFORE_VALUE[1..] + Escape(next.value) + BEFORE_TIMESTAMP + (Digits(next.timestamp) + "}");
    BraceFree(torn, "key");
    BraceEnds(s, "key");
    StartFree(next);
    FreeAfterSeparator(s, start, "key");
    StringFieldAfter(s + start, "key", next.key, rest);
    NextShape(next);
    assert torn + LineOf(next) == s + Behind(next);
    KeyShape(s, start, Escape(next.key), BEFORE_VALUE, Escape(next.value), BEFORE_TIMESTAMP, Digits(next.timestamp));
  }

  lemma KeyShape(s: string, start: string, k: string, bv: string, v: string, bt: string, d: string)
    requires bv != "" && bv[0] == '"'
    ensures s + ((start + BEFORE_KEY) + k + bv + v + bt + (d + "}"))
            == (s + start) + "\",\"" + "key" + "\":" + ("\"" + k + "\"" + (bv[1..] + v + bt + (d + "}")))
  {
    assert bv == "\"" + bv[1..];
    assert BEFORE_KEY == "\",\"" + "key" + "\":" + "\"";
  }

  lemma NextValue(torn: string, next: LogEntry)
    requires IsRecord(next) && Free(torn, "value")
    ensures StringField(torn + LineOf(next), "value") == Some(Escape(next.value))
  {
    hide Free, StringField, Escape, OccursAt, LineOf, Digits, AfterBrace;
    var (s, name) := (torn + "{", "value");
    BraceFree(torn, name);
    BraceEnds(s, name);
    StartFree(next);
    assert AfterBrace(next) != "" && AfterBrace(next)[0] == '"' by { StartsQuoted(next); }
    FreeAfterSeparator(s, AfterBrace(next), name);
    FreeAfterEscaped(s + AfterBrace(next), next.key, name);
    var rest := BEFORE_TIMESTAMP[1..] + (Digits(next.timestamp) + "}");
    StringFieldAfter(s + AfterBrace(next) + Escape(next.key), name, next.value, rest);
    NextShape(next);
    assert torn + LineOf(next) == s + Behind(next);
    ValueShape(s, AfterBrace(next), Escape(next.key), Escape(next.value), BEFORE_TIMESTAMP, Digits(next.timestamp));
  }

  lemma StartsQuoted(next: LogEntry)
    ensures AfterBrace(next) != "" && AfterBrace(next)[0] == '"'
  {
  }

  lemma ValueShape(s: string, start: string, k: string, v: string, bt: string, d: string)
    requires bt != "" && bt[0] == '"'
    ensures s + (start + k + BEFORE_VALUE + v + bt + (d + "}"))
            == (s + start + k) + "\",\"" + "value" + "\":" + ("\"" + v + "\"" + (bt[1..] + (d + "}")))
  {
    assert bt == "\"" + bt[1..];
    assert BEFORE_VALUE == "\",\"" + "value" + "\":" + "\"";
  }

  /** So is the timestamp, if the next key is not hazardous. */
  lemma NextTimestamp(torn: string, next: LogEntry)
    requires IsRecord(next) && Free(torn, "timestamp")
    ensures IntegerField(torn + LineOf(next), "timestamp") ==
      if Hazardous(next.key) then None else Some(next.timestamp)
  {
    hide Free, IntegerField, Escape, OccursAt, LineOf, Digits, AfterBrace, Hazardous, Stoll;
    var (s, name) := (torn + "{", "timestamp");
    BraceFree(torn, name);
    BraceEnds(s, name);
    StartFree(next);
    StartsQuoted(next);
    FreeAfterSeparator(s, AfterBrace(next), name);
    FreeAfterEscaped(s + AfterBrace(next), next.key, name);
    var key := s + AfterBrace(next) + Escape(next.key);
    EndsInKey(s, next);
    NextShape(next);
    assert torn + LineOf(next) == s + Behind(next);
    if Hazardous(next.key) {
      NextHazard(s, next);
    } else {
      LiteralsFree(next.operation);
      FreeAfterSeparator(key, BEFORE_VALUE, name);
      FreeAfterEscaped(key + BEFORE_VALUE, next.value, name);
      NextDigits(s, next);
    }
  }

  lemma EndsInKey(s: string, next: LogEntry)
    ensures var key := s + AfterBrace(next) + Escape(next.key);
      OccursAt(key + "\"", Quoted("timestamp"), |key| - 10) <==> Hazardous(next.key)
  {
    hide Escape, OccursAt, Hazardous, Completes;
    var before := s + "\"operation\":\"" + next.operation + "\",\"key\":";
    assert s + AfterBrace(next) == before + "\"";
    HazardCompletes(next.key);
    CompletesIff(before, next.key, "timestamp");
  }

  lemma NextHazard(s: string, next: LogEntry)
    requires IsRecord(next) && Free(s + AfterBrace(next) + Escape(next.key), "timestamp")
    requires var key := s + AfterBrace(next) + Escape(next.key);
      OccursAt(key + "\"", Quoted("timestamp"), |key| - 10)
    ensures IntegerField(s + Behind(next), "timestamp") == None
  {
    hide Free, IntegerField, Escape, OccursAt, Digits, AfterBrace;
    var key := s + AfterBrace(next) + Escape(next.key);
    var tail := BEFORE_VALUE + (Escape(next.value) + BEFORE_TIMESTAMP + (Digits(next.timestamp) + "}"));
    assert tail[..11] == BEFORE_VALUE;
    HazardShape(s, AfterBrace(next), Escape(next.key), Escape(next.value), Digits(next.timestamp));
    assert s + Behind(next) == key + tail && (key + tail)[..|key + tail|] == key + tail;
    CutTimestamp(key, tail, "timestamp", |key + tail|);
  }

  lemma HazardShape(s: string, start: string, k: string, v: string, d: string)
    ensures s + (start + k + BEFORE_VALUE + v + BEFORE_TIMESTAMP + (d + "}"))
            == (s + start + k) + (BEFORE_VALUE + (v + BEFORE_TIMESTAMP + (d + "}")))
  {
  }

  lemma NextDigits(s: string, next: LogEntry)
    requires IsRecord(next)
    requires Free(s + AfterBrace(next) + Escape(next.key) + BEFORE_VALUE + Escape(next.value), "timestamp")
    ensures IntegerField(s + Behind(next), "timestamp") == Some(next.timestamp)
  {
    hide Free, IntegerField, Escape, Digits, AfterBrace;
    var (before, digits) :=
      (s + AfterBrace(next) + Escape(next.key) + BEFORE_VALUE + Escape(next.value), Digits(next.timestamp));
    DigitsValue(next.timestamp);
    IntegerFieldAfter(before, "timestamp", digits, "}");
    TimestampShape(s, AfterBrace(next), Escape(next.key), Escape(next.value), digits);
  }

  lemma TimestampShape(s: string, start: string, k: string, v: string, d: string)
    ensures s + (start + k + BEFORE_VALUE + v + BEFORE_TIMESTAMP + (d + "}"))
            == (s + start + k + BEFORE_VALUE + v) + "\",\"" + "timestamp" + "\":" + (d + "}")
  {
    assert BEFORE_TIMESTAMP == "\",\"" + "timestamp" + "\":";
  }

  // ---- a name that is complete before the tear, its colon not ----

  /** The colon found is then the one behind the next line's `operation`. */
  lemma GapColon(before: string, gap: string, name: string, q: nat, next: LogEntry)
    requires IsRecord(next) && Free(before, name) && IsName(name) && forall i :: 0 <= i < |gap| ==> gap[i] != ':'
    requires var line := before + gap + LineOf(next);
      OccursAt(line, Quoted(name), q) && q + |name| + 2 <= |before + gap| + 12
    ensures ColonOf(before + gap + LineOf(next), name) == |before + gap| + 12
  {
    hide FindFrom, Free, OccursAt, LineOf;
    var (line, n) := (before + gap + LineOf(next), |before + gap|);
    FindIsFirst(line, Quoted(name), 0, q);
    var pos := FindFrom(line, Quoted(name), 0);
    assert line == before + (gap + LineOf(next));
    FreePrefix(before, gap + LineOf(next), name, pos);
    StartChars(before + gap, next);
    assert forall i :: |before| <= i < n ==> line[i] == gap[i - |before|];
    FindCharAt(line, ':', pos + |name| + 2, n + 12);
  }

  /** A string field is then the next operation, and an integer field is not there. */
  lemma GapFields(torn: string, name: string, next: LogEntry)
    requires IsRecord(next) && ColonOf(torn + LineOf(next), name) == |torn| + 12
    ensures StringField(torn + LineOf(next), name) == Some(next.operation)
    ensures IntegerField(torn + LineOf(next), name) == None
  {
    hide ColonOf, StringField, IntegerField, LineOf, Escaped;
    var (line, n) := (torn + LineOf(next), |torn|);
    StartChars(torn, next);
    var rest := NextStart(next);
    var tail := "\"" + next.operation + "\"" + rest;
    assert line == (torn + "{\"operation\":") + tail;
    assert line[n + 13..] == tail;
    OperationEscapes(next.operation);
    EscapeIsEscaped(next.operation);
    TextAfter(line, name, n + 13, next.operation, rest);
    NoDigits(line, name);
  }

  lemma NoDigits(line: string, name: string)
    requires ColonOf(line, name) != -1 && ColonOf(line, name) + 1 < |line|
    requires line[ColonOf(line, name) + 1] == '"' || line[ColonOf(line, name) + 1] == '{'
    ensures IntegerField(line, name) == None
  {
    hide ColonOf;
    var pos := ColonOf(line, name) + 1;
    assert DigitsEnd(line, pos) == pos && line[pos..pos] == "";
  }

  // ---- a tear just behind the colon ----

  lemma ColonFields(torn: string, name: string, next: LogEntry)
    requires IsRecord(next) && torn != "" && torn[|torn| - 1] == ':'
    requires ColonOf(torn + LineOf(next), name) == |torn| - 1
    ensures StringField(torn + LineOf(next), name) == Some("operation")
    ensures IntegerField(torn + LineOf(next), name) == None
  {
    hide *;
    var (line, n, text) := (torn + LineOf(next), |torn|, "operation");
    StartChars(torn, next);
    assert line[n - 1] == ':';
    QuotedAt(line, n + 1, text);
    PlainIsEscaped(text);
    TextAfter(line, name, n + 1, text, line[n + 12..]);
    NoDigits(line, name);
  }

  lemma QuotedAt(line: string, at: nat, text: string)
    requires at + |text| + 1 < |line| && line[at] == '"' && line[at + |text| + 1] == '"'
    requires line[at + 1..at + 1 + |text|] == text
    ensures line[at..] == "\"" + text + "\"" + line[at + |text| + 2..]
  {
    var t := line[at + 1..at + 1 + |text|];
    assert line[at..] == [line[at]] + t + [line[at + |text| + 1]] + line[at + |text| + 2..];
  }

  lemma PlainIsEscaped(s: string)
    requires forall i :: 0 <= i < |s| ==> ' ' <= s[i] && s[i] != '"' && s[i] != '\\'
    ensures Escaped(s) && Unescape(s) == s
  {
    hide Escape, Escaped, Unescape;
    PlainEscapes(s);
    EscapeIsEscaped(s);
    EscapeRoundTrip(s);
  }

  // ---- a text cut in the middle ----

  /** The next line's first quote closes it, and its opening brace becomes part of it. */
  lemma CutText(e: string, j: nat)
    requires Escaped(e) && j <= |e|
    ensures Escaped(e[..j] + "{")
  {
    var f := e[..j] + "{";
    assert forall i :: 0 <= i < j ==> f[i] == e[i] && f[..i] == e[..i];
  }

  // ---- names up to their closing quote ----

  lemma FreeCut(s: string, name: string, n: nat)
    requires Free(s, name) && n <= |s|
    ensures Free(s[..n], name)
  {
    forall i ensures !OccursAt(s[..n], Quoted(name), i) {
      if OccursAt(s[..n], Quoted(name), i) {
        assert s == s[..n] + s[n..];
        OccursInLonger(s[..n], s[n..], Quoted(name), i);
      }
    }
  }

  /** The name without its closing quote, behind text whose own closing quote does not complete it. */
  lemma FreeToName(before: string, name: string)
    requires Free(before, name) && IsName(name) && |name| >= 2
    requires !OccursAt(before + "\"", Quoted(name), |before| - |name| - 1)
    ensures Free(before + "\",\"" + name, name)
  {
    var (t, b) := (before + "\",\"" + name, |before|);
    assert t == before + ("\",\"" + name) && t == (before + "\"") + (",\"" + name);
    assert t[b] == '"' && t[b + 1] == ',' && t[b + 2] == '"';
    forall i ensures !OccursAt(t, Quoted(name), i) {
      if OccursAt(t, Quoted(name), i) {
        FreePrefix(before, "\",\"" + name, name, i);
        OccursChars(t, name, i);
        NoQuoteInside(t, name, i, b);
        OccursInPrefix(before + "\"", ",\"" + name, Quoted(name), i);
      }
    }
  }

  // ---- one field, wherever the tear falls ----

  lemma CutWithin(x: string, line: string, n: nat)
    requires x <= line && n <= |x|
    ensures line[..n] == x[..n]
  {
  }

  lemma CutBehind(x: string, line: string, n: nat)
    requires x <= line && |x| <= n <= |line|
    ensures line[..n] == x + line[|x|..n]
  {
  }

  predicate Completed(before: string, name: string) {
    OccursAt(before + "\"", Quoted(name), |before| - |name| - 1)
  }

  /** Up to here a fragment does not contain the name of the field that `before` leads to. */
  predicate NameTorn(before: string, name: string, n: nat) {
    n <= |before| || (n <= |before| + |name| + 3 && !Completed(before, name))
  }

  lemma TornFree(before: string, name: string, line: string, n: nat)
    requires Free(before, name) && IsName(name) && |name| >= 2 && NameTorn(before, name, n) && n <= |line|
    requires before + "\",\"" + name <= line
    ensures Free(line[..n], name)
  {
    hide Free, OccursAt;
    var full := before + "\",\"" + name;
    if n <= |before| {
      assert line[..n] == before[..n];
      FreeCut(before, name, n);
    } else {
      FreeToName(before, name);
      FreeCut(full, name, n);
      CutWithin(full, line, n);
    }
  }

  lemma TornGap(before: string, name: string, line: string, n: nat, next: LogEntry)
    requires Free(before, name) && IsName(name) && IsRecord(next) && n <= |line|
    requires |before| < n <= |before| + |name| + 4 && !NameTorn(before, name, n)
    requires before + "\",\"" + name + "\"" <= line
    ensures ColonOf(line[..n] + LineOf(next), name) == n + 12
  {
    hide Free, ColonOf, OccursAt, LineOf;
    var (full, b) := (before + "\",\"" + name + "\"", |before|);
    var (torn, gap) := (line[..n], full[b..n]);
    CutWithin(full, line, n);
    assert torn == before + gap;
    assert forall i :: 0 <= i < |gap| ==> gap[i] == full[b + i];
    assert forall i :: b + 3 <= i < b + 3 + |name| ==> full[i] == name[i - b - 3];
    assert torn + LineOf(next) == before + gap + LineOf(next);
    if Completed(before, name) {
      var (s, t) := (before + "\"", gap[1..] + LineOf(next));
      assert before + gap + LineOf(next) == s + t;
      OccursInLonger(s, t, Quoted(name), b - |name| - 1);
      GapColon(before, gap, name, b - |name| - 1, next);
    } else {
      assert gap == "\",\"" + name + "\"";
      NameIn(before, name, LineOf(next));
      GapColon(before, gap, name, b + 2, next);
    }
  }

  lemma NameIn(before: string, name: string, after: string)
    ensures OccursAt(before + ("\",\"" + name + "\"") + after, Quoted(name), |before| + 2)
  {
    var (line, at) := (before + ("\",\"" + name + "\"") + after, |before| + 2);
    assert line == (before + "\",") + Quoted(name) + after;
    assert line[at..at + |Quoted(name)|] == Quoted(name);
  }

  lemma TornColon(before: string, name: string, line: string, n: nat, next: LogEntry)
    requires Free(before, name) && IsName(name) && IsRecord(next) && n == |before| + |name| + 5 <= |line|
    requires before + "\",\"" + name + "\":" <= line
    ensures line[..n][n - 1] == ':' && ColonOf(line[..n] + LineOf(next), name) == n - 1
  {
    hide Free, ColonOf, LineOf;
    var full := before + "\",\"" + name + "\":";
    CutWithin(full, line, n);
    assert full[..n] == full;
    FieldColon(before, name, LineOf(next));
  }

  lemma CutQuote(torn: string, e: string, j: nat, next: LogEntry)
    requires IsRecord(next) && j <= |e|
    ensures (torn + e[..j]) + LineOf(next) == torn + (e[..j] + "{") + "\"" + LineOf(next)[2..]
  {
    hide LineOf;
    StartChars("", next);
    assert "" + LineOf(next) == LineOf(next);
    assert LineOf(next) == "{" + "\"" + LineOf(next)[2..];
  }

  /** What a string field of the joined line is read as. */
  function TextRead(before: string, name: string, text: string, n: nat, next: LogEntry, nextText: string): string {
    var start := |before| + |name| + 6;
    if NameTorn(before, name, n) then nextText
    else if n <= |before| + |name| + 4 then next.operation
    else if n == |before| + |name| + 5 then "operation"
    else if n <= start + |text| then text[..n - start] + "{"
    else text
  }

  lemma StringRead(before: string, name: string, text: string, line: string, n: nat, next: LogEntry, nextText: string)
    requires Free(before, name) && IsName(name) && |name| >= 2 && Escaped(text) && IsRecord(next) && n <= |line|
    requires before + "\",\"" + name + "\":" + ("\"" + text + "\"") <= line
    requires Free(line[..n], name) ==> StringField(line[..n] + LineOf(next), name) == Some(nextText)
    ensures StringField(line[..n] + LineOf(next), name) == Some(TextRead(before, name, text, n, next, nextText))
  {
    hide Free, StringField, ColonOf, Escaped, NameTorn, LineOf, IsName, Completed, IsRecord;
    var lead := before + "\",\"" + name + "\":";
    LeadParts(before, name, text, line);
    if NameTorn(before, name, n) {
      TornFree(before, name, line, n);
    } else if n <= |before| + |name| + 4 {
      NotTorn(before, name, n);
      TornGap(before, name, line, n, next);
      GapFields(line[..n], name, next);
    } else if n == |before| + |name| + 5 {
      TornColon(before, name, line, n, next);
      ColonFields(line[..n], name, next);
    } else if n <= |lead| + 1 + |text| {
      var j := n - |lead| - 1;
      CutText(text, j);
      CutInText(lead, text, line, n);
      CutQuote(lead + "\"", text, j, next);
      QuoteShape(lead, text[..j] + "{", LineOf(next)[2..]);
      TextFieldAfter(before, name, text[..j] + "{", LineOf(next)[2..]);
    } else {
      var rest := line[|lead| + |text| + 2..n] + LineOf(next);
      CutBehind(lead + ("\"" + text + "\""), line, n);
      assert line[..n] + LineOf(next) == lead + ("\"" + text + "\"" + rest);
      TextFieldAfter(before, name, text, rest);
    }
  }

  lemma NotTorn(before: string, name: string, n: nat)
    requires !NameTorn(before, name, n)
    ensures n > |before|
  {
  }

  lemma QuoteShape(lead: string, e: string, rest: string)
    ensures (lead + "\"") + e + "\"" + rest == lead + ("\"" + e + "\"" + rest)
  {
  }

  lemma LeadParts(before: string, name: string, text: string, line: string)
    requires before + "\",\"" + name + "\":" + ("\"" + text + "\"") <= line
    ensures before + "\",\"" + name <= line && before + "\",\"" + name + "\"" <= line
    ensures before + "\",\"" + name + "\":" <= line
  {
    var a := before + "\",\"" + name;
    assert a + "\":" + ("\"" + text + "\"") == a + ("\":" + ("\"" + text + "\""));
    assert a + "\":" == (a + "\"") + ":";
  }

  lemma CutInText(lead: string, text: string, line: string, n: nat)
    requires lead + ("\"" + text + "\"") <= line && |lead| + 1 <= n <= |lead| + 1 + |text|
    ensures line[..n] == (lead + "\"") + text[..n - |lead| - 1]
  {
    var full := lead + ("\"" + text + "\"");
    assert line[..n] == full[..n];
    assert full == (lead + "\"") + text + "\"";
  }

  /** What the timestamp of the joined line is read as. */
  function DigitsRead(before: string, name: string, digits: string, n: nat, nextTimestamp: Option<int>): Option<int>
    requires AllDigits(digits)
  {
    var start := |before| + |name| + 5;
    if NameTorn(before, name, n) then nextTimestamp
    else if n <= start then None
    else if n - start < |digits| then Some(Value(digits[..n - start]))
    else Some(Value(digits))
  }

  lemma IntegerRead(before: string, name: string, digits: string, line: string, n: nat, next: LogEntry,
                    nextTimestamp: Option<int>)
    requires Free(before, name) && IsName(name) && |name| >= 2 && IsRecord(next) && n <= |line|
    requires AllDigits(digits) && digits != "" && Value(digits) <= INT64_MAX
    requires line == before + "\",\"" + name + "\":" + (digits + "}")
    requires Free(line[..n], name) ==> IntegerField(line[..n] + LineOf(next), name) == nextTimestamp
    ensures IntegerField(line[..n] + LineOf(next), name) == DigitsRead(before, name, digits, n, nextTimestamp)
  {
    hide Free, IntegerField, ColonOf, NameTorn, LineOf, IsName, Completed, IsRecord, Value;
    var lead := before + "\",\"" + name + "\":";
    DigitParts(before, name, digits + "}", line);
    if NameTorn(before, name, n) {
      TornFree(before, name, line, n);
    } else if n <= |before| + |name| + 4 {
      NotTorn(before, name, n);
      TornGap(before, name, line, n, next);
      GapFields(line[..n], name, next);
    } else if n == |lead| {
      TornColon(before, name, line, n, next);
      ColonFields(line[..n], name, next);
    } else {
      DigitsCut(before, name, digits, line, n, next);
    }
  }

  lemma DigitParts(before: string, name: string, rest: string, line: string)
    requires line == before + "\",\"" + name + "\":" + rest
    ensures before + "\",\"" + name <= line && before + "\",\"" + name + "\"" <= line
    ensures before + "\",\"" + name + "\":" <= line
  {
    var a := before + "\",\"" + name;
    assert a + "\":" + rest == a + ("\":" + rest);
    assert a + "\":" == (a + "\"") + ":";
  }

  lemma DigitsCut(before: string, name: string, digits: string, line: string, n: nat, next: LogEntry)
    requires Free(before, name) && IsName(name) && IsRecord(next)
    requires AllDigits(digits) && digits != "" && Value(digits) <= INT64_MAX
    requires line == before + "\",\"" + name + "\":" + (digits + "}") && |before| + |name| + 5 < n <= |line|
    ensures IntegerField(line[..n] + LineOf(next), name) ==
      Some(Value(if n - |before| - |name| - 5 < |digits| then digits[..n - |before| - |name| - 5] else digits))
  {
    hide Free, IntegerField, LineOf, Value;
    var lead := before + "\",\"" + name + "\":";
    var k := n - |lead|;
    StartChars("", next);
    assert "" + LineOf(next) == LineOf(next);
    if k < |digits| {
      PrefixValue(digits, k);
      assert line[..n] == lead + digits[..k];
      assert line[..n] + LineOf(next) == lead + (digits[..k] + LineOf(next));
      IntegerFieldAfter(before, name, digits[..k], LineOf(next));
    } else {
      var rest := "}"[..k - |digits|] + LineOf(next);
      assert line[..n] == lead + (digits + "}"[..k - |digits|]);
      assert line[..n] + LineOf(next) == lead + (digits + rest);
      IntegerFieldAfter(before, name, digits, rest);
    }
  }
}
