/** Replaying the log file: whole records, hazardous keys, and a torn last line
    (src/core/wal.cpp:119-182). */
module LogRecovery {
  import opened Records
  import opened Decimal
  import opened JsonText
  import opened LogLine
  import opened LogRoundTrip
  import opened LogTheorems

  /** A record the memtable appends: one of the two operations, a clock reading of 64 bits. */
  predicate IsRecord(r: LogEntry) {
    IsOperation(r.operation) && 0 <= r.timestamp <= INT64_MAX
  }

  predicate AreRecords(rs: seq<LogEntry>) {
    forall i :: 0 <= i < |rs| ==> IsRecord(rs[i])
  }

  function LineOf(r: LogEntry): string
    requires IsRecord(r)
  {
    FormatLine(r.operation, r.key, r.value, r.timestamp)
  }

  /** The log file after the records are appended to an empty one. */
  function LogText(rs: seq<LogEntry>): string
    requires AreRecords(rs)
  {
    if rs == [] then "" else LineOf(rs[0]) + "\n" + LogText(rs[1..])
  }

  /** `std::getline`: the text before the first line break, and what follows it. */
  function GetLine(text: string): (r: (string, string))
    ensures text != "" ==> |r.1| < |text|
  {
    var at := FindFrom(text, "\n", 0);
    if at == -1 then (text, "") else (text[..at], text[at + 1..])
  }

  /** The entries `Recover` collects: line by line, skipping empty ones, stopping at the first
      line that does not parse; the last line needs no line break. */
  function Recovered(text: string): seq<LogEntry>
    decreases |text|
  {
    if text == "" then []
    else
      var (line, rest) := GetLine(text);
      if line == "" then Recovered(rest)
      else if Parsed(line).None? then []
      else [Parsed(line).value] + Recovered(rest)
  }

  method Recover(text: string) returns (entries: seq<LogEntry>)
    ensures entries == Recovered(text)
  {
    hide Parsed, GetLine;
    entries := [];
    var rest := text;
    while rest != ""
      invariant entries + Recovered(rest) == Recovered(text)
      decreases |rest|
    {
      var next := GetLine(rest);
      var line := next.0;
      rest := next.1;
      if line != "" {
        var entry := ParseLogEntry(line);
        if entry.None? {
          break;
        }
        entries := entries + [entry.value];
      }
    }
  }

  // ---- lines hold no line break ----

  predicate OneLine(s: string) {
    forall i :: 0 <= i < |s| ==> s[i] != '\n'
  }

  lemma EscapeOneLine(s: string)
    ensures OneLine(Escape(s))
  {
    EscapeIsEscaped(s);
  }

  lemma BodyOneLine(r: LogEntry)
    requires IsRecord(r)
    ensures OneLine(LineBody(r.operation, r.key, r.value))
  {
    hide Escape;
    EscapeOneLine(r.operation);
    EscapeOneLine(r.key);
    EscapeOneLine(r.value);
  }

  lemma LineOneLine(r: LogEntry)
    requires IsRecord(r)
    ensures OneLine(LineOf(r)) && LineOf(r) != ""
  {
    hide LineBody, Digits;
    BodyOneLine(r);
    DigitsValue(r.timestamp);
  }

  /** A whole line at the front is read on its own. */
  lemma RecoverLine(line: string, rest: string)
    requires OneLine(line) && line != ""
    ensures Recovered(line + "\n" + rest)
            == if Parsed(line).None? then [] else [Parsed(line).value] + Recovered(rest)
  {
    hide Parsed, FindFrom;
    var text := line + "\n" + rest;
    assert forall i :: 0 <= i < |line| ==> text[i] == line[i];
    assert text != "";
    FindCharAt(text, '\n', 0, |line|);
    assert text[..|line|] == line && text[|line| + 1..] == rest;
  }

  /** An empty line is passed over, and a last line needs no line break. */
  lemma RecoverRest(line: string, rest: string)
    requires OneLine(line) && line != ""
    ensures Recovered("") == [] && Recovered("\n" + rest) == Recovered(rest)
    ensures Recovered(line) == if Parsed(line).None? then [] else [Parsed(line).value]
  {
    hide Parsed, FindFrom;
    var text := "\n" + rest;
    FindCharAt(text, '\n', 0, 0);
    assert text[..0] == "" && text[1..] == rest;
    assert forall i :: 0 <= i < |line| ==> !OccursAt(line, "\n", i) by {
      assert forall i :: 0 <= i < |line| ==> line[i..i + 1][0] == line[i];
    }
  }

  /** The records before the first hazardous key. */
  function Kept(rs: seq<LogEntry>): seq<LogEntry> {
    if rs == [] || Hazardous(rs[0].key) then [] else [rs[0]] + Kept(rs[1..])
  }

  predicate Clean(rs: seq<LogEntry>) {
    forall i :: 0 <= i < |rs| ==> !Hazardous(rs[i].key)
  }

  lemma {:induction false} KeptClean(rs: seq<LogEntry>)
    ensures Kept(rs) == rs <==> Clean(rs)
    ensures |Kept(rs)| <= |rs| && Kept(rs) == rs[..|Kept(rs)|]
  {
    hide Hazardous;
    if rs != [] && !Hazardous(rs[0].key) {
      KeptClean(rs[1..]);
      assert rs == [rs[0]] + rs[1..];
      CleanCons(rs);
    }
  }

  lemma RecordParses(r: LogEntry)
    requires IsRecord(r)
    ensures Parsed(LineOf(r)) == if Hazardous(r.key) then None else Some(r)
  {
    LineRoundTrip(r.operation, r.key, r.value, r.timestamp);
  }

  lemma CleanCons(rs: seq<LogEntry>)
    requires rs != []
    ensures Clean(rs) <==> !Hazardous(rs[0].key) && Clean(rs[1..])
  {
    assert forall i :: 0 < i < |rs| ==> rs[i] == rs[1..][i - 1];
  }

  /** Replay stops for good at the first hazardous key; with none, it reaches what follows. */
  lemma {:induction false} RecoverThen(rs: seq<LogEntry>, tail: string)
    requires AreRecords(rs)
    ensures Recovered(LogText(rs) + tail) == if Clean(rs) then rs + Recovered(tail) else Kept(rs)
  {
    hide Parsed, Hazardous, Recovered, LineOf, OneLine, IsRecord;
    if rs == [] {
      assert LogText(rs) + tail == tail;
    } else {
      var (r, line) := (rs[0], LineOf(rs[0]));
      LineOneLine(r);
      RecordParses(r);
      LogTextCons(rs);
      assert LogText(rs) + tail == line + "\n" + (LogText(rs[1..]) + tail);
      hide LogText;
      RecoverLine(line, LogText(rs[1..]) + tail);
      RecoverThen(rs[1..], tail);
      CleanCons(rs);
      ConsConcat(rs, Recovered(tail));
    }
  }

  lemma ConsConcat(rs: seq<LogEntry>, more: seq<LogEntry>)
    requires rs != []
    ensures [rs[0]] + (rs[1..] + more) == rs + more
  {
  }

  /** A log of whole records is replayed up to the first hazardous key, and completely exactly
      when there is none. */
  lemma RecoverLog(rs: seq<LogEntry>)
    requires AreRecords(rs)
    ensures Recovered(LogText(rs)) == Kept(rs)
    ensures Recovered(LogText(rs)) == rs <==> Clean(rs)
  {
    hide Hazardous;
    RecoverThen(rs, "");
    KeptClean(rs);
    assert LogText(rs) + "" == LogText(rs);
    assert rs + [] == rs;
  }

  lemma {:induction false} LogTextAppend(rs: seq<LogEntry>, r: LogEntry)
    requires AreRecords(rs) && IsRecord(r)
    ensures AreRecords(rs + [r]) && LogText(rs + [r]) == LogText(rs) + LineOf(r) + "\n"
  {
    hide LineOf, IsRecord;
    if rs == [] {
      assert rs + [r] == [r] && [r][1..] == [];
    } else {
      var (line, text, last) := (LineOf(rs[0]) + "\n", LogText(rs[1..]), LineOf(r) + "\n");
      LogTextAppend(rs[1..], r);
      assert (rs + [r])[1..] == rs[1..] + [r];
      LogTextCons(rs);
      LogTextCons(rs + [r]);
      assert line + (text + last) == (line + text) + last;
    }
  }

  lemma LogTextCons(rs: seq<LogEntry>)
    requires AreRecords(rs) && rs != []
    ensures LogText(rs) == LineOf(rs[0]) + "\n" + LogText(rs[1..])
  {
  }

  // ---- a torn last line ----

  /** A line cut before its first timestamp digit has no readable timestamp. */
  lemma TornTimestamp(before: string, name: string, n: nat)
    requires Free(before, name) && IsName(name)
    requires n <= |before + "\",\"" + name + "\":"|
    ensures IntegerField((before + "\",\"" + name + "\":")[..n], name) == None
  {
    hide FindFrom, Free, OccursAt;
    var full := before + "\",\"" + name + "\":";
    var (torn, b, k) := (full[..n], |before|, |name|);
    var pos := FindFrom(torn, Quoted(name), 0);
    if pos != -1 {
      assert full == torn + full[n..];
      OccursInLonger(torn, full[n..], Quoted(name), pos);
      assert full == before + ("\",\"" + name + "\":");
      FreePrefix(before, "\",\"" + name + "\":", name, pos);
      assert full[b] == '"' && full[b + 1] == ',' && full[b + 2] == '"';
      OccursChars(torn, name, pos);
      if pos <= b + 2 {
        NoQuoteInside(full, name, pos, b);
      }
      var colon := FindFrom(torn, ":", pos + k + 2);
      if colon != -1 {
        ColonIsLast(before, name, torn, colon);
      }
    }
  }

  lemma ColonIsLast(before: string, name: string, torn: string, colon: int)
    requires IsName(name) && |before| < colon && OccursAt(torn, ":", colon)
    requires |torn| <= |before| + 5 + |name| && torn == (before + "\",\"" + name + "\":")[..|torn|]
    ensures colon + 1 == |torn|
  {
    var full := before + "\",\"" + name + "\":";
    var b := |before|;
    assert torn[colon..colon + 1][0] == full[colon];
    assert full == before + ("\",\"" + name + "\":");
    forall j | b <= j < b + 4 + |name| ensures full[j] != ':' {
      if b + 3 <= j < b + 3 + |name| { assert full[j] == name[j - b - 3]; }
    }
  }

  lemma TornBody(r: LogEntry, n: nat)
    requires IsRecord(r) && !Hazardous(r.key) && n <= |LineBody(r.operation, r.key, r.value)|
    ensures Parsed(LineBody(r.operation, r.key, r.value)[..n]) == None
  {
    hide Hazardous, IntegerField, StringField, LineBody, ToTimestamp, Free;
    var before := ToTimestamp(r.operation, r.key, r.value);
    FreeToTimestamp(r.operation, r.key, r.value);
    BodyAtTimestamp(r);
    TornTimestamp(before, "timestamp", n);
  }

  lemma BodyAtTimestamp(r: LogEntry)
    requires IsRecord(r)
    ensures LineBody(r.operation, r.key, r.value)
            == ToTimestamp(r.operation, r.key, r.value) + "\",\"" + "timestamp" + "\":"
  {
    hide LineBody, ToTimestamp;
    var (body, before) := (LineBody(r.operation, r.key, r.value), ToTimestamp(r.operation, r.key, r.value));
    BodyShapes(r.operation, r.key, r.value, "");
    assert body + "" == body;
    SeparatorShape(before);
  }

  lemma SeparatorShape(before: string)
    ensures before + BEFORE_TIMESTAMP + "" == before + "\",\"" + "timestamp" + "\":"
  {
    assert BEFORE_TIMESTAMP == "\",\"" + "timestamp" + "\":";
  }

  /** What a torn last line contributes: nothing before the first timestamp digit or with a hazardous
      key, and otherwise its operation, key and value, with the digits that are there. */
  function TornEntry(r: LogEntry, n: nat): seq<LogEntry>
    requires IsRecord(r) && n <= |LineOf(r)|
  {
    var body, digits := |LineBody(r.operation, r.key, r.value)|, Digits(r.timestamp);
    if n <= body || Hazardous(r.key) then []
    else if n - body < |digits| then [r.(timestamp := Value(digits[..n - body]))]
    else [r]
  }

  lemma TornLine(r: LogEntry, n: nat)
    requires IsRecord(r) && n <= |LineOf(r)|
    ensures Recovered(LineOf(r)[..n]) == TornEntry(r, n)
  {
    hide Hazardous, Parsed, LineBody, FindFrom;
    var (line, body, digits) := (LineOf(r), LineBody(r.operation, r.key, r.value), Digits(r.timestamp));
    var (torn, k) := (line[..n], n - |body|);
    LineOneLine(r);
    NoChar(torn, '\n', 0);
    DigitsValue(r.timestamp);
    assert line == body + digits + "}" && line == body + (digits + "}");
    if Hazardous(r.key) {
      HazardCut(r.operation, r.key, r.value, digits + "}", n);
    } else if n <= |body| {
      assert torn == body[..n];
      TornBody(r, n);
    } else if k < |digits| {
      PrefixValue(digits, k);
      assert torn == body + (digits[..k] + "");
      LineParses(r.operation, r.key, r.value, digits[..k], "");
    } else {
      var rest := "}"[..k - |digits|];
      assert torn == body + (digits + rest);
      LineParses(r.operation, r.key, r.value, digits, rest);
    }
  }

  /** A crash in the middle of one append loses at most that record: replay returns the whole
      records, and the last one exactly when a timestamp digit of it was written. A hazardous key, of
      an earlier record or of the torn one, ends the replay as it does in a whole log. */
  lemma TornTail(rs: seq<LogEntry>, r: LogEntry, n: nat)
    requires AreRecords(rs) && IsRecord(r) && n <= |LineOf(r)|
    ensures Recovered(LogText(rs) + LineOf(r)[..n]) == if Clean(rs) then rs + TornEntry(r, n) else Kept(rs)
    ensures |TornEntry(r, n)| == if n > |LineBody(r.operation, r.key, r.value)| && !Hazardous(r.key) then 1 else 0
    ensures forall e :: e in TornEntry(r, n) ==> e.operation == r.operation && e.key == r.key && e.value == r.value
  {
    hide Hazardous;
    RecoverThen(rs, LineOf(r)[..n]);
    TornLine(r, n);
  }
}
