/** Reading one line of the log: field search, closing quote, number (src/core/wal.cpp:19-98, 280-297). */
module LogLine {
  import opened Records
  import opened Decimal
  import opened JsonText

  predicate OccursAt(s: string, pattern: string, i: int) {
    0 <= i && i + |pattern| <= |s| && s[i..i + |pattern|] == pattern
  }

  /** `s.find(pattern, from)`, with -1 for `npos`. */
  function FindFrom(s: string, pattern: string, from: nat): (at: int)
    ensures at == -1 || (from <= at && OccursAt(s, pattern, at))
    decreases |s| - from
  {
    if from + |pattern| > |s| then -1
    else if s[from..from + |pattern|] == pattern then from
    else FindFrom(s, pattern, from + 1)
  }

  lemma {:induction false} FindIsFirst(s: string, pattern: string, from: nat, i: int)
    requires OccursAt(s, pattern, i) && from <= i
    ensures FindFrom(s, pattern, from) != -1 && FindFrom(s, pattern, from) <= i
    decreases |s| - from
  {
    if s[from..from + |pattern|] != pattern {
      FindIsFirst(s, pattern, from + 1, i);
    }
  }

  /** The first closing quote from `end` on: a quote after an even run of backslashes that does
      not reach back past `start`; the length of the line when there is none. */
  function CloseFrom(line: string, start: nat, end: nat): (at: nat)
    requires start <= end <= |line|
    ensures end <= at <= |line|
    decreases |line| - end
  {
    if end == |line| then end
    else if line[end] == '"' && Run(line[start..end]) % 2 == 0 then end
    else CloseFrom(line, start, end + 1)
  }

  function Quoted(name: string): string { "\"" + name + "\"" }

  /** The position of the colon after the first occurrence of the quoted name, or -1. */
  function ColonOf(line: string, name: string): (at: int)
    ensures at == -1 || 0 <= at < |line|
  {
    var pos := FindFrom(line, Quoted(name), 0);
    if pos == -1 then -1 else FindFrom(line, ":", pos + |Quoted(name)|)
  }

  function StringField(line: string, name: string): Option<string> {
    var colon := ColonOf(line, name);
    if colon == -1 then None
    else
      var open := FindFrom(line, "\"", colon);
      if open == -1 then None
      else
        var end := CloseFrom(line, open + 1, open + 1);
        if end >= |line| then None else Some(line[open + 1..end])
  }

  /** Counts the backslashes just before `end`. */
  method CountSlashes(line: string, start: nat, end: nat) returns (slashes: nat)
    requires start <= end <= |line|
    ensures slashes == Run(line[start..end])
  {
    slashes := 0;
    var p := end;
    while p > start && line[p - 1] == '\\'
      invariant start <= p <= end
      invariant slashes + Run(line[start..p]) == Run(line[start..end])
    {
      assert line[start..p][..p - start - 1] == line[start..p - 1];
      slashes := slashes + 1;
      p := p - 1;
    }
  }

  /** The loop that looks for the quote closing the text from `start`; an escaped one does not. */
  method FindClose(line: string, start: nat) returns (end: nat)
    requires start <= |line|
    ensures end == CloseFrom(line, start, start)
  {
    end := start;
    while end < |line|
      invariant start <= end <= |line|
      invariant CloseFrom(line, start, end) == CloseFrom(line, start, start)
    {
      if line[end] == '"' {
        var slashes := CountSlashes(line, start, end);
        if slashes % 2 == 0 {
          break;
        }
      }
      end := end + 1;
    }
  }

  method ParseStringField(line: string, name: string) returns (value: Option<string>)
    ensures value == StringField(line, name)
  {
    hide FindFrom, CloseFrom;
    var target := Quoted(name);
    var pos := FindFrom(line, target, 0);
    if pos == -1 {
      return None;
    }
    pos := FindFrom(line, ":", pos + |target|);
    if pos == -1 {
      return None;
    }
    pos := FindFrom(line, "\"", pos);
    if pos == -1 {
      return None;
    }
    var start := pos + 1;
    var end := FindClose(line, start);
    if end >= |line| {
      return None;
    }
    return Some(line[start..end]);
  }

  predicate IsBlank(c: char) { c == ' ' || c == '\t' }

  function SkipBlanks(line: string, pos: nat): (end: nat)
    requires pos <= |line|
    ensures pos <= end <= |line|
    decreases |line| - pos
  {
    if pos < |line| && IsBlank(line[pos]) then SkipBlanks(line, pos + 1) else pos
  }

  const INT64_MAX: int := 0x7FFF_FFFF_FFFF_FFFF
  const INT64_MIN: int := -0x8000_0000_0000_0000

  /** `std::stoll` of an optional minus sign and the digits after it; none when it throws. */
  function Stoll(negative: bool, digits: string): Option<int>
    requires AllDigits(digits)
  {
    if digits == "" then None
    else
      var magnitude: int := Value(digits);
      var n := if negative then -magnitude else magnitude;
      if INT64_MIN <= n <= INT64_MAX then Some(n) else None
  }

  function IntegerField(line: string, name: string): Option<int> {
    var colon := ColonOf(line, name);
    if colon == -1 then None
    else
      var pos := SkipBlanks(line, colon + 1);
      if pos >= |line| then None
      else
        var negative := line[pos] == '-';
        var first := if negative then pos + 1 else pos;
        Stoll(negative, line[first..DigitsEnd(line, first)])
  }

  method FindNonBlank(line: string, start: nat) returns (pos: nat)
    requires start <= |line|
    ensures pos == SkipBlanks(line, start)
  {
    pos := start;
    while pos < |line| && IsBlank(line[pos])
      invariant start <= pos <= |line| && SkipBlanks(line, pos) == SkipBlanks(line, start)
    {
      pos := pos + 1;
    }
  }

  method FindNonDigit(line: string, start: nat) returns (end: nat)
    requires start <= |line|
    ensures end == DigitsEnd(line, start)
  {
    end := start;
    while end < |line| && IsDigit(line[end])
      invariant start <= end <= |line| && DigitsEnd(line, end) == DigitsEnd(line, start)
    {
      end := end + 1;
    }
  }

  method ParseIntegerField(line: string, name: string) returns (value: Option<int>)
    ensures value == IntegerField(line, name)
  {
    hide FindFrom, SkipBlanks, DigitsEnd, Value, AllDigits;
    var target := Quoted(name);
    var pos := FindFrom(line, target, 0);
    if pos == -1 {
      return None;
    }
    pos := FindFrom(line, ":", pos + |target|);
    if pos == -1 {
      return None;
    }
    pos := FindNonBlank(line, pos + 1);
    if pos >= |line| {
      return None;
    }
    var first := if line[pos] == '-' then pos + 1 else pos;
    var end := FindNonDigit(line, first);
    if end == pos {
      return None;
    }
    return Stoll(line[pos] == '-', line[first..end]);
  }

  datatype LogEntry = LogEntry(operation: string, key: string, value: string, timestamp: int)

  function Parsed(line: string): Option<LogEntry> {
    var operation, key, value := StringField(line, "operation"), StringField(line, "key"), StringField(line, "value");
    var timestamp := IntegerField(line, "timestamp");
    if operation.None? || key.None? || value.None? || timestamp.None? then None
    else Some(LogEntry(Unescape(operation.value), Unescape(key.value), Unescape(value.value), timestamp.value))
  }

  method ParseLogEntry(line: string) returns (entry: Option<LogEntry>)
    ensures entry == Parsed(line)
  {
    var operation := ParseStringField(line, "operation");
    if operation.None? { return None; }
    var key := ParseStringField(line, "key");
    if key.None? { return None; }
    var value := ParseStringField(line, "value");
    if value.None? { return None; }
    var timestamp := ParseIntegerField(line, "timestamp");
    if timestamp.None? { return None; }
    var op := UnescapeJSON(operation.value);
    var k := UnescapeJSON(key.value);
    var v := UnescapeJSON(value.value);
    return Some(LogEntry(op, k, v, timestamp.value));
  }
}
