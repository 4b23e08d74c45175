/** Which log records survive being written and read back. */
module LogTheorems {
  import opened Records
  import opened Decimal
  import opened JsonText
  import opened LogLine
  import opened LogRoundTrip

  predicate IsOperation(operation: string) { operation == PUT || operation == DELETE }

  // The line, cut before each field's quote.

  function ToKey(operation: string): string { BEFORE_OPERATION + operation }
  function ToKeyText(operation: string): string { ToKey(operation) + BEFORE_KEY }
  function ToValue(operation: string, key: string): string { ToKeyText(operation) + Escape(key) }
  function ToValueText(operation: string, key: string): string { ToValue(operation, key) + BEFORE_VALUE }
  function ToTimestamp(operation: string, key: string, value: string): string {
    ToValueText(operation, key) + Escape(value)
  }

  lemma PlainChar(c: char)
    requires ' ' <= c && c != '"' && c != '\\'
    ensures EscapeChar(c) == [c]
  {
  }

  lemma {:induction false} PlainEscapes(s: string)
    requires forall i :: 0 <= i < |s| ==> ' ' <= s[i] && s[i] != '"' && s[i] != '\\'
    ensures Escape(s) == s
  {
    hide EscapeChar;
    if s != "" {
      PlainEscapes(s[..|s| - 1]);
      PlainChar(s[|s| - 1]);
      assert s == s[..|s| - 1] + [s[|s| - 1]];
    }
  }

  lemma OperationEscapes(operation: string)
    requires IsOperation(operation)
    ensures Escape(operation) == operation
  {
    PlainEscapes(operation);
  }

  lemma FreeBySecond(s: string, name: string)
    requires IsName(name)
    requires forall i :: 0 <= i < |s| - 1 && s[i] == '"' ==> s[i + 1] != name[0]
    ensures Free(s, name)
  {
    forall i ensures !OccursAt(s, Quoted(name), i) {
      if OccursAt(s, Quoted(name), i) {
        OccursChars(s, name, i);
      }
    }
  }

  lemma LiteralsFree(operation: string)
    requires IsOperation(operation)
    ensures Free(ToKey(operation), "key")
    ensures Free(ToKeyText(operation), "value") && Free(ToKeyText(operation), "timestamp")
    ensures Free(BEFORE_VALUE, "timestamp")
  {
    hide ToKey, ToKeyText, Free;
    OperationLiteral(operation);
    ValueLiteral(operation);
    TimestampLiteral(operation);
    FreeBySecond(BEFORE_VALUE, "timestamp");
  }

  lemma OperationLiteral(operation: string)
    requires IsOperation(operation)
    ensures Free(ToKey(operation), "key")
  {
    FreeBySecond(ToKey(operation), "key");
  }

  lemma ValueLiteral(operation: string)
    requires IsOperation(operation)
    ensures Free(ToKeyText(operation), "value")
  {
    FreeBySecond(ToKeyText(operation), "value");
  }

  lemma TimestampLiteral(operation: string)
    requires IsOperation(operation)
    ensures Free(ToKeyText(operation), "timestamp")
  {
    FreeBySecond(ToKeyText(operation), "timestamp");
  }

  // ---- the keys that end the timestamp's name early ----

  lemma EscapeShape(c: char)
    ensures var x := EscapeChar(c);
      && (|x| == 1 ==> x == [c] && c != '"' && c != '\\')
      && (|x| != 1 ==> |x| >= 2 && (x[|x| - 2] == '\\' || x[|x| - 2] == '0' || x[|x| - 2] == '1'))
      && (x[|x| - 1] == '"' <==> c == '"')
      && ('a' <= c <= 'z' ==> |x| == 1)
  {
  }

  /** Escaping creates no word of letters after a quote, and hides none. */
  lemma {:induction false} QuotedWord(key: string, word: string)
    requires forall i :: 0 <= i < |word| ==> 'a' <= word[i] <= 'z'
    ensures EndsWith("\"" + Escape(key), "\"" + word) <==> key == word || EndsWith(key, "\"" + word)
  {
    hide EscapeChar;
    if key != "" {
      var (k, c) := (key[..|key| - 1], key[|key| - 1]);
      EscapeShape(c);
      if word != "" {
        QuotedWord(k, word[..|word| - 1]);
        WordStep(key, word);
      }
    }
  }

  lemma LastOfEnding(w: string)
    requires forall i :: 0 <= i < |w| ==> 'a' <= w[i] <= 'z'
    ensures var last := ("\"" + w)[|w|]; last == '"' || 'a' <= last <= 'z'
  {
    if w != "" {
      assert ("\"" + w)[|w|] == w[|w| - 1];
    }
  }

  lemma WordStepCore(p: string, x: string, k: string, c: char, w: string, d: char)
    requires EndsWith(p, "\"" + w) <==> k == w || EndsWith(k, "\"" + w)
    requires 'a' <= d <= 'z' && forall i :: 0 <= i < |w| ==> 'a' <= w[i] <= 'z'
    requires x != "" && (|x| == 1 ==> x == [c]) && ('a' <= c <= 'z' ==> |x| == 1)
    requires |x| != 1 ==> x[|x| - 2] == '\\' || x[|x| - 2] == '0' || x[|x| - 2] == '1'
    ensures EndsWith(p + x, ("\"" + w) + [d]) <==> (k == w && c == d) || EndsWith(k + [c], ("\"" + w) + [d])
  {
    hide EndsWith;
    LastOfEnding(w);
    EndsAppend(k, [c], "\"" + w, d);
    EndsAppend(p, x, "\"" + w, d);
  }

  lemma EscapeLast(s: string)
    requires s != ""
    ensures Escape(s) == Escape(s[..|s| - 1]) + EscapeChar(s[|s| - 1])
  {
  }

  lemma QuotedAppend(s: string, t: string)
    ensures "\"" + (s + t) == ("\"" + s) + t
  {
  }

  lemma Unsnoc(s: string)
    requires s != ""
    ensures s == s[..|s| - 1] + [s[|s| - 1]]
  {
  }

  lemma SnocInjective(s: string, c: char, t: string, d: char)
    ensures s + [c] == t + [d] <==> s == t && c == d
  {
    if s + [c] == t + [d] {
      assert s == (s + [c])[..|s|] && t == (t + [d])[..|t|];
    }
  }

  lemma WordStep(key: string, word: string)
    requires key != "" && word != "" && forall i :: 0 <= i < |word| ==> 'a' <= word[i] <= 'z'
    requires var (k, w) := (key[..|key| - 1], word[..|word| - 1]);
      EndsWith("\"" + Escape(k), "\"" + w) <==> k == w || EndsWith(k, "\"" + w)
    ensures EndsWith("\"" + Escape(key), "\"" + word) <==> key == word || EndsWith(key, "\"" + word)
  {
    hide *;
    var (k, c) := (key[..|key| - 1], key[|key| - 1]);
    var (w, d) := (word[..|word| - 1], word[|word| - 1]);
    EscapeLast(key);
    EscapeShape(c);
    var (q, x, end) := ("\"" + Escape(k), EscapeChar(c), "\"" + w);
    WordStepCore(q, x, k, c, w, d);
    QuotedAppend(Escape(k), x);
    QuotedAppend(w, [d]);
    Unsnoc(key);
    Unsnoc(word);
    SnocInjective(k, c, w, d);
    assert "\"" + Escape(key) == q + x && "\"" + word == end + [d] && key == k + [c];
    assert key == word <==> k == w && c == d;
  }

  /** Appending text whose last two characters cannot both lie in the ending. */
  lemma EndsAppend(s: string, x: string, end: string, d: char)
    requires x != "" && end != ""
    ensures |x| == 1 ==> (EndsWith(s + x, end + [d]) <==> EndsWith(s, end) && x[0] == d)
    ensures |x| >= 2 && EndsWith(s + x, end + [d]) ==> x[|x| - 1] == d && x[|x| - 2] == end[|end| - 1]
  {
    var (t, f) := (s + x, end + [d]);
    if EndsWith(t, f) {
      assert t[|t| - |f|..][|f| - 1] == d && t[|t| - |f|..][|f| - 2] == end[|end| - 1];
      if |x| == 1 {
        assert s[|s| - |end|..] == t[|t| - |f|..][..|end|];
      }
    }
    if |x| == 1 && EndsWith(s, end) && x[0] == d {
      assert t[|t| - |f|..] == s[|s| - |end|..] + [d];
    }
  }

  lemma EndsInQuoted(before: string, e: string, word: string)
    requires IsName(word)
    ensures EndsWith(before + "\"" + e, "\"" + word) <==> EndsWith("\"" + e, "\"" + word)
  {
    var (q, end) := ("\"" + e, "\"" + word);
    var t := before + "\"" + e;
    assert t == before + q;
    if |end| <= |q| {
      assert t[|t| - |end|..] == q[|q| - |end|..];
    } else if |end| <= |t| {
      var tail := t[|t| - |end|..];
      assert tail[|end| - |q|] == '"';
    }
  }

  /** The key's closing quote completes the timestamp's name exactly for a hazardous key. */
  lemma HazardOccurs(operation: string, key: string)
    requires IsOperation(operation)
    ensures OccursAt(ToValue(operation, key) + "\"", Quoted("timestamp"), |ToValue(operation, key)| - 10)
            <==> Hazardous(key)
  {
    hide Escape, EndsWith, OccursAt, Hazardous;
    QuotedWord(key, "timestamp");
    var s := ToValue(operation, key);
    ToValueQuoted(operation, key);
    EndsInQuoted(ToKey(operation) + "\",\"key\":", Escape(key), "timestamp");
    OccursAtEnd(s, "timestamp");
    HazardousEnds(key);
  }

  lemma HazardousEnds(key: string)
    ensures Hazardous(key) <==> key == "timestamp" || EndsWith(key, "\"" + "timestamp")
  {
    assert "\"" + "timestamp" == "\"timestamp";
  }

  lemma ToValueQuoted(operation: string, key: string)
    ensures ToValue(operation, key) == (ToKey(operation) + "\",\"key\":") + "\"" + Escape(key)
  {
    hide Escape;
    assert BEFORE_KEY == "\",\"key\":" + "\"";
  }

  lemma OccursAtEnd(s: string, name: string)
    ensures OccursAt(s + "\"", Quoted(name), |s| - |name| - 1) <==> EndsWith(s, "\"" + name)
  {
    var (t, end, at) := (s + "\"", "\"" + name, |s| - |name| - 1);
    assert Quoted(name) == end + "\"";
    if at >= 0 {
      assert t[at..at + |Quoted(name)|] == s[at..] + "\"";
      SnocInjective(s[at..], '"', end, '"');
    }
  }

  lemma FreeToTimestamp(operation: string, key: string, value: string)
    requires IsOperation(operation) && !Hazardous(key)
    ensures Free(ToTimestamp(operation, key, value), "timestamp")
  {
    hide Escape, Free;
    LiteralsFree(operation);
    FreeAfterEscaped(ToKeyText(operation), key, "timestamp");
    HazardOccurs(operation, key);
    FreeAfterSeparator(ToValue(operation, key), BEFORE_VALUE, "timestamp");
    FreeAfterEscaped(ToValueText(operation, key), value, "timestamp");
  }

  // ---- the fields of a line ----

  /** The text of the first field, whatever the line goes on with. */
  lemma OperationText(e: string, rest: string)
    requires Escaped(e)
    ensures StringField(BEFORE_OPERATION + e + "\"" + rest, "operation") == Some(e)
  {
    hide StringField, FindFrom, Escaped;
    var (line, name) := (BEFORE_OPERATION + e + "\"" + rest, "operation");
    assert line[1..12] == Quoted(name);
    assert FindFrom(line, Quoted(name), 0) == 1 by { FindFromOne(line, Quoted(name)); }
    assert line[12] == ':' && line[13] == '"';
    FindCharAt(line, ':', 12, 12);
    assert line[13..] == "\"" + e + "\"" + rest;
    TextAfter(line, name, 13, e, rest);
  }

  lemma OperationField(operation: string, rest: string)
    requires IsOperation(operation)
    ensures StringField(BEFORE_OPERATION + Escape(operation) + BEFORE_KEY + rest, "operation") == Some(operation)
  {
    hide StringField, Escape, Escaped;
    OperationEscapes(operation);
    EscapeIsEscaped(operation);
    OperationText(operation, BEFORE_KEY[1..] + rest);
    assert BEFORE_OPERATION + operation + BEFORE_KEY + rest
           == BEFORE_OPERATION + operation + "\"" + (BEFORE_KEY[1..] + rest);
  }

  lemma FindFromOne(line: string, pattern: string)
    requires OccursAt(line, pattern, 1) && pattern != "" && line[0] != pattern[0]
    ensures FindFrom(line, pattern, 0) == 1
  {
    assert line[0..|pattern|][0] == line[0];
  }

  lemma KeyField(operation: string, key: string, rest: string)
    requires IsOperation(operation)
    ensures StringField(BEFORE_OPERATION + Escape(operation) + BEFORE_KEY + Escape(key) + BEFORE_VALUE + rest, "key")
            == Some(Escape(key))
  {
    hide StringField, Escape, Free;
    OperationEscapes(operation);
    LiteralsFree(operation);
    var line := BEFORE_OPERATION + Escape(operation) + BEFORE_KEY + Escape(key) + BEFORE_VALUE + rest;
    var after := BEFORE_VALUE[1..] + rest;
    assert line == ToKey(operation) + "\",\"" + "key" + "\":" + ("\"" + Escape(key) + "\"" + after);
    StringFieldAfter(ToKey(operation), "key", key, after);
  }

  lemma ValueField(operation: string, key: string, value: string, rest: string)
    requires IsOperation(operation)
    ensures StringField(ToValueText(operation, key) + Escape(value) + BEFORE_TIMESTAMP + rest, "value")
            == Some(Escape(value))
  {
    hide StringField, Escape, Free;
    LiteralsFree(operation);
    FreeAfterEscaped(ToKeyText(operation), key, "value");
    var line := ToValueText(operation, key) + Escape(value) + BEFORE_TIMESTAMP + rest;
    var (before, after) := (ToValue(operation, key), BEFORE_TIMESTAMP[1..] + rest);
    assert line == before + "\",\"" + "value" + "\":" + ("\"" + Escape(value) + "\"" + after);
    StringFieldAfter(before, "value", value, after);
  }

  lemma TimestampField(operation: string, key: string, value: string, digits: string, rest: string)
    requires IsOperation(operation) && !Hazardous(key)
    requires AllDigits(digits) && digits != "" && (rest == "" || !IsDigit(rest[0]))
    ensures IntegerField(ToTimestamp(operation, key, value) + BEFORE_TIMESTAMP + (digits + rest), "timestamp")
            == Stoll(false, digits)
  {
    hide IntegerField, Free, Stoll, ToTimestamp;
    FreeToTimestamp(operation, key, value);
    var before := ToTimestamp(operation, key, value);
    IntegerFieldAfter(before, "timestamp", digits, rest);
    assert before + BEFORE_TIMESTAMP + (digits + rest) == before + "\",\"" + "timestamp" + "\":" + (digits + rest);
  }

  lemma BodyShapes(operation: string, key: string, value: string, rest: string)
    requires IsOperation(operation)
    ensures var line := LineBody(operation, key, value) + rest;
      && line == BEFORE_OPERATION + Escape(operation) + BEFORE_KEY
                 + (Escape(key) + BEFORE_VALUE + Escape(value) + BEFORE_TIMESTAMP + rest)
      && line == BEFORE_OPERATION + Escape(operation) + BEFORE_KEY + Escape(key) + BEFORE_VALUE
                 + (Escape(value) + BEFORE_TIMESTAMP + rest)
      && line == ToValueText(operation, key) + Escape(value) + BEFORE_TIMESTAMP + rest
      && line == ToTimestamp(operation, key, value) + BEFORE_TIMESTAMP + rest
  {
    OperationEscapes(operation);
    hide Escape;
    var (a, b) := (BEFORE_OPERATION + Escape(operation) + BEFORE_KEY, Escape(key));
    Regroup(a, b, BEFORE_VALUE, Escape(value), BEFORE_TIMESTAMP, rest);
  }

  lemma Regroup(a: string, b: string, c: string, d: string, e: string, f: string)
    ensures a + b + c + d + e + f == a + (b + c + d + e + f)
    ensures a + b + c + d + e + f == a + b + c + (d + e + f)
  {
  }

  /** The three strings read back from any line that gets past the value's closing quote. */
  lemma StringFields(operation: string, key: string, value: string, rest: string)
    requires IsOperation(operation)
    ensures var line := LineBody(operation, key, value) + rest;
      && StringField(line, "operation") == Some(operation)
      && StringField(line, "key") == Some(Escape(key))
      && StringField(line, "value") == Some(Escape(value))
  {
    hide StringField, Escape, LineBody, ToValueText, ToTimestamp;
    BodyShapes(operation, key, value, rest);
    OperationField(operation, Escape(key) + BEFORE_VALUE + Escape(value) + BEFORE_TIMESTAMP + rest);
    KeyField(operation, key, Escape(value) + BEFORE_TIMESTAMP + rest);
    ValueField(operation, key, value, rest);
  }

  /** A line whose digits are present, whatever follows them, parses to its own fields. */
  lemma LineParses(operation: string, key: string, value: string, digits: string, rest: string)
    requires IsOperation(operation) && !Hazardous(key)
    requires AllDigits(digits) && digits != "" && Value(digits) <= INT64_MAX && (rest == "" || !IsDigit(rest[0]))
    ensures Parsed(LineBody(operation, key, value) + (digits + rest))
            == Some(LogEntry(operation, key, value, Value(digits)))
  {
    hide StringField, IntegerField, Escape, Unescape, LineBody, ToValueText, ToTimestamp, AllDigits;
    StringFields(operation, key, value, digits + rest);
    BodyShapes(operation, key, value, digits + rest);
    TimestampField(operation, key, value, digits, rest);
    OperationEscapes(operation);
    EscapeRoundTrip(operation);
    EscapeRoundTrip(key);
    EscapeRoundTrip(value);
  }

  lemma LineFromValue(operation: string, key: string, value: string, rest: string)
    requires IsOperation(operation)
    ensures LineBody(operation, key, value) + rest ==
      ToValue(operation, key) + (BEFORE_VALUE + (Escape(value) + BEFORE_TIMESTAMP + rest))
  {
    hide Escape;
    BodyShapes(operation, key, value, rest);
    OperationEscapes(operation);
  }

  /** With a hazardous key no part of the line has a readable timestamp, however it is cut. */
  lemma HazardCut(operation: string, key: string, value: string, rest: string, n: nat)
    requires IsOperation(operation) && Hazardous(key) && n <= |LineBody(operation, key, value) + rest|
    ensures Parsed((LineBody(operation, key, value) + rest)[..n]) == None
  {
    hide StringField, IntegerField, Escape, LineBody, ToValue, Free, OccursAt;
    var (line, s, name) := (LineBody(operation, key, value) + rest, ToValue(operation, key), "timestamp");
    LineFromValue(operation, key, value, rest);
    FreeToValue(operation, key);
    HazardOccurs(operation, key);
    CutTimestamp(s, BEFORE_VALUE + (Escape(value) + BEFORE_TIMESTAMP + rest), name, n);
  }

  lemma FreeToValue(operation: string, key: string)
    requires IsOperation(operation)
    ensures Free(ToValue(operation, key), "timestamp")
  {
    hide Escape, Free;
    LiteralsFree(operation);
    FreeAfterEscaped(ToKeyText(operation), key, "timestamp");
  }

  lemma CutTimestamp(s: string, tail: string, name: string, n: nat)
    requires Free(s, name) && name == "timestamp" && OccursAt(s + "\"", Quoted(name), |s| - 10)
    requires |tail| >= 11 && tail[..11] == BEFORE_VALUE && n <= |s + tail|
    ensures IntegerField((s + tail)[..n], name) == None
  {
    hide FindFrom, Free, OccursAt;
    var (line, torn) := (s + tail, (s + tail)[..n]);
    var pos := FindFrom(torn, Quoted(name), 0);
    if pos != -1 {
      assert line == torn + line[n..];
      OccursInLonger(torn, line[n..], Quoted(name), pos);
      FreePrefix(s, tail, name, pos);
      OccursChars(torn, name, pos);
      CutColon(s, tail, name, n);
    }
  }

  /** What is left of the name and the colon behind it. */
  lemma CutColon(s: string, tail: string, name: string, n: nat)
    requires Free(s, name) && name == "timestamp" && OccursAt(s + "\"", Quoted(name), |s| - 10)
    requires |tail| >= 11 && tail[..11] == BEFORE_VALUE && |s| < n <= |s + tail|
    ensures IntegerField((s + tail)[..n], name) == None
  {
    hide ColonOf, Free, OccursAt;
    var torn := (s + tail)[..n];
    CutChars(s, tail, n);
    CutName(s, tail, name, n);
    CutFind(s, torn, name);
  }

  lemma CutChars(s: string, tail: string, n: nat)
    requires |tail| >= 11 && tail[..11] == BEFORE_VALUE && |s| < n <= |s + tail|
    ensures var torn := (s + tail)[..n];
      && (forall j :: |s| <= j < n && j < |s| + 9 ==> torn[j] != ':')
      && (n > |s| + 9 ==> torn[|s| + 9] == ':') && (n > |s| + 10 ==> torn[|s| + 10] == '"')
  {
    var torn := (s + tail)[..n];
    forall j | |s| <= j < n && j < |s| + 11 ensures torn[j] == BEFORE_VALUE[j - |s|] {
      assert torn[j] == tail[..11][j - |s|];
    }
  }

  lemma CutName(s: string, tail: string, name: string, n: nat)
    requires Free(s, name) && name == "timestamp" && OccursAt(s + "\"", Quoted(name), |s| - 10)
    requires |tail| >= 11 && tail[..11] == BEFORE_VALUE && |s| < n <= |s + tail|
    ensures |s| >= 10 && FindFrom((s + tail)[..n], Quoted(name), 0) == |s| - 10
  {
    hide FindFrom, Free;
    var torn := (s + tail)[..n];
    var cut := torn[|s|..];
    assert torn == s + cut && cut[0] == tail[..11][0] == '"';
    assert torn == (s + "\"") + cut[1..];
    OccursInLonger(s + "\"", cut[1..], Quoted(name), |s| - 10);
    FindIsFirst(torn, Quoted(name), 0, |s| - 10);
    FreePrefix(s, cut, name, FindFrom(torn, Quoted(name), 0));
  }

  lemma CutFind(s: string, torn: string, name: string)
    requires FindFrom(torn, Quoted(name), 0) == |s| - 10 && |s| >= 10 && |Quoted(name)| == 11
    requires forall j :: |s| <= j < |torn| && j < |s| + 9 ==> torn[j] != ':'
    requires |torn| > |s| + 9 ==> torn[|s| + 9] == ':'
    ensures ColonOf(torn, name) == if |torn| <= |s| + 9 then -1 else |s| + 9
  {
    hide FindFrom;
    if |torn| <= |s| + 9 {
      NoChar(torn, ':', |s| + 1);
    } else {
      FindCharAt(torn, ':', |s| + 1, |s| + 9);
    }
  }

  lemma {:induction false} NoChar(s: string, c: char, from: nat)
    requires forall i :: from <= i < |s| ==> s[i] != c
    ensures FindFrom(s, [c], from) == -1
    decreases |s| - from
  {
    if from + 1 <= |s| {
      assert s[from..from + 1] == [s[from]];
      NoChar(s, c, from + 1);
    }
  }

  /** With a hazardous key the timestamp lookup lands on the value's colon, and nothing parses. */
  lemma HazardFails(operation: string, key: string, value: string, rest: string)
    requires IsOperation(operation) && Hazardous(key)
    ensures Parsed(LineBody(operation, key, value) + rest) == None
  {
    hide Parsed, LineBody, Hazardous;
    var line := LineBody(operation, key, value) + rest;
    HazardCut(operation, key, value, rest, |line|);
    assert line[..|line|] == line;
  }

  /** A log line reads back as its four fields exactly when its key is not hazardous. */
  lemma LineRoundTrip(operation: string, key: string, value: string, timestamp: nat)
    requires IsOperation(operation) && timestamp <= INT64_MAX
    ensures Parsed(FormatLine(operation, key, value, timestamp)) ==
      if Hazardous(key) then None else Some(LogEntry(operation, key, value, timestamp))
    ensures Parsed(FormatLine(operation, key, value, timestamp)) == Some(LogEntry(operation, key, value, timestamp))
            <==> !Hazardous(key)
  {
    hide Parsed, LineBody, Hazardous;
    var (body, digits) := (LineBody(operation, key, value), Digits(timestamp));
    DigitsValue(timestamp);
    assert FormatLine(operation, key, value, timestamp) == body + (digits + "}");
    if Hazardous(key) {
      HazardFails(operation, key, value, digits + "}");
    } else {
      LineParses(operation, key, value, digits, "}");
    }
  }
}
