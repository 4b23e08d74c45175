/** A formatted log line, read back: which keys survive, and what a torn line gives. */
module LogRoundTrip {
  import opened Records
  import opened Decimal
  import opened JsonText
  import opened LogLine

  const PUT := "PUT"
  const DELETE := "DELETE"

  const BEFORE_OPERATION := "{\"operation\":\""
  const BEFORE_KEY := "\",\"key\":\""
  const BEFORE_VALUE := "\",\"value\":\""
  const BEFORE_TIMESTAMP := "\",\"timestamp\":"

  /** The line up to the timestamp's digits. */
  function LineBody(operation: string, key: string, value: string): string {
    BEFORE_OPERATION + Escape(operation) + BEFORE_KEY + Escape(key) + BEFORE_VALUE + Escape(value) + BEFORE_TIMESTAMP
  }

  /** The line `Append` writes, without its line break. */
  function FormatLine(operation: string, key: string, value: string, timestamp: nat): string {
    LineBody(operation, key, value) + Digits(timestamp) + "}"
  }

  predicate EndsWith(s: string, end: string) {
    |end| <= |s| && s[|s| - |end|..] == end
  }

  /** Keys that make the timestamp lookup match inside the key. */
  predicate Hazardous(key: string) {
    key == "timestamp" || EndsWith(key, "\"timestamp")
  }

  /** `name` is a field name: letters only. */
  predicate IsName(name: string) {
    name != "" && forall i :: 0 <= i < |name| ==> 'a' <= name[i] <= 'z'
  }

  /** The quoted name does not occur in `s`. */
  ghost predicate Free(s: string, name: string) {
    forall i :: !OccursAt(s, Quoted(name), i)
  }

  lemma OccursChars(s: string, name: string, i: int)
    requires OccursAt(s, Quoted(name), i)
    ensures 0 <= i && i + |name| + 2 <= |s| && s[i] == '"' && s[i + |name| + 1] == '"'
    ensures forall j :: i < j < i + |name| + 1 ==> s[j] == name[j - i - 1]
    ensures name != "" ==> s[i + 1] == name[0]
  {
    var t := s[i..i + |name| + 2];
    assert t == Quoted(name);
    assert s[i] == t[0] && s[i + |name| + 1] == t[|name| + 1];
    forall j | i < j < i + |name| + 1 ensures s[j] == name[j - i - 1] {
      assert s[j] == t[j - i] == name[j - i - 1];
    }
  }

  lemma OccursFrom(s: string, name: string, i: int)
    requires 0 <= i && i + |name| + 2 <= |s| && s[i] == '"' && s[i + |name| + 1] == '"'
    requires s[i + 1..i + |name| + 1] == name
    ensures OccursAt(s, Quoted(name), i)
  {
    assert s[i..i + |name| + 2] == [s[i]] + s[i + 1..i + |name| + 1] + [s[i + |name| + 1]];
  }

  /** An occurrence that ends inside a prefix is an occurrence in the prefix. */
  lemma OccursInPrefix(s: string, t: string, pattern: string, i: int)
    requires OccursAt(s + t, pattern, i) && i + |pattern| <= |s|
    ensures OccursAt(s, pattern, i)
  {
    assert (s + t)[i..i + |pattern|] == s[i..i + |pattern|];
  }

  lemma OccursInLonger(s: string, t: string, pattern: string, i: int)
    requires OccursAt(s, pattern, i)
    ensures OccursAt(s + t, pattern, i)
  {
    assert (s + t)[i..i + |pattern|] == s[i..i + |pattern|];
  }

  lemma BackslashBefore(e: string, i: nat)
    requires Escaped(e) && i < |e| && e[i] == '"'
    ensures 0 < i && e[i - 1] == '\\'
  {
    var p := e[..i];
    assert Run(p) % 2 == 1;
    assert p[|p| - 1] == '\\';
  }

  /** Escaped text never completes a quoted name: its quotes all follow a backslash. */
  lemma FreeAfterText(s: string, e: string, name: string)
    requires Free(s, name) && IsName(name) && Escaped(e)
    ensures Free(s + e, name)
  {
    hide Escaped, Run;
    var t := s + e;
    forall i ensures !OccursAt(t, Quoted(name), i) {
      if OccursAt(t, Quoted(name), i) {
        OccursChars(t, name, i);
        var close := i + |name| + 1;
        assert t[close - 1] == name[|name| - 1];
        if close < |s| {
          OccursInPrefix(s, e, Quoted(name), i);
        } else {
          assert close > |s| ==> e[close - |s| - 1] == t[close - 1];
          BackslashBefore(e, close - |s|);
        }
      }
    }
  }

  lemma FreeAfterEscaped(s: string, x: string, name: string)
    requires Free(s, name) && IsName(name)
    ensures Free(s + Escape(x), name)
  {
    EscapeIsEscaped(x);
    FreeAfterText(s, Escape(x), name);
  }

  lemma OccursInSuffix(s: string, t: string, pattern: string, i: int)
    requires OccursAt(s + t, pattern, i) && |s| <= i
    ensures OccursAt(t, pattern, i - |s|)
  {
    assert (s + t)[i..i + |pattern|] == t[i - |s|..i - |s| + |pattern|];
  }

  /** A name has no quote inside, so an occurrence cannot run across one. */
  lemma SeparatorQuote(s: string, separator: string, name: string, i: int)
    requires IsName(name) && separator != "" && separator[0] == '"'
    requires OccursAt(s + separator, Quoted(name), i) && |s| <= i + |name| + 1
    ensures i + |name| + 1 == |s| || |s| <= i
  {
    hide OccursAt;
    var t := s + separator;
    OccursChars(t, name, i);
    assert t[|s|] == '"';
  }

  /** A separator that starts with a quote completes the name only by its first quote. */
  lemma FreeAfterSeparator(s: string, separator: string, name: string)
    requires Free(s, name) && IsName(name) && separator != "" && separator[0] == '"' && Free(separator, name)
    requires !OccursAt(s + "\"", Quoted(name), |s| - |name| - 1)
    ensures Free(s + separator, name)
  {
    var t := s + separator;
    forall i ensures !OccursAt(t, Quoted(name), i) {
      if OccursAt(t, Quoted(name), i) {
        var close := i + |name| + 1;
        if close < |s| {
          OccursInPrefix(s, separator, Quoted(name), i);
        } else {
          assert t == (s + "\"") + separator[1..];
          SeparatorQuote(s, separator, name, i);
          if close == |s| {
            OccursInPrefix(s + "\"", separator[1..], Quoted(name), i);
          } else {
            OccursInSuffix(s, separator, Quoted(name), i);
          }
        }
      }
    }
  }

  // ---- finding a field that is written as ,"name": after a quote ----

  lemma {:induction false} FindCharAt(s: string, c: char, from: nat, at: nat)
    requires from <= at < |s| && s[at] == c && forall i :: from <= i < at ==> s[i] != c
    ensures FindFrom(s, [c], from) == at
    decreases at - from
  {
    assert s[from..from + 1] == [s[from]];
    if from < at {
      FindCharAt(s, c, from + 1, at);
    }
  }

  /** Whether the first occurrence is the field itself or ends at the quote just before it, the
      colon found is the field's. */
  lemma FieldColon(before: string, name: string, after: string)
    requires Free(before, name) && IsName(name)
    ensures ColonOf(before + "\",\"" + name + "\":" + after, name) == |before| + 4 + |name|
  {
    hide Free, FindFrom;
    var line := before + "\",\"" + name + "\":" + after;
    var (b, n) := (|before|, |name|);
    var pos := FirstOccurrence(before, name, after);
    assert forall i :: 0 <= i < n ==> line[b + 3 + i] == name[i];
    assert line[b] == '"' && line[b + 1] == ',' && line[b + 2] == '"';
    assert line[b + 3 + n] == '"' && line[b + 4 + n] == ':';
    FindCharAt(line, ':', pos + n + 2, b + 4 + n);
  }

  lemma FirstOccurrence(before: string, name: string, after: string) returns (pos: int)
    requires Free(before, name) && IsName(name)
    ensures var line, b := before + "\",\"" + name + "\":" + after, |before|;
      && pos == FindFrom(line, Quoted(name), 0) && OccursAt(line, Quoted(name), pos)
      && (pos + |name| + 1 == b || pos == b + 2)
  {
    hide FindFrom, Free, OccursAt;
    var line := before + "\",\"" + name + "\":" + after;
    var (b, n) := (|before|, |name|);
    assert line[b + 3..b + 3 + n] == name;
    assert line[b] == '"' && line[b + 1] == ',' && line[b + 2] == '"' && line[b + 3 + n] == '"';
    OccursFrom(line, name, b + 2);
    FindIsFirst(line, Quoted(name), 0, b + 2);
    pos := FindFrom(line, Quoted(name), 0);
    assert line == before + ("\",\"" + name + "\":" + after);
    FreePrefix(before, "\",\"" + name + "\":" + after, name, pos);
    NoQuoteInside(line, name, pos, b);
  }

  lemma FreePrefix(s: string, t: string, name: string, i: int)
    requires Free(s, name) && OccursAt(s + t, Quoted(name), i)
    ensures |s| <= i + |name| + 1
  {
    if i + |name| + 1 < |s| {
      OccursInPrefix(s, t, Quoted(name), i);
    }
  }

  lemma NoQuoteInside(line: string, name: string, pos: int, b: nat)
    requires IsName(name) && OccursAt(line, Quoted(name), pos) && pos <= b + 2 && b <= pos + |name| + 1
    requires b + 2 < |line| && line[b] == '"' && line[b + 1] == ',' && line[b + 2] == '"'
    ensures pos + |name| + 1 == b || pos == b + 2
  {
    OccursChars(line, name, pos);
  }

  // ---- reading the value of a field ----

  lemma {:induction false} CloseAfterEscaped(line: string, start: nat, end: nat, e: string)
    requires Escaped(e) && start <= end <= start + |e| < |line|
    requires line[start..start + |e|] == e && line[start + |e|] == '"'
    ensures CloseFrom(line, start, end) == start + |e|
    decreases start + |e| - end
  {
    assert line[start..end] == e[..end - start];
    if end == start + |e| {
      assert e[..|e|] == e;
    } else {
      assert line[end] == e[end - start];
      CloseAfterEscaped(line, start, end + 1, e);
    }
  }

  /** The text between the first quote behind the colon and its closing quote. */
  lemma TextAfter(line: string, name: string, open: nat, e: string, rest: string)
    requires ColonOf(line, name) != -1 && ColonOf(line, name) <= open < |line| && Escaped(e)
    requires forall i :: ColonOf(line, name) <= i < open ==> line[i] != '"'
    requires line[open..] == "\"" + e + "\"" + rest
    ensures StringField(line, name) == Some(e)
  {
    hide ColonOf, Escaped;
    var (colon, tail) := (ColonOf(line, name), line[open..]);
    assert forall i :: 0 <= i < |tail| ==> line[open + i] == tail[i];
    assert tail[0] == '"' && tail[1 + |e|] == '"' && tail[1..1 + |e|] == e;
    FindCharAt(line, '"', colon, open);
    assert line[open + 1..open + 1 + |e|] == tail[1..1 + |e|];
    CloseAfterEscaped(line, open + 1, open + 1, e);
  }

  /** A field of escaped text behind free text reads back as it is. */
  lemma TextFieldAfter(before: string, name: string, e: string, rest: string)
    requires Free(before, name) && IsName(name) && Escaped(e)
    ensures StringField(before + "\",\"" + name + "\":" + ("\"" + e + "\"" + rest), name) == Some(e)
  {
    hide Escaped, StringField, ColonOf, Free;
    var after := "\"" + e + "\"" + rest;
    var line := before + "\",\"" + name + "\":" + after;
    var colon := |before| + 4 + |name|;
    FieldColon(before, name, after);
    assert line[colon + 1..] == after && line[colon] == ':';
    TextAfter(line, name, colon + 1, e, rest);
  }

  /** A string field behind free text reads back as written. */
  lemma StringFieldAfter(before: string, name: string, x: string, rest: string)
    requires Free(before, name) && IsName(name)
    ensures StringField(before + "\",\"" + name + "\":" + ("\"" + Escape(x) + "\"" + rest), name) == Some(Escape(x))
  {
    EscapeIsEscaped(x);
    TextFieldAfter(before, name, Escape(x), rest);
  }

  /** A number behind free text, with blanks and a minus sign in front of its digits: it is read when it
      fits 64 bits, and a sign alone is none. */
  lemma SignedFieldAfter(before: string, name: string, blanks: string, minus: bool, digits: string, rest: string)
    requires Free(before, name) && IsName(name) && AllDigits(digits) && (minus || digits != "")
    requires forall i :: 0 <= i < |blanks| ==> blanks[i] == ' ' || blanks[i] == 9 as char
    requires rest == "" || !('0' <= rest[0] <= '9')
    ensures var n: int := if minus then -(Value(digits) as int) else Value(digits);
      IntegerField(before + "\",\"" + name + "\":" + (blanks + (if minus then "-" else "") + digits + rest), name) ==
      if digits != "" && -0x8000_0000_0000_0000 <= n <= 0x7FFF_FFFF_FFFF_FFFF then Some(n) else None
  {
    hide ColonOf, IntegerField, Value, Free;
    var after := blanks + (if minus then "-" else "") + digits + rest;
    var line := before + "\",\"" + name + "\":" + after;
    var colon := |before| + 4 + |name|;
    FieldColon(before, name, after);
    assert line[colon + 1..] == after;
    assert line[colon + 1..][..|blanks|] == blanks;
    var pos := colon + 1 + |blanks|;
    assert forall i :: colon + 1 <= i < pos ==> line[i] == blanks[i - colon - 1];
    assert line[pos..] == (if minus then "-" else "") + digits + rest;
    SignedNumberAt(line, name, pos, minus, digits, rest);
  }

  lemma SignedNumberAt(line: string, name: string, pos: nat, minus: bool, digits: string, rest: string)
    requires AllDigits(digits) && (minus || digits != "") && (rest == "" || !IsDigit(rest[0]))
    requires ColonOf(line, name) != -1 && ColonOf(line, name) < pos < |line|
    requires forall i :: ColonOf(line, name) < i < pos ==> line[i] == ' ' || line[i] == 9 as char
    requires line[pos..] == (if minus then "-" else "") + digits + rest
    ensures IntegerField(line, name) == Stoll(minus, digits)
  {
    hide ColonOf, Stoll;
    SignedPieces(line, pos, minus, digits, rest);
    SkipBlanksAt(line, ColonOf(line, name) + 1, pos);
    var first := if minus then pos + 1 else pos;
    DigitsEndAt(line, first, first + |digits|);
  }

  lemma SignedPieces(line: string, pos: nat, minus: bool, digits: string, rest: string)
    requires AllDigits(digits) && (minus || digits != "") && pos < |line|
    requires line[pos..] == (if minus then "-" else "") + digits + rest
    ensures line[pos] == '-' <==> minus
    ensures line[pos] != ' ' && line[pos] != 9 as char
    ensures var first := if minus then pos + 1 else pos;
      && first + |digits| <= |line| && line[first..first + |digits|] == digits
      && (first + |digits| == |line| <==> rest == "")
      && (rest != "" ==> line[first + |digits|] == rest[0])
  {
    var (tail, at) := (line[pos..], if minus then 1 else 0);
    assert line[pos] == tail[0];
    assert tail[at..at + |digits|] == digits;
    SliceOfTail(line, pos, at, at + |digits|);
    assert rest != "" ==> line[pos + at + |digits|] == tail[at + |digits|] == rest[0];
  }

  lemma SliceOfTail(s: string, pos: nat, i: nat, j: nat)
    requires pos <= |s| && i <= j <= |s| - pos
    ensures s[pos..][i..j] == s[pos + i..pos + j]
  {
    assert s[pos..][i..j] == s[pos + i..pos + j];
  }

  lemma {:induction false} SkipBlanksAt(line: string, from: nat, pos: nat)
    requires from <= pos < |line| && forall i :: from <= i < pos ==> line[i] == ' ' || line[i] == 9 as char
    requires line[pos] != ' ' && line[pos] != 9 as char
    ensures SkipBlanks(line, from) == pos
    decreases pos - from
  {
    if from < pos {
      SkipBlanksAt(line, from + 1, pos);
    }
  }

  /** The timestamp field behind free text reads as its digits, up to whatever follows them. */
  lemma IntegerFieldAfter(before: string, name: string, digits: string, rest: string)
    requires Free(before, name) && IsName(name)
    requires AllDigits(digits) && digits != "" && (rest == "" || !IsDigit(rest[0]))
    ensures IntegerField(before + "\",\"" + name + "\":" + (digits + rest), name) == Stoll(false, digits)
  {
    hide ColonOf, Stoll;
    var line := before + "\",\"" + name + "\":" + (digits + rest);
    var pos := |before| + 5 + |name|;
    FieldColon(before, name, digits + rest);
    assert line[pos..] == digits + rest;
    assert line[pos] == digits[0];
    var end := pos + |digits|;
    assert line[pos..end] == digits;
    assert end < |line| ==> line[end] == rest[0];
    DigitsEndAt(line, pos, end);
  }
}
