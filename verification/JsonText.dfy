/** The string escaping of a log line: section 7 of RFC 8259, on bytes (src/core/wal.cpp:184-278). */
module JsonText {
  import opened Records

  function HexDigit(n: nat): char
    requires n < 16
  {
    "0123456789abcdef"[n]
  }

  /** What the writer puts out for one character; a control character becomes `\u00` and two digits. */
  function EscapeChar(c: char): string {
    if c == '"' then "\\\""
    else if c == '\\' then "\\\\"
    else if c == 8 as char then "\\b"
    else if c == 12 as char then "\\f"
    else if c == '\n' then "\\n"
    else if c == '\r' then "\\r"
    else if c == '\t' then "\\t"
    else if c < ' ' then ['\\', 'u', '0', '0', HexDigit(c as nat / 16), HexDigit(c as nat % 16)]
    else [c]
  }

  function Escape(s: string): string {
    if s == "" then "" else Escape(s[..|s| - 1]) + EscapeChar(s[|s| - 1])
  }

  method EscapeJSON(s: string) returns (out: string)
    ensures out == Escape(s)
  {
    out := "";
    for i := 0 to |s|
      invariant out == Escape(s[..i])
    {
      out := out + EscapeChar(s[i]);
      assert s[..i + 1][..i] == s[..i];
    }
    assert s[..|s|] == s;
  }

  // ---- reading ----

  /** `isspace` in the C locale. */
  predicate IsSpace(c: char) { c == ' ' || 9 as char <= c <= 13 as char }

  function SkipSpaces(s: string): string {
    if s != "" && IsSpace(s[0]) then SkipSpaces(s[1..]) else s
  }

  predicate Blank(s: string) {
    forall i :: 0 <= i < |s| ==> s[i] == ' ' || 9 as char <= s[i] <= 13 as char
  }

  lemma {:induction false} LeftTrimmed(a: string, s: string)
    requires Blank(a) && s != "" && !IsSpace(s[0])
    ensures SkipSpaces(a + s) == s
  {
    if a == "" {
      assert a + s == s;
    } else {
      assert (a + s)[1..] == a[1..] + s;
      LeftTrimmed(a[1..], s);
    }
  }

  function HexValue(c: char): Option<nat> {
    if '0' <= c <= '9' then Some(c as nat - '0' as nat)
    else if 'a' <= c <= 'f' then Some(c as nat - 'a' as nat + 10)
    else if 'A' <= c <= 'F' then Some(c as nat - 'A' as nat + 10)
    else None
  }

  /** The number the leading hexadecimal digits denote, after `value`. */
  function HexPrefix(s: string, value: nat): nat {
    if s != "" && HexValue(s[0]).Some? then HexPrefix(s[1..], 16 * value + HexValue(s[0]).value) else value
  }

  /** `std::stoi(hex, nullptr, 16)` on a short string; none when it throws. */
  function ParseHex(hex: string): Option<int> {
    var s := SkipSpaces(hex);
    var signed := s != "" && (s[0] == '-' || s[0] == '+');
    var t := if signed then s[1..] else s;
    var u := if |t| > 2 && t[0] == '0' && (t[1] == 'x' || t[1] == 'X') && HexValue(t[2]).Some? then t[2..] else t;
    if u == "" || HexValue(u[0]).None? then None
    else
      var n: int := HexPrefix(u, 0);
      Some(if signed && s[0] == '-' then -n else n)
  }

  /** What a `\u` escape with these four characters stands for. */
  function UnicodeEscape(hex: string): string {
    var code := ParseHex(hex);
    if code.None? then "\\u" + hex
    else if code.value < 128 then [(code.value % 256) as char]
    else "?"
  }

  /** What the escape `\next` stands for, when it is not a `\u`. */
  function SimpleEscape(next: char): char {
    if next == 'b' then 8 as char
    else if next == 'f' then 12 as char
    else if next == 'n' then '\n'
    else if next == 'r' then '\r'
    else if next == 't' then '\t'
    else next
  }

  /** How many characters the first step of reading takes, and what it puts out. */
  function StepLength(s: string): (n: nat)
    requires s != ""
    ensures 0 < n <= |s|
  {
    if s[0] == '\\' && |s| > 1 then if s[1] == 'u' && |s| > 5 then 6 else 2 else 1
  }

  function StepOutput(s: string): string
    requires s != ""
  {
    if s[0] == '\\' && |s| > 1 then
      if s[1] != 'u' then [SimpleEscape(s[1])] else if |s| > 5 then UnicodeEscape(s[2..6]) else "\\u"
    else [s[0]]
  }

  function Unescape(s: string): string {
    if s == "" then "" else StepOutput(s) + Unescape(s[StepLength(s)..])
  }

  method UnescapeJSON(s: string) returns (out: string)
    ensures out == Unescape(s)
  {
    hide UnicodeEscape, SimpleEscape;
    out := "";
    var i := 0;
    while i < |s|
      invariant 0 <= i <= |s|
      invariant out + Unescape(s[i..]) == Unescape(s)
    {
      ghost var was, at := out, i;
      if s[i] == '\\' && i + 1 < |s| {
        i := i + 1;
        var next := s[i];
        if next != 'u' {
          out := out + [SimpleEscape(next)];
        } else if i + 4 < |s| {
          var hex := s[i + 1..i + 5];
          assert s[at..][2..6] == hex;
          i := i + 4;
          out := out + UnicodeEscape(hex);
        } else {
          out := out + "\\u";
        }
      } else {
        out := out + [s[i]];
      }
      i := i + 1;
      UnescapeStep(was, out, s[at..], s[i..]);
    }
  }

  lemma UnescapeStep(was: string, out: string, s: string, rest: string)
    requires s != "" && rest == s[StepLength(s)..] && out == was + StepOutput(s)
    ensures out + Unescape(rest) == was + Unescape(s)
  {
    hide StepOutput, StepLength;
  }

  // ---- the text of each escape ----

  /** What is written for a character behind any text: seven short escapes, four hexadecimal digits for
      the other control characters, and everything else as it is. */
  lemma EscapeText(s: string, c: char)
    ensures Escape("") == ""
    ensures c == '"' ==> Escape(s + [c]) == Escape(s) + "\\\""
    ensures c == '\\' ==> Escape(s + [c]) == Escape(s) + "\\\\"
    ensures c == 8 as char ==> Escape(s + [c]) == Escape(s) + "\\b"
    ensures c == 9 as char ==> Escape(s + [c]) == Escape(s) + "\\t"
    ensures c == 10 as char ==> Escape(s + [c]) == Escape(s) + "\\n"
    ensures c == 12 as char ==> Escape(s + [c]) == Escape(s) + "\\f"
    ensures c == 13 as char ==> Escape(s + [c]) == Escape(s) + "\\r"
    ensures c < ' ' && c as nat !in {8, 9, 10, 12, 13} ==>
      Escape(s + [c]) == Escape(s) + "\\u00" + ["01"[c as nat / 16], "0123456789abcdef"[c as nat % 16]]
    ensures c >= ' ' && c != '"' && c != '\\' ==> Escape(s + [c]) == Escape(s) + [c]
  {
    hide Escape;
    EscapeSnoc(s, c);
    if c < ' ' && |EscapeChar(c)| == 6 {
      assert EscapeChar(c) == "\\u00" + ["01"[c as nat / 16], "0123456789abcdef"[c as nat % 16]];
    }
  }

  lemma EscapeSnoc(s: string, c: char)
    ensures Escape("") == "" && Escape(s + [c]) == Escape(s) + EscapeChar(c)
  {
    hide EscapeChar;
    assert (s + [c])[..|s|] == s;
  }

  /** What is read at the front of a text: a plain character, a backslash at the very end, one of the
      short escapes, or a backslash before a character that it leaves as it is. */
  lemma UnescapeText(c: char, t: string)
    ensures Unescape("") == "" && Unescape("\\") == "\\"
    ensures c != '\\' ==> Unescape([c] + t) == [c] + Unescape(t)
    ensures c == 'b' ==> Unescape(['\\', c] + t) == [8 as char] + Unescape(t)
    ensures c == 't' ==> Unescape(['\\', c] + t) == [9 as char] + Unescape(t)
    ensures c == 'n' ==> Unescape(['\\', c] + t) == [10 as char] + Unescape(t)
    ensures c == 'f' ==> Unescape(['\\', c] + t) == [12 as char] + Unescape(t)
    ensures c == 'r' ==> Unescape(['\\', c] + t) == [13 as char] + Unescape(t)
    ensures c !in "bfnrtu" ==> Unescape(['\\', c] + t) == [c] + Unescape(t)
    ensures |t| < 4 ==> Unescape("\\u" + t) == "\\u" + Unescape(t)
  {
    hide Unescape;
    UnescapeEnds();
    if c != '\\' {
      UnescapeOne(c, t);
    }
    if c != 'u' {
      UnescapePair(c, t);
    }
    if |t| < 4 {
      UnescapeShort(t);
    }
  }

  lemma UnescapeEnds()
    ensures Unescape("") == "" && Unescape("\\") == "\\"
  {
    assert "\\"[1..] == "";
  }

  lemma UnescapeOne(c: char, t: string)
    requires c != '\\'
    ensures Unescape([c] + t) == [c] + Unescape(t)
  {
    assert ([c] + t)[1..] == t;
  }

  lemma UnescapePair(c: char, t: string)
    requires c != 'u'
    ensures Unescape(['\\', c] + t) == [SimpleEscape(c)] + Unescape(t)
  {
    hide SimpleEscape;
    assert (['\\', c] + t)[2..] == t;
  }

  lemma UnescapeShort(t: string)
    requires |t| < 4
    ensures Unescape("\\u" + t) == "\\u" + Unescape(t)
  {
    hide UnicodeEscape;
    assert ("\\u" + t)[2..] == t;
  }

  /** The hexadecimal digits, in either case. */
  lemma HexIs(i: nat)
    requires i < 22
    ensures HexValue("0123456789abcdefABCDEF"[i]) == Some(if i < 16 then i else i - 6)
  {
  }

  /** Four hexadecimal digits stand for the character of that number below 128, and for a question mark
      otherwise. */
  lemma UnicodeText(d: string, t: string)
    requires |d| == 4 && forall i :: 0 <= i < 4 ==> HexValue(d[i]).Some?
    ensures var n := 4096 * HexValue(d[0]).value + 256 * HexValue(d[1]).value
                     + 16 * HexValue(d[2]).value + HexValue(d[3]).value;
      Unescape("\\u" + d + t) == (if n < 128 then [n as char] else "?") + Unescape(t)
  {
    hide ParseHex, HexValue;
    var s := "\\u" + d + t;
    assert s[2..6] == d && s[6..] == t;
    HexFour(d);
  }

  lemma HexFour(d: string)
    requires |d| == 4 && forall i :: 0 <= i < 4 ==> HexValue(d[i]).Some?
    ensures ParseHex(d) == Some(4096 * HexValue(d[0]).value + 256 * HexValue(d[1]).value
                                + 16 * HexValue(d[2]).value + HexValue(d[3]).value)
  {
    var (a, b, c) := (d[1..], d[2..], d[3..]);
    assert d[1..][1..] == b && b[1..] == c && c[1..] == "";
    var (x, y, z, w) :=
      (HexValue(d[0]).value, HexValue(d[1]).value, HexValue(d[2]).value, HexValue(d[3]).value);
    assert HexPrefix(c, 256 * x + 16 * y + z) == 4096 * x + 256 * y + 16 * z + w;
    assert HexPrefix(b, 16 * x + y) == HexPrefix(c, 256 * x + 16 * y + z);
    assert HexPrefix(a, x) == HexPrefix(b, 16 * x + y);
    assert HexPrefix(d, 0) == HexPrefix(a, x);
  }

  /** Four characters that start with no blank, sign or digit are kept as they are, with the `\u`. */
  lemma NoUnicodeText(d: string, t: string)
    requires |d| == 4 && d[0] !in " +-0123456789abcdefABCDEF" && !(9 as char <= d[0] <= 13 as char)
    ensures Unescape("\\u" + d + t) == "\\u" + d + Unescape(t)
  {
    var s := "\\u" + d + t;
    assert s[2..6] == d && s[6..] == t;
    assert HexValue(d[0]).None? by { NoHex(d[0]); }
    assert ParseHex(d).None?;
    assert StepOutput(s) == "\\u" + d && StepLength(s) == 6;
  }

  lemma NoHex(c: char)
    requires c !in " +-0123456789abcdefABCDEF"
    ensures HexValue(c).None? && c != ' ' && c != '+' && c != '-'
  {
  }

  // ---- round trip and shape of escaped text ----

  lemma HexPair(n: nat)
    requires n < 32
    ensures ParseHex(['0', '0', HexDigit(n / 16), HexDigit(n % 16)]) == Some(n)
  {
    var (a, b) := (HexDigit(n / 16), HexDigit(n % 16));
    assert HexValue(a) == Some(n / 16) && HexValue(b) == Some(n % 16);
    var s := ['0', '0', a, b];
    assert s[1..] == ['0', a, b] && s[1..][1..] == [a, b] && s[1..][1..][1..] == [b];
    assert [b][1..] == "";
    assert HexPrefix("", n) == n;
    assert HexPrefix([b], n / 16) == n;
    assert HexPrefix([a, b], 0) == n by { assert [a, b][1..] == [b]; }
    assert HexPrefix(s, 0) == HexPrefix(s[1..], 0) == HexPrefix([a, b], 0);
  }

  lemma UnescapeControl(c: char, t: string)
    requires c < ' ' && |EscapeChar(c)| == 6
    ensures StepOutput(EscapeChar(c) + t) == [c] && StepLength(EscapeChar(c) + t) == 6
  {
    hide ParseHex;
    var (n, s) := (c as nat, EscapeChar(c) + t);
    HexPair(n);
    assert s[2..6] == ['0', '0', HexDigit(n / 16), HexDigit(n % 16)];
    assert n as char == c;
  }

  lemma UnescapeChar(c: char, t: string)
    ensures Unescape(EscapeChar(c) + t) == [c] + Unescape(t)
  {
    hide UnicodeEscape, HexDigit;
    var (e, s) := (EscapeChar(c), EscapeChar(c) + t);
    if |e| == 6 {
      UnescapeControl(c, t);
    }
    assert StepOutput(s) == [c] && StepLength(s) == |e|;
    assert s[|e|..] == t;
  }

  /** Unescaping undoes escaping, for every string. */
  lemma {:induction false} UnescapeEscaped(s: string, t: string)
    ensures Unescape(Escape(s) + t) == s + Unescape(t)
  {
    hide Unescape, EscapeChar;
    if s == "" {
      assert Escape(s) + t == t && s + Unescape(t) == Unescape(t);
    } else {
      var (r, c) := (s[..|s| - 1], s[|s| - 1]);
      assert Escape(s) == Escape(r) + EscapeChar(c);
      hide Escape;
      assert (Escape(r) + EscapeChar(c)) + t == Escape(r) + (EscapeChar(c) + t);
      UnescapeEscaped(r, EscapeChar(c) + t);
      UnescapeChar(c, t);
      assert s == r + [c];
    }
  }

  lemma EscapeRoundTrip(s: string)
    ensures Unescape(Escape(s)) == s
  {
    UnescapeEscaped(s, "");
    assert Escape(s) + "" == Escape(s) && s + "" == s;
  }

  /** The number of backslashes that end `s`. */
  function Run(s: string): nat {
    if s == "" || s[|s| - 1] != '\\' then 0 else 1 + Run(s[..|s| - 1])
  }

  /** No raw line break, every quote after an odd run of backslashes, no odd run at the end. */
  predicate Escaped(e: string) {
    && (forall i :: 0 <= i < |e| ==> e[i] != '\n')
    && (forall i :: 0 <= i < |e| && e[i] == '"' ==> Run(e[..i]) % 2 == 1)
    && Run(e) % 2 == 0
  }

  lemma {:induction false} EscapeIsEscaped(s: string)
    ensures Escaped(Escape(s))
  {
    if s != "" {
      EscapeIsEscaped(s[..|s| - 1]);
      AppendEscaped(Escape(s[..|s| - 1]), s[|s| - 1]);
    }
  }

  lemma AppendPlain(e: string, c: char)
    requires Escaped(e) && c != '\n' && c != '"' && c != '\\'
    ensures Escaped(e + [c])
  {
    var f := e + [c];
    assert forall i :: 0 <= i < |e| ==> f[i] == e[i] && f[..i] == e[..i];
  }

  lemma AppendPair(e: string, c: char)
    requires Escaped(e) && c != '\n'
    ensures Escaped(e + ['\\', c])
  {
    var (g, f) := (e + ['\\'], e + ['\\', c]);
    assert forall i :: 0 <= i < |e| ==> f[i] == e[i] && f[..i] == e[..i];
    assert g[..|e|] == e && f[..|e| + 1] == g;
    assert Run(g) == 1 + Run(e);
  }

  lemma AppendEscaped(e: string, c: char)
    requires Escaped(e)
    ensures Escaped(e + EscapeChar(c))
  {
    hide Escaped;
    var x := EscapeChar(c);
    if |x| == 1 {
      AppendPlain(e, c);
    } else {
      var p := e + ['\\', x[1]];
      AppendPair(e, x[1]);
      if |x| == 2 {
        assert e + x == p;
      } else {
        AppendPlain(p, x[2]);
        AppendPlain(p + [x[2]], x[3]);
        AppendPlain(p + [x[2]] + [x[3]], x[4]);
        AppendPlain(p + [x[2]] + [x[3]] + [x[4]], x[5]);
        assert e + x == p + [x[2]] + [x[3]] + [x[4]] + [x[5]];
      }
    }
  }
}
