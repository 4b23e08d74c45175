/** Numbers as the Python clients read and write them: `int`, `str` and `{n:08d}`. */
module PythonText {
  import opened Records
  import opened Decimal
  import opened JsonText
  import opened PaddedKeys

  function TrimRight(s: string): string {
    if s != "" && IsSpace(s[|s| - 1]) then TrimRight(s[..|s| - 1]) else s
  }

  /** Digits with single underscores between them. */
  predicate IsGrouped(s: string) {
    && s != "" && IsDigit(s[0]) && IsDigit(s[|s| - 1])
    && (forall i :: 0 <= i < |s| ==> IsDigit(s[i]) || s[i] == '_')
    && forall i :: 0 <= i < |s| - 1 && s[i] == '_' ==> s[i + 1] != '_'
  }

  function DigitsOf(s: string): (d: string)
    ensures AllDigits(d)
  {
    if s == "" then ""
    else
      var (t, c) := (DigitsOf(s[..|s| - 1]), s[|s| - 1]);
      if IsDigit(c) then t + [c] else t
  }

  /** `int(text)` on ASCII text; none when it raises. */
  function PythonInt(text: string): Option<int> {
    var s := TrimRight(SkipSpaces(text));
    var signed := s != "" && (s[0] == '-' || s[0] == '+');
    var t := if signed then s[1..] else s;
    if !IsGrouped(t) then None
    else
      var n: int := Value(DigitsOf(t));
      Some(if signed && s[0] == '-' then -n else n)
  }

  /** `str(n)`. */
  function PythonStr(n: int): string {
    if n < 0 then "-" + Digits(-n) else Digits(n)
  }

  /** `{n:08d}`: a minus sign counts towards the width. */
  function PaddedInt(n: int): string {
    if n < 0 then
      var d := Digits(-n);
      "-" + Zeros(if |d| < WIDTH - 1 then WIDTH - 1 - |d| else 0) + d
    else Padded(n)
  }

  lemma {:induction false} DigitsOfDigits(s: string)
    requires AllDigits(s)
    ensures DigitsOf(s) == s
  {
    if s != "" {
      DigitsOfDigits(s[..|s| - 1]);
      assert s == s[..|s| - 1] + [s[|s| - 1]];
    }
  }

  /** What `str` writes, `int` reads. */
  lemma PythonIntOfStr(n: int)
    ensures PythonInt(PythonStr(n)) == Some(n)
  {
    hide Digits, Value;
    var d := Digits(if n < 0 then -n else n);
    DigitsValue(if n < 0 then -n else n);
    DigitsOfDigits(d);
    assert IsDigit(d[0]) && IsDigit(d[|d| - 1]);
    assert n < 0 ==> ("-" + d)[1..] == d;
  }

  lemma {:induction false} RightTrimmed(s: string, b: string)
    requires Blank(b) && s != "" && !IsSpace(s[|s| - 1])
    ensures TrimRight(s + b) == s
  {
    if b == "" {
      assert s + b == s;
    } else {
      assert (s + b)[..|s + b| - 1] == s + b[..|b| - 1];
      RightTrimmed(s, b[..|b| - 1]);
    }
  }

  /** What `int` reads: blanks around it, a sign, and then digits with single underscores between them. */
  lemma PythonIntReads(a: string, sign: string, t: string, b: string)
    requires Blank(a) && Blank(b) && t != "" && (sign == "" || sign == "+" || sign == "-")
    requires (IsDigit(t[0]) || t[0] == '_') && (IsDigit(t[|t| - 1]) || t[|t| - 1] == '_')
    ensures PythonInt(a + (sign + t) + b) ==
      if !IsGrouped(t) then None else Some(if sign == "-" then -(Value(DigitsOf(t)) as int) else Value(DigitsOf(t)))
  {
    hide Value, TrimRight, SkipSpaces, IsGrouped, DigitsOf, Blank, IsSpace, IsDigit;
    var s := sign + t;
    SignFirst(sign, t, b);
    assert a + s + b == a + (s + b);
    LeftTrimmed(a, s + b);
    RightTrimmed(s, b);
  }

  lemma SignFirst(sign: string, t: string, b: string)
    requires t != "" && (sign == "" || sign == "+" || sign == "-")
    requires (IsDigit(t[0]) || t[0] == '_') && (IsDigit(t[|t| - 1]) || t[|t| - 1] == '_')
    ensures var s := sign + t;
      && s != "" && !IsSpace(s[|s| - 1]) && s + b != "" && !IsSpace((s + b)[0])
      && (if sign == "" then s == t && s[0] != '-' && s[0] != '+' else s[0] == sign[0] && s[1..] == t)
  {
    var s := sign + t;
    assert s[|s| - 1] == t[|t| - 1] && (s + b)[0] == s[0];
  }

  /** The underscores: one between digits is passed over; two, or one at either end, are refused. */
  lemma Groups(x: string, y: string)
    requires AllDigits(x) && AllDigits(y) && x != "" && y != ""
    ensures IsGrouped(x) && DigitsOf(x) == x
    ensures IsGrouped(x + "_" + y) && DigitsOf(x + "_" + y) == x + y
    ensures !IsGrouped(x + "__" + y) && !IsGrouped("_" + x) && !IsGrouped(x + "_")
  {
    hide DigitsOf, IsGrouped;
    DigitsOfDigits(x);
    GroupDigits(x, y);
    OneGroup(x);
    TwoGroups(x, y);
    NoGroups(x, y);
  }

  lemma OneGroup(x: string)
    requires AllDigits(x) && x != ""
    ensures IsGrouped(x)
  {
  }

  lemma TwoGroups(x: string, y: string)
    requires AllDigits(x) && AllDigits(y) && x != "" && y != ""
    ensures IsGrouped(x + "_" + y)
  {
    var t := x + "_" + y;
    assert forall i :: 0 <= i < |x| ==> t[i] == x[i];
    assert forall i :: |x| < i < |t| ==> t[i] == y[i - |x| - 1];
  }

  lemma NoGroups(x: string, y: string)
    requires x != ""
    ensures !IsGrouped(x + "__" + y) && !IsGrouped("_" + x) && !IsGrouped(x + "_")
  {
    var u := x + "__" + y;
    assert u[|x|] == '_' && u[|x| + 1] == '_';
    assert (x + "_")[|x|] == '_' && ("_" + x)[0] == '_';
  }

  lemma {:induction false} GroupDigits(x: string, y: string)
    requires AllDigits(x) && AllDigits(y)
    ensures DigitsOf(x + "_" + y) == x + y
  {
    var t := x + "_" + y;
    if y == "" {
      assert t[..|t| - 1] == x && x + y == x;
      DigitsOfDigits(x);
    } else {
      assert t[..|t| - 1] == x + "_" + y[..|y| - 1];
      GroupDigits(x, y[..|y| - 1]);
      assert x + y == x + y[..|y| - 1] + [y[|y| - 1]];
    }
  }

  /** With its value, this is the text: no leading zero, and a minus sign in front of a negative one. */
  lemma PythonStrText(n: int)
    ensures n >= 0 ==> AllDigits(PythonStr(n)) && PythonStr(n) != "" && Value(PythonStr(n)) == n
    ensures n > 0 ==> PythonStr(n)[0] != '0'
    ensures n == 0 ==> PythonStr(n) == "0"
    ensures n < 0 ==> PythonStr(n) == "-" + PythonStr(-n)
  {
    hide Value;
    if n > 0 {
      DigitsCanonical(n);
    }
    if n >= 0 {
      DigitsValue(n);
    }
  }

  /** Below zero the sign takes one of the eight characters. */
  lemma PaddedIntText(n: int)
    ensures n >= 0 ==> PaddedInt(n) == Padded(n)
    ensures n < 0 ==>
      var t := PaddedInt(n);
      && |t| >= 8 && t[0] == '-' && AllDigits(t[1..]) && Value(t[1..]) == -n && (|t| > 8 ==> t[1] != '0')
  {
    hide Digits, Value;
    if n < 0 {
      var d := Digits(-n);
      DigitsCanonical(-n);
      DigitsValue(-n);
      var k := if |d| < WIDTH - 1 then WIDTH - 1 - |d| else 0;
      ZerosValue(k, d);
      assert PaddedInt(n)[1..] == Zeros(k) + d;
    }
  }

  lemma PaddedIntHasNoColon(n: int)
    ensures forall i :: 0 <= i < |PaddedInt(n)| ==> PaddedInt(n)[i] != ':'
  {
    hide Digits, Value;
    if n >= 0 {
      PaddedValue(n);
    }
  }
}
