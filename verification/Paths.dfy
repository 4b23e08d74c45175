/** Table file names and the ids in them (src/core/engine.cpp:15-44, 95-101, 265-271). */
module Paths {
  import opened Records
  import opened Bytes
  import opened Decimal
  import opened JsonText
  import opened LogLine

  predicate IsSeparator(c: char) { c == '/' || c == '\\' }

  /** The part after the last path separator. */
  function BaseName(path: string): (base: string)
    ensures |base| <= |path|
  {
    if path == "" then ""
    else if IsSeparator(path[|path| - 1]) then ""
    else BaseName(path[..|path| - 1]) + [path[|path| - 1]]
  }

  /** `s.rfind(pattern)` among the positions up to `from`, with -1 for `npos`. */
  function FindLast(s: string, pattern: string, from: nat): (at: int)
    ensures at == -1 || (0 <= at <= from && OccursAt(s, pattern, at))
  {
    if OccursAt(s, pattern, from) then from else if from == 0 then -1 else FindLast(s, pattern, from - 1)
  }

  /** `std::stoull`; none when it throws. A minus sign negates modulo 2^64. */
  function Stoull(text: string): Option<nat> {
    var s := SkipSpaces(text);
    var signed := s != "" && (s[0] == '-' || s[0] == '+');
    var t := if signed then s[1..] else s;
    var digits := t[..DigitsEnd(t, 0)];
    if digits == "" || Value(digits) >= TWO_64 then None
    else Some(if signed && s[0] == '-' then (TWO_64 - Value(digits)) % TWO_64 else Value(digits))
  }

  /** Blanks, a sign and digits, whatever follows them: no number without digits or from 2^64 on, and a
      minus sign takes it from 2^64. */
  lemma StoullReads(blanks: string, sign: string, digits: string, rest: string)
    requires Blank(blanks) && AllDigits(digits) && (sign == "" || sign == "+" || sign == "-")
    requires rest == "" || !('0' <= rest[0] <= '9')
    requires sign == "" ==> digits != ""
    ensures Stoull(blanks + (sign + digits + rest)) ==
      if digits == "" || Value(digits) >= 0x1_0000_0000_0000_0000 then None
      else if sign != "-" || Value(digits) == 0 then Some(Value(digits))
      else Some(0x1_0000_0000_0000_0000 - Value(digits))
  {
    hide Value, SkipSpaces, DigitsEnd;
    var (s, t) := (sign + digits + rest, digits + rest);
    SignedText(sign, digits, rest);
    LeftTrimmed(blanks, s);
    DigitsEndAt(t, 0, |digits|);
    assert t[..|digits|] == digits;
  }

  lemma SignedText(sign: string, digits: string, rest: string)
    requires AllDigits(digits) && (sign == "" || sign == "+" || sign == "-")
    requires sign == "" ==> digits != ""
    ensures var (s, t) := (sign + digits + rest, digits + rest);
      && s != "" && !IsSpace(s[0]) && t[0..|digits|] == digits
      && (if sign == "" then s == t && s[0] != '-' && s[0] != '+' else s[0] == sign[0] && s[1..] == t)
  {
    assert digits != "" ==> IsDigit(digits[0]);
  }

  /** The number between the prefix at `pos` and the next `.sst`. */
  function IdAfter(base: string, pos: int, prefix: nat): Option<nat> {
    if pos < 0 then None
    else
      var end := FindFrom(base, ".sst", pos + prefix);
      if end == -1 then None else Stoull(base[pos + prefix..end])
  }

  function ExtractFileId(path: string): nat {
    var base := BaseName(path);
    var data, merged := FindLast(base, "data_", |base|), FindLast(base, "sstable_", |base|);
    var id :=
      if data != -1 then IdAfter(base, data, 5)
      else if merged != -1 then IdAfter(base, merged, 8)
      else IdAfter(base, FindLast(base, "compacted_", |base|), 10);
    if id.Some? then id.value else if Stoull(base).Some? then Stoull(base).value else 0
  }

  function InDir(dir: string, name: string): string {
    if dir == "" || dir == "." then name else dir + "/" + name
  }

  function DataName(id: nat): string { "data_" + Digits(id) + ".sst" }

  function MergedName(id: nat): string { "sstable_" + Digits(id) + ".sst" }

  /** The path of a flushed table. */
  function DataPath(dir: string, id: nat): string { InDir(dir, DataName(id)) }

  /** The path of a compacted table. */
  function MergedPath(dir: string, id: nat): string { InDir(dir, MergedName(id)) }

  // ---- the id of a path the engine makes is the id it was made from ----

  predicate NoSeparator(name: string) {
    forall i :: 0 <= i < |name| ==> !IsSeparator(name[i])
  }

  lemma {:induction false} BaseOf(dir: string, name: string)
    requires NoSeparator(name)
    ensures BaseName(dir + "/" + name) == name && BaseName(name) == name
  {
    var path := dir + "/" + name;
    if name != "" {
      var (n, c) := (name[..|name| - 1], name[|name| - 1]);
      assert path[..|path| - 1] == dir + "/" + n && path[|path| - 1] == c;
      BaseOf(dir, n);
      assert name == n + [c];
    }
  }

  lemma {:induction false} FindLastNone(s: string, pattern: string, from: nat)
    requires forall i :: 0 <= i <= from ==> !OccursAt(s, pattern, i)
    ensures FindLast(s, pattern, from) == -1
  {
    if from > 0 {
      FindLastNone(s, pattern, from - 1);
    }
  }

  lemma {:induction false} FindLastZero(s: string, pattern: string, from: nat)
    requires OccursAt(s, pattern, 0) && forall i :: 0 < i <= from ==> !OccursAt(s, pattern, i)
    ensures FindLast(s, pattern, from) == 0
  {
    if from > 0 {
      FindLastZero(s, pattern, from - 1);
    }
  }

  lemma OccursFirst(s: string, pattern: string, i: int, j: nat)
    requires OccursAt(s, pattern, i) && j < |pattern|
    ensures s[i + j] == pattern[j]
  {
    assert s[i..i + |pattern|][j] == s[i + j];
  }

  lemma StoullDigits(id: nat)
    requires id < TWO_64
    ensures Stoull(Digits(id)) == Some(id)
  {
    hide Value, Digits;
    var s := Digits(id);
    DigitsValue(id);
    assert SkipSpaces(s) == s;
    assert s[0..|s|] == s;
    DigitsEndAt(s, 0, |s|);
    assert s[..|s|] == s;
  }

  /** The number of a name made of a prefix, digits and `.sst`. */
  lemma IdOfName(prefix: string, id: nat)
    requires id < TWO_64
    ensures IdAfter(prefix + Digits(id) + ".sst", 0, |prefix|) == Some(id)
  {
    hide Digits, Stoull;
    var (d, n) := (Digits(id), |prefix|);
    var name := prefix + d + ".sst";
    var end := n + |d|;
    assert name[end..end + 4] == ".sst";
    FindIsFirst(name, ".sst", n, end);
    var at := FindFrom(name, ".sst", n);
    OccursFirst(name, ".sst", at, 0);
    assert name[n..end] == d;
    StoullDigits(id);
  }

  lemma DataNameId(id: nat)
    requires id < TWO_64
    ensures NoSeparator(DataName(id)) && FindLast(DataName(id), "data_", |DataName(id)|) == 0
  {
    hide Digits, FindLast;
    var (d, s) := (Digits(id), DataName(id));
    assert forall i :: 5 <= i < 5 + |d| ==> s[i] == d[i - 5];
    forall i | 0 < i <= |s| ensures !OccursAt(s, "data_", i) {
      if OccursAt(s, "data_", i) { OccursFirst(s, "data_", i, 0); }
    }
    assert s[0..5] == "data_";
    FindLastZero(s, "data_", |s|);
  }

  lemma MergedNameId(id: nat)
    requires id < TWO_64
    ensures var s := MergedName(id);
      NoSeparator(s) && FindLast(s, "data_", |s|) == -1 && FindLast(s, "sstable_", |s|) == 0
  {
    hide Digits, FindLast;
    var (d, s) := (Digits(id), MergedName(id));
    assert forall i :: 8 <= i < 8 + |d| ==> s[i] == d[i - 8];
    forall i | 0 <= i <= |s| ensures !OccursAt(s, "data_", i) {
      if OccursAt(s, "data_", i) { OccursFirst(s, "data_", i, 0); }
    }
    FindLastNone(s, "data_", |s|);
    forall i | 0 < i <= |s| ensures !OccursAt(s, "sstable_", i) {
      if OccursAt(s, "sstable_", i) {
        OccursFirst(s, "sstable_", i, 0);
        OccursFirst(s, "sstable_", i, 1);
        OccursFirst(s, "sstable_", i, 7);
      }
    }
    assert s[0..8] == "sstable_";
    FindLastZero(s, "sstable_", |s|);
  }

  /** Reading the id back from a path gives the id the path was made with, in any directory. */
  lemma PathIds(dir: string, id: nat)
    requires id < TWO_64
    ensures ExtractFileId(DataPath(dir, id)) == id && ExtractFileId(MergedPath(dir, id)) == id
  {
    hide Digits, FindLast, BaseName, IdAfter;
    DataNameId(id);
    MergedNameId(id);
    BaseOf(dir, DataName(id));
    BaseOf(dir, MergedName(id));
    IdOfName("data_", id);
    IdOfName("sstable_", id);
  }

  lemma {:induction false} FindLastAt(s: string, pattern: string, at: nat, from: nat)
    requires OccursAt(s, pattern, at) && at <= from && forall i :: at < i <= from ==> !OccursAt(s, pattern, i)
    ensures FindLast(s, pattern, from) == at
  {
    if from > at {
      FindLastAt(s, pattern, at, from - 1);
    }
  }

  /** The id stands behind the last `data_` of the base name, whatever is before it. */
  lemma PrefixedDataId(dir: string, before: string, id: nat)
    requires id < TWO_64 && NoSeparator(before)
    ensures ExtractFileId(dir + "/" + (before + "data_" + Digits(id) + ".sst")) == id
  {
    hide Digits, FindLast, BaseName, IdAfter;
    var (d, n) := (Digits(id), |before|);
    var s := before + "data_" + d + ".sst";
    assert s == before + DataName(id);
    DataNameId(id);
    BaseOf(dir, s);
    assert forall i :: n + 5 <= i < n + 5 + |d| ==> s[i] == d[i - n - 5];
    forall i | n < i <= |s| ensures !OccursAt(s, "data_", i) {
      if OccursAt(s, "data_", i) {
        OccursFirst(s, "data_", i, 0);
      }
    }
    assert s[n..n + 5] == "data_";
    FindLastAt(s, "data_", n, |s|);
    IdBehind(before, "data_", id);
  }

  lemma IdBehind(before: string, prefix: string, id: nat)
    requires id < TWO_64
    ensures IdAfter(before + prefix + Digits(id) + ".sst", |before|, |prefix|) == Some(id)
  {
    hide Digits, Stoull;
    var (d, n) := (Digits(id), |before + prefix|);
    var name := before + prefix + d + ".sst";
    var end := n + |d|;
    assert name[end..end + 4] == ".sst";
    FindIsFirst(name, ".sst", n, end);
    var at := FindFrom(name, ".sst", n);
    OccursFirst(name, ".sst", at, 0);
    assert name[n..end] == d;
    StoullDigits(id);
  }

  lemma CompactedNameId(id: nat)
    ensures var s := "compacted_" + Digits(id) + ".sst";
      NoSeparator(s) && FindLast(s, "data_", |s|) == -1 && FindLast(s, "sstable_", |s|) == -1
  {
    hide Digits, FindLast;
    var (d, s) := (Digits(id), "compacted_" + Digits(id) + ".sst");
    assert forall i :: 10 <= i < 10 + |d| ==> s[i] == d[i - 10];
    assert forall i :: 0 <= i < 10 ==> s[i] == "compacted_"[i];
    forall i | 0 <= i <= |s| ensures !OccursAt(s, "data_", i) {
      if OccursAt(s, "data_", i) {
        OccursFirst(s, "data_", i, 0);
        OccursFirst(s, "data_", i, 1);
      }
    }
    FindLastNone(s, "data_", |s|);
    forall i | 0 <= i <= |s| ensures !OccursAt(s, "sstable_", i) {
      if OccursAt(s, "sstable_", i) {
        OccursFirst(s, "sstable_", i, 0);
        OccursFirst(s, "sstable_", i, 2);
      }
    }
    FindLastNone(s, "sstable_", |s|);
  }

  lemma CompactedNameStart(id: nat)
    ensures var s := "compacted_" + Digits(id) + ".sst"; FindLast(s, "compacted_", |s|) == 0
  {
    hide Digits, FindLast;
    var (d, s) := (Digits(id), "compacted_" + Digits(id) + ".sst");
    assert forall i :: 10 <= i < 10 + |d| ==> s[i] == d[i - 10];
    assert forall i :: 0 <= i < 10 ==> s[i] == "compacted_"[i];
    forall i | 0 < i <= |s| ensures !OccursAt(s, "compacted_", i) {
      if OccursAt(s, "compacted_", i) {
        OccursFirst(s, "compacted_", i, 0);
        OccursFirst(s, "compacted_", i, 1);
      }
    }
    assert s[0..10] == "compacted_";
    FindLastZero(s, "compacted_", |s|);
  }

  /** A manifest may also list names of the third form. */
  lemma CompactedId(dir: string, id: nat)
    requires id < TWO_64
    ensures ExtractFileId(dir + "/" + ("compacted_" + Digits(id) + ".sst")) == id
  {
    hide Digits, FindLast, BaseName, IdAfter;
    BaseOf(dir, "compacted_" + Digits(id) + ".sst");
    CompactedNameId(id);
    CompactedNameStart(id);
    IdOfName("compacted_", id);
  }

  /** A name with none of the prefixes gives the number it starts with, and 0 without one. */
  lemma UnprefixedId(base: string)
    requires NoSeparator(base)
    requires forall i ::
      !OccursAt(base, "data_", i) && !OccursAt(base, "sstable_", i) && !OccursAt(base, "compacted_", i)
    ensures ExtractFileId(base) == if Stoull(base).Some? then Stoull(base).value else 0
    ensures base == "" || !(IsDigit(base[0]) || IsSpace(base[0]) || base[0] == '-' || base[0] == '+') ==>
      ExtractFileId(base) == 0
  {
    hide FindLast, BaseName, Value;
    BaseOf("", base);
    FindLastNone(base, "data_", |base|);
    FindLastNone(base, "sstable_", |base|);
    FindLastNone(base, "compacted_", |base|);
  }

  /** Paths with different ids differ. */
  lemma PathsDiffer(dir: string, a: nat, b: nat)
    requires a < TWO_64 && b < TWO_64 && a != b
    ensures {DataPath(dir, a), MergedPath(dir, a)} !! {DataPath(dir, b), MergedPath(dir, b)}
  {
    hide ExtractFileId;
    PathIds(dir, a);
    PathIds(dir, b);
  }

  // ---- where a table lies ----

  /** In a directory of its own name, behind it and one slash; in the working directory, by the bare
      name. */
  lemma PathText(dir: string, id: nat)
    ensures dir != "" && dir != "." ==>
      && DataPath(dir, id) == dir + "/" + "data_" + Digits(id) + ".sst"
      && MergedPath(dir, id) == dir + "/" + "sstable_" + Digits(id) + ".sst"
    ensures dir == "" || dir == "." ==>
      && DataPath(dir, id) == "data_" + Digits(id) + ".sst"
      && MergedPath(dir, id) == "sstable_" + Digits(id) + ".sst"
    ensures AllDigits(Digits(id)) && Value(Digits(id)) == id && (id > 0 ==> Digits(id)[0] != '0')
  {
    DigitsValue(id);
    if id > 0 {
      DigitsCanonical(id);
    }
    hide Digits, Value;
    assert dir + "/" + ("data_" + Digits(id) + ".sst") == dir + "/" + "data_" + Digits(id) + ".sst";
    assert dir + "/" + ("sstable_" + Digits(id) + ".sst") == dir + "/" + "sstable_" + Digits(id) + ".sst";
  }

  lemma NamesHaveNoSeparator(id: nat)
    ensures NoSeparator(DataName(id)) && NoSeparator(MergedName(id))
  {
    hide Digits;
    var d := Digits(id);
    assert forall i :: 5 <= i < 5 + |d| ==> DataName(id)[i] == d[i - 5];
    assert forall i :: 8 <= i < 8 + |d| ==> MergedName(id)[i] == d[i - 8];
  }

  lemma SameBase(a: string, b: string, x: string, y: string)
    requires NoSeparator(x) && NoSeparator(y) && a + "/" + x == b + "/" + y
    ensures a == b && x == y
  {
    BaseOf(a, x);
    BaseOf(b, y);
    assert a == (a + "/" + x)[..|a|] && b == (b + "/" + y)[..|b|];
  }

  lemma OutsideBase(a: string, x: string, y: string)
    requires NoSeparator(y)
    ensures a + "/" + x != y
  {
    assert (a + "/" + x)[|a|] == '/';
  }

  /** Engines in different directories never use one path, whatever their ids. */
  lemma DirsApart(a: string, b: string, i: nat, j: nat)
    requires a != b && (a == "" ==> b != ".") && (a == "." ==> b != "")
    ensures {DataPath(a, i), MergedPath(a, i)} !! {DataPath(b, j), MergedPath(b, j)}
  {
    hide DataName, MergedName, NoSeparator;
    NamesHaveNoSeparator(i);
    NamesHaveNoSeparator(j);
    forall x, y | x in {DataName(i), MergedName(i)} && y in {DataName(j), MergedName(j)}
      ensures InDir(a, x) != InDir(b, y)
    {
      if a != "" && a != "." && b != "" && b != "." {
        if InDir(a, x) == InDir(b, y) {
          SameBase(a, b, x, y);
        }
      } else if a != "" && a != "." {
        OutsideBase(a, x, y);
      } else {
        OutsideBase(b, y, x);
      }
    }
  }

  // ---- paths as manifest lines ----

  /** A line of the manifest that reads back as written. */
  predicate IsLine(s: string) {
    s != "" && s[|s| - 1] != '\r' && forall i :: 0 <= i < |s| ==> s[i] != '\n'
  }

  lemma PathsAreLines(dir: string, id: nat)
    requires forall i :: 0 <= i < |dir| ==> dir[i] != '\n'
    ensures IsLine(DataPath(dir, id)) && IsLine(MergedPath(dir, id))
  {
    hide Digits;
  }
}
