/** The manifest: the list of live table files, oldest first (src/core/manifest.cpp). */
module Manifest {
  import opened LogLine
  import opened LogRoundTrip
  import opened LogRecovery
  import opened Paths
  import opened Storage

  /** The manifest file for a list of paths. */
  function ManifestText(files: seq<string>): string {
    if files == [] then "" else files[0] + "\n" + ManifestText(files[1..])
  }

  function StripReturn(line: string): string {
    if line != "" && line[|line| - 1] == '\r' then line[..|line| - 1] else line
  }

  /** The paths read from a manifest file: a trailing carriage return is cut, empty lines are skipped. */
  function ManifestFiles(text: string): seq<string>
    decreases |text|
  {
    if text == "" then []
    else
      var (raw, rest) := GetLine(text);
      var line := StripReturn(raw);
      (if line == "" then [] else [line]) + ManifestFiles(rest)
  }

  predicate AreLines(files: seq<string>) {
    forall i :: 0 <= i < |files| ==> IsLine(files[i])
  }

  lemma {:induction false} ManifestRoundTrip(files: seq<string>)
    requires AreLines(files)
    ensures ManifestFiles(ManifestText(files)) == files
  {
    hide GetLine;
    if files != [] {
      var (line, rest) := (files[0], ManifestText(files[1..]));
      assert IsLine(line);
      FirstLine(line, rest);
      ManifestRoundTrip(files[1..]);
      assert files == [line] + files[1..];
    }
  }

  /** Line by line: a carriage return at the end of a line is cut, a line that is then empty is passed
      over, and the last line needs no line break. */
  lemma ManifestLine(line: string, rest: string)
    requires OneLine(line) && (line == "" || line[|line| - 1] != '\r')
    ensures ManifestFiles("") == []
    ensures ManifestFiles(line + "\n" + rest) == (if line == "" then [] else [line]) + ManifestFiles(rest)
    ensures ManifestFiles(line + "\r\n" + rest) == (if line == "" then [] else [line]) + ManifestFiles(rest)
    ensures line != "" ==> ManifestFiles(line) == [line]
  {
    hide GetLine;
    FirstLine(line, rest);
    FirstLine(line + "\r", rest);
    assert (line + "\r")[..|line|] == line;
    assert line + "\r\n" + rest == (line + "\r") + "\n" + rest;
    OnlyLine(line);
  }

  lemma OnlyLine(line: string)
    requires OneLine(line)
    ensures GetLine(line) == (line, "")
  {
    hide FindFrom;
    assert forall i :: OccursAt(line, "\n", i) ==> line[i..i + 1][0] == line[i];
  }

  lemma FirstLine(line: string, rest: string)
    requires OneLine(line)
    ensures GetLine(line + "\n" + rest) == (line, rest)
  {
    var text := line + "\n" + rest;
    assert forall i :: 0 <= i < |line| ==> text[i] == line[i];
    FindCharAt(text, '\n', 0, |line|);
    assert text[..|line|] == line && text[|line| + 1..] == rest;
  }

  lemma {:induction false} ManifestTextAppend(files: seq<string>, path: string)
    ensures ManifestText(files + [path]) == ManifestText(files) + path + "\n"
  {
    if files == [] {
      assert files + [path] == [path] && [path][1..] == [];
    } else {
      ManifestTextAppend(files[1..], path);
      assert (files + [path])[1..] == files[1..] + [path];
      assert files[0] + "\n" + (ManifestText(files[1..]) + path + "\n")
          == (files[0] + "\n" + ManifestText(files[1..])) + path + "\n";
    }
  }

  /** The new file's entry; an empty name adds none. */
  function Line(path: string): seq<string> { if path == "" then [] else [path] }

  /** The list with the old files taken out and the new one in the place of the first of them. */
  function Replaced(files: seq<string>, olds: set<string>, path: string): seq<string> {
    if files == [] then []
    else if files[0] in olds then Line(path) + Without(files[1..], olds)
    else [files[0]] + Replaced(files[1..], olds, path)
  }

  function Without(files: seq<string>, olds: set<string>): seq<string> {
    if files == [] then []
    else if files[0] in olds then Without(files[1..], olds)
    else [files[0]] + Without(files[1..], olds)
  }

  /** The new file stands where the first old one stood; the other old ones are gone, and the rest keeps
      its order. */
  lemma {:induction false} ReplacedAt(files: seq<string>, olds: set<string>, path: string, i: nat)
    requires i < |files| && files[i] in olds && path != "" && forall j :: 0 <= j < i ==> files[j] !in olds
    ensures Replaced(files, olds, path) == files[..i] + [path] + Without(files[i + 1..], olds)
  {
    if i > 0 {
      ReplacedAt(files[1..], olds, path, i - 1);
      assert files[..i] == [files[0]] + files[1..][..i - 1];
    }
  }

  lemma {:induction false} WithoutConcat(a: seq<string>, b: seq<string>, f: string, olds: set<string>)
    ensures Without([], olds) == [] && Without([f], olds) == if f in olds then [] else [f]
    ensures Without(a + b, olds) == Without(a, olds) + Without(b, olds)
  {
    if a == [] {
      assert a + b == b;
    } else {
      WithoutConcat(a[1..], b, f, olds);
      assert (a + b)[1..] == a[1..] + b;
    }
  }

  /** Replacing every file leaves the new one alone. */
  lemma {:induction false} ReplaceAll(files: seq<string>, olds: set<string>, path: string)
    requires forall f :: f in files ==> f in olds
    ensures Without(files, olds) == [] && (files != [] ==> Replaced(files, olds, path) == Line(path))
  {
    if files != [] {
      assert files[0] in files;
      ReplaceAll(files[1..], olds, path);
    }
  }

  lemma {:induction false} ReplacedByNone(files: seq<string>, olds: set<string>)
    ensures Replaced(files, olds, "") == Without(files, olds)
  {
    if files != [] {
      ReplacedByNone(files[1..], olds);
    }
  }

  predicate NoneOld(files: seq<string>, olds: set<string>) {
    forall f :: f in files ==> f !in olds
  }

  /** What the remaining files still contribute. */
  function Pending(files: seq<string>, olds: set<string>, path: string, inserted: bool): seq<string> {
    if inserted then Without(files, olds) else Replaced(files, olds, path)
  }

  lemma PendingStart(files: seq<string>, olds: set<string>, path: string)
    ensures Pending(files, olds, path, false) == Replaced(files, olds, path)
  {
  }

  lemma PendingNone(files: seq<string>, olds: set<string>, path: string, inserted: bool)
    ensures Pending([], olds, path, inserted) == []
    ensures (forall j :: 0 <= j < |files| ==> files[j] !in olds) ==> NoneOld(files, olds)
  {
  }

  lemma PendingStep(files: seq<string>, olds: set<string>, path: string, inserted: bool)
    requires files != [] && (inserted ==> path != "")
    ensures Pending(files, olds, path, inserted) ==
      if files[0] !in olds then [files[0]] + Pending(files[1..], olds, path, inserted)
      else if !inserted && path != "" then [path] + Pending(files[1..], olds, path, true)
      else [] + Pending(files[1..], olds, path, inserted)
  {
    if path == "" {
      ReplacedByNone(files, olds);
      ReplacedByNone(files[1..], olds);
    }
  }

  class Manifest {
    const disk: Disk
    var files: seq<string>

    constructor (disk: Disk)
      ensures this.disk == disk && files == ManifestFiles(disk.manifest)
    {
      this.disk := disk;
      files := [];
      new;
      LoadInternal();
    }

    method LoadInternal()
      modifies this
      ensures files == ManifestFiles(disk.manifest)
    {
      hide GetLine;
      files := [];
      var rest := disk.manifest;
      while rest != ""
        invariant files + ManifestFiles(rest) == ManifestFiles(disk.manifest)
        decreases |rest|
      {
        var next := GetLine(rest);
        rest := next.1;
        var line := StripReturn(next.0);
        if line != "" {
          files := files + [line];
        }
      }
    }

    method AddSSTable(path: string) returns (ok: bool)
      modifies this, disk
      ensures ok && files == old(files) + [path]
      ensures disk.Now() == old(disk.Now()).(manifest := old(disk.manifest) + path + "\n")
      ensures disk.history == old(disk.history) + [disk.Now()]
    {
      disk.AppendManifest(path + "\n");
      files := files + [path];
      ok := true;
    }

    /** Replaces the old files by the new one in one durable step, or fails without any change when
        there is nothing to replace or an old file is not tracked. */
    method ReplaceSSTables(oldFiles: seq<string>, path: string) returns (ok: bool)
      modifies this, disk
      ensures ok <==> oldFiles != [] && forall f :: f in oldFiles ==> f in old(files)
      ensures !ok ==> unchanged(this) && unchanged(disk)
      ensures ok ==>
        && files == Replaced(old(files), (set f | f in oldFiles), path)
        && disk.Now() == old(disk.Now()).(manifest := ManifestText(files))
        && disk.history == old(disk.history) + [disk.Now()]
    {
      if oldFiles == [] {
        return false;
      }
      for i := 0 to |oldFiles|
        invariant forall j :: 0 <= j < i ==> oldFiles[j] in files
        invariant unchanged(this) && unchanged(disk)
      {
        if oldFiles[i] !in files {
          return false;
        }
      }
      var olds := set f | f in oldFiles;
      var updated := Update(files, olds, path);
      SomeReplaced(oldFiles[0], files, olds, path);
      var text := Text(updated);
      disk.ReplaceManifest(text);
      files := updated;
      return true;
    }

    /** Builds the new list: the new file goes where the first old one was, or at the end. */
    static method Update(files: seq<string>, olds: set<string>, path: string) returns (updated: seq<string>)
      ensures updated == Replaced(files, olds, path) + (if NoneOld(files, olds) then Line(path) else [])
    {
      hide Pending, NoneOld, Replaced, Without;
      updated := [];
      var inserted := false;
      assert files[0..] == files;
      PendingStart(files, olds, path);
      for i := 0 to |files|
        invariant inserted ==> path != "" && !NoneOld(files, olds)
        invariant !inserted && path != "" ==> forall j :: 0 <= j < i ==> files[j] !in olds
        invariant updated + Pending(files[i..], olds, path, inserted) == Replaced(files, olds, path)
      {
        ghost var was, had := updated, inserted;
        PendingStep(files[i..], olds, path, had);
        assert files[i..][1..] == files[i + 1..];
        ghost var more: seq<string> := [];
        if files[i] in olds {
          SomeReplaced(files[i], files, olds, path);
          if !inserted && path != "" {
            updated, more := updated + [path], [path];
            inserted := true;
          }
        } else {
          updated, more := updated + [files[i]], [files[i]];
        }
        assert updated == was + more;
        assert was + (more + Pending(files[i + 1..], olds, path, inserted))
            == updated + Pending(files[i + 1..], olds, path, inserted);
      }
      assert files[|files|..] == [];
      PendingNone(files, olds, path, inserted);
      if !inserted && path != "" {
        updated := updated + [path];
      }
    }

    static method Text(files: seq<string>) returns (text: string)
      ensures text == ManifestText(files)
    {
      text := "";
      for i := 0 to |files|
        invariant text + ManifestText(files[i..]) == ManifestText(files)
      {
        ghost var (was, rest) := (text, ManifestText(files[i + 1..]));
        assert files[i..][1..] == files[i + 1..];
        text := text + files[i] + "\n";
        assert text + rest == was + (files[i] + "\n" + rest);
      }
    }
  }

  lemma SomeReplaced(first: string, files: seq<string>, olds: set<string>, path: string)
    requires first in olds && first in files
    ensures !NoneOld(files, olds)
  {
  }
}
