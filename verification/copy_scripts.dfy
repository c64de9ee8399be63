/** Copying the scripts into `docs`: every regular file in the working
    directory whose name ends in ".py" is copied to `docs/<stem>`, the name
    without its suffix. Directories are maps from entry names to entries. */
module CopyScripts {
  import opened Wrappers
  import opened Text
  import PosixPath

  const SourceDir := "."
  const TargetDir := "docs"
  const Suffix := ".py"

  /** A directory entry: a regular file with its text, or something else
      (a directory, say) when `isFile` is false. */
  datatype Entry = Entry(isFile: bool, content: string)

  type Dir = map<string, Entry>

  /** The names `os.listdir` may return for `dir`: each entry once, in some
      order. */
  ghost predicate IsListing(dir: Dir, listing: seq<string>) {
    && (forall i, j :: 0 <= i < j < |listing| ==> listing[i] != listing[j])
    && (forall n :: n in dir <==> n in listing)
  }

  /** The filter: a regular file whose name ends with ".py". */
  predicate IsScript(dir: Dir, name: string) {
    name in dir && dir[name].isFile && EndsWith(name, Suffix)
  }

  /** `entry[:-3]`. */
  function Stem(name: string): (stem: string)
    requires EndsWith(name, Suffix)
    ensures |stem| + |Suffix| == |name|
    ensures stem + Suffix == name
  {
    name[..|name| - |Suffix|]
  }

  /** Removing the suffix of a name that was built with it gives the name back. */
  lemma StemOfScriptName(stem: string)
    ensures EndsWith(stem + Suffix, Suffix) && Stem(stem + Suffix) == stem
  {
    assert (stem + Suffix)[|stem|..] == Suffix;
  }

  /** Two scripts never share a stem. */
  lemma StemInjective(a: string, b: string)
    requires EndsWith(a, Suffix) && EndsWith(b, Suffix)
    requires Stem(a) == Stem(b)
    ensures a == b
  {
  }

  // ---------------------------------------------------------------------
  // Selecting the scripts

  /** The stems of the scripts in `listing`, in listing order. */
  function SelectScripts(dir: Dir, listing: seq<string>): (stems: seq<string>)
    ensures |stems| <= |listing|
    ensures forall k :: 0 <= k < |stems| ==> IsScript(dir, stems[k] + Suffix)
    ensures forall i :: 0 <= i < |listing| && IsScript(dir, listing[i]) ==> Stem(listing[i]) in stems
  {
    if |listing| == 0 then []
    else
      var rest := SelectScripts(dir, listing[1..]);
      assert forall i :: 1 <= i < |listing| ==> listing[i] == listing[1..][i - 1];
      if IsScript(dir, listing[0]) then [Stem(listing[0])] + rest else rest
  }

  /** `stems` is `listing` filtered by `IsScript` and mapped to stems, the
      `k`-th stem coming from entry `idx[k]`; the entries are taken in
      listing order and none is left out. */
  predicate FilteredAt(dir: Dir, listing: seq<string>, stems: seq<string>, idx: seq<nat>) {
    && TakenFrom(dir, listing, stems, idx)
    && Increasing(idx)
    && Covers(dir, listing, idx, 0)
  }

  predicate TakenFrom(dir: Dir, listing: seq<string>, stems: seq<string>, idx: seq<nat>) {
    && |idx| == |stems|
    && forall k :: 0 <= k < |idx| ==>
         idx[k] < |listing| && IsScript(dir, listing[idx[k]]) && stems[k] == Stem(listing[idx[k]])
  }

  predicate Increasing(idx: seq<nat>) {
    forall k, l :: 0 <= k < l < |idx| ==> idx[k] < idx[l]
  }

  /** Every script at position `from` or later is picked. */
  predicate Covers(dir: Dir, listing: seq<string>, idx: seq<nat>, from: nat) {
    forall i :: from <= i < |listing| && IsScript(dir, listing[i]) ==> i in idx
  }

  function Shift(idx: seq<nat>): (r: seq<nat>)
    ensures |r| == |idx|
    ensures forall k :: 0 <= k < |idx| ==> r[k] == idx[k] + 1
  {
    seq(|idx|, k requires 0 <= k < |idx| => idx[k] + 1)
  }

  /** The selection is exactly the scripts, each once, in listing order. */
  lemma {:induction false} SelectScriptsFilters(dir: Dir, listing: seq<string>)
    ensures exists idx :: FilteredAt(dir, listing, SelectScripts(dir, listing), idx)
  {
    if |listing| == 0 {
      assert SelectScripts(dir, listing) == [];
      assert FilteredAt(dir, listing, SelectScripts(dir, listing), []);
    } else {
      SelectScriptsFilters(dir, listing[1..]);
      var rest := SelectScripts(dir, listing[1..]);
      var idx :| FilteredAt(dir, listing[1..], rest, idx);
      FilterShifts(dir, listing, rest, idx);
      if IsScript(dir, listing[0]) {
        assert SelectScripts(dir, listing) == [Stem(listing[0])] + rest;
        FilterKeeps(dir, listing, rest, Shift(idx));
        assert FilteredAt(dir, listing, SelectScripts(dir, listing), [0] + Shift(idx));
      } else {
        assert SelectScripts(dir, listing) == rest;
        assert Covers(dir, listing, Shift(idx), 0);
        assert FilteredAt(dir, listing, SelectScripts(dir, listing), Shift(idx));
      }
    }
  }

  /** Filtering the tail, seen from the whole listing. */
  lemma FilterShifts(dir: Dir, listing: seq<string>, stems: seq<string>, idx: seq<nat>)
    requires |listing| > 0 && FilteredAt(dir, listing[1..], stems, idx)
    ensures TakenFrom(dir, listing, stems, Shift(idx))
    ensures Increasing(Shift(idx))
    ensures Covers(dir, listing, Shift(idx), 1)
  {
    var shifted := Shift(idx);
    forall k | 0 <= k < |idx| ensures listing[shifted[k]] == listing[1..][idx[k]] { }
    forall i | 1 <= i < |listing| && IsScript(dir, listing[i]) ensures i in shifted {
      assert listing[1..][i - 1] == listing[i];
      var k :| 0 <= k < |idx| && idx[k] == i - 1;
      assert shifted[k] == i;
    }
  }

  lemma FilterKeeps(dir: Dir, listing: seq<string>, stems: seq<string>, idx: seq<nat>)
    requires |listing| > 0 && IsScript(dir, listing[0])
    requires TakenFrom(dir, listing, stems, idx) && Increasing(idx) && Covers(dir, listing, idx, 1)
    requires forall k :: 0 <= k < |idx| ==> idx[k] > 0
    ensures FilteredAt(dir, listing, [Stem(listing[0])] + stems, [0] + idx)
  {
    var all := [0] + idx;
    var out := [Stem(listing[0])] + stems;
    forall k | 0 < k < |all| ensures all[k] == idx[k - 1] && out[k] == stems[k - 1] { }
    assert TakenFrom(dir, listing, out, all);
    assert Increasing(all);
    forall i | 0 < i < |listing| && IsScript(dir, listing[i]) ensures i in all {
      assert i in idx;
    }
  }

  // ---------------------------------------------------------------------
  // Paths and contents

  /** `os.path.join(SOURCE_DIR, f"{file}.py")`. */
  function SourcePath(stem: string): (p: string)
    ensures !StartsWith(stem, "/") ==> p == "./" + stem + Suffix
  {
    assert !StartsWith(stem, "/") ==> PosixPath.Join(SourceDir, stem + Suffix) == "./" + stem + Suffix by {
      if !StartsWith(stem, "/") {
        assert !StartsWith(stem + Suffix, "/") by {
          if |stem| > 0 { assert (stem + Suffix)[0] == stem[0]; } else { assert (stem + Suffix)[0] == '.'; }
        }
        assert PosixPath.Join(SourceDir, stem + Suffix) == SourceDir + "/" + (stem + Suffix);
      }
    }
    PosixPath.Join(SourceDir, stem + Suffix)
  }

  /** `os.path.join(TARGET_DIR, file)`: the stem in `docs`, with no suffix. */
  function TargetPath(stem: string): (p: string)
    ensures !StartsWith(stem, "/") ==> p == "docs/" + stem
  {
    PosixPath.Join(TargetDir, stem)
  }

  /** The copy reads the source back from the entry the listing named. */
  lemma SourcePathIsListedEntry(name: string)
    requires EndsWith(name, Suffix)
    ensures SourcePath(Stem(name)) == PosixPath.Join(SourceDir, name)
  {
  }

  /** Reading in text mode: "\r\n" and a lone "\r" each become "\n". */
  function UniversalNewlines(s: string): (r: string)
    ensures '\r' !in r
    ensures '\r' !in s ==> r == s
    ensures |r| <= |s|
  {
    if |s| == 0 then ""
    else if s[0] == '\r' then "\n" + UniversalNewlines(if |s| > 1 && s[1] == '\n' then s[2..] else s[1..])
    else
      assert '\r' !in s ==> '\r' !in s[1..];
      [s[0]] + UniversalNewlines(s[1..])
  }

  /** "\r\n" after a stretch without carriage returns reads as one "\n". */
  lemma {:induction false} NewlinesConvertCrLf(a: string, b: string)
    requires '\r' !in a
    ensures UniversalNewlines(a + "\r\n" + b) == a + "\n" + UniversalNewlines(b)
  {
    var s := a + "\r\n" + b;
    if |a| == 0 {
      assert s == "\r\n" + b && s[0] == '\r' && s[1] == '\n' && s[2..] == b;
      assert UniversalNewlines(s) == "\n" + UniversalNewlines(s[2..]);
    } else {
      assert s[0] == a[0] && a[0] in a;
      assert s[1..] == a[1..] + "\r\n" + b;
      assert '\r' !in a[1..] by { assert forall k :: 0 <= k < |a[1..]| ==> a[1..][k] == a[k + 1]; }
      NewlinesConvertCrLf(a[1..], b);
      assert UniversalNewlines(s) == [a[0]] + UniversalNewlines(s[1..]);
      assert a == [a[0]] + a[1..];
    }
  }

  /** A lone "\r", one not followed by "\n", also reads as "\n". */
  lemma {:induction false} NewlinesConvertCr(a: string, b: string)
    requires '\r' !in a
    requires |b| == 0 || b[0] != '\n'
    ensures UniversalNewlines(a + "\r" + b) == a + "\n" + UniversalNewlines(b)
  {
    var s := a + "\r" + b;
    if |a| == 0 {
      assert s == "\r" + b && s[0] == '\r' && s[1..] == b;
      assert UniversalNewlines(s) == "\n" + UniversalNewlines(s[1..]);
    } else {
      assert s[0] == a[0] && a[0] in a;
      assert s[1..] == a[1..] + "\r" + b;
      assert '\r' !in a[1..] by { assert forall k :: 0 <= k < |a[1..]| ==> a[1..][k] == a[k + 1]; }
      NewlinesConvertCr(a[1..], b);
      assert UniversalNewlines(s) == [a[0]] + UniversalNewlines(s[1..]);
      assert a == [a[0]] + a[1..];
    }
  }

  // ---------------------------------------------------------------------
  // Copying

  /** `open(target_path, "w")` on a directory raises. */
  datatype Failure = IsADirectory(path: string)

  /** Writing `stem` fails when its target is a directory: "docs/", "docs/."
      and "docs/..", the targets of "", "." and "..", always are. */
  predicate Blocked(target: Dir, stem: string) {
    stem == "" || stem == "." || stem == ".." || (stem in target && !target[stem].isFile)
  }

  /** The file `docs/<stem>` holds after the copy: the script's text as
      read in text mode. */
  function CopyOf(source: Dir, stem: string): (e: Entry)
    requires IsScript(source, stem + Suffix)
    ensures e.isFile
    ensures '\r' !in source[stem + Suffix].content ==> e == source[stem + Suffix]
  {
    Entry(true, UniversalNewlines(source[stem + Suffix].content))
  }

  /** Writing one copy leaves every other target as blocked as it was. */
  lemma WriteKeepsBlocked(target: Dir, stem: string, e: Entry)
    requires !Blocked(target, stem) && e.isFile
    ensures forall n :: Blocked(target[stem := e], n) <==> Blocked(target, n)
  {
  }

  /** What the copy loop left behind: the `docs` directory, how many stems
      it copied, and the failure that stopped it, if any. */
  datatype CopyRun = CopyRun(target: Dir, copied: nat, failure: Option<Failure>)

  /** The copy loop from `stems[i]` on, stopping at the first write that
      fails. `source` is the working directory and `target` the `docs`
      directory. */
  function CopyFrom(source: Dir, target: Dir, stems: seq<string>, i: nat): (r: CopyRun)
    requires i <= |stems|
    requires forall k :: 0 <= k < |stems| ==> IsScript(source, stems[k] + Suffix)
    ensures i <= r.copied <= |stems|
    ensures forall k :: i <= k < r.copied ==> !Blocked(target, stems[k])
    ensures r.failure.None? ==> r.copied == |stems|
    ensures r.failure.Some? ==>
      && r.copied < |stems| && Blocked(target, stems[r.copied])
      && r.failure == Some(IsADirectory(TargetPath(stems[r.copied])))
    decreases |stems| - i
  {
    if i == |stems| then CopyRun(target, i, None)
    else if Blocked(target, stems[i]) then CopyRun(target, i, Some(IsADirectory(TargetPath(stems[i]))))
    else
      assert IsScript(source, stems[i] + Suffix);
      var e := CopyOf(source, stems[i]);
      WriteKeepsBlocked(target, stems[i], e);
      CopyFrom(source, target[stems[i] := e], stems, i + 1)
  }

  /** The entries of `docs` after the copy loop: those it had, and the
      stems copied. */
  lemma {:induction false} CopyFromKeys(source: Dir, target: Dir, stems: seq<string>, i: nat)
    requires i <= |stems|
    requires forall k :: 0 <= k < |stems| ==> IsScript(source, stems[k] + Suffix)
    ensures var r := CopyFrom(source, target, stems, i);
      forall n :: n in r.target <==> n in target || n in stems[i..r.copied]
    decreases |stems| - i
  {
    if i < |stems| && !Blocked(target, stems[i]) {
      assert IsScript(source, stems[i] + Suffix);
      var e := CopyOf(source, stems[i]);
      var written := target[stems[i] := e];
      WriteKeepsBlocked(target, stems[i], e);
      CopyFromKeys(source, written, stems, i + 1);
      var r := CopyFrom(source, written, stems, i + 1);
      assert CopyFrom(source, target, stems, i) == r;
      assert stems[i..r.copied] == [stems[i]] + stems[i + 1..r.copied];
    }
  }

  /** An entry the copy loop does not write is as it was. */
  lemma {:induction false} CopyFromKeeps(source: Dir, target: Dir, stems: seq<string>, i: nat)
    requires i <= |stems|
    requires forall k :: 0 <= k < |stems| ==> IsScript(source, stems[k] + Suffix)
    ensures var r := CopyFrom(source, target, stems, i);
      forall n :: n in target && n !in stems[i..r.copied] ==> n in r.target && r.target[n] == target[n]
    decreases |stems| - i
  {
    if i < |stems| && !Blocked(target, stems[i]) {
      assert IsScript(source, stems[i] + Suffix);
      var e := CopyOf(source, stems[i]);
      var written := target[stems[i] := e];
      WriteKeepsBlocked(target, stems[i], e);
      CopyFromKeeps(source, written, stems, i + 1);
      var r := CopyFrom(source, written, stems, i + 1);
      assert CopyFrom(source, target, stems, i) == r;
      assert stems[i..r.copied] == [stems[i]] + stems[i + 1..r.copied];
    }
  }

  /** Every stem the copy loop copied names a copy of its script. */
  lemma {:induction false} CopyFromContents(source: Dir, target: Dir, stems: seq<string>, i: nat)
    requires i <= |stems|
    requires forall k :: 0 <= k < |stems| ==> IsScript(source, stems[k] + Suffix)
    ensures var r := CopyFrom(source, target, stems, i);
      forall k :: i <= k < r.copied ==> stems[k] in r.target && r.target[stems[k]] == CopyOf(source, stems[k])
    decreases |stems| - i
  {
    if i < |stems| && !Blocked(target, stems[i]) {
      assert IsScript(source, stems[i] + Suffix);
      var e := CopyOf(source, stems[i]);
      var written := target[stems[i] := e];
      WriteKeepsBlocked(target, stems[i], e);
      CopyFromContents(source, written, stems, i + 1);
      var r := CopyFrom(source, written, stems, i + 1);
      assert CopyFrom(source, target, stems, i) == r;
      if stems[i] !in stems[i + 1..r.copied] {
        CopyFromKeeps(source, written, stems, i + 1);
      } else {
        var j :| i + 1 <= j < r.copied && stems[j] == stems[i] by {
          var m :| 0 <= m < |stems[i + 1..r.copied]| && stems[i + 1..r.copied][m] == stems[i];
          assert stems[i + 1 + m] == stems[i];
        }
      }
    }
  }

  /** What the script leaves behind: the `docs` directory, with every copy
      written so far, and the failure that stopped it, if any. */
  datatype Copied = Copied(docs: Dir, failure: Option<Failure>)

  /** `r` is what copying `stems` in order leaves when the first blocked stem
      is `stems[c]`, or none is when `c` is `|stems|`: every stem before it
      copied, the failure naming its target, and every other entry kept. */
  ghost predicate StopsAt(source: Dir, target: Dir, stems: seq<string>, c: int, r: Copied)
    requires forall k :: 0 <= k < |stems| ==> IsScript(source, stems[k] + Suffix)
  {
    && 0 <= c <= |stems|
    && (forall k :: 0 <= k < c ==> !Blocked(target, stems[k]))
    && (c < |stems| ==> Blocked(target, stems[c]) && r.failure == Some(IsADirectory(TargetPath(stems[c]))))
    && (c == |stems| ==> r.failure.None?)
    && (forall n :: n in r.docs <==> n in target || n in stems[..c])
    && (forall k :: 0 <= k < c ==> stems[k] in r.docs && r.docs[stems[k]] == CopyOf(source, stems[k]))
    && (forall n :: n in target && n !in stems[..c] ==> n in r.docs && r.docs[n] == target[n])
  }

  /** The whole script: select the scripts in listing order and copy each,
      stopping at the first whose target is a directory. */
  function CopyScripts(source: Dir, listing: seq<string>, target: Dir): (r: Copied)
    requires IsListing(source, listing)
    ensures r.failure.Some? <==> exists name :: IsScript(source, name) && Blocked(target, Stem(name))
    ensures exists c :: StopsAt(source, target, SelectScripts(source, listing), c, r)
    ensures r.failure.None? ==> forall name :: IsScript(source, name) ==>
      Stem(name) in r.docs && r.docs[Stem(name)] == CopyOf(source, Stem(name))
    ensures r.failure.None? ==> forall n :: n in r.docs <==> n in target || IsScript(source, n + Suffix)
    ensures r.failure.None? ==> forall n :: n in target && !IsScript(source, n + Suffix) ==> r.docs[n] == target[n]
  {
    var stems := SelectScripts(source, listing);
    var run := CopyFrom(source, target, stems, 0);
    CopyFromKeys(source, target, stems, 0);
    CopyFromKeeps(source, target, stems, 0);
    CopyFromContents(source, target, stems, 0);
    ScriptsAreSelected(source, listing);
    assert stems[0..run.copied] == stems[..run.copied];
    assert StopsAt(source, target, stems, run.copied, Copied(run.target, run.failure));
    if run.failure.Some? then
      StemOfScriptName(stems[run.copied]);
      Copied(run.target, run.failure)
    else
      assert stems[..run.copied] == stems;
      forall n | IsScript(source, n + Suffix) ensures n in stems {
        StemOfScriptName(n);
      }
      forall n | n in stems ensures IsScript(source, n + Suffix) { }
      Copied(run.target, None)
  }

  /** Every script in the directory is selected. */
  lemma ScriptsAreSelected(source: Dir, listing: seq<string>)
    requires IsListing(source, listing)
    ensures forall name :: IsScript(source, name) ==> Stem(name) in SelectScripts(source, listing)
  {
    forall name | IsScript(source, name) ensures Stem(name) in SelectScripts(source, listing) {
      var i :| 0 <= i < |listing| && listing[i] == name;
    }
  }

  // ---------------------------------------------------------------------
  // Properties

  /** A source without carriage returns is copied byte for byte. */
  lemma CopyIsExactWithoutCarriageReturns(source: Dir, listing: seq<string>, target: Dir, name: string)
    requires IsListing(source, listing)
    requires CopyScripts(source, listing, target).failure.None?
    requires IsScript(source, name) && '\r' !in source[name].content
    ensures CopyScripts(source, listing, target).docs[Stem(name)] == source[name]
  {
  }

  /** Scripts named ".py", "..py" and "...py" have the stems "", "." and
      "..", whose targets "docs/", "docs/." and "docs/.." are directories, so
      the copy stops. */
  lemma DotStemsStopTheCopy(source: Dir, listing: seq<string>, target: Dir, name: string)
    requires IsListing(source, listing)
    requires name == ".py" || name == "..py" || name == "...py"
    requires name in source && source[name].isFile
    ensures CopyScripts(source, listing, target).failure.Some?
  {
    assert IsScript(source, name);
    assert Blocked(target, Stem(name)) by {
      if name == "..py" { assert Stem(name) == "."; }
      else if name == "...py" { assert Stem(name) == ".."; }
      else { assert Stem(name) == ""; }
    }
  }
}
