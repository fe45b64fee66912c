/**
 * The `.forceignore` manager: an in-memory list of ignored paths, and the
 * splice that replaces the marker-delimited managed block of the file with
 * a freshly rendered one. The file's text is passed in and handed back;
 * reading and writing the file belong to the callers.
 */
module IgnoreManagement {
  import opened Wrappers
  import opened Strings
  import opened Seqs

  /** The eleven hashes on each side of a marker's bracketed name. */
  const HASHES: string := "###########"
  const START: string := HASHES + "[AUTOMATED_IGNORE_MANAGEMENT_START]" + HASHES
  const END: string := HASHES + "[AUTOMATED_IGNORE_MANAGEMENT_END]" + HASHES

  /** The four spaces the template literal puts before each rendered line. */
  const INDENT: string := "    "

  function Line(x: string): string {
    INDENT + x
  }

  /** The text `save` appends: newline, START, newline, the paths one per line, newline, END. */
  function Block(paths: seq<string>): string {
    "\n" + (Line(START) + "\n" + (Line(Join(paths, "\n")) + "\n" + Line(END)))
  }

  /** `fileData && fileData.includes(START) && fileData.includes(END)`. */
  predicate HasBlock(fileData: string) {
    fileData != "" && Includes(fileData, START) && Includes(fileData, END)
  }

  /**
   * The first half of `save`: when both markers occur, cut from the first
   * START up to the end of the first END; otherwise keep the text as is.
   */
  function WithoutBlock(fileData: string): (r: string)
    ensures HasBlock(fileData) ==> fileData[..IndexOf(fileData, START)] <= r
    ensures HasBlock(fileData) ==>
      var after := fileData[IndexOf(fileData, END) + |END|..];
      |after| <= |r| && r[|r| - |after|..] == after
  {
    if HasBlock(fileData) then
      fileData[..IndexOf(fileData, START)] + fileData[IndexOf(fileData, END) + |END|..]
    else fileData
  }

  /** What `save` writes: the text without its old block, then the new block. */
  function Saved(fileData: string, paths: seq<string>): (r: string)
    ensures WithoutBlock(fileData) <= r
  {
    WithoutBlock(fileData) + Block(paths)
  }

  /**
   * With a first START at `s` and a first END at `e`, the splice keeps the
   * text before `s` and the text after the END that starts at `e`.
   */
  lemma WithoutBlockKeepsOutside(fileData: string, s: nat, e: nat)
    requires OccursAt(fileData, START, s) && forall j: nat :: j < s ==> !OccursAt(fileData, START, j)
    requires OccursAt(fileData, END, e) && forall j: nat :: j < e ==> !OccursAt(fileData, END, j)
    ensures e + |END| <= |fileData|
    ensures WithoutBlock(fileData) == fileData[..s] + fileData[e + |END|..]
  {
    assert HasBlock(fileData) by {
      assert fileData[s..s + |START|] == START;
    }
  }

  /** The guard of the splice holds exactly when both markers occur in the text. */
  lemma HasBlockMeansBothMarkers(fileData: string)
    ensures HasBlock(fileData) <==> !Absent(fileData, START) && !Absent(fileData, END)
  {
    if !Absent(fileData, START) {
      var i: nat :| OccursAt(fileData, START, i);
      assert |START| > 0;
    }
  }

  /** Text lacking either marker is left untouched by the splice. */
  lemma WithoutBlockNeedsBothMarkers(fileData: string)
    requires Absent(fileData, START) || Absent(fileData, END)
    ensures WithoutBlock(fileData) == fileData
  {
  }

  // Facts about the two marker strings.

  lemma MarkerFacts()
    ensures |START| == 57 && |END| == 55
    ensures START[0] == '#' && END[0] == '#'
    ensures '\n' !in START && '\n' !in END
    ensures OnlyAt(START, START, 0) && OnlyAt(END, END, 0)
    ensures Absent(START, END) && Absent(END, START)
  {
    assert START[40] != END[40];
    assert START[11] != END[10];
    assert START[11] != END[9];
    forall i: nat ensures !OccursAt(START, END, i) {
      if i == 0 { assert START[i..i + |END|][40] != END[40]; }
      else if i == 1 { assert START[i..i + |END|][10] != END[10]; }
      else if i == 2 { assert START[i..i + |END|][9] != END[9]; }
    }
    forall i: nat ensures OccursAt(START, START, i) <==> i == 0 {
      assert START[0..|START|] == START;
    }
    forall i: nat ensures OccursAt(END, END, i) <==> i == 0 {
      assert END[0..|END|] == END;
    }
  }

  lemma AbsentInLine(x: string, pat: string)
    requires |pat| > 0 && pat[0] == '#' && Absent(x, pat)
    ensures Absent(Line(x), pat)
  {
    forall i: nat ensures !OccursAt(Line(x), pat, i) {
      OccursAfterIndent(INDENT, x, pat, i);
    }
  }

  lemma OnlyAtInLine(x: string, pat: string, k: nat)
    requires |pat| > 0 && pat[0] == '#' && OnlyAt(x, pat, k)
    ensures OnlyAt(Line(x), pat, k + 4)
  {
    forall i: nat ensures OccursAt(Line(x), pat, i) <==> i == k + 4 {
      OccursAfterIndent(INDENT, x, pat, i);
    }
  }

  /** Neither marker occurs in any path. */
  ghost predicate MarkerFree(paths: seq<string>) {
    forall k :: 0 <= k < |paths| ==> Absent(paths[k], START) && Absent(paths[k], END)
  }

  lemma StartOnlyAfterKeptText(u: string, j: string)
    requires Absent(u, START) && Absent(j, START)
    ensures OnlyAt(u + ['\n'] + (Line(START) + ['\n'] + (Line(j) + ['\n'] + Line(END))), START, |u| + 5)
  {
    MarkerFacts();
    var t2 := Line(j) + ['\n'] + Line(END);
    AbsentInLine(j, START);
    AbsentInLine(END, START);
    OnlyAtInLine(START, START, 0);
    AbsentAroundSeparator(Line(j), '\n', Line(END), START);
    OnlyAtLeftOfSeparator(Line(START), '\n', t2, START, 4);
    OnlyAtRightOfSeparator(u, '\n', Line(START) + ['\n'] + t2, START, 4);
  }

  lemma EndOnlyAtEnd(u: string, j: string)
    requires Absent(u, END) && Absent(j, END)
    ensures var r := u + ['\n'] + (Line(START) + ['\n'] + (Line(j) + ['\n'] + Line(END)));
      OnlyAt(r, END, |r| - |END|)
  {
    MarkerFacts();
    var t2 := Line(j) + ['\n'] + Line(END);
    AbsentInLine(j, END);
    AbsentInLine(START, END);
    OnlyAtInLine(END, END, 0);
    OnlyAtRightOfSeparator(Line(j), '\n', Line(END), END, 4);
    OnlyAtRightOfSeparator(Line(START), '\n', t2, END, |Line(j)| + 1 + 4);
    OnlyAtRightOfSeparator(u, '\n', Line(START) + ['\n'] + t2, END, |Line(START)| + 1 + |Line(j)| + 1 + 4);
  }

  /** Marker-free text followed by a block of marker-free paths holds one START and one END. */
  lemma OneBlockAfter(u: string, paths: seq<string>)
    requires Absent(u, START) && Absent(u, END)
    requires MarkerFree(paths)
    ensures OnlyAt(u + Block(paths), START, |u| + 5)
    ensures OnlyAt(u + Block(paths), END, |u + Block(paths)| - |END|)
  {
    var j := Join(paths, "\n");
    MarkerFacts();
    JoinAbsent(paths, '\n', START);
    JoinAbsent(paths, '\n', END);
    var rest := Line(START) + ['\n'] + (Line(j) + ['\n'] + Line(END));
    assert Block(paths) == ['\n'] + rest;
    assert u + (['\n'] + rest) == u + ['\n'] + rest;
    StartOnlyAfterKeptText(u, j);
    EndOnlyAtEnd(u, j);
  }

  /**
   * When the text kept by the splice and the paths contain no marker, the
   * saved text holds exactly one START and exactly one END, START first:
   * the START right after the kept text and the newline and indent, and the
   * END at the very end.
   */
  lemma SavedHasOneBlock(fileData: string, paths: seq<string>)
    requires Absent(WithoutBlock(fileData), START) && Absent(WithoutBlock(fileData), END)
    requires MarkerFree(paths)
    ensures var u := WithoutBlock(fileData);
      var r := Saved(fileData, paths);
      && OnlyAt(r, START, |u| + 5)
      && OnlyAt(r, END, |r| - |END|)
      && |u| + 5 + |START| < |r| - |END|
  {
    OneBlockAfter(WithoutBlock(fileData), paths);
    assert |START| == 57 && |END| == 55;
  }

  /**
   * Saving over a file that `save` produced from marker-free text `u` cuts
   * the old block but keeps the newline and indent before it: every save
   * grows the file by that much, so saving is not idempotent.
   */
  lemma SaveAgain(u: string, first: seq<string>, second: seq<string>)
    requires Absent(u, START) && Absent(u, END)
    requires MarkerFree(first)
    ensures WithoutBlock(Saved(u, first)) == u + "\n" + INDENT
    ensures Saved(Saved(u, first), second) == u + "\n" + INDENT + Block(second)
  {
    WithoutBlockNeedsBothMarkers(u);
    SavedHasOneBlock(u, first);
    var r := Saved(u, first);
    var s, e := |u| + 5, |r| - |END|;
    WithoutBlockKeepsOutside(r, s, e);
    BlockKeepsIndent(u, first);
    assert r[e + |END|..] == [];
  }

  /** The text before a block's START is the text it was appended to, a newline and the indent. */
  lemma BlockKeepsIndent(u: string, paths: seq<string>)
    ensures |u + Block(paths)| > |u| + 5
    ensures (u + Block(paths))[..|u| + 5] == u + "\n" + INDENT
  {
    var b := Block(paths);
    assert b[..5] == "\n" + INDENT;
    assert (u + b)[..|u| + 5] == u + b[..5];
  }

  /** A marker-free text stays marker-free once the kept newline and indent are added. */
  lemma KeptTextStaysMarkerFree(u: string)
    requires Absent(u, START) && Absent(u, END)
    ensures Absent(u + "\n" + INDENT, START) && Absent(u + "\n" + INDENT, END)
  {
    MarkerFacts();
    forall i: nat ensures !OccursAt(u + "\n" + INDENT, START, i) && !OccursAt(u + "\n" + INDENT, END, i) {
      assert u + "\n" + INDENT == u + ['\n'] + INDENT;
      OccursAroundSeparator(u, '\n', INDENT, START, i);
      OccursAroundSeparator(u, '\n', INDENT, END, i);
    }
  }

  // The in-memory list of paths.

  /** `addPath` on a defined list: append unless already present. */
  function Added(paths: seq<string>, p: string): (r: seq<string>)
    ensures paths <= r && |r| <= |paths| + 1
    ensures forall x :: x in r <==> x in paths || x == p
  {
    if p in paths then paths else paths + [p]
  }

  /** `addPaths`: `addPath` for each element, in order. */
  function AddedAll(paths: seq<string>, xs: seq<string>): (r: seq<string>)
    ensures paths <= r && |r| <= |paths| + |xs|
    decreases |xs|
  {
    if xs == [] then paths
    else Added(AddedAll(paths, xs[..|xs| - 1]), xs[|xs| - 1])
  }

  lemma IndexOfElemInPrefix(xs: seq<string>, n: nat, e: string)
    requires n <= |xs| && e in xs[..n]
    ensures IndexOfElem(xs, e) == IndexOfElem(xs[..n], e)
  {
    var b := IndexOfElem(xs[..n], e);
    assert xs[b] == e;
  }

  /**
   * After `addPaths(xs)` on `paths`: the old entries come first, unchanged;
   * the list holds exactly the old entries and the elements of `xs`; every
   * new entry was absent before; a duplicate-free list stays duplicate-free;
   * and the new entries follow the order of their first occurrence in `xs`.
   */
  lemma {:induction false} AddedAllSpec(paths: seq<string>, xs: seq<string>)
    ensures var r := AddedAll(paths, xs);
      && |paths| <= |r| && r[..|paths|] == paths
      && (forall x :: x in r <==> x in paths || x in xs)
      && (forall i :: |paths| <= i < |r| ==> r[i] !in paths && r[i] in xs)
      && (NoDup(paths) ==> NoDup(r))
      && (forall i, j :: |paths| <= i < j < |r| ==> IndexOfElem(xs, r[i]) < IndexOfElem(xs, r[j]))
    decreases |xs|
  {
    if xs != [] {
      var n := |xs| - 1;
      var front, x := xs[..n], xs[n];
      assert xs == front + [x];
      AddedAllSpec(paths, front);
      var before := AddedAll(paths, front);
      var r := AddedAll(paths, xs);
      forall i | |paths| <= i < |before|
        ensures IndexOfElem(xs, before[i]) == IndexOfElem(front, before[i])
      {
        IndexOfElemInPrefix(xs, n, before[i]);
      }
      if x !in before {
        assert r == before + [x];
        assert IndexOfElem(xs, x) == n by {
          assert x !in xs[..n];
        }
        forall i | |paths| <= i < |before|
          ensures IndexOfElem(xs, before[i]) < n
        {
          assert IndexOfElem(front, before[i]) < |front|;
        }
      }
    }
  }

  /** Adding paths that are all present already changes nothing. */
  lemma {:induction false} AddedAllPresent(paths: seq<string>, xs: seq<string>)
    requires forall k :: 0 <= k < |xs| ==> xs[k] in paths
    ensures AddedAll(paths, xs) == paths
    decreases |xs|
  {
    if xs != [] {
      AddedAllPresent(paths, xs[..|xs| - 1]);
    }
  }

  /** `addPaths` is idempotent: adding the same paths again changes nothing. */
  lemma AddPathsIdempotent(paths: seq<string>, xs: seq<string>)
    ensures AddedAll(AddedAll(paths, xs), xs) == AddedAll(paths, xs)
  {
    AddedAllSpec(paths, xs);
    AddedAllPresent(AddedAll(paths, xs), xs);
  }

  /**
   * `paths.splice(paths.indexOf(p), 1)`: the first occurrence of a present
   * path is removed; for an absent path `indexOf` gives -1 and the last
   * entry is removed instead; an empty list stays empty.
   */
  function Removed(paths: seq<string>, p: string): (r: seq<string>)
    ensures p in paths ==>
      var i := IndexOfElem(paths, p);
      r == paths[..i] + paths[i + 1..] && p !in paths[..i]
      && multiset(r) == multiset(paths) - multiset{p}
    ensures p !in paths && paths != [] ==> r == paths[..|paths| - 1]
    ensures paths == [] ==> r == []
  {
    var i := IndexOfElem(paths, p);
    assert p in paths ==> paths == paths[..i] + [p] + paths[i + 1..];
    SpliceOne(paths, i)
  }

  /** The removal `removePath` evidently means: the first occurrence if present, otherwise nothing. */
  function RemovedIfPresent(paths: seq<string>, p: string): (r: seq<string>)
    ensures p !in paths ==> r == paths
    ensures p in paths ==> |r| == |paths| - 1 && multiset(r) == multiset(paths) - multiset{p}
    ensures NoDup(paths) ==> p !in r
  {
    if p in paths then
      var i := IndexOfElem(paths, p);
      assert paths == paths[..i] + [p] + paths[i + 1..];
      assert NoDup(paths) ==> p !in paths[i + 1..];
      paths[..i] + paths[i + 1..]
    else paths
  }

  /** As written, removing a path that is not listed drops the last listed path. */
  lemma RemoveAbsentDropsLast()
    ensures Removed(["core", "ext"], "other") == ["core"]
  {
    assert "other" !in ["core", "ext"];
  }

  /** The first half of the `ignoredPaths` getter: the block's lines, START excluded, END included. */
  function ParsedBlock(fileData: string): (r: seq<string>)
    requires HasBlock(fileData)
    ensures |r| >= 1 && forall k :: 0 <= k < |r| ==> '\n' !in r[k]
  {
    Split(Substring(fileData, IndexOf(fileData, START) + |START|, IndexOf(fileData, END) + |END|), '\n')
  }

  /**
   * The ignore-list manager. `paths` is `None` until something assigns it:
   * the source's constructor never initialises the field, so `addPath`,
   * `removePath` and `save` on a fresh manager hit `undefined`.
   */
  class IgnoreManager {
    var paths: Option<seq<string>>

    /** `new IgnoreManager()`: the list stays undefined. */
    constructor ()
      ensures paths == None
    {
      paths := None;
    }

    /** A manager whose list starts empty, as the commands evidently expect. */
    constructor Initialised()
      ensures paths == Some([])
    {
      paths := Some([]);
    }

    /**
     * The `ignoredPaths` getter, given the file's text if the file exists.
     * An undefined list makes it read the file first, which throws when the
     * file is missing; whatever it parses is then overwritten: it always
     * leaves and returns the empty list.
     */
    method IgnoredPaths(fileData: Option<string>) returns (r: Result<seq<string>, Error>)
      modifies this
      ensures old(paths).None? && fileData.None? ==> r == Err(MissingIgnoreFile) && paths == None
      ensures old(paths).Some? || fileData.Some? ==> paths == Some([]) && r == Ok([])
    {
      if paths.None? {
        if fileData.None? {
          return Err(MissingIgnoreFile);
        }
        if HasBlock(fileData.value) {
          paths := Some(ParsedBlock(fileData.value));
        }
      }
      paths := Some([]);
      r := Ok(paths.value);
    }

    /** `addPath`: append `p` unless it is already listed. */
    method AddPath(p: string) returns (res: Outcome<Error>)
      modifies this
      ensures old(paths).None? ==> res == Fail(TypeError("paths.includes")) && paths == old(paths)
      ensures old(paths).Some? ==> res == Pass && paths.Some?
      ensures old(paths).Some? && p in old(paths).value ==> paths == old(paths)
      ensures old(paths).Some? && p !in old(paths).value ==> paths == Some(old(paths).value + [p])
    {
      if paths.None? {
        return Fail(TypeError("paths.includes"));
      }
      if p !in paths.value {
        paths := Some(paths.value + [p]);
      }
      res := Pass;
    }

    /** `addPaths`: `addPath` for each element in order; the first failure propagates. */
    method AddPaths(xs: seq<string>) returns (res: Outcome<Error>)
      modifies this
      ensures old(paths).Some? ==> res == Pass && paths == Some(AddedAll(old(paths).value, xs))
      ensures old(paths).None? && xs == [] ==> res == Pass && paths == None
      ensures old(paths).None? && xs != [] ==> res == Fail(TypeError("paths.includes")) && paths == None
    {
      res := Pass;
      for k := 0 to |xs|
        invariant old(paths).None? ==> k == 0 && paths == None && res == Pass
        invariant old(paths).Some? ==> paths == Some(AddedAll(old(paths).value, xs[..k])) && res == Pass
      {
        res := AddPath(xs[k]);
        if res.Fail? {
          return;
        }
        assert xs[..k + 1][..k] == xs[..k];
      }
      assert xs[..|xs|] == xs;
    }

    /** `removePath`: `splice(indexOf(p), 1)` on the list. */
    method RemovePath(p: string) returns (res: Outcome<Error>)
      modifies this
      ensures old(paths).None? ==> res == Fail(TypeError("paths.splice")) && paths == None
      ensures old(paths).Some? ==> res == Pass && paths == Some(Removed(old(paths).value, p))
    {
      if paths.None? {
        return Fail(TypeError("paths.splice"));
      }
      var i := IndexOfElem(paths.value, p);
      paths := Some(SpliceOne(paths.value, i));
      res := Pass;
    }

    /** `clear`: the list becomes empty (defined). */
    method Clear()
      modifies this
      ensures paths == Some([])
    {
      paths := Some([]);
    }

    /**
     * `save`, given the file's current text: the text to write back, or the
     * failure of joining an undefined list.
     */
    method Save(fileData: string) returns (r: Result<string, Error>)
      ensures paths.None? ==> r == Err(TypeError("paths.join"))
      ensures paths.Some? ==> r == Ok(Saved(fileData, paths.value))
    {
      if paths.None? {
        return Err(TypeError("paths.join"));
      }
      var kept := fileData;
      if HasBlock(fileData) {
        var startIndex := IndexOf(fileData, START);
        var endIndex := IndexOf(fileData, END) + |END|;
        kept := fileData[..startIndex] + fileData[endIndex..];
      }
      r := Ok(kept + Block(paths.value));
    }
  }
}
