/**
 * `sourceset:push` (src/commands/sourceset/push.ts): which paths to push,
 * which paths to hide from the wrapped push while it runs, and the argument
 * list handed to `sfdx force:source:push`.
 *
 * Directories are sequences of names from the file-system root; Node's
 * `path.resolve` is the parameter `resolve` and `fs.readdirSync` the
 * parameter `listing`.
 */
module SourceSetPush {
  import opened Wrappers
  import opened Strings
  import opened Seqs
  import opened Project
  import opened CommandFlags

  /** An absolute directory: its names from the root down. */
  type Dir = seq<string>

  // Which paths are pushed.

  /** The directory's `package` is one of `names` (an unnamed directory never is). */
  predicate Selected(d: PackageDirectory, names: seq<string>) {
    d.package.Some? && d.package.value in names
  }

  /** `packageDirectories.filter(pkg => names.includes(pkg.package)).map(pkg => pkg.path)`. */
  function SelectedPaths(dirs: seq<PackageDirectory>, names: seq<string>): (r: seq<string>)
    ensures |r| <= |dirs|
  {
    if dirs == [] then []
    else (if Selected(dirs[0], names) then [dirs[0].path] else []) + SelectedPaths(dirs[1..], names)
  }

  /** A path is selected exactly when some directory with a listed package has it. */
  lemma {:induction false} SelectedPathsMembers(dirs: seq<PackageDirectory>, names: seq<string>, p: string)
    ensures p in SelectedPaths(dirs, names) <==> exists d :: d in dirs && Selected(d, names) && d.path == p
  {
    if dirs != [] {
      SelectedPathsMembers(dirs[1..], names, p);
      assert forall d :: d in dirs <==> d == dirs[0] || d in dirs[1..];
    }
  }

  /** The selection keeps manifest order: it distributes over concatenation of the manifest. */
  lemma {:induction false} SelectedPathsConcat(a: seq<PackageDirectory>, b: seq<PackageDirectory>, names: seq<string>)
    ensures SelectedPaths(a + b, names) == SelectedPaths(a, names) + SelectedPaths(b, names)
    decreases |a|
  {
    if a == [] {
      assert a + b == b;
    } else {
      SelectedPathsConcat(a[1..], b, names);
      var ab := a + b;
      assert ab[0] == a[0] && ab[1..] == a[1..] + b;
      var h := if Selected(a[0], names) then [a[0].path] else [];
      assert SelectedPaths(ab, names) == h + SelectedPaths(a[1..] + b, names);
      assert SelectedPaths(a, names) == h + SelectedPaths(a[1..], names);
      assert h + (SelectedPaths(a[1..], names) + SelectedPaths(b, names))
          == (h + SelectedPaths(a[1..], names)) + SelectedPaths(b, names);
    }
  }

  /**
   * `getPathToPush`: with `--package`, the paths of the directories whose
   * package is in the comma-separated list; otherwise, with `--path`, the
   * comma-separated paths; otherwise undefined.
   */
  function GetPathToPush(dirs: seq<PackageDirectory>, pathFlag: Option<string>, packageFlag: Option<string>): (r: Option<seq<string>>)
    ensures r.None? <==> !Truthy(packageFlag) && !Truthy(pathFlag)
    ensures Truthy(packageFlag) ==> r == Some(SelectedPaths(dirs, Split(packageFlag.value, ',')))
    ensures !Truthy(packageFlag) && Truthy(pathFlag) ==>
      r.Some? && Join(r.value, ",") == pathFlag.value && forall i :: 0 <= i < |r.value| ==> ',' !in r.value[i]
  {
    if Truthy(packageFlag) then Some(SelectedPaths(dirs, Split(packageFlag.value, ',')))
    else if Truthy(pathFlag) then (JoinSplit(pathFlag.value, ','); Some(Split(pathFlag.value, ',')))
    else None
  }

  // The package branch of getPathsToBlock.

  /** `path.replace(/^\.\//, '')`: one leading `./` removed. */
  function StripDotSlash(p: string): (r: string)
    ensures |p| >= 2 && p[..2] == "./" ==> "./" + r == p
    ensures !(|p| >= 2 && p[..2] == "./") ==> r == p
  {
    if |p| >= 2 && p[..2] == "./" then p[2..] else p
  }

  /** How many directories have a path among `pushed`. */
  function CountPushed(dirs: seq<PackageDirectory>, pushed: seq<string>): nat {
    if dirs == [] then 0
    else (if dirs[0].path in pushed then 1 else 0) + CountPushed(dirs[1..], pushed)
  }

  /**
   * The package branch: every directory whose path is not pushed, in
   * manifest order, with one leading `./` removed; one entry per such
   * directory.
   */
  function PackageExclusions(dirs: seq<PackageDirectory>, pushed: seq<string>): (r: seq<string>)
    ensures |r| <= |dirs|
  {
    if dirs == [] then []
    else Excluded(dirs[0], pushed) + PackageExclusions(dirs[1..], pushed)
  }

  /** The entry one directory contributes to the exclusions. */
  function Excluded(d: PackageDirectory, pushed: seq<string>): (r: seq<string>)
    ensures |r| <= 1
  {
    if d.path !in pushed then [StripDotSlash(d.path)] else []
  }

  /** One entry per directory that is not pushed. */
  lemma {:induction false} PackageExclusionsCount(dirs: seq<PackageDirectory>, pushed: seq<string>)
    ensures |PackageExclusions(dirs, pushed)| == |dirs| - CountPushed(dirs, pushed)
  {
    if dirs != [] {
      PackageExclusionsCount(dirs[1..], pushed);
    }
  }

  /** An excluded entry is exactly the stripped path of a directory that is not pushed. */
  lemma {:induction false} PackageExclusionsMembers(dirs: seq<PackageDirectory>, pushed: seq<string>, x: string)
    ensures x in PackageExclusions(dirs, pushed) <==> exists d :: d in dirs && d.path !in pushed && StripDotSlash(d.path) == x
  {
    if dirs != [] {
      PackageExclusionsMembers(dirs[1..], pushed, x);
      assert forall d :: d in dirs <==> d == dirs[0] || d in dirs[1..];
    }
  }

  /** The exclusions keep manifest order: they distribute over concatenation of the manifest. */
  lemma {:induction false} PackageExclusionsConcat(a: seq<PackageDirectory>, b: seq<PackageDirectory>, pushed: seq<string>)
    ensures PackageExclusions(a + b, pushed) == PackageExclusions(a, pushed) + PackageExclusions(b, pushed)
    decreases |a|
  {
    if a == [] {
      assert a + b == b;
    } else {
      PackageExclusionsConcat(a[1..], b, pushed);
      var ab := a + b;
      assert ab[0] == a[0] && ab[1..] == a[1..] + b;
      var h := Excluded(a[0], pushed);
      assert PackageExclusions(ab, pushed) == h + PackageExclusions(a[1..] + b, pushed);
      assert PackageExclusions(a, pushed) == h + PackageExclusions(a[1..], pushed);
      assert h + (PackageExclusions(a[1..], pushed) + PackageExclusions(b, pushed))
          == (h + PackageExclusions(a[1..], pushed)) + PackageExclusions(b, pushed);
    }
  }

  /** Counting pushed directories when exactly one path is pushed and paths are unique. */
  lemma {:induction false} CountPushedUnique(dirs: seq<PackageDirectory>, p: string)
    requires forall i, j :: 0 <= i < j < |dirs| ==> dirs[i].path != dirs[j].path
    ensures CountPushed(dirs, [p]) == if exists k :: 0 <= k < |dirs| && dirs[k].path == p then 1 else 0
  {
    if dirs != [] {
      CountPushedUnique(dirs[1..], p);
      assert forall k :: 1 <= k < |dirs| ==> dirs[k] == dirs[1..][k - 1];
      if dirs[0].path == p {
        assert forall k :: 0 <= k < |dirs[1..]| ==> dirs[1..][k].path != p by {
          forall k | 0 <= k < |dirs[1..]| ensures dirs[1..][k].path != p {
            assert dirs[1..][k] == dirs[k + 1];
          }
        }
      }
    }
  }

  lemma {:induction false} NoneSelected(dirs: seq<PackageDirectory>, names: seq<string>)
    requires forall j :: 0 <= j < |dirs| ==> !Selected(dirs[j], names)
    ensures SelectedPaths(dirs, names) == []
  {
    if dirs != [] {
      NoneSelected(dirs[1..], names);
    }
  }

  /**
   * Pushing one package of a manifest with unique paths and unique package
   * names excludes every other directory: exactly one fewer than the manifest has.
   */
  lemma OnePackageExcludesTheRest(dirs: seq<PackageDirectory>, name: string, k: nat)
    requires forall i, j :: 0 <= i < j < |dirs| ==> dirs[i].path != dirs[j].path
    requires k < |dirs| && dirs[k].package == Some(name) && name != "" && ',' !in name
    requires forall j :: 0 <= j < |dirs| && j != k ==> dirs[j].package != Some(name)
    ensures GetPathToPush(dirs, None, Some(name)) == Some([dirs[k].path])
    ensures |PackageExclusions(dirs, [dirs[k].path])| == |dirs| - 1
  {
    SplitWithoutSeparator(name, ',');
    var names := [name];
    var sel := [dirs[k]];
    assert dirs == dirs[..k] + (sel + dirs[k + 1..]);
    SelectedPathsConcat(dirs[..k], sel + dirs[k + 1..], names);
    SelectedPathsConcat(sel, dirs[k + 1..], names);
    NoneSelected(dirs[..k], names);
    var rest := dirs[k + 1..];
    forall j | 0 <= j < |rest| ensures !Selected(rest[j], names) {
      assert rest[j] == dirs[k + 1 + j];
    }
    NoneSelected(rest, names);
    assert SelectedPaths(sel, names) == [dirs[k].path] by {
      assert sel[1..] == [];
    }
    CountPushedUnique(dirs, dirs[k].path);
    PackageExclusionsCount(dirs, [dirs[k].path]);
    assert Split(name, ',') == names;
    assert SelectedPaths(dirs, names) == [dirs[k].path];
  }

  /** The manifest `core`/`ext` with package `core` pushed excludes `ext` only. */
  lemma CoreExtExample()
    ensures var dirs := [PackageDirectory("./core", Some("core"), false, None),
                         PackageDirectory("./ext", Some("ext"), false, None)];
      var pushed := GetPathToPush(dirs, None, Some("core"));
      pushed == Some(["./core"]) && PackageExclusions(dirs, pushed.value) == ["ext"]
  {
    var dirs := [PackageDirectory("./core", Some("core"), false, None),
                 PackageDirectory("./ext", Some("ext"), false, None)];
    SplitWithoutSeparator("core", ',');
    assert SelectedPaths(dirs[1..], ["core"]) == [] by {
      assert dirs[1..][1..] == [];
    }
    assert PackageExclusions(dirs[1..], ["./core"]) == ["ext"] by {
      assert dirs[1..][1..] == [];
    }
    assert "./ext"[..2] == "./";
    assert Split("core", ',') == ["core"];
    assert SelectedPaths(dirs, ["core"]) == ["./core"];
    assert GetPathToPush(dirs, None, Some("core")) == Some(["./core"]);
    assert StripDotSlash("./ext") == "ext";
    assert PackageExclusions(dirs, ["./core"]) == ["ext"];
  }

  // The path branch of getPathsToBlock: climbing from each target to the
  // working directory.

  /** `path.resolve(d, '..')`: the parent directory; the root is its own parent. */
  function Parent(d: Dir): (r: Dir)
    ensures d != [] ==> |r| == |d| - 1 && r <= d
  {
    if d == [] then [] else d[..|d| - 1]
  }

  /**
   * `readdirSync(parent).filter(dir => dir !== pushing).map(dir => path.resolve(parent, dir))`:
   * every listed entry except the child being left, as a directory under `parent`.
   */
  function Siblings(parent: Dir, pushing: string, names: seq<string>): (r: seq<Dir>)
    ensures |r| <= |names|
    ensures forall k :: 0 <= k < |r| ==> |r[k]| == |parent| + 1
  {
    if names == [] then []
    else (if names[0] != pushing then [parent + [names[0]]] else []) + Siblings(parent, pushing, names[1..])
  }

  /** A sibling is exactly a child of `parent` whose name is listed and differs from `pushing`. */
  lemma {:induction false} SiblingsMembers(parent: Dir, pushing: string, names: seq<string>, e: Dir)
    ensures e in Siblings(parent, pushing, names) <==>
      |e| == |parent| + 1 && e[..|parent|] == parent && e[|parent|] in names && e[|parent|] != pushing
  {
    if names != [] {
      SiblingsMembers(parent, pushing, names[1..], e);
      if |e| == |parent| + 1 && e[..|parent|] == parent && e[|parent|] == names[0] {
        assert e == parent + [names[0]];
      }
      assert forall n :: n in names <==> n == names[0] || n in names[1..];
    }
  }

  /**
   * What the loop collects climbing from `cur` to `cwd`: at each level, the
   * siblings of the child just left, deepest level first.
   */
  function Ascent(cwd: Dir, cur: Dir, listing: Dir -> seq<string>): (r: seq<Dir>)
    requires cwd <= cur
    ensures forall k :: 0 <= k < |r| ==> |cwd| < |r[k]| <= |cur|
    decreases |cur|
  {
    if cur == cwd then []
    else Siblings(Parent(cur), cur[|cur| - 1], listing(Parent(cur))) + Ascent(cwd, Parent(cur), listing)
  }

  /** The directories the loop logs climbing from `cur` to `cwd`: each parent reached. */
  function Chain(cwd: Dir, cur: Dir): (r: seq<Dir>)
    ensures |r| == |cur| - |cwd|
    requires cwd <= cur
    decreases |cur|
  {
    if cur == cwd then [] else [Parent(cur)] + Chain(cwd, Parent(cur))
  }

  /**
   * The collected entries are exactly the directories strictly below `cwd`
   * and no deeper than `cur` that hang off the chain from `cur` upwards,
   * are listed there, and are not themselves on the chain.
   */
  lemma {:induction false} AscentMembers(cwd: Dir, cur: Dir, listing: Dir -> seq<string>, e: Dir)
    requires cwd <= cur
    ensures e in Ascent(cwd, cur, listing) <==>
      |cwd| < |e| <= |cur| && e[..|e| - 1] == cur[..|e| - 1] &&
      e[|e| - 1] in listing(cur[..|e| - 1]) && e[|e| - 1] != cur[|e| - 1]
    decreases |cur|
  {
    if cur != cwd {
      var p := Parent(cur);
      assert Ascent(cwd, cur, listing) == Siblings(p, cur[|cur| - 1], listing(p)) + Ascent(cwd, p, listing);
      AscentMembers(cwd, p, listing, e);
      SiblingsMembers(p, cur[|cur| - 1], listing(p), e);
      if |e| == |cur| {
        assert p == cur[..|e| - 1];
      } else if |cwd| < |e| < |cur| {
        assert p[..|e| - 1] == cur[..|e| - 1];
        assert p[|e| - 1] == cur[|e| - 1];
      }
    }
  }

  /** No directory on the chain from the target up to the working directory is ever collected. */
  lemma AscentSkipsChain(cwd: Dir, target: Dir, listing: Dir -> seq<string>, k: nat)
    requires cwd <= target && |cwd| <= k <= |target|
    ensures target[..k] !in Ascent(cwd, target, listing)
  {
    AscentMembers(cwd, target, listing, target[..k]);
  }

  /** The loop logs one parent per level, from the target's parent up to the working directory. */
  lemma {:induction false} ChainShape(cwd: Dir, cur: Dir)
    requires cwd <= cur
    ensures |Chain(cwd, cur)| == |cur| - |cwd|
    ensures forall k :: 0 <= k < |Chain(cwd, cur)| ==> Chain(cwd, cur)[k] == cur[..|cur| - 1 - k]
    decreases |cur|
  {
    if cur != cwd {
      var p := Parent(cur);
      ChainShape(cwd, p);
      forall k | 1 <= k < |Chain(cwd, cur)| ensures Chain(cwd, cur)[k] == cur[..|cur| - 1 - k] {
        assert Chain(cwd, cur)[k] == Chain(cwd, p)[k - 1];
      }
    }
  }

  /** Leaving a directory below `cwd` for its parent stays at or below `cwd` and on the target's path. */
  lemma ParentStaysBetween(cwd: Dir, cur: Dir, target: Dir)
    requires cwd <= cur <= target && cur != cwd
    ensures cwd <= Parent(cur) <= target && |Parent(cur)| == |cur| - 1
  {
    var p := cur[..|cur| - 1];
    assert |cwd| < |cur|;
    assert p == target[..|p|];
    assert cwd == p[..|cwd|];
  }

  /** One level of the climb keeps the loop's account of what is collected and logged so far. */
  lemma AscentStep(cwd: Dir, cur: Dir, listing: Dir -> seq<string>, paths: seq<Dir>, logged: seq<Dir>, all: seq<Dir>, chain: seq<Dir>)
    requires cwd <= cur && cur != cwd && cwd <= Parent(cur)
    requires paths + Ascent(cwd, cur, listing) == all
    requires logged + Chain(cwd, cur) == chain
    ensures var p := Parent(cur);
      && paths + Siblings(p, cur[|cur| - 1], listing(p)) + Ascent(cwd, p, listing) == all
      && logged + [p] + Chain(cwd, p) == chain
  {
    var p := Parent(cur);
    var dirs := Siblings(p, cur[|cur| - 1], listing(p));
    var up := Ascent(cwd, p, listing);
    assert Ascent(cwd, cur, listing) == dirs + up;
    assert paths + dirs + up == paths + (dirs + up);
    var ch := Chain(cwd, p);
    assert Chain(cwd, cur) == [p] + ch;
    assert logged + [p] + ch == logged + ([p] + ch);
  }

  /**
   * The targets the loop climbs from and stops: those at or below the working
   * directory at a depth other than 20. At depth 20 `i === 20` holds on
   * arriving at the working directory, so the loop climbs past it and, unless
   * the working directory is the root, never stops.
   */
  predicate Climbable(cwd: Dir, target: Dir) {
    cwd <= target && |target| - |cwd| != 20
  }

  /**
   * The `while` loop for one target: climbs `|target| - |cwd|` levels,
   * logging each parent and collecting each level's siblings.
   */
  method Ascend(cwd: Dir, target: Dir, listing: Dir -> seq<string>) returns (paths: seq<Dir>, logged: seq<Dir>, ascents: nat)
    requires Climbable(cwd, target)
    ensures paths == Ascent(cwd, target, listing)
    ensures logged == Chain(cwd, target)
    ensures ascents == |target| - |cwd|
  {
    var current := target;
    var i := 0;
    paths, logged := [], [];
    while current != cwd || i == 20
      invariant cwd <= current <= target
      invariant i == |target| - |current|
      invariant paths + Ascent(cwd, current, listing) == Ascent(cwd, target, listing)
      invariant logged + Chain(cwd, current) == Chain(cwd, target)
      decreases |current|
    {
      ParentStaysBetween(cwd, current, target);
      AscentStep(cwd, current, listing, paths, logged, Ascent(cwd, target, listing), Chain(cwd, target));
      var pushing := current[|current| - 1];
      current := Parent(current);
      logged := logged + [current];
      paths := paths + Siblings(current, pushing, listing(current));
      i := i + 1;
    }
    ascents := i;
  }

  /** Every target, resolved against the working directory, can be climbed. */
  predicate AllClimbable(cwd: Dir, targets: seq<string>, resolve: string -> Dir) {
    forall k :: 0 <= k < |targets| ==> Climbable(cwd, resolve(targets[k]))
  }

  /** What the `for` loop over the targets collects: each target's ascent, in order. */
  function AscentAll(cwd: Dir, targets: seq<string>, resolve: string -> Dir, listing: Dir -> seq<string>): (r: seq<Dir>)
    requires AllClimbable(cwd, targets, resolve)
    ensures forall k :: 0 <= k < |r| ==> |cwd| < |r[k]|
  {
    if targets == [] then []
    else AscentAll(cwd, targets[..|targets| - 1], resolve, listing) + Ascent(cwd, resolve(targets[|targets| - 1]), listing)
  }

  /** What the `for` loop over the targets logs. */
  function ChainAll(cwd: Dir, targets: seq<string>, resolve: string -> Dir): seq<Dir>
    requires AllClimbable(cwd, targets, resolve)
  {
    if targets == [] then []
    else ChainAll(cwd, targets[..|targets| - 1], resolve) + Chain(cwd, resolve(targets[|targets| - 1]))
  }

  /** The `for (const pathToPush of pathsToPush)` loop. */
  method AscendAll(cwd: Dir, targets: seq<string>, resolve: string -> Dir, listing: Dir -> seq<string>)
    returns (paths: seq<Dir>, logged: seq<Dir>)
    requires AllClimbable(cwd, targets, resolve)
    ensures paths == AscentAll(cwd, targets, resolve, listing)
    ensures logged == ChainAll(cwd, targets, resolve)
  {
    paths, logged := [], [];
    for k := 0 to |targets|
      invariant paths == AscentAll(cwd, targets[..k], resolve, listing)
      invariant logged == ChainAll(cwd, targets[..k], resolve)
    {
      var dirs, seen, _ := Ascend(cwd, resolve(targets[k]), listing);
      assert targets[..k + 1][..k] == targets[..k];
      paths := paths + dirs;
      logged := logged + seen;
    }
    assert targets[..|targets|] == targets;
  }

  /**
   * Pushing two sibling directories in one run blocks each of them while
   * climbing from the other: the second is collected on the first's ascent.
   */
  lemma SiblingTargetsBlockEachOther(cwd: Dir, parent: Dir, x: string, y: string, listing: Dir -> seq<string>)
    requires cwd <= parent && x != y && y in listing(parent)
    ensures parent + [y] in Ascent(cwd, parent + [x], listing)
  {
    var a, b := parent + [x], parent + [y];
    assert b[..|b| - 1] == parent == a[..|b| - 1];
    AscentMembers(cwd, a, listing, b);
  }

  /** Two targets: what the `for` loop collects is the first one's ascent followed by the second's. */
  lemma AscentAllPair(cwd: Dir, a: string, b: string, resolve: string -> Dir, listing: Dir -> seq<string>)
    requires Climbable(cwd, resolve(a)) && Climbable(cwd, resolve(b))
    ensures AllClimbable(cwd, [a, b], resolve)
    ensures AscentAll(cwd, [a, b], resolve, listing) == Ascent(cwd, resolve(a), listing) + Ascent(cwd, resolve(b), listing)
  {
    assert [a, b][..1] == [a] && [a][..0] == [];
    assert AscentAll(cwd, [a], resolve, listing) == Ascent(cwd, resolve(a), listing);
  }

  /** As written, `--path a,b` for two sibling directories blocks `b` while pushing it. */
  lemma SiblingTargetsBlocked(cwd: Dir, parent: Dir, a: string, b: string, x: string, y: string,
                              resolve: string -> Dir, listing: Dir -> seq<string>)
    requires cwd <= parent && |parent| + 1 - |cwd| != 20
    requires resolve(a) == parent + [x] && resolve(b) == parent + [y]
    requires x != y && y in listing(parent)
    ensures AllClimbable(cwd, [a, b], resolve)
    ensures resolve(b) in AscentAll(cwd, [a, b], resolve, listing)
  {
    assert cwd <= parent + [x] && cwd <= parent + [y];
    AscentAllPair(cwd, a, b, resolve, listing);
    SiblingTargetsBlockEachOther(cwd, parent, x, y, listing);
  }

  /** The targets, resolved. */
  function Resolved(targets: seq<string>, resolve: string -> Dir): (r: seq<Dir>)
    ensures |r| == |targets| && forall k :: 0 <= k < |r| ==> r[k] == resolve(targets[k])
  {
    seq(|targets|, k requires 0 <= k < |targets| => resolve(targets[k]))
  }

  /** `e` is a target, an ancestor of one, or inside one. */
  predicate TouchesTarget(e: Dir, targets: seq<Dir>) {
    exists t :: t in targets && (e <= t || t <= e)
  }

  /** The entries that are neither a target, nor an ancestor of one, nor inside one. */
  function Unblocked(entries: seq<Dir>, targets: seq<Dir>): (r: seq<Dir>)
    ensures forall e :: e in r <==> e in entries && !TouchesTarget(e, targets)
  {
    if entries == [] then []
    else
      var rest := Unblocked(entries[1..], targets);
      assert forall e :: e in entries <==> e == entries[0] || e in entries[1..];
      (if TouchesTarget(entries[0], targets) then [] else [entries[0]]) + rest
  }

  /**
   * The evidently intended ascent over several targets: what the loop
   * collects, less every target, every ancestor of a target and everything
   * inside a target, so that every listed target is pushed whole.
   */
  function AscentAllKeepingTargets(cwd: Dir, targets: seq<string>, resolve: string -> Dir, listing: Dir -> seq<string>)
    : (r: seq<Dir>)
    requires AllClimbable(cwd, targets, resolve)
    ensures forall e :: e in r <==>
      e in AscentAll(cwd, targets, resolve, listing) &&
      forall k :: 0 <= k < |targets| ==> !(e <= resolve(targets[k])) && !(resolve(targets[k]) <= e)
    ensures forall k, j :: 0 <= k < |targets| && 0 <= j <= |resolve(targets[k])| ==> resolve(targets[k])[..j] !in r
    ensures forall e, k :: e in r && 0 <= k < |targets| ==> !(resolve(targets[k]) <= e)
  {
    var ts := Resolved(targets, resolve);
    var r := Unblocked(AscentAll(cwd, targets, resolve, listing), ts);
    assert forall k, j :: 0 <= k < |targets| && 0 <= j <= |resolve(targets[k])| ==> TouchesTarget(resolve(targets[k])[..j], ts) by {
      forall k, j | 0 <= k < |targets| && 0 <= j <= |resolve(targets[k])|
        ensures TouchesTarget(resolve(targets[k])[..j], ts)
      {
        assert ts[k] == resolve(targets[k]) && ts[k] in ts;
      }
    }
    forall e | TouchesTarget(e, ts)
      ensures exists k :: 0 <= k < |targets| && (e <= resolve(targets[k]) || resolve(targets[k]) <= e)
    {
      var t :| t in ts && (e <= t || t <= e);
      var k :| 0 <= k < |ts| && ts[k] == t;
      assert e <= resolve(targets[k]) || resolve(targets[k]) <= e;
    }
    forall e, k | 0 <= k < |targets| && (e <= resolve(targets[k]) || resolve(targets[k]) <= e)
      ensures TouchesTarget(e, ts)
    {
      assert ts[k] in ts;
    }
    r
  }

  /** What getPathsToBlock returns: package paths, or absolute directories from the ascent. */
  datatype Exclusions = Packages(paths: seq<string>) | Directories(dirs: seq<Dir>)

  /**
   * `getPathsToBlock`: with `--package`, the package branch; otherwise the
   * ascent from every comma-separated `--path` target (resolved against the
   * working directory by `resolve`); with neither flag, iterating the
   * undefined target list throws.
   */
  method GetPathsToBlock(dirs: seq<PackageDirectory>, pathFlag: Option<string>, packageFlag: Option<string>,
                         cwd: Dir, resolve: string -> Dir, listing: Dir -> seq<string>)
    returns (r: Result<Exclusions, Error>, logged: seq<Dir>)
    requires !Truthy(packageFlag) && Truthy(pathFlag) ==> AllClimbable(cwd, Split(pathFlag.value, ','), resolve)
    ensures Truthy(packageFlag) ==>
      r == Ok(Packages(PackageExclusions(dirs, GetPathToPush(dirs, pathFlag, packageFlag).value))) && logged == []
    ensures !Truthy(packageFlag) && Truthy(pathFlag) ==>
      var targets := Split(pathFlag.value, ',');
      r == Ok(Directories(AscentAll(cwd, targets, resolve, listing))) && logged == ChainAll(cwd, targets, resolve)
    ensures !Truthy(packageFlag) && !Truthy(pathFlag) ==> r == Err(TypeError("pathsToPush is not iterable")) && logged == []
  {
    var pathsToPush := GetPathToPush(dirs, pathFlag, packageFlag);
    logged := [];
    if Truthy(packageFlag) {
      r := Ok(Packages(PackageExclusions(dirs, pathsToPush.value)));
    } else if pathsToPush.None? {
      r := Err(TypeError("pathsToPush is not iterable"));
    } else {
      var paths;
      paths, logged := AscendAll(cwd, pathsToPush.value, resolve, listing);
      r := Ok(Directories(paths));
    }
  }

  // The argument list of the wrapped `sfdx force:source:push`.

  /** Every flag except the selection flags `path` and `package` is forwarded. */
  predicate Forwarded(f: Flag) {
    f.name != "path" && f.name != "package"
  }

  /** A true boolean is the bare switch; any other value is the switch followed by the value. */
  function FlagTokens(f: Flag): (r: seq<string>)
    ensures 1 <= |r| <= 2 && r[0] == Switch(f.name)
    ensures |r| == 1 <==> f.value == Bool(true)
    ensures |r| == 2 ==> r[1] == Render(f.value)
  {
    if f.value == Bool(true) then [Switch(f.name)] else [Switch(f.name), Render(f.value)]
  }

  /** The tokens of the forwarded flags, in flag order. */
  function PushArgs(flags: seq<Flag>): (r: seq<string>)
    ensures |r| <= 2 * |flags|
  {
    if flags == [] then []
    else PushArgs(flags[..|flags| - 1]) + (if Forwarded(flags[|flags| - 1]) then FlagTokens(flags[|flags| - 1]) else [])
  }

  /** The argument list distributes over the flag record: each flag contributes on its own. */
  lemma {:induction false} PushArgsConcat(a: seq<Flag>, b: seq<Flag>)
    ensures PushArgs(a + b) == PushArgs(a) + PushArgs(b)
    decreases |b|
  {
    if b == [] {
      assert a + b == a;
    } else {
      var ab, init, last := a + b, b[..|b| - 1], b[|b| - 1];
      assert ab[..|ab| - 1] == a + init && ab[|ab| - 1] == last;
      PushArgsConcat(a, init);
      var t := if Forwarded(last) then FlagTokens(last) else [];
      assert PushArgs(ab) == PushArgs(a + init) + t;
      assert PushArgs(b) == PushArgs(init) + t;
      assert PushArgs(a) + PushArgs(init) + t == PushArgs(a) + (PushArgs(init) + t);
    }
  }

  /** A selection flag adds nothing, wherever it stands and whatever its value. */
  lemma SelectionNotForwarded(a: seq<Flag>, f: Flag, b: seq<Flag>)
    requires !Forwarded(f)
    ensures PushArgs(a + [f] + b) == PushArgs(a + b)
  {
    PushArgsConcat(a + [f], b);
    PushArgsConcat(a, [f]);
    PushArgsConcat(a, b);
    assert PushArgs([f]) == PushArgs([]) + [] by {
      assert [f][..0] == [];
    }
  }

  /** A forwarded flag adds its switch, and its value unless it is a true boolean. */
  lemma ForwardedFlag(a: seq<Flag>, f: Flag, b: seq<Flag>)
    requires Forwarded(f)
    ensures PushArgs(a + [f] + b) == PushArgs(a) + FlagTokens(f) + PushArgs(b)
  {
    PushArgsConcat(a + [f], b);
    PushArgsConcat(a, [f]);
    assert PushArgs([f]) == PushArgs([]) + FlagTokens(f) by {
      assert [f][..0] == [];
    }
  }

  /** `pushSource`'s `processFlags`: `--json`, then the forwarded flags' tokens. */
  method ProcessFlags(flags: seq<Flag>) returns (args: seq<string>)
    ensures args == ["--json"] + PushArgs(flags)
  {
    args := ["--json"];
    for k := 0 to |flags|
      invariant args == ["--json"] + PushArgs(flags[..k])
    {
      var flag := flags[k];
      assert flags[..k + 1][..k] == flags[..k];
      if Forwarded(flag) {
        if flag.value == Bool(true) {
          args := args + [Switch(flag.name)];
        } else {
          args := args + [Switch(flag.name), Render(flag.value)];
        }
      }
    }
    assert flags[..|flags|] == flags;
  }
}
