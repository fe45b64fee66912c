/**
 * `force:source:push:path` (src/commands/sourceset/push/path.ts): one path
 * to push, the package paths to hide, the argument list of the wrapped
 * `sfdx force:source:push`, and the run that validates, blocks, pushes and
 * unblocks.
 *
 * The `.forceignore` file and the child process are a `Workspace` object:
 * the file's text (if it exists) and the history of writes and spawns.
 * `fs.existsSync` is the parameter `onDisk`.
 */
module PushPath {
  import opened Wrappers
  import opened Project
  import opened CommandFlags
  import opened IgnoreManagement

  /** JavaScript truthiness of an optional flag value. */
  predicate IsSet(v: Option<FlagValue>)
    ensures IsSet(v) <==> v.Some? && v.value != Bool(false) && v.value != Text("")
  {
    match v
    case None => false
    case Some(Bool(b)) => b
    case Some(Text(s)) => s != ""
  }

  /**
   * `getPathToPush`: the `--path` value if it is set; otherwise, if
   * `--package` is set, the path of the directory `getPackage` finds (a
   * boolean package name matches no directory); otherwise `--path` as it is.
   */
  function GetPathToPush(dirs: seq<PackageDirectory>, pathFlag: Option<FlagValue>, packageFlag: Option<FlagValue>)
    : (r: Result<Option<FlagValue>, Error>)
    ensures IsSet(pathFlag) || !IsSet(packageFlag) ==> r == Ok(pathFlag)
    ensures r.Err? ==> !IsSet(pathFlag) && IsSet(packageFlag) && r.error == InvalidPackage(Render(packageFlag.value))
    ensures !IsSet(pathFlag) && packageFlag.Some? && packageFlag.value.Text? && IsSet(packageFlag) ==>
      var name := packageFlag.value.s;
      (r.Err? <==> forall k :: 0 <= k < |dirs| ==> dirs[k].package != Some(name)) &&
      (r.Ok? ==> exists d :: d in dirs && d.package == Some(name) && r.value == Some(Text(d.path)))
    ensures !IsSet(pathFlag) && packageFlag == Some(Bool(true)) ==> r == Err(InvalidPackage("true"))
  {
    if IsSet(pathFlag) || !IsSet(packageFlag) then Ok(pathFlag)
    else match packageFlag.value
      case Text(name) =>
        (match GetPackage(dirs, name)
         case Ok(d) => Ok(Some(Text(d.path)))
         case Err(e) => Err(e))
      case Bool(_) => Err(InvalidPackage("true"))
  }

  /** With only `--package`, the path pushed is that of the first directory with that package. */
  lemma PackagePathIsFirstMatch(dirs: seq<PackageDirectory>, name: string, k: nat)
    requires name != "" && k < |dirs| && dirs[k].package == Some(name)
    requires forall j :: 0 <= j < k ==> dirs[j].package != Some(name)
    ensures GetPathToPush(dirs, None, Some(Text(name))) == Ok(Some(Text(dirs[k].path)))
  {
    FindFirst(dirs, name, k);
  }

  /**
   * The package branch of `getPathsToBlock`: the path of every directory
   * whose path is not the pushed one, in manifest order, unchanged.
   */
  function OtherPaths(dirs: seq<PackageDirectory>, pushed: Option<FlagValue>): (r: seq<string>)
    ensures |r| <= |dirs|
  {
    if dirs == [] then []
    else (if Some(Text(dirs[0].path)) != pushed then [dirs[0].path] else []) + OtherPaths(dirs[1..], pushed)
  }

  /** An excluded path is exactly a manifest path other than the pushed one. */
  lemma {:induction false} OtherPathsMembers(dirs: seq<PackageDirectory>, pushed: Option<FlagValue>, x: string)
    ensures x in OtherPaths(dirs, pushed) <==> Some(Text(x)) != pushed && exists d :: d in dirs && d.path == x
  {
    if dirs != [] {
      OtherPathsMembers(dirs[1..], pushed, x);
      assert forall d :: d in dirs <==> d == dirs[0] || d in dirs[1..];
    }
  }

  /** How many directories have the pushed path. */
  function CountPath(dirs: seq<PackageDirectory>, pushed: Option<FlagValue>): nat {
    if dirs == [] then 0
    else (if Some(Text(dirs[0].path)) == pushed then 1 else 0) + CountPath(dirs[1..], pushed)
  }

  /** One excluded path per directory that does not have the pushed path. */
  lemma {:induction false} OtherPathsCount(dirs: seq<PackageDirectory>, pushed: Option<FlagValue>)
    ensures |OtherPaths(dirs, pushed)| == |dirs| - CountPath(dirs, pushed)
  {
    if dirs != [] {
      OtherPathsCount(dirs[1..], pushed);
    }
  }

  /** The exclusions keep manifest order: they distribute over concatenation of the manifest. */
  lemma {:induction false} OtherPathsConcat(a: seq<PackageDirectory>, b: seq<PackageDirectory>, pushed: Option<FlagValue>)
    ensures OtherPaths(a + b, pushed) == OtherPaths(a, pushed) + OtherPaths(b, pushed)
    decreases |a|
  {
    if a == [] {
      assert a + b == b;
    } else {
      OtherPathsConcat(a[1..], b, pushed);
      var ab := a + b;
      assert ab[0] == a[0] && ab[1..] == a[1..] + b;
      var h := if Some(Text(a[0].path)) != pushed then [a[0].path] else [];
      assert OtherPaths(ab, pushed) == h + OtherPaths(a[1..] + b, pushed);
      assert OtherPaths(a, pushed) == h + OtherPaths(a[1..], pushed);
      assert h + (OtherPaths(a[1..], pushed) + OtherPaths(b, pushed))
          == (h + OtherPaths(a[1..], pushed)) + OtherPaths(b, pushed);
    }
  }

  /** Unlike `sourceset:push`, no leading `./` is removed: `core`/`ext` with `core` pushed excludes `./ext`. */
  lemma CoreExtKeepsDotSlash()
    ensures var dirs := [PackageDirectory("./core", Some("core"), false, None),
                         PackageDirectory("./ext", Some("ext"), false, None)];
      var pushed := GetPathToPush(dirs, None, Some(Text("core")));
      pushed == Ok(Some(Text("./core"))) && OtherPaths(dirs, pushed.value) == ["./ext"]
  {
    var dirs := [PackageDirectory("./core", Some("core"), false, None),
                 PackageDirectory("./ext", Some("ext"), false, None)];
    PackagePathIsFirstMatch(dirs, "core", 0);
    assert OtherPaths(dirs[1..], Some(Text("./core"))) == ["./ext"] by {
      assert dirs[1..][1..] == [];
    }
  }

  /**
   * `getPathsToBlock`: with `--package`, the other package paths; otherwise
   * the loop over the manifest calls a method the class does not have, so
   * it throws on a non-empty manifest and returns nothing on an empty one.
   */
  function GetPathsToBlock(dirs: seq<PackageDirectory>, packageFlag: Option<FlagValue>, pathToPush: Option<FlagValue>)
    : (r: Result<Option<seq<string>>, Error>)
    ensures IsSet(packageFlag) ==> r.Ok? && r.value.Some? && forall x :: x in r.value.value <==>
      Some(Text(x)) != pathToPush && exists d :: d in dirs && d.path == x
    ensures IsSet(packageFlag) ==> r == Ok(Some(OtherPaths(dirs, pathToPush)))
    ensures !IsSet(packageFlag) ==> (r.Err? <==> dirs != []) && (r.Ok? ==> r.value.None?)
  {
    if IsSet(packageFlag) then
      var r := OtherPaths(dirs, pathToPush);
      assert forall x :: x in r <==> Some(Text(x)) != pathToPush && exists d :: d in dirs && d.path == x by {
        forall x ensures x in r <==> Some(Text(x)) != pathToPush && exists d :: d in dirs && d.path == x {
          OtherPathsMembers(dirs, pathToPush, x);
        }
      }
      Ok(Some(r))
    else if dirs != [] then Err(TypeError("this.getFullPath is not a function"))
    else Ok(None)
  }

  /** `fs.existsSync(target)`: false for anything that is not a path string. */
  predicate PathExists(target: Option<FlagValue>, onDisk: string -> bool)
    ensures target.None? || target.value.Bool? ==> !PathExists(target, onDisk)
  {
    target.Some? && target.value.Text? && onDisk(target.value.s)
  }

  /** The `invalidPath` failure names the target as the message renders it. */
  function InvalidTarget(target: Option<FlagValue>): Error {
    InvalidPath(if target.Some? then Some(Render(target.value)) else None)
  }

  /**
   * The checks and planning `run` does before touching the ignore file:
   * the manifest must list package directories, the target must resolve
   * and exist; then the paths to block.
   */
  function Plan(project: ProjectFile, flags: seq<Flag>, onDisk: string -> bool): (r: Result<Option<seq<string>>, Error>)
    ensures project.packageDirectories.None? ==> r == Err(InvalidProject)
    ensures r.Ok? ==> project.packageDirectories.Some?
    ensures r.Ok? ==>
      var target := GetPathToPush(project.packageDirectories.value, Lookup(flags, "path"), Lookup(flags, "package"));
      target.Ok? && PathExists(target.value, onDisk)
    ensures r.Ok? && r.value.Some? ==> IsSet(Lookup(flags, "package"))
    ensures r.Ok? ==>
      var dirs := project.packageDirectories.value;
      var target := GetPathToPush(dirs, Lookup(flags, "path"), Lookup(flags, "package"));
      r == GetPathsToBlock(dirs, Lookup(flags, "package"), target.value)
  {
    if project.packageDirectories.None? then Err(InvalidProject)
    else
      var dirs := project.packageDirectories.value;
      match GetPathToPush(dirs, Lookup(flags, "path"), Lookup(flags, "package"))
      case Err(e) => Err(e)
      case Ok(target) =>
        if !PathExists(target, onDisk) then Err(InvalidTarget(target))
        else GetPathsToBlock(dirs, Lookup(flags, "package"), target)
  }

  /** A target that does not exist stops the run with `invalidPath`. */
  lemma MissingTargetIsInvalidPath(project: ProjectFile, flags: seq<Flag>, onDisk: string -> bool)
    requires project.packageDirectories.Some?
    requires var target := GetPathToPush(project.packageDirectories.value, Lookup(flags, "path"), Lookup(flags, "package"));
      target.Ok? && !PathExists(target.value, onDisk)
    ensures var target := GetPathToPush(project.packageDirectories.value, Lookup(flags, "path"), Lookup(flags, "package"));
      Plan(project, flags, onDisk) == Err(InvalidTarget(target.value))
  {
  }

  /**
   * With the flags path.ts declares, `--path` and `--package` are booleans,
   * and a boolean names no path on disk and no package: planning always
   * fails, so the run never reaches `blockPaths`.
   */
  lemma {:induction false} BooleanSelectionNeverPlans(project: ProjectFile, flags: seq<Flag>, onDisk: string -> bool)
    requires forall f :: f in flags && Selection(f) ==> f.value.Bool?
    ensures Plan(project, flags, onDisk).Err?
  {
    var path, package := Lookup(flags, "path"), Lookup(flags, "package");
    assert path.Some? ==> path.value.Bool? by {
      if path.Some? { assert Flag("path", path.value) in flags; }
    }
    assert package.Some? ==> package.value.Bool? by {
      if package.Some? { assert Flag("package", package.value) in flags; }
    }
  }

  // The argument list of the wrapped `sfdx force:source:push`.

  /** Only the selection flags `path` and `package` are forwarded. */
  predicate Selection(f: Flag) {
    f.name == "path" || f.name == "package"
  }

  /** A true boolean is the dashed switch; any other value is the bare name followed by the value. */
  function SelectionTokens(f: Flag): (r: seq<string>)
    ensures |r| == 1 <==> f.value == Bool(true)
    ensures |r| == 1 ==> r == [Switch(f.name)]
    ensures |r| != 1 ==> r == [f.name, Render(f.value)]
  {
    if f.value == Bool(true) then [Switch(f.name)] else [f.name, Render(f.value)]
  }

  /** The tokens of the selection flags, in flag order. */
  function PathArgs(flags: seq<Flag>): (r: seq<string>)
    ensures |r| <= 2 * |flags|
  {
    if flags == [] then []
    else PathArgs(flags[..|flags| - 1]) + (if Selection(flags[|flags| - 1]) then SelectionTokens(flags[|flags| - 1]) else [])
  }

  /** The argument list distributes over the flag record. */
  lemma {:induction false} PathArgsConcat(a: seq<Flag>, b: seq<Flag>)
    ensures PathArgs(a + b) == PathArgs(a) + PathArgs(b)
    decreases |b|
  {
    if b == [] {
      assert a + b == a;
    } else {
      var ab, init, last := a + b, b[..|b| - 1], b[|b| - 1];
      assert ab[..|ab| - 1] == a + init && ab[|ab| - 1] == last;
      PathArgsConcat(a, init);
      var t := if Selection(last) then SelectionTokens(last) else [];
      assert PathArgs(ab) == PathArgs(a + init) + t;
      assert PathArgs(b) == PathArgs(init) + t;
      assert PathArgs(a) + PathArgs(init) + t == PathArgs(a) + (PathArgs(init) + t);
    }
  }

  /** Without selection flags the list is empty: nothing else, not even `--json`, is passed on. */
  lemma {:induction false} OnlySelectionForwarded(flags: seq<Flag>)
    requires forall k :: 0 <= k < |flags| ==> !Selection(flags[k])
    ensures PathArgs(flags) == []
  {
    if flags != [] {
      OnlySelectionForwarded(flags[..|flags| - 1]);
    }
  }

  /** A selection flag adds its own tokens wherever it stands. */
  lemma SelectionFlag(a: seq<Flag>, f: Flag, b: seq<Flag>)
    requires Selection(f)
    ensures PathArgs(a + [f] + b) == PathArgs(a) + SelectionTokens(f) + PathArgs(b)
  {
    PathArgsConcat(a + [f], b);
    PathArgsConcat(a, [f]);
    assert PathArgs([f]) == PathArgs([]) + SelectionTokens(f) by {
      assert [f][..0] == [];
    }
  }

  /** `pushSource`'s `processFlags`. */
  method ProcessFlags(flags: seq<Flag>) returns (args: seq<string>)
    ensures args == PathArgs(flags)
  {
    args := [];
    for k := 0 to |flags|
      invariant args == PathArgs(flags[..k])
    {
      var flag := flags[k];
      assert flags[..k + 1][..k] == flags[..k];
      if Selection(flag) {
        if flag.value == Bool(true) {
          args := args + [Switch(flag.name)];
        } else {
          args := args + [flag.name, Render(flag.value)];
        }
      }
    }
    assert flags[..|flags|] == flags;
  }

  // The run.

  /** What the run does to the outside world, in order. */
  datatype Event = Wrote(text: string) | Spawned(args: seq<string>)

  /** The working directory: the `.forceignore` text, if the file exists, and what has happened so far. */
  class Workspace {
    var forceIgnore: Option<string>
    var history: seq<Event>

    constructor (forceIgnore: Option<string>)
      ensures this.forceIgnore == forceIgnore && history == []
    {
      this.forceIgnore := forceIgnore;
      history := [];
    }

    /** `fs.writeFileSync` of the ignore file. */
    method Write(text: string)
      modifies this
      ensures forceIgnore == Some(text) && history == old(history) + [Wrote(text)]
    {
      forceIgnore := Some(text);
      history := history + [Wrote(text)];
    }

    /** `proc.spawn('sfdx force:source:push', args)`, run to its exit. */
    method Spawn(args: seq<string>)
      modifies this
      ensures forceIgnore == old(forceIgnore) && history == old(history) + [Spawned(args)]
    {
      history := history + [Spawned(args)];
    }
  }

  /**
   * `blockPaths`: add the paths to the manager and save. It fails, leaving
   * the file alone, when the paths are undefined, the manager's list is
   * undefined, or the file is missing.
   */
  method BlockPaths(ws: Workspace, ignore: IgnoreManager, toBlock: Option<seq<string>>) returns (res: Outcome<Error>)
    modifies ws, ignore
    ensures var ready := toBlock.Some? && old(ignore.paths).Some? && old(ws.forceIgnore).Some?;
      !ready ==>
        res.Fail? && (res.error.TypeError? || res.error == MissingIgnoreFile) &&
        ws.forceIgnore == old(ws.forceIgnore) && ws.history == old(ws.history)
    ensures var ready := toBlock.Some? && old(ignore.paths).Some? && old(ws.forceIgnore).Some?;
      ready ==>
        var text := Saved(old(ws.forceIgnore).value, AddedAll(old(ignore.paths).value, toBlock.value));
        res == Pass && ws.forceIgnore == Some(text) && ws.history == old(ws.history) + [Wrote(text)] &&
        ignore.paths == Some(AddedAll(old(ignore.paths).value, toBlock.value))
  {
    if toBlock.None? {
      return Fail(TypeError("pathsToAdd.forEach"));
    }
    res := ignore.AddPaths(toBlock.value);
    if res.Fail? {
      return;
    }
    if ws.forceIgnore.None? {
      return Fail(MissingIgnoreFile);
    }
    var saved := ignore.Save(ws.forceIgnore.value);
    if saved.Err? {
      return Fail(saved.error);
    }
    ws.Write(saved.value);
  }

  /** `unblockPaths`: clear the manager and save, which writes an empty managed block. */
  method UnblockPaths(ws: Workspace, ignore: IgnoreManager) returns (res: Outcome<Error>)
    modifies ws, ignore
    ensures ignore.paths == Some([])
    ensures old(ws.forceIgnore).None? ==>
      res == Fail(MissingIgnoreFile) && ws.forceIgnore == old(ws.forceIgnore) && ws.history == old(ws.history)
    ensures old(ws.forceIgnore).Some? ==>
      var text := Saved(old(ws.forceIgnore).value, []);
      res == Pass && ws.forceIgnore == Some(text) && ws.history == old(ws.history) + [Wrote(text)]
  {
    ignore.Clear();
    if ws.forceIgnore.None? {
      return Fail(MissingIgnoreFile);
    }
    var saved := ignore.Save(ws.forceIgnore.value);
    ws.Write(saved.value);
    res := Pass;
  }

  /** `pushSource`: build the argument list and spawn the wrapped push. */
  method PushSource(ws: Workspace, flags: seq<Flag>)
    modifies ws
    ensures ws.forceIgnore == old(ws.forceIgnore) && ws.history == old(ws.history) + [Spawned(PathArgs(flags))]
  {
    var args := ProcessFlags(flags);
    ws.Spawn(args);
  }

  /**
   * The block, push and unblock steps of `run`, stopping at the first
   * failure: once blocking has written the file, the push and the
   * unblocking follow.
   */
  method BlockPushUnblock(ws: Workspace, blocker: IgnoreManager, unblocker: IgnoreManager,
                          toBlock: Option<seq<string>>, flags: seq<Flag>)
    returns (res: Outcome<Error>)
    modifies ws, blocker, unblocker
    ensures !(toBlock.Some? && old(blocker.paths).Some? && old(ws.forceIgnore).Some?) ==>
      res.Fail? && (res.error.TypeError? || res.error == MissingIgnoreFile) &&
      ws.forceIgnore == old(ws.forceIgnore) && ws.history == old(ws.history)
    ensures toBlock.Some? && old(blocker.paths).Some? && old(ws.forceIgnore).Some? ==>
      var blocked := Saved(old(ws.forceIgnore).value, AddedAll(old(blocker.paths).value, toBlock.value));
      res == Pass && ws.forceIgnore == Some(Saved(blocked, [])) &&
      ws.history == old(ws.history) + [Wrote(blocked), Spawned(PathArgs(flags)), Wrote(Saved(blocked, []))]
    ensures res.Pass? ==> unblocker.paths == Some([])
    ensures res.Pass? && blocker != unblocker ==> blocker.paths == Some(AddedAll(old(blocker.paths).value, toBlock.value))
  {
    ghost var before := ws.history;
    res := BlockPaths(ws, blocker, toBlock);
    if res.Fail? {
      return;
    }
    ghost var blocked := ws.forceIgnore.value;
    PushSource(ws, flags);
    res := UnblockPaths(ws, unblocker);
    assert ws.history == before + [Wrote(blocked)] + [Spawned(PathArgs(flags))] + [Wrote(Saved(blocked, []))];
  }

  /** `run` with the two managers it uses passed in: plan, then block, push and unblock. */
  method RunWith(ws: Workspace, blocker: IgnoreManager, unblocker: IgnoreManager,
                 project: ProjectFile, flags: seq<Flag>, onDisk: string -> bool)
    returns (res: Outcome<Error>)
    modifies ws, blocker, unblocker
    ensures var plan := Plan(project, flags, onDisk);
      plan.Err? ==> res == Fail(plan.error) && ws.forceIgnore == old(ws.forceIgnore) && ws.history == old(ws.history)
    ensures var plan := Plan(project, flags, onDisk);
      plan.Ok? && !(plan.value.Some? && old(blocker.paths).Some? && old(ws.forceIgnore).Some?) ==>
        res.Fail? && (res.error.TypeError? || res.error == MissingIgnoreFile) &&
        ws.forceIgnore == old(ws.forceIgnore) && ws.history == old(ws.history)
    ensures var plan := Plan(project, flags, onDisk);
      plan.Ok? && plan.value.Some? && old(blocker.paths).Some? && old(ws.forceIgnore).Some? ==>
        var blocked := Saved(old(ws.forceIgnore).value, AddedAll(old(blocker.paths).value, plan.value.value));
        res == Pass && ws.forceIgnore == Some(Saved(blocked, [])) &&
        ws.history == old(ws.history) + [Wrote(blocked), Spawned(PathArgs(flags)), Wrote(Saved(blocked, []))]
    ensures res.Pass? ==> unblocker.paths == Some([])
    ensures res.Pass? && blocker != unblocker ==>
      blocker.paths == Some(AddedAll(old(blocker.paths).value, Plan(project, flags, onDisk).value.value))
  {
    var plan := Plan(project, flags, onDisk);
    if plan.Err? {
      return Fail(plan.error);
    }
    res := BlockPushUnblock(ws, blocker, unblocker, plan.value, flags);
  }

  /**
   * `run` as written: both managers come from `new IgnoreManager()`, whose
   * list is undefined, so blocking always throws and nothing is ever pushed
   * or written.
   */
  method Run(ws: Workspace, project: ProjectFile, flags: seq<Flag>, onDisk: string -> bool)
    returns (res: Outcome<Error>)
    modifies ws
    ensures res.Fail?
    ensures ws.forceIgnore == old(ws.forceIgnore) && ws.history == old(ws.history)
    ensures var plan := Plan(project, flags, onDisk);
      plan.Err? ==> res == Fail(plan.error)
    ensures var plan := Plan(project, flags, onDisk);
      plan.Ok? ==> res.error.TypeError? || res.error == MissingIgnoreFile
  {
    var blocker := new IgnoreManager();
    var unblocker := new IgnoreManager();
    res := RunWith(ws, blocker, unblocker, project, flags, onDisk);
  }

  /**
   * `run` with managers whose list starts empty: with `--package` and an
   * existing ignore file, it blocks the other packages, pushes, then writes
   * an empty managed block.
   */
  method RunInitialised(ws: Workspace, project: ProjectFile, flags: seq<Flag>, onDisk: string -> bool)
    returns (res: Outcome<Error>)
    modifies ws
    ensures var plan := Plan(project, flags, onDisk);
      plan.Err? ==> res == Fail(plan.error) && ws.forceIgnore == old(ws.forceIgnore) && ws.history == old(ws.history)
    ensures var plan := Plan(project, flags, onDisk);
      plan.Ok? && (plan.value.None? || old(ws.forceIgnore).None?) ==>
        res.Fail? && ws.forceIgnore == old(ws.forceIgnore) && ws.history == old(ws.history)
    ensures var plan := Plan(project, flags, onDisk);
      plan.Ok? && plan.value.Some? && old(ws.forceIgnore).Some? ==>
        var blocked := Saved(old(ws.forceIgnore).value, AddedAll([], plan.value.value));
        res == Pass && ws.forceIgnore == Some(Saved(blocked, [])) &&
        ws.history == old(ws.history) + [Wrote(blocked), Spawned(PathArgs(flags)), Wrote(Saved(blocked, []))]
  {
    var blocker := new IgnoreManager.Initialised();
    var unblocker := new IgnoreManager.Initialised();
    res := RunWith(ws, blocker, unblocker, project, flags, onDisk);
  }

  /**
   * A successful run does not restore a marker-free ignore file: it leaves
   * the user's text followed by a blank indented line and an empty managed
   * block.
   */
  lemma RunLeavesEmptyBlock(u: string, blocked: seq<string>)
    requires Strings.Absent(u, START) && Strings.Absent(u, END)
    requires MarkerFree(AddedAll([], blocked))
    ensures Saved(Saved(u, AddedAll([], blocked)), []) == u + "\n" + INDENT + Block([])
  {
    WithoutBlockNeedsBothMarkers(u);
    SaveAgain(u, AddedAll([], blocked), []);
  }
}
