/**
 * The project manifest (`sfdx-project.json`) and the lookups the commands
 * make in it: finding a package directory by package name, and resolving
 * the dependencies of the default package.
 */
module Project {
  import opened Wrappers
  import Strings

  /** One entry of a package directory's `dependencies`, e.g. `my-lib@1.2.0`. */
  datatype Dependency = Dependency(package: string, versionNumber: Option<string>)

  /** One entry of `packageDirectories`. */
  datatype PackageDirectory = PackageDirectory(
    path: string,
    package: Option<string>,
    default: bool,
    dependencies: Option<seq<Dependency>>)

  /** The parsed manifest; `packageDirectories` may be missing. */
  datatype ProjectFile = ProjectFile(packageDirectories: Option<seq<PackageDirectory>>)

  /**
   * `packageDirectories.find(pkg => pkg.package === name)`: the first
   * directory whose `package` is `name`, or nothing.
   */
  function Find(dirs: seq<PackageDirectory>, name: string): (r: Option<PackageDirectory>)
    ensures r.None? <==> forall k :: 0 <= k < |dirs| ==> dirs[k].package != Some(name)
    ensures r.Some? ==> r.value in dirs && r.value.package == Some(name)
  {
    if dirs == [] then None
    else if dirs[0].package == Some(name) then Some(dirs[0])
    else Find(dirs[1..], name)
  }

  /** `Find` returns the first match, not merely some match. */
  lemma {:induction false} FindFirst(dirs: seq<PackageDirectory>, name: string, k: nat)
    requires k < |dirs| && dirs[k].package == Some(name)
    requires forall j :: 0 <= j < k ==> dirs[j].package != Some(name)
    ensures Find(dirs, name) == Some(dirs[k])
  {
    if k > 0 {
      FindFirst(dirs[1..], name, k - 1);
    }
  }

  /**
   * `getPackage`, identical in both push commands: the first directory
   * named `name`, or `invalidPackage`.
   */
  function GetPackage(dirs: seq<PackageDirectory>, name: string): (r: Result<PackageDirectory, Error>)
    ensures r.Err? <==> forall k :: 0 <= k < |dirs| ==> dirs[k].package != Some(name)
    ensures r.Err? ==> r.error == InvalidPackage(name)
    ensures r.Ok? ==> r.value in dirs && r.value.package == Some(name)
  {
    match Find(dirs, name)
    case Some(d) => Ok(d)
    case None => Err(InvalidPackage(name))
  }

  /** `packageDirectories.find(pkg => pkg.default)`. */
  function DefaultPackage(dirs: seq<PackageDirectory>): (r: Option<PackageDirectory>)
    ensures r.None? <==> forall k :: 0 <= k < |dirs| ==> !dirs[k].default
    ensures r.Some? ==> r.value in dirs && r.value.default
  {
    if dirs == [] then None
    else if dirs[0].default then Some(dirs[0])
    else DefaultPackage(dirs[1..])
  }

  /** The default package is the first directory flagged `default`. */
  lemma {:induction false} DefaultPackageFirst(dirs: seq<PackageDirectory>, k: nat)
    requires k < |dirs| && dirs[k].default
    requires forall j :: 0 <= j < k ==> !dirs[j].default
    ensures DefaultPackage(dirs) == Some(dirs[k])
  {
    if k > 0 {
      DefaultPackageFirst(dirs[1..], k - 1);
    }
  }

  /** `dep.package.split('@')[0]`: the package name without its version. */
  function PackageName(dep: Dependency): string {
    Strings.Split(dep.package, '@')[0]
  }

  /** The name is the text of `package` before its first `@`, or all of it. */
  lemma PackageNameBeforeAt(dep: Dependency)
    ensures var n := PackageName(dep);
      && '@' !in n
      && n <= dep.package
      && (|n| < |dep.package| ==> dep.package[|n|] == '@')
      && ('@' !in dep.package ==> n == dep.package)
  {
    Strings.SplitHead(dep.package, '@');
  }

  /**
   * `getDependencies`: for each dependency of the default package, in
   * order, the first directory whose `package` is the dependency's name
   * without its `@version`; a missing `dependencies` counts as none. A
   * manifest without `packageDirectories` or without a default directory
   * makes the source dereference `undefined`.
   */
  function GetDependencies(project: ProjectFile): (r: Result<seq<Option<PackageDirectory>>, Error>)
    ensures r.Err? <==> project.packageDirectories.None?
                        || DefaultPackage(project.packageDirectories.value).None?
    ensures r.Err? ==> r.error.TypeError?
    ensures r.Ok? ==>
      var dirs := project.packageDirectories.value;
      var deps := DefaultPackage(dirs).value.dependencies.GetOr([]);
      && |r.value| == |deps|
      && forall i :: 0 <= i < |deps| ==>
           && (r.value[i].None? <==> forall k :: 0 <= k < |dirs| ==> dirs[k].package != Some(PackageName(deps[i])))
           && (r.value[i].Some? ==> r.value[i].value in dirs && r.value[i].value.package == Some(PackageName(deps[i])))
  {
    match project.packageDirectories
    case None => Err(TypeError("packageDirectories.find"))
    case Some(dirs) =>
      match DefaultPackage(dirs)
      case None => Err(TypeError("defaultPackage.dependencies"))
      case Some(def) =>
        var deps := def.dependencies.GetOr([]);
        Ok(seq(|deps|, i requires 0 <= i < |deps| => Find(dirs, PackageName(deps[i]))))
  }

  /** The default package's dependencies are resolved to the first matching directory, in order. */
  lemma DependencyIsFirstMatch(project: ProjectFile, i: nat, k: nat)
    requires GetDependencies(project).Ok?
    requires var dirs := project.packageDirectories.value;
      var deps := DefaultPackage(dirs).value.dependencies.GetOr([]);
      && i < |deps| && k < |dirs|
      && dirs[k].package == Some(PackageName(deps[i]))
      && forall j :: 0 <= j < k ==> dirs[j].package != Some(PackageName(deps[i]))
    ensures GetDependencies(project).value[i] == Some(project.packageDirectories.value[k])
  {
    var dirs := project.packageDirectories.value;
    var deps := DefaultPackage(dirs).value.dependencies.GetOr([]);
    FindFirst(dirs, PackageName(deps[i]), k);
  }

  /** A default package without `dependencies` has no resolved dependencies. */
  lemma NoDependenciesGivesEmpty(project: ProjectFile)
    requires project.packageDirectories.Some?
    requires var d := DefaultPackage(project.packageDirectories.value);
      d.Some? && d.value.dependencies.None?
    ensures GetDependencies(project) == Ok([])
  {
  }
}
