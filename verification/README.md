# sfdx-pushpath in Dafny

A Dafny model of the core of sfdx-pushpath. This Salesforce CLI plugin
pushes one part of a multi-package source tree. It hides every other part
by writing a managed block into the project's `.forceignore` file. It then
runs `sfdx force:source:push` and writes the block again with no paths.

The model has eight modules:

- `Wrappers`: `Option`, `Result`, `Outcome`, and the `Error` conditions the
  commands raise (`invalidSfdxProject`, `invalidPath`, `invalidPackage`, a
  missing ignore file, and JavaScript `TypeError`s on `undefined`).
- `Seqs` and `Strings`: the JavaScript built-ins the core uses
  (`Array.prototype.indexOf`, `splice(i, 1)`, `String.prototype.indexOf`,
  `includes`, `substring`, `split` on one character, `join`).
- `Project` (src/utils/project.ts): the parsed `sfdx-project.json`,
  `find`-style lookups, `getPackage` (identical in both commands) and
  `getDependencies`.
- `CommandFlags`: the parsed flag record, in the order `Object.keys`
  lists it, and how a name becomes a switch.
- `IgnoreManagement` (src/utils/IgnoreManager.ts): the class
  `IgnoreManager`, whose `paths` field is `Option<seq<string>>` because the
  constructor never assigns it. `save`'s splice is the pure function
  `Saved` over the file text.
- `SourceSetPush` (src/commands/sourceset/push.ts): the paths to push, the
  package branch of `getPathsToBlock`, and the directory ascent as a
  `while` loop. Directories are sequences of names. `readdirSync` is the
  parameter `listing` and `path.resolve(cwd, p)` the parameter `resolve`.
  The module also builds the argument list of the wrapped push.
- `PushPath` (src/commands/sourceset/push/path.ts): the second command's
  path selection, exclusions and argument list. Its `run` is a method over
  a `Workspace` object, which holds the `.forceignore` text and a history
  of writes and spawns. `existsSync` is the parameter `onDisk`.

Behaviour of the code worth knowing:

- The ascent's `|| i === 20` is not a bound on the number of ascents. A
  target exactly 20 levels down climbs past the working directory and,
  unless the working directory is the file-system root (its own parent),
  never stops. `SourceSetPush.Ascend` therefore requires a depth other
  than 20.
- In `sourceset:push`, an unknown package name does not fail. It selects
  nothing, so every package directory is excluded. Excluded paths are not
  de-duplicated.
- Unblocking does not restore the ignore file. The old block's leading
  newline and indent stay behind, and an empty block is written
  (`IgnoreManagement.SaveAgain`, `PushPath.RunLeavesEmptyBlock`). So
  saving twice is not idempotent.
- `path.ts` declares every flag as a boolean. It forwards only `path` and
  `package`, and renders a non-true value as the bare name followed by the
  value. A boolean `--path` names no existing path and a boolean
  `--package` names no package, so with those declarations every run stops
  before blocking (`PushPath.BooleanSelectionNeverPlans`). The model also
  takes text values for the two flags, to state what the rest of `run`
  does with them.

## Model

| member | source | states |
|---|---|---|
| Seqs.IndexOfElem | src/utils/IgnoreManager.ts:70 | -1 exactly when the element is absent; otherwise an index holding it with no earlier occurrence |
| Seqs.SpliceOne | src/utils/IgnoreManager.ts:70 | `splice(start, 1)`: removes the element at a valid index; a negative index counts back from the end, so -1 removes the last element; an index past the end changes nothing |
| Strings.IndexOf | src/utils/IgnoreManager.ts:89-90 | -1 exactly when the pattern occurs nowhere; otherwise an occurrence with no earlier one |
| Strings.Includes | src/utils/IgnoreManager.ts:35 | true exactly when the pattern occurs somewhere |
| Strings.Substring | src/utils/IgnoreManager.ts:36-39 | the text between the two indices, taken in increasing order |
| Strings.Split | src/commands/sourceset/push.ts:118 | at least one piece, and no piece contains the separator |
| Strings.JoinSplit | src/commands/sourceset/push.ts:121 | joining the pieces of a split with the separator gives back the original text |
| Strings.Join | src/utils/IgnoreManager.ts:86 | no parts give the empty text; otherwise the result starts with the first part (`JoinSplit` is its round trip with `Split`) |
| Strings.SplitWithoutSeparator | src/commands/sourceset/push.ts:118 | text without the separator splits into itself alone |
| Strings.SplitHead | src/utils/project.ts:30 | the first piece is the text before the first separator, or all of it |
| Project.Find | src/utils/project.ts:31 | nothing exactly when no directory has the package name; otherwise a listed directory with that name |
| Project.FindFirst | src/utils/project.ts:31 | the directory found is the first one with the name |
| Project.GetPackage | src/commands/sourceset/push/path.ts:104-112 | fails with `invalidPackage(name)` exactly when no directory has the name; otherwise a listed directory with it |
| Project.DefaultPackage | src/utils/project.ts:27 | nothing exactly when no directory is marked default; otherwise a listed default directory |
| Project.DefaultPackageFirst | src/utils/project.ts:27 | the default found is the first directory marked default |
| Project.PackageNameBeforeAt | src/utils/project.ts:30 | the dependency name has no `@` and is the package text up to its first `@`, or all of it |
| Project.GetDependencies | src/utils/project.ts:26-33 | fails exactly when the manifest has no directories or no default; otherwise one entry per dependency, absent exactly when no directory has its name, else a directory with that name |
| Project.DependencyIsFirstMatch | src/utils/project.ts:29-32 | each entry is the first directory whose package is the dependency's name without `@version` |
| Project.NoDependenciesGivesEmpty | src/utils/project.ts:29 | a default package without `dependencies` gives the empty list |
| CommandFlags.Switch | src/commands/sourceset/push.ts:207 | a name longer than one character gets `--`, otherwise `-` |
| CommandFlags.Lookup | src/commands/sourceset/push/path.ts:119-121 | no value exactly when no flag has the name; a value found belongs to a flag with that name |
| IgnoreManagement.HasBlockMeansBothMarkers | src/utils/IgnoreManager.ts:88 | the guard `HasBlock` holds exactly when both markers occur in the text |
| IgnoreManagement.WithoutBlock | src/utils/IgnoreManager.ts:88-96 | with both markers, keeps the text before the first START as a prefix and the text after the first END as a suffix (`WithoutBlockKeepsOutside` states the exact splice) |
| IgnoreManagement.Saved | src/utils/IgnoreManager.ts:83-104 | the written text starts with the kept text (`SavedHasOneBlock` places its two markers, `SaveAgain` gives a second save) |
| IgnoreManagement.WithoutBlockKeepsOutside | src/utils/IgnoreManager.ts:88-96 | with both markers present, the splice keeps the text before the first START and after the end of the first END, and removes what lies between |
| IgnoreManagement.WithoutBlockNeedsBothMarkers | src/utils/IgnoreManager.ts:88 | a text missing either marker is kept whole |
| IgnoreManagement.SavedHasOneBlock | src/utils/IgnoreManager.ts:88-102 | if the kept text and the paths contain no marker, the saved text has exactly one START, right after the kept text, and exactly one END, at the very end, after the START |
| IgnoreManagement.BlockKeepsIndent | src/utils/IgnoreManager.ts:98-102 | the block `Block` renders starts with a newline and the indent, so cutting at START keeps those five characters |
| IgnoreManagement.SaveAgain | src/utils/IgnoreManager.ts:93-102 | saving over a saved marker-free text keeps the old newline and indent, so a second save grows the file and is not idempotent |
| IgnoreManagement.KeptTextStaysMarkerFree | src/utils/IgnoreManager.ts:98-102 | the text kept after cutting a block stays marker-free, so repeated saves keep a single block |
| IgnoreManagement.Added | src/utils/IgnoreManager.ts:51-55 | the old list is a prefix, at most one entry is added, and the members are the old ones plus the path |
| IgnoreManagement.AddedAll | src/utils/IgnoreManager.ts:61-63 | the old list is a prefix and at most one entry per added path is appended (`AddedAllSpec` gives the full account) |
| IgnoreManagement.AddedAllSpec | src/utils/IgnoreManager.ts:51-63 | after adding `xs`, old entries come first and unchanged; it holds exactly the old entries and `xs`; each new entry was absent; no duplicates are introduced; new entries follow first-occurrence order in `xs` |
| IgnoreManagement.AddedAllPresent | src/utils/IgnoreManager.ts:51-55 | adding paths that are all present changes nothing |
| IgnoreManagement.AddPathsIdempotent | src/utils/IgnoreManager.ts:61-63 | adding the same paths twice is the same as adding them once |
| IgnoreManagement.Removed | src/utils/IgnoreManager.ts:69-71 | a present path loses exactly its first occurrence; an absent path drops the last entry; an empty list stays empty |
| IgnoreManagement.RemovedIfPresent | src/utils/IgnoreManager.ts:69-71 | the intended removal: an absent path changes nothing; a present one removes exactly one occurrence; a duplicate-free list then lacks it |
| IgnoreManagement.RemoveAbsentDropsLast | src/utils/IgnoreManager.ts:69-71 | removing `other` from `[core, ext]` gives `[core]` |
| IgnoreManagement.ParsedBlock | src/utils/IgnoreManager.ts:35-39 | at least one line, none containing a newline |
| IgnoreManagement.IgnoreManager.constructor | src/utils/IgnoreManager.ts:17-19 | a new manager's list is undefined |
| IgnoreManagement.IgnoreManager.Initialised | src/utils/IgnoreManager.ts:12-19 | the intended construction: the list starts empty |
| IgnoreManagement.IgnoreManager.IgnoredPaths | src/utils/IgnoreManager.ts:31-45 | an undefined list with no ignore file fails as `readFileSync` does, leaving the list undefined; otherwise, whatever the file holds, the list becomes and the getter returns the empty list |
| IgnoreManagement.IgnoreManager.AddPath | src/utils/IgnoreManager.ts:51-55 | an undefined list fails; otherwise the path is appended exactly when absent, and the list is unchanged when present |
| IgnoreManagement.IgnoreManager.AddPaths | src/utils/IgnoreManager.ts:61-63 | the list becomes `AddedAll(old, xs)`; an undefined list fails unless `xs` is empty |
| IgnoreManagement.IgnoreManager.RemovePath | src/utils/IgnoreManager.ts:69-71 | an undefined list fails; otherwise the list becomes `Removed(old, p)` |
| IgnoreManagement.IgnoreManager.Clear | src/utils/IgnoreManager.ts:76-78 | the list is empty |
| IgnoreManagement.IgnoreManager.Save | src/utils/IgnoreManager.ts:83-105 | an undefined list fails on `join`; otherwise the text is the old text without its block, followed by the newly rendered block, even for an empty list |
| SourceSetPush.SelectedPathsMembers | src/commands/sourceset/push.ts:119 | a path is selected exactly when some directory whose package is listed has it |
| SourceSetPush.SelectedPaths | src/commands/sourceset/push.ts:119 | at most one path per directory (`SelectedPathsMembers`, `SelectedPathsConcat`) |
| SourceSetPush.SelectedPathsConcat | src/commands/sourceset/push.ts:119 | the selection keeps manifest order |
| SourceSetPush.GetPathToPush | src/commands/sourceset/push.ts:114-125 | undefined exactly when neither flag is set; with `--package`, the selected paths of the comma-separated names; with only `--path`, pieces without commas that join back to the flag |
| SourceSetPush.StripDotSlash | src/commands/sourceset/push.ts:151 | a path starting with `./` loses exactly that prefix; any other path is kept |
| SourceSetPush.PackageExclusions | src/commands/sourceset/push.ts:148-152 | at most one entry per directory (`PackageExclusionsMembers`, `PackageExclusionsCount`, `PackageExclusionsConcat`) |
| SourceSetPush.PackageExclusionsMembers | src/commands/sourceset/push.ts:148-152 | an excluded entry is exactly the `./`-stripped path of a directory that is not pushed |
| SourceSetPush.PackageExclusionsCount | src/commands/sourceset/push.ts:149-151 | the number of exclusions is the number of directories minus those pushed |
| SourceSetPush.PackageExclusionsConcat | src/commands/sourceset/push.ts:149-151 | the exclusions keep manifest order |
| SourceSetPush.OnePackageExcludesTheRest | src/commands/sourceset/push.ts:117-119 | with unique paths and names, pushing one package pushes its path alone and excludes the other N-1 directories |
| SourceSetPush.CoreExtExample | src/commands/sourceset/push.ts:148-152 | `core`/`ext` with `core` pushed excludes `["ext"]` |
| SourceSetPush.SiblingsMembers | src/commands/sourceset/push.ts:166-168 | one level's entries are exactly the listed children of the parent other than the child just left |
| SourceSetPush.Siblings | src/commands/sourceset/push.ts:166-168 | at most one entry per listed name, each one level below the parent (`SiblingsMembers`) |
| SourceSetPush.Ascent | src/commands/sourceset/push.ts:161-172 | every collected entry is strictly below the working directory and no deeper than the target (`AscentMembers` gives the exact set) |
| SourceSetPush.Chain | src/commands/sourceset/push.ts:162-164 | one logged directory per level climbed (`ChainShape` gives each one) |
| SourceSetPush.AscentMembers | src/commands/sourceset/push.ts:161-172 | the collected directories are exactly those between the working directory and the target's depth that hang off the target's chain, are listed, and differ from the chain |
| SourceSetPush.AscentSkipsChain | src/commands/sourceset/push.ts:161-172 | no directory on the chain from the target up to the working directory is collected |
| SourceSetPush.ChainShape | src/commands/sourceset/push.ts:163-164 | one logged directory per level: the parents of the target, up to and including the working directory |
| SourceSetPush.ParentStaysBetween | src/commands/sourceset/push.ts:161-163 | moving from a directory strictly below the working directory to its parent stays at or below the working directory, on the target's own path, one level higher |
| SourceSetPush.Ascend | src/commands/sourceset/push.ts:157-172 | for a target below the working directory at a depth other than 20, the loop ascends exactly that many times, stops at the working directory, and collects and logs the ascent |
| SourceSetPush.AscendAll | src/commands/sourceset/push.ts:156-173 | the loop over the targets collects and logs each target's ascent in order |
| SourceSetPush.AscentAll | src/commands/sourceset/push.ts:156-173 | every entry collected for any target is strictly below the working directory |
| SourceSetPush.SiblingTargetsBlockEachOther | src/commands/sourceset/push.ts:161-172 | climbing from one directory collects a listed sibling of it |
| SourceSetPush.AscentAllPair | src/commands/sourceset/push.ts:156-172 | for two targets the loop over the targets collects the first target's ascent followed by the second's |
| SourceSetPush.SiblingTargetsBlocked | src/commands/sourceset/push.ts:154-172 | `--path a,b` for sibling directories blocks `b`, one of the pushed paths |
| SourceSetPush.Resolved | src/commands/sourceset/push.ts:157 | each target resolved against the working directory, in order |
| SourceSetPush.Unblocked | src/commands/sourceset/push.ts:170 | keeps exactly the entries that are neither a target, nor an ancestor of one, nor inside one |
| SourceSetPush.AscentAllKeepingTargets | src/commands/sourceset/push.ts:154-172 | the intended multi-target ascent: exactly the collected entries that are neither a target's ancestor-or-self nor inside a target, so no target, ancestor of a target, or directory inside a target is ever blocked |
| SourceSetPush.GetPathsToBlock | src/commands/sourceset/push.ts:143-176 | with `--package`, the package exclusions of the pushed paths; with only `--path`, the ascent from every target; with neither, a `TypeError` |
| SourceSetPush.FlagTokens | src/commands/sourceset/push.ts:206-211 | a true boolean gives the switch alone; any other value gives the switch and the value |
| SourceSetPush.PushArgs | src/commands/sourceset/push.ts:203-212 | at most two tokens per flag (`PushArgsConcat`, `SelectionNotForwarded`, `ForwardedFlag`) |
| SourceSetPush.PushArgsConcat | src/commands/sourceset/push.ts:203-212 | each flag contributes its tokens independently, in flag order |
| SourceSetPush.SelectionNotForwarded | src/commands/sourceset/push.ts:204 | a `path` or `package` flag adds nothing, whatever its value |
| SourceSetPush.ForwardedFlag | src/commands/sourceset/push.ts:205-211 | any other flag adds its tokens in place |
| SourceSetPush.ProcessFlags | src/commands/sourceset/push.ts:202-212 | the list is `--json` followed by the forwarded flags' tokens |
| PushPath.GetPathToPush | src/commands/sourceset/push/path.ts:118-126 | a set `--path` is returned as is; otherwise, with a text `--package`, the path of a directory with that package, failing with `invalidPackage` exactly when there is none; a boolean `true` `--package` always fails with `invalidPackage("true")` |
| PushPath.PackagePathIsFirstMatch | src/commands/sourceset/push/path.ts:104-126 | the pushed path is that of the first directory with the package |
| PushPath.IsSet | src/commands/sourceset/push/path.ts:121 | JavaScript truthiness: present, and neither `false` nor the empty text |
| PushPath.OtherPaths | src/commands/sourceset/push/path.ts:146-148 | at most one path per directory (`OtherPathsMembers`, `OtherPathsCount`, `OtherPathsConcat`) |
| PushPath.OtherPathsMembers | src/commands/sourceset/push/path.ts:146-148 | an excluded path is exactly a manifest path not equal to the pushed one |
| PushPath.OtherPathsCount | src/commands/sourceset/push/path.ts:146-148 | the number of exclusions is the number of directories minus those with the pushed path |
| PushPath.OtherPathsConcat | src/commands/sourceset/push/path.ts:146-148 | the exclusions keep manifest order |
| PushPath.CoreExtKeepsDotSlash | src/commands/sourceset/push/path.ts:145-149 | `core`/`ext` with `core` pushed excludes `["./ext"]`: nothing is stripped |
| PushPath.GetPathsToBlock | src/commands/sourceset/push/path.ts:140-161 | with `--package`, `OtherPaths` of the manifest: exactly the other manifest paths (`OtherPathsMembers`), in manifest order (`OtherPathsConcat`), one per directory (`OtherPathsCount`); otherwise no list: a `TypeError` on a non-empty manifest, nothing on an empty one |
| PushPath.Plan | src/commands/sourceset/push/path.ts:74-87 | a manifest without directories fails with `invalidSfdxProject`; no plan exists unless the target resolves and exists; a list to block needs `--package`; a successful plan carries `GetPathsToBlock` of the manifest, the `--package` flag and the resolved target |
| PushPath.MissingTargetIsInvalidPath | src/commands/sourceset/push/path.ts:82-84 | a resolved target that does not exist fails with `invalidPath` naming it |
| PushPath.PathExists | src/commands/sourceset/push/path.ts:132-134 | an absent or boolean target never exists |
| PushPath.BooleanSelectionNeverPlans | src/commands/sourceset/push/path.ts:54-55 | with `path` and `package` boolean, as declared, planning always fails, so blocking is never reached |
| PushPath.SelectionTokens | src/commands/sourceset/push/path.ts:191-196 | a true boolean gives the dashed switch; any other value gives the bare name and the value |
| PushPath.PathArgs | src/commands/sourceset/push/path.ts:187-197 | at most two tokens per flag (`PathArgsConcat`, `OnlySelectionForwarded`, `SelectionFlag`) |
| PushPath.PathArgsConcat | src/commands/sourceset/push/path.ts:187-197 | each flag contributes its tokens independently, in flag order |
| PushPath.OnlySelectionForwarded | src/commands/sourceset/push/path.ts:187-189 | without `path` or `package` flags the list is empty, with no `--json` |
| PushPath.SelectionFlag | src/commands/sourceset/push/path.ts:190-196 | a selection flag adds its own tokens in place |
| PushPath.ProcessFlags | src/commands/sourceset/push/path.ts:186-197 | the argument list is exactly the selection flags' tokens |
| PushPath.Workspace.Write | src/utils/IgnoreManager.ts:104 | the file holds the text, and the write is recorded |
| PushPath.Workspace.Spawn | src/commands/sourceset/push/path.ts:203-206 | the spawn is recorded, and the file is unchanged |
| PushPath.BlockPaths | src/commands/sourceset/push/path.ts:166-170 | with a list, a defined manager list and an existing file, writes the file saved with the added paths and leaves the manager holding its old list plus the added paths; otherwise fails and writes nothing |
| PushPath.UnblockPaths | src/commands/sourceset/push/path.ts:177-181 | the list ends empty; writes the file saved with an empty block; fails, leaving the file and history alone, only if the file is missing |
| PushPath.PushSource | src/commands/sourceset/push/path.ts:186-206 | spawns the push with the serialised flags, without touching the file |
| PushPath.RunWith | src/commands/sourceset/push/path.ts:74-97 | planning failures write nothing; a blocking failure writes nothing; otherwise block, push, then unblock, in that order, after which the unblocking manager holds an empty list and a distinct blocking manager holds its old list plus the planned paths |
| PushPath.BlockPushUnblock | src/commands/sourceset/push/path.ts:89-94 | when the paths are known, the blocker initialised and the ignore file present, the file is written with the block, the push is spawned, and the file is rewritten with an empty block, in that order, leaving the unblocking manager with an empty list and a distinct blocking manager with its old list plus the blocked paths; otherwise nothing is written or spawned |
| PushPath.Run | src/commands/sourceset/push/path.ts:74-97 | as written, it always fails and never writes the file or spawns the push |
| PushPath.RunInitialised | src/commands/sourceset/push/path.ts:74-97 | with managers whose list starts empty, a `--package` run over an existing file writes the blocked file, pushes, then writes the unblocked file |
| PushPath.RunLeavesEmptyBlock | src/commands/sourceset/push/path.ts:177-181 | a full run over marker-free text leaves that text plus a newline, indent and an empty block, not the original |

## Left out

- File-system I/O (`readFileSync`, `writeFileSync`, `existsSync`, `readdirSync`) and loading `sfdx-project.json`: file texts, directory listings and existence are values or function parameters.
- Launching and awaiting the child process, its output handlers, exit code and log lines: a spawn is one recorded event that always returns.
- Node's `path.resolve` and `basename`: directories are name sequences, and resolving a target against the working directory is a parameter.
- CLI scaffolding: `flagsConfig`, messages, `ux.log`, `SfdxCommand`, and the shell quoting of the spawned argument list.
- `validatePaths` in src/commands/sourceset/push.ts:131-137: it passes an array to `existsSync`, its check is inverted, and it depends only on the file system.
- The `run` of src/commands/sourceset/push.ts:72-93 is not modelled as a whole: its `blockPaths` and `unblockPaths` are the same as those of `PushPath.BlockPaths` and `PushPath.UnblockPaths`, but its `pushSource` sends `--json` and every non-selection flag (`SourceSetPush.ProcessFlags`) and throws at line 221 before spawning.
- The `getIgnoredPaths` call in src/commands/sourceset/push.ts:221: the class has no such method, so that `pushSource` throws before spawning.
- src/interfaces/cleaner.interface.ts is not part of this model: it declares types only.
- The `log` calls inside the path.ts `pushSource`, and the `outputs` result of push.ts, are not modelled. The ascent's log lines are modelled, as `logged`.
- SourceSetPush.GetPathToPush: takes `--path` and `--package` as optional strings, as `flagsConfig` in push.ts declares them. A boolean value in that record is not modelled.
- SourceSetPush.Ascend: requires the working directory to be a prefix of the target and the depth not to be 20, because otherwise the source loops forever; the one exception, a depth of 20 below the file-system root, which stops after 21 ascents, is not modelled.
- SourceSetPush.GetPathsToBlock: requires the same of every `--path` target.
- SourceSetPush.Ascent, SourceSetPush.Ascend and SourceSetPush.GetPathsToBlock: `readdirSync` on a directory that does not exist throws (reachable through `--path` with a missing parent, since `validatePaths` never rejects); `listing` is total, so that error is not modelled.
- The `wait` flag's duration value is carried as text, and a boolean value is written as `true` or `false`.
- PushPath.BlockPaths: a failure from the manager and a missing file are both reported; the exact JavaScript error messages are not modelled.
- PushPath.RunWith: a push that never exits and a failing child process are not modelled.

## Findings

| source | as written | input that shows it | evidently intended | confidence | as-written member | corrected member |
|---|---|---|---|---|---|---|
| src/utils/IgnoreManager.ts:17-19 | the constructor never assigns `paths`, so `blockPaths` (src/commands/sourceset/push.ts:181-185, and the identical src/commands/sourceset/push/path.ts:166-170) throws on `addPath` or `join` | `sourceset:push --package core` (a string flag there) with `core` in the manifest and an existing `.forceignore`; in `path.ts` the boolean flags stop the run before `blockPaths` | the list starts empty, so the run blocks, pushes and unblocks | not executed | PushPath.Run | PushPath.RunInitialised |
| src/utils/IgnoreManager.ts:69-71 | `splice(indexOf(p), 1)` with `indexOf` -1 removes the last entry | `removePath("other")` on `["core", "ext"]` gives `["core"]` | removing an absent path changes nothing | not executed | IgnoreManagement.RemoveAbsentDropsLast | IgnoreManagement.RemovedIfPresent |
| src/commands/sourceset/push.ts:154-172 | each target's ascent collects the other targets when they are siblings | `--path force-app/a,force-app/b` with both directories present | every listed target is pushed whole, so no target, ancestor of a target, or directory inside a target is blocked | not executed | SourceSetPush.SiblingTargetsBlocked | SourceSetPush.AscentAllKeepingTargets |
