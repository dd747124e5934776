/**
 * The release script: for every `name@version` tag at HEAD, zip the built
 * extension of the package the tag names and publish it as a GitHub release,
 * skipping tags whose package, build or release cannot be used. The file
 * system, `git` and `gh` are inputs: which paths exist, the text `git tag`
 * printed, which releases exist and how `gh release create` exits.
 */
module ZipReleases {
  import opened Wrappers
  import opened Strings

  // ---------------------------------------------------------------------------
  // Tags
  // ---------------------------------------------------------------------------

  /** The lines that include '@', in order. */
  function TaggedLines(lines: seq<string>): (r: seq<string>)
    ensures |r| <= |lines|
    ensures forall t :: t in r ==> t in lines && '@' in t
    ensures forall t :: t in lines && '@' in t ==> t in r
    ensures (forall t :: t in lines ==> '@' !in t) ==> r == []
    decreases |lines|
  {
    if lines == [] then []
    else
      var rest := TaggedLines(lines[1..]);
      ContainsCharIff(lines[0], '@');
      assert forall t :: t in lines ==> t == lines[0] || t in lines[1..];
      if Contains(lines[0], "@") then [lines[0]] + rest else rest
  }

  /** The tags to release: `git tag` output trimmed, split into lines, keeping the `name@version` ones. */
  function ReleaseTags(output: string): seq<string> {
    TaggedLines(Split(Trim(output), '\n'))
  }

  /** Output without '@' (an empty one included) yields nothing to release. */
  lemma NoAtNoTags(output: string)
    requires '@' !in output
    ensures ReleaseTags(output) == []
  {
    TrimLacks(output, '@');
    SplitPiecesLack(Trim(output), '\n', '@');
  }

  /** The package name: everything before the last '@'. */
  function TagName(tag: string): string {
    Slice(tag, 0, LastIndexOfChar(tag, '@'))
  }

  /** The version: everything after the last '@'. */
  function TagVersion(tag: string): string {
    Slice(tag, LastIndexOfChar(tag, '@') + 1, |tag|)
  }

  /** A tag holding '@' is its name, '@' and its version, and the version holds no '@'. */
  lemma TagSplit(tag: string)
    requires '@' in tag
    ensures TagName(tag) + "@" + TagVersion(tag) == tag
    ensures '@' !in TagVersion(tag)
  {
    var i := LastIndexOfChar(tag, '@');
    assert TagName(tag) == tag[..i];
    assert TagVersion(tag) == tag[i + 1..];
    assert tag == tag[..i] + [tag[i]] + tag[i + 1..];
  }

  /** The directory name: the last '/'-separated piece of the package name. */
  function PackageDirName(name: string): string {
    var pieces := Split(name, '/');
    pieces[|pieces| - 1]
  }

  /**
   * The directory name is the part of the package name after its last '/',
   * or the whole name when there is none.
   */
  lemma PackageDirNameSpec(name: string)
    ensures var d := PackageDirName(name);
      |d| <= |name| && name[|name| - |d|..] == d && '/' !in d
    ensures var d := PackageDirName(name);
      ('/' in name ==> |d| < |name| && name[|name| - |d| - 1] == '/')
      && ('/' !in name ==> d == name)
  {
    var pieces := Split(name, '/');
    var d := pieces[|pieces| - 1];
    JoinSplit(name, '/');
    SplitPiecesAvoidSep(name, '/');
    if |pieces| >= 2 {
      JoinLast(pieces, "/");
      var front := Join(pieces[..|pieces| - 1], "/");
      assert name == front + "/" + d;
      assert name[|front|] == '/';
      assert name[|name| - |d|..] == d;
    }
  }

  /** A scoped name `scope/dir` gives `dir`, whatever the scope holds. */
  lemma ScopedPackageDir(scope: string, dir: string)
    requires '/' !in dir
    ensures PackageDirName(scope + "/" + dir) == dir
  {
    var name := scope + "/" + dir;
    var d := PackageDirName(name);
    PackageDirNameSpec(name);
    assert name[|scope|] == '/';
    assert name[|name| - |dir|..] == dir;
  }

  // ---------------------------------------------------------------------------
  // One tag
  // ---------------------------------------------------------------------------

  /**
   * What the script meets: which paths exist, which releases `gh release
   * view` finds, and the exit status `gh release create` ends with for a tag
   * (none when it was killed by a signal).
   */
  datatype Env = Env(present: string -> bool, released: string -> bool, createStatus: string -> Option<nat>)

  /** `path.join` of a directory and a plain name. */
  function PathJoin(dir: string, name: string): string {
    dir + "/" + name
  }

  /** What a tag leads to: one of the three skips, or a build to zip from `packageDir`. */
  datatype TagPlan =
    | NoDirName
    | NoPackageDir
    | NoDist
    | Build(fullName: string, version: string, dirName: string, packageDir: string)

  /** The package directory under packages/, else under apps/, and its dist/ must exist. */
  function PlanTag(tag: string, present: string -> bool): TagPlan {
    var name := TagName(tag);
    var dir := PackageDirName(name);
    if dir == "" then NoDirName
    else
      var packageDir := if present(PathJoin("packages", dir)) then PathJoin("packages", dir) else PathJoin("apps", dir);
      if !present(packageDir) then NoPackageDir
      else if !present(PathJoin(packageDir, "dist")) then NoDist
      else Build(name, TagVersion(tag), dir, packageDir)
  }

  /**
   * A build comes from packages/<dir> when that exists and from apps/<dir>
   * otherwise, where `dir` is the non-empty last piece of the tag's name, and
   * only when that directory and its dist/ exist.
   */
  lemma PlanTagSpec(tag: string, present: string -> bool)
    ensures var plan := PlanTag(tag, present);
      plan.Build? ==>
        plan.dirName != "" && '/' !in plan.dirName && plan.dirName == PackageDirName(TagName(tag))
        && plan.packageDir == PathJoin(if present(PathJoin("packages", plan.dirName)) then "packages" else "apps", plan.dirName)
        && present(plan.packageDir) && present(PathJoin(plan.packageDir, "dist"))
    ensures PlanTag(tag, present).NoDirName? <==> PackageDirName(TagName(tag)) == ""
  {
    PackageDirNameSpec(TagName(tag));
  }

  /** What the script does to the outside world. */
  datatype Action =
    | ZipDist(distDir: string, zipPath: string)
    | PushTag(tag: string)
    | CreateRelease(tag: string, asset: string, title: string, notes: Notes)

  /** The release notes of a build: what its text is made from. */
  datatype Notes = Notes(fullName: string, version: string, dirName: string)

  /** The heading line of the notes. */
  function NotesHeading(n: Notes): string {
    "Release of " + n.fullName + " version " + n.version
  }

  /** The text of the notes: the heading, then the installation steps, one line each. */
  function NotesText(n: Notes): string {
    Join([
      NotesHeading(n),
      "",
      "## Installation",
      "",
      "1. Download `" + n.dirName + ".zip`",
      "2. Extract the archive",
      "3. Open Chrome and navigate to `chrome://extensions/`",
      "4. Enable \"Developer mode\"",
      "5. Click \"Load unpacked\" and select the extracted folder",
      "",
      "Or upload to Chrome Web Store manually."
    ], "\n")
  }

  /** The notes open with "Release of <name> version <version>" on a line of its own. */
  lemma NotesTextHeading(n: Notes)
    ensures StartsWith(NotesText(n), NotesHeading(n) + "\n")
  {
    var lines := [
      NotesHeading(n),
      "",
      "## Installation",
      "",
      "1. Download `" + n.dirName + ".zip`",
      "2. Extract the archive",
      "3. Open Chrome and navigate to `chrome://extensions/`",
      "4. Enable \"Developer mode\"",
      "5. Click \"Load unpacked\" and select the extracted folder",
      "",
      "Or upload to Chrome Web Store manually."
    ];
    JoinCons(lines[0], lines[1..], "\n");
    assert lines == [lines[0]] + lines[1..];
    var head := NotesHeading(n) + "\n";
    assert NotesText(n) == head + Join(lines[1..], "\n");
  }

  const CreateFailedPrefix: string := "gh release create failed with status "

  /** A template literal's rendering of the exit status: its decimal digits, or "null". */
  function StatusText(status: Option<nat>): string {
    if status.Some? then NatToDecimal(status.value) else "null"
  }

  /** What some tags did: the actions taken and the message of the error that aborted the script, if any. */
  datatype Run = Run(actions: seq<Action>, failure: Option<string>)

  /** One tag: a skip does nothing; a build is zipped, and unless released already, pushed and released. */
  function TagStep(tag: string, env: Env): Run {
    match PlanTag(tag, env.present)
    case Build(name, version, dir, packageDir) =>
      var zipPath := PathJoin(packageDir, dir + ".zip");
      var zipped := [ZipDist(PathJoin(packageDir, "dist"), zipPath)];
      if env.released(tag) then Run(zipped, None)
      else
        var acts := zipped + [PushTag(tag), CreateRelease(tag, zipPath, tag, Notes(name, version, dir))];
        var status := env.createStatus(tag);
        if status == Some(0) then Run(acts, None)
        else Run(acts, Some(CreateFailedPrefix + StatusText(status)))
    case _ => Run([], None)
  }

  /**
   * A built tag is zipped from its package's dist directory; if its release
   * exists, that is all, and otherwise it is then pushed and released. A
   * tag that was released names itself as title and uploads `<dir>.zip` from
   * its package directory; the script fails exactly when a release it
   * created exited with a status other than 0.
   */
  lemma TagStepSpec(tag: string, env: Env)
    ensures var step := TagStep(tag, env);
      var plan := PlanTag(tag, env.present);
      (|step.actions| > 0 <==> plan.Build?)
      && (plan.Build? ==>
            var zipPath := PathJoin(plan.packageDir, plan.dirName + ".zip");
            var zip := ZipDist(PathJoin(plan.packageDir, "dist"), zipPath);
            (env.released(tag) ==> step.actions == [zip])
            && (!env.released(tag) ==>
                  step.actions == [zip, PushTag(tag), CreateRelease(tag, zipPath, tag, Notes(plan.fullName, plan.version, plan.dirName))]))
      && (env.released(tag) ==> |step.actions| <= 1 && step.failure.None?)
      && (forall a :: a in step.actions && a.CreateRelease? ==>
            var plan := PlanTag(tag, env.present);
            a.tag == tag && a.title == tag && !env.released(tag)
            && plan.Build? && a.asset == PathJoin(plan.packageDir, plan.dirName + ".zip")
            && a.notes == Notes(plan.fullName, plan.version, plan.dirName))
      && (forall a :: a in step.actions && a.PushTag? ==> a.tag == tag && !env.released(tag))
      && (step.failure.Some? <==>
            PlanTag(tag, env.present).Build? && !env.released(tag) && env.createStatus(tag) != Some(0))
  {
  }

  /** A built tag without a release is pushed and released among `actions`, with its notes. */
  predicate ReleasedIfDue(tag: string, env: Env, actions: seq<Action>) {
    var plan := PlanTag(tag, env.present);
    plan.Build? && !env.released(tag) ==>
      PushTag(tag) in actions
      && CreateRelease(tag, PathJoin(plan.packageDir, plan.dirName + ".zip"), tag, Notes(plan.fullName, plan.version, plan.dirName)) in actions
  }

  /** The first `k` steps, one after another, until one aborts the script. */
  function Sequenced(steps: seq<Run>, k: nat): Run
    requires k <= |steps|
    decreases k
  {
    if k == 0 then Run([], None)
    else
      var before := Sequenced(steps, k - 1);
      if before.failure.Some? then before
      else Run(before.actions + steps[k - 1].actions, steps[k - 1].failure)
  }

  /** Each tag's step, in tag order. */
  function TagSteps(tags: seq<string>, env: Env): (steps: seq<Run>)
    ensures |steps| == |tags| && forall i :: 0 <= i < |tags| ==> steps[i] == TagStep(tags[i], env)
  {
    seq(|tags|, i requires 0 <= i < |tags| => TagStep(tags[i], env))
  }

  /** What the script does over all of `tags`. */
  function ReleaseRun(tags: seq<string>, env: Env): Run {
    Sequenced(TagSteps(tags, env), |tags|)
  }

  /** Once a step aborts the script, later steps change nothing. */
  lemma {:induction false} AbortIsFinal(steps: seq<Run>, i: nat, k: nat)
    requires i <= k <= |steps|
    requires Sequenced(steps, i).failure.Some?
    ensures Sequenced(steps, k) == Sequenced(steps, i)
    decreases k - i
  {
    if i < k {
      AbortIsFinal(steps, i, k - 1);
    }
  }

  /** Without a failure, the run is every step's actions one after another. */
  lemma {:induction false} SequencedActions(steps: seq<Run>, k: nat)
    requires k <= |steps|
    ensures forall a :: a in Sequenced(steps, k).actions ==> exists i :: 0 <= i < k && a in steps[i].actions
    ensures Sequenced(steps, k).failure.Some? ==> exists i :: 0 <= i < k && Sequenced(steps, k).failure == steps[i].failure
    decreases k
  {
    if k > 0 {
      SequencedActions(steps, k - 1);
    }
  }

  /** The actions of a step reached before any failure stay in every longer run. */
  lemma {:induction false} SequencedKeeps(steps: seq<Run>, i: nat, k: nat)
    requires i < k <= |steps|
    requires Sequenced(steps, i).failure.None?
    ensures forall a :: a in steps[i].actions ==> a in Sequenced(steps, k).actions
    decreases k
  {
    if k > i + 1 {
      SequencedKeeps(steps, i, k - 1);
    }
  }

  /** A run without failure had none at any earlier point. */
  lemma {:induction false} NoFailureBefore(steps: seq<Run>, i: nat, k: nat)
    requires i <= k <= |steps|
    requires Sequenced(steps, k).failure.None?
    ensures Sequenced(steps, i).failure.None?
  {
    if Sequenced(steps, i).failure.Some? {
      AbortIsFinal(steps, i, k);
    }
  }

  /**
   * Over all tags, every tag pushed or released is one of them and had no
   * release yet, and every release is titled with its tag; a failure is the
   * one of a release creation that exited with a status other than 0. Every
   * built tag without a release that comes before the first failure (every
   * one, when nothing fails) is pushed and released.
   */
  lemma ReleaseRunSpec(tags: seq<string>, env: Env)
    ensures forall a :: a in ReleaseRun(tags, env).actions && (a.PushTag? || a.CreateRelease?) ==>
      a.tag in tags && !env.released(a.tag)
    ensures forall a :: a in ReleaseRun(tags, env).actions && a.CreateRelease? ==> a.title == a.tag
    ensures ReleaseRun(tags, env).failure.Some? ==>
      exists t :: t in tags && !env.released(t) && env.createStatus(t) != Some(0)
    ensures forall i :: 0 <= i < |tags| && Sequenced(TagSteps(tags, env), i).failure.None? ==>
      ReleasedIfDue(tags[i], env, ReleaseRun(tags, env).actions)
    ensures ReleaseRun(tags, env).failure.None? ==>
      forall t :: t in tags ==> ReleasedIfDue(t, env, ReleaseRun(tags, env).actions)
  {
    var steps := TagSteps(tags, env);
    SequencedActions(steps, |tags|);
    forall i | 0 <= i < |tags| {
      TagStepSpec(tags[i], env);
    }
    forall i | 0 <= i < |tags| && Sequenced(steps, i).failure.None?
      ensures ReleasedIfDue(tags[i], env, ReleaseRun(tags, env).actions)
    {
      SequencedKeeps(steps, i, |tags|);
    }
    if ReleaseRun(tags, env).failure.None? {
      forall t | t in tags
        ensures ReleasedIfDue(t, env, ReleaseRun(tags, env).actions)
      {
        var i :| 0 <= i < |tags| && tags[i] == t;
        NoFailureBefore(steps, i, |tags|);
        SequencedKeeps(steps, i, |tags|);
      }
    }
  }

  /**
   * createZipReleases: read the tags (a failing `git tag` or no tag ends the
   * script quietly), then handle them in order; a release creation that
   * exits with a status other than 0 throws, which ends the script with
   * exit code 1.
   */
  method CreateZipReleases(gitTagOutput: Option<string>, env: Env) returns (actions: seq<Action>, failure: Option<string>)
    ensures gitTagOutput.None? ==> actions == [] && failure.None?
    ensures gitTagOutput.Some? ==>
      var tags := ReleaseTags(gitTagOutput.value);
      Run(actions, failure) == ReleaseRun(tags, env)
  {
    actions, failure := [], None;
    if gitTagOutput.None? {
      return;
    }
    var tags := ReleaseTags(gitTagOutput.value);
    if |tags| == 0 {
      return;
    }
    actions, failure := RunInOrder(TagSteps(tags, env));
  }

  /** The loop over the tags: each step's actions in turn, stopping after the first step that throws. */
  method RunInOrder(steps: seq<Run>) returns (actions: seq<Action>, failure: Option<string>)
    ensures Run(actions, failure) == Sequenced(steps, |steps|)
  {
    actions, failure := [], None;
    var i := 0;
    while i < |steps| && failure.None?
      invariant i <= |steps|
      invariant actions == Sequenced(steps, i).actions && failure == Sequenced(steps, i).failure
    {
      actions := actions + steps[i].actions;
      failure := steps[i].failure;
      i := i + 1;
    }
    if i < |steps| {
      AbortIsFinal(steps, i, |steps|);
    }
  }
}
