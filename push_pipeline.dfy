/** `gitPushDependencyTag` (vcs_dependencies_syncer.go and
    vcs_syncer_packages.go): the ordered steps that turn the sources of one
    dependency version into a commit and a tag of the bare repository. The
    operations the steps stand for (creating a directory, a registry
    download, a git subprocess) are outside the model; whether each one
    fails is read from a `World`. */
module PushPipeline {
  import opened Wrappers
  import opened Strings
  import opened GitEnv

  /** How the sources reach the work tree: `Download` for the dependency
      syncers, `fetch` followed by `unpack` for the package syncers. */
  datatype SourceKind = Download | FetchAndUnpack

  /** One operation of the pipeline. */
  datatype Step =
    | MakeWorkTree(dependency: Dependency)
    | DownloadSources(dependency: Dependency)
    | FetchArchive(dependency: Dependency)
    | UnpackArchive(dependency: Dependency)
    | Git(command: GitCommand)

  /** The outcome of every foreign operation: the operations that fail, and
      what `git rev-parse --abbrev-ref HEAD` prints in a work tree. */
  datatype World = World(
    mkdirFails: set<Dependency>,
    downloadFails: set<Dependency>,
    fetchFails: set<Dependency>,
    unpackFails: set<Dependency>,
    gitFails: set<GitCommand>,
    headOutput: string)

  predicate Fails(w: World, s: Step) {
    match s
    case MakeWorkTree(d) => d in w.mkdirFails
    case DownloadSources(d) => d in w.downloadFails
    case FetchArchive(d) => d in w.fetchFails
    case UnpackArchive(d) => d in w.unpackFails
    case Git(c) => c in w.gitFails
  }

  /** A git command run in the work tree of `dep`, as `dep`'s authors. */
  function InWorkTree(dep: Dependency, args: seq<string>): Step {
    Git(RunInDirectory(args, WorkTree(dep), dep))
  }

  /** The commands of the pipeline, by name. */
  function PushTagsStep(dep: Dependency): Step {
    InWorkTree(dep, ["push", "--no-verify", "--force", "origin", "--tags"])
  }

  function RevParseStep(dep: Dependency): Step {
    InWorkTree(dep, ["rev-parse", "--abbrev-ref", "HEAD"])
  }

  /** Points `latest` at the work tree's branch, and pushes the tag again. */
  function PushLatestStep(dep: Dependency, branch: string): Step {
    InWorkTree(dep, ["push", "--no-verify", "--force", "origin", branch + ":latest", dep.gitTag])
  }

  function SourceSteps(kind: SourceKind, dep: Dependency): seq<Step> {
    match kind
    case Download => [DownloadSources(dep)]
    case FetchAndUnpack => [FetchArchive(dep), UnpackArchive(dep)]
  }

  /** Commit the work tree with the fixed date, tag it with the version's
      tag, and force-push the tags to the bare repository. */
  function CommitSteps(bare: string, dep: Dependency): seq<Step> {
    [InWorkTree(dep, ["init"]),
     InWorkTree(dep, ["add", "."]),
     InWorkTree(dep, ["commit", "--no-verify", "-m", dep.managerSyntax, "--date", StableGitCommitDate]),
     InWorkTree(dep, ["tag", "-m", dep.managerSyntax, dep.gitTag]),
     InWorkTree(dep, ["remote", "add", "origin", bare]),
     PushTagsStep(dep)]
  }

  /** Move `latest`: ask for the work tree's branch, then push it. */
  function LatestSteps(dep: Dependency, w: World): seq<Step> {
    [RevParseStep(dep), PushLatestStep(dep, TrimSpace(w.headOutput))]
  }

  /** Create the temporary work tree and bring the sources into it. */
  function Head(kind: SourceKind, dep: Dependency): seq<Step> {
    [MakeWorkTree(dep)] + SourceSteps(kind, dep)
  }

  /** Every step the pipeline would take if none failed, in program order. */
  function Planned(kind: SourceKind, bare: string, dep: Dependency, isLatest: bool, w: World): seq<Step> {
    Head(kind, dep) + CommitSteps(bare, dep) + (if isLatest then LatestSteps(dep, w) else [])
  }

  /** Runs `steps` in order and stops after the first one that fails: the
      steps actually started. */
  function Execute(steps: seq<Step>, w: World): (ran: seq<Step>)
    ensures ran <= steps
    ensures forall i :: 0 <= i < |ran| - 1 ==> !Fails(w, ran[i])
    ensures ran == steps || (ran != [] && Fails(w, ran[|ran| - 1]))
    ensures !(ran != [] && Fails(w, ran[|ran| - 1])) ==> forall i :: 0 <= i < |steps| ==> !Fails(w, steps[i])
    decreases |steps|
  {
    if steps == [] then []
    else if Fails(w, steps[0]) then [steps[0]]
    else [steps[0]] + Execute(steps[1..], w)
  }

  /** The step that failed, if any. */
  function FailedStep(ran: seq<Step>, w: World): (r: Option<Step>)
    ensures r.Some? <==> ran != [] && Fails(w, ran[|ran| - 1])
  {
    if ran != [] && Fails(w, ran[|ran| - 1]) then Some(ran[|ran| - 1]) else None
  }

  /** `s` was started and did not fail. */
  predicate Succeeded(ran: seq<Step>, w: World, s: Step) {
    s in ran && !Fails(w, s)
  }

  /** When a step fails, nothing after it runs: the steps started are
      exactly the planned ones up to and including the first that fails. */
  lemma {:induction false} ExecuteStopsAtFirstFailure(steps: seq<Step>, w: World, k: nat)
    requires k < |steps| && Fails(w, steps[k])
    requires forall i :: 0 <= i < k ==> !Fails(w, steps[i])
    ensures Execute(steps, w) == steps[..k + 1]
    decreases |steps|
  {
    if k > 0 {
      ExecuteStopsAtFirstFailure(steps[1..], w, k - 1);
      assert steps[..k + 1] == [steps[0]] + steps[1..][..k];
    }
  }

  /** Running a concatenation runs the second part only if the whole first
      part succeeded. */
  lemma {:induction false} ExecuteAppend(a: seq<Step>, b: seq<Step>, w: World)
    ensures Execute(a + b, w) == if Completes(a, w) then a + Execute(b, w) else Execute(a, w)
    decreases |a|
  {
    if a == [] {
      assert a + b == b;
    } else {
      assert (a + b)[0] == a[0];
      assert (a + b)[1..] == a[1..] + b;
      ExecuteAppend(a[1..], b, w);
      if !Fails(w, a[0]) && Execute(a[1..], w) == a[1..] && a[1..] != [] {
        assert a[|a| - 1] == a[1..][|a[1..]| - 1];
      }
    }
  }

  /** The commands of one dependency's pipeline all run in that
      dependency's work tree with that dependency's identity. */
  lemma PlannedCommandsCarryIdentity(kind: SourceKind, bare: string, dep: Dependency, isLatest: bool, w: World)
    ensures forall s :: s in Planned(kind, bare, dep, isLatest, w) && s.Git? ==>
      s.command.dir == WorkTree(dep) && s.command.env == CommandEnv(dep)
  {
    var h := Head(kind, dep);
    var c := CommitSteps(bare, dep);
    var l := if isLatest then LatestSteps(dep, w) else [];
    assert forall s :: s in h ==> !s.Git?;
    assert forall s :: s in c ==> s.command.dir == WorkTree(dep) && s.command.env == CommandEnv(dep);
    assert forall s :: s in l ==> s.command.dir == WorkTree(dep) && s.command.env == CommandEnv(dep);
    assert Planned(kind, bare, dep, isLatest, w) == h + c + l;
  }

  /** If making the work tree or obtaining the sources fails, no git command
      runs. */
  lemma SourceFailureRunsNoGit(kind: SourceKind, bare: string, dep: Dependency, isLatest: bool, w: World)
    requires Fails(w, MakeWorkTree(dep)) || exists s :: s in SourceSteps(kind, dep) && Fails(w, s)
    ensures forall s :: s in Execute(Planned(kind, bare, dep, isLatest, w), w) ==> !s.Git?
  {
    var head := Head(kind, dep);
    var tail := CommitSteps(bare, dep) + (if isLatest then LatestSteps(dep, w) else []);
    assert Planned(kind, bare, dep, isLatest, w) == head + tail;
    var failing := if Fails(w, MakeWorkTree(dep)) then MakeWorkTree(dep)
      else var s :| s in SourceSteps(kind, dep) && Fails(w, s); s;
    assert failing in head && Fails(w, failing);
    assert !Completes(head, w);
    ExecuteAppend(head, tail, w);
    assert Execute(head, w) <= head;
    assert forall s :: s in head ==> !s.Git?;
  }

  /** The branch is pushed to `latest` only for the latest version. */
  lemma LatestOnlyWhenFlagged(kind: SourceKind, bare: string, dep: Dependency, w: World, branch: string)
    ensures RevParseStep(dep) !in Execute(Planned(kind, bare, dep, false, w), w)
    ensures PushLatestStep(dep, branch) !in Execute(Planned(kind, bare, dep, false, w), w)
  {
    var steps := Planned(kind, bare, dep, false, w);
    assert RevParseStep(dep) !in steps;
    assert PushLatestStep(dep, branch) !in steps;
  }

  /** For the latest version, a pipeline that does not fail pushes the tags
      and then the work tree's branch as `latest`. */
  lemma LatestPushedWhenFlagged(kind: SourceKind, bare: string, dep: Dependency, w: World)
    requires FailedStep(Execute(Planned(kind, bare, dep, true, w), w), w).None?
    ensures var ran := Execute(Planned(kind, bare, dep, true, w), w);
      Succeeded(ran, w, PushTagsStep(dep))
      && Succeeded(ran, w, PushLatestStep(dep, TrimSpace(w.headOutput)))
  {
    var steps := Planned(kind, bare, dep, true, w);
    var ran := Execute(steps, w);
    assert ran == steps;
    assert PushTagsStep(dep) in steps;
    assert PushLatestStep(dep, TrimSpace(w.headOutput)) in steps;
  }

  /** One run of the pipeline: the steps started, whether the tag and the
      `latest` branch reached the bare repository, and whether the deferred
      `os.RemoveAll` of the work tree ran when the run returned. */
  datatype PipelineRun = PipelineRun(ran: seq<Step>, tagPushed: bool, latestPushed: bool, workTreeRemoved: bool)

  /** `gitPushDependencyTag` phase by phase: preparing the work tree, the
      commit with its tag and push, and for the latest version the move of
      `latest`. A failing phase ends the run. The removal of the work tree
      is deferred as soon as `MkdirTemp` succeeds, so every later return,
      failing or not, removes it; when `MkdirTemp` fails there is nothing
      to remove. */
  function Pipeline(kind: SourceKind, bare: string, dep: Dependency, isLatest: bool, w: World): (p: PipelineRun)
    ensures p.ran != [] && p.ran[0] == MakeWorkTree(dep)
    ensures p.workTreeRemoved <==> !Fails(w, p.ran[0])
    ensures p.latestPushed ==> isLatest && p.tagPushed
    ensures FailedStep(p.ran, w).None? ==> p.tagPushed && p.latestPushed == isLatest
    ensures p.tagPushed ==> Succeeded(p.ran, w, PushTagsStep(dep))
  {
    var head := Execute(Head(kind, dep), w);
    assert head != [] && head[0] == MakeWorkTree(dep);
    var removed := !Fails(w, MakeWorkTree(dep));
    if FailedStep(head, w).Some? then PipelineRun(head, false, false, removed)
    else
      var commit := Execute(CommitSteps(bare, dep), w);
      if FailedStep(commit, w).Some? then
        assert FailedStep(head + commit, w) == FailedStep(commit, w);
        PipelineRun(head + commit, false, false, removed)
      else
        assert commit == CommitSteps(bare, dep);
        assert commit[5] == PushTagsStep(dep);
        if !isLatest then PipelineRun(head + commit, true, false, removed)
        else
          var latest := Execute(LatestSteps(dep, w), w);
          assert (head + commit + latest)[|head| + 5] == PushTagsStep(dep);
          assert latest != [] && FailedStep(head + commit + latest, w) == FailedStep(latest, w);
          PipelineRun(head + commit + latest, true, FailedStep(latest, w).None?, removed)
  }

  /** Once `MkdirTemp` has succeeded, the work tree is removed on every exit
      path, whichever later step fails; when it fails, nothing else runs
      and there is no work tree to remove. */
  lemma WorkTreeRemovedOnEveryExit(kind: SourceKind, bare: string, dep: Dependency, isLatest: bool, w: World)
    ensures var p := Pipeline(kind, bare, dep, isLatest, w);
      (!Fails(w, MakeWorkTree(dep)) ==> p.workTreeRemoved)
      && (Fails(w, MakeWorkTree(dep)) ==> p.ran == [MakeWorkTree(dep)] && !p.workTreeRemoved)
  {
    if Fails(w, MakeWorkTree(dep)) {
      ExecuteStopsAtFirstFailure(Head(kind, dep), w, 0);
      assert Head(kind, dep)[..1] == [MakeWorkTree(dep)];
    }
  }

  /** The phases together start exactly the planned steps up to the first
      failure. */
  lemma PipelineRunsPlanned(kind: SourceKind, bare: string, dep: Dependency, isLatest: bool, w: World)
    ensures Pipeline(kind, bare, dep, isLatest, w).ran == Execute(Planned(kind, bare, dep, isLatest, w), w)
  {
    var h := Head(kind, dep);
    var c := CommitSteps(bare, dep);
    CompletesIff(h, w);
    CompletesIff(c, w);
    if isLatest {
      var l := LatestSteps(dep, w);
      assert Planned(kind, bare, dep, isLatest, w) == h + (c + l);
      ExecuteThreePhases(h, c, l, w);
    } else {
      assert Planned(kind, bare, dep, isLatest, w) == h + c;
      ExecuteAppend(h, c, w);
    }
  }

  /** All of `steps` run and none fails. */
  predicate Completes(steps: seq<Step>, w: World) {
    Execute(steps, w) == steps && FailedStep(steps, w).None?
  }

  lemma CompletesIff(steps: seq<Step>, w: World)
    ensures Completes(steps, w) <==> FailedStep(Execute(steps, w), w).None?
  {
  }

  lemma ExecuteThreePhases(h: seq<Step>, c: seq<Step>, l: seq<Step>, w: World)
    ensures Execute(h + (c + l), w) ==
      if !Completes(h, w) then Execute(h, w)
      else if !Completes(c, w) then h + Execute(c, w)
      else h + c + Execute(l, w)
  {
    ExecuteAppend(h, c + l, w);
    ExecuteAppend(c, l, w);
    if Completes(h, w) && Completes(c, w) {
      assert h + (c + Execute(l, w)) == h + c + Execute(l, w);
    }
  }
}
