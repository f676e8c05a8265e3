/** The reconciliation at the heart of both `Fetch` methods
    (`vcsDependenciesSyncer.Fetch` in vcs_dependencies_syncer.go and
    `vcsPackageSyncer.Fetch` in vcs_syncer_packages.go): read the tags of the
    bare repository, push a commit and tag for every wanted version whose tag
    is missing, then delete, best effort, every tag no version wants. The
    bare repository is modelled by its tags and by the dependency its
    `latest` branch was last pushed from. */
module TagReconciler {
  import opened Wrappers
  import opened Strings
  import opened GitEnv
  import opened PushPipeline

  /** Git refuses empty tag names and names containing a newline. */
  predicate ValidTagName(t: string) {
    t != [] && '\n' !in t
  }

  /** The tags named by the output of `git tag`: its non-empty lines. */
  function TagSet(out: string): (tags: set<string>)
    ensures forall t :: t in tags ==> ValidTagName(t)
  {
    set t | t in Split(out, '\n') && t != []
  }

  /** What `git tag` prints for the tags `ts`: one per line. */
  function Listing(ts: seq<string>): string
    decreases |ts|
  {
    if ts == [] then [] else Listing(ts[..|ts| - 1]) + ts[|ts| - 1] + "\n"
  }

  /** The reasons a pass fails, as the syncers report them. */
  datatype Error =
    | CommandFailed(step: Step)
    | PushFailed(dependency: string, cause: Step)
    | RepoNameUnparsable(repoName: string)
    | StoreFailed
    | RegistryFailed(name: string, version: string)
    | DependenciesUnavailable(repoName: string)
    | DirectoryUnavailable(directory: string)
    | CloneFailed(repoName: string, reason: Error)

  /** What the model keeps of a bare repository. */
  datatype RepoState = RepoState(tags: set<string>, latest: Option<Dependency>)

  /** The listing command, run in the bare repository as the placeholder. */
  function ListCommand(path: string, placeholder: Dependency): Step {
    Git(RunInDirectory(["tag"], BareRepo(path), placeholder))
  }

  /** The deletion of one tag, run in the bare repository as the placeholder. */
  function DeleteCommand(path: string, placeholder: Dependency, tag: string): Step {
    Git(RunInDirectory(["tag", "-d", tag], BareRepo(path), placeholder))
  }

  /** The effect of one pipeline run on the bare repository: the tag
      arrives with a successful push of the tags, and `latest` moves with a
      successful push of the branch. */
  function AfterPush(st: RepoState, run: PipelineRun, dep: Dependency): RepoState {
    RepoState(st.tags + (if run.tagPushed then {dep.gitTag} else {}),
              if run.latestPushed then Some(dep) else st.latest)
  }

  /** The tags of `deps`. */
  function Desired(deps: seq<Dependency>): set<string> {
    set d | d in deps :: d.gitTag
  }

  /** The dependencies of `deps` whose tag is not in `existing`, in order. */
  function Absent(deps: seq<Dependency>, existing: set<string>): (r: seq<Dependency>)
    ensures forall d :: d in r <==> d in deps && d.gitTag !in existing
    decreases |deps|
  {
    if deps == [] then []
    else if deps[0].gitTag in existing then Absent(deps[1..], existing)
    else [deps[0]] + Absent(deps[1..], existing)
  }

  /** The outcome of the push loop from index `i` on. */
  datatype PassOutcome = PassOutcome(state: RepoState, pushed: seq<Dependency>, failure: Option<Error>)

  /** The pipeline of `gitPushDependencyTag` against the bare repository at
      `path`, as a function of the version and its latest flag. */
  function Pipelines(kind: SourceKind, path: string, w: World): (Dependency, bool) -> PipelineRun {
    (dep, isLatest) => Pipeline(kind, path, dep, isLatest, w)
  }

  /** What the push loop relies on in a pipeline: `latest` moves only with
      the latest flag and after the tag, and a run without a failure pushes
      the tag, and `latest` exactly when flagged. */
  ghost predicate Coherent(pipeline: (Dependency, bool) -> PipelineRun, w: World) {
    forall dep: Dependency, isLatest: bool ::
      (pipeline(dep, isLatest).latestPushed ==> isLatest && pipeline(dep, isLatest).tagPushed)
      && (FailedStep(pipeline(dep, isLatest).ran, w).None? ==>
            pipeline(dep, isLatest).tagPushed && pipeline(dep, isLatest).latestPushed == isLatest)
  }

  lemma PipelinesCoherent(kind: SourceKind, path: string, w: World)
    ensures Coherent(Pipelines(kind, path, w), w)
  {
    forall dep: Dependency, isLatest: bool
      ensures var p := Pipelines(kind, path, w)(dep, isLatest);
        (p.latestPushed ==> isLatest && p.tagPushed)
        && (FailedStep(p.ran, w).None? ==> p.tagPushed && p.latestPushed == isLatest)
    {
      assert Pipelines(kind, path, w)(dep, isLatest) == Pipeline(kind, path, dep, isLatest, w);
    }
  }

  /** `pipeline` is the pipeline of `gitPushDependencyTag` at `path`. */
  ghost predicate Runs(pipeline: (Dependency, bool) -> PipelineRun, kind: SourceKind, path: string, w: World) {
    forall dep: Dependency, isLatest: bool {:trigger Pipeline(kind, path, dep, isLatest, w)} ::
      pipeline(dep, isLatest) == Pipeline(kind, path, dep, isLatest, w)
  }

  /** The push loop: a version whose tag was listed is skipped; every other
      one runs the pipeline, with the latest flag for index 0 only; the first
      failing pipeline ends the pass. `existing` is the listing, which the
      loop does not update. */
  function PushLoop(pipeline: (Dependency, bool) -> PipelineRun, deps: seq<Dependency>, existing: set<string>,
                    i: nat, w: World, st: RepoState): PassOutcome
    requires i <= |deps|
    decreases |deps| - i
  {
    if i == |deps| then PassOutcome(st, [], None)
    else if deps[i].gitTag in existing then PushLoop(pipeline, deps, existing, i + 1, w, st)
    else
      var run := pipeline(deps[i], i == 0);
      var st' := AfterPush(st, run, deps[i]);
      match FailedStep(run.ran, w)
      case Some(s) => PassOutcome(st', [deps[i]], Some(PushFailed(deps[i].managerSyntax, s)))
      case None =>
        var rest := PushLoop(pipeline, deps, existing, i + 1, w, st');
        PassOutcome(rest.state, [deps[i]] + rest.pushed, rest.failure)
  }

  /** The tags whose deletion is attempted: listed, but wanted by no version. */
  function Stale(existing: set<string>, deps: seq<Dependency>): set<string> {
    existing - Desired(deps)
  }

  /** The stale tags whose deletion succeeds. */
  function Deleted(path: string, placeholder: Dependency, stale: set<string>, w: World): set<string> {
    set t | t in stale && !Fails(w, DeleteCommand(path, placeholder, t))
  }

  /** The outcome of one whole pass. */
  datatype Reconciled = Reconciled(state: RepoState, pushed: seq<Dependency>, deleteAttempts: set<string>, result: Result<(), Error>)

  /** One pass of the reconciliation from the repository state `st`. */
  function ReconcilePass(kind: SourceKind, path: string, deps: seq<Dependency>, placeholder: Dependency,
                     w: World, st: RepoState): Reconciled
  {
    if Fails(w, ListCommand(path, placeholder)) then
      Reconciled(st, [], {}, Err(CommandFailed(ListCommand(path, placeholder))))
    else
      var pass := PushLoop(Pipelines(kind, path, w), deps, st.tags, 0, w, st);
      if pass.failure.Some? then Reconciled(pass.state, pass.pushed, {}, Err(pass.failure.value))
      else
        var stale := Stale(st.tags, deps);
        Reconciled(RepoState(pass.state.tags - Deleted(path, placeholder, stale, w), pass.state.latest),
                   pass.pushed, stale, Ok(()))
  }

  /** The loop state `pushed` with the rest of the loop `rest` completes
      the whole pass. */
  predicate Resumes(whole: PassOutcome, pushed: seq<Dependency>, rest: PassOutcome) {
    whole == PassOutcome(rest.state, pushed + rest.pushed, rest.failure)
  }

  lemma PushLoopSkip(pipeline: (Dependency, bool) -> PipelineRun, deps: seq<Dependency>, existing: set<string>,
                     i: nat, w: World, st: RepoState)
    requires i < |deps| && deps[i].gitTag in existing
    ensures PushLoop(pipeline, deps, existing, i, w, st) == PushLoop(pipeline, deps, existing, i + 1, w, st)
  {
  }

  /** One pipeline of the push loop, seen from the loop. */
  lemma PushLoopAdvance(pipeline: (Dependency, bool) -> PipelineRun, deps: seq<Dependency>, existing: set<string>,
                        i: nat, w: World, st: RepoState, pushed: seq<Dependency>, whole: PassOutcome)
    requires i < |deps| && deps[i].gitTag !in existing
    requires Resumes(whole, pushed, PushLoop(pipeline, deps, existing, i, w, st))
    ensures var run := pipeline(deps[i], i == 0);
      var st' := AfterPush(st, run, deps[i]);
      match FailedStep(run.ran, w)
      case Some(s) => whole == PassOutcome(st', pushed + [deps[i]], Some(PushFailed(deps[i].managerSyntax, s)))
      case None => Resumes(whole, pushed + [deps[i]], PushLoop(pipeline, deps, existing, i + 1, w, st'))
  {
    var run := pipeline(deps[i], i == 0);
    var st' := AfterPush(st, run, deps[i]);
    var rest := PushLoop(pipeline, deps, existing, i + 1, w, st');
    assert pushed + ([deps[i]] + rest.pushed) == pushed + [deps[i]] + rest.pushed;
  }

  /** Visiting one more listed tag of the deletion loop. */
  lemma AttemptsStep(existing: set<string>, remaining: set<string>, dependencyTags: set<string>,
                     attempts: set<string>, tag: string)
    requires tag in remaining && remaining <= existing && attempts == (existing - remaining) - dependencyTags
    ensures attempts + (if tag in dependencyTags then {} else {tag})
      == (existing - (remaining - {tag})) - dependencyTags
    ensures |remaining - {tag}| < |remaining|
  {
  }

  /** Recording one more attempted deletion. */
  lemma DeletedAdd(path: string, placeholder: Dependency, attempts: set<string>, tag: string, w: World)
    ensures Deleted(path, placeholder, attempts + {tag}, w)
      == Deleted(path, placeholder, attempts, w) + (if Fails(w, DeleteCommand(path, placeholder, tag)) then {} else {tag})
  {
  }

  /** Parses the output of `git tag` into the set of listed tags. */
  method ParseTags(out: string) returns (tags: set<string>)
    ensures tags == TagSet(out)
  {
    var lines := Split(out, '\n');
    tags := {};
    var i := 0;
    while i < |lines|
      invariant 0 <= i <= |lines|
      invariant tags == set t | t in lines[..i] && t != []
    {
      assert lines[..i + 1] == lines[..i] + [lines[i]];
      if |lines[i]| != 0 {
        tags := tags + {lines[i]};
      }
      i := i + 1;
    }
    assert lines[..i] == lines;
  }

  /** Parsing a listing gives back the listed tags. */
  lemma {:induction false} TagSetListing(ts: seq<string>)
    requires forall i :: 0 <= i < |ts| ==> ValidTagName(ts[i])
    ensures TagSet(Listing(ts)) == set t | t in ts
    decreases |ts|
  {
    if ts != [] {
      var init := ts[..|ts| - 1];
      var t := ts[|ts| - 1];
      assert forall i :: 0 <= i < |init| ==> init[i] == ts[i];
      TagSetListing(init);
      TagSetAppendLine(Listing(init), t, init);
      assert ts == init + [t];
    }
  }

  /** Appending one line adds its tag. */
  lemma TagSetAppendLine(out: string, t: string, ts: seq<string>)
    requires ValidTagName(t)
    requires out == Listing(ts)
    ensures TagSet(out + t + "\n") == TagSet(out) + {t}
  {
    SplitWithoutSeparator(t, '\n');
    if ts == [] {
      assert out + t + "\n" == t + ['\n'] + [];
      SplitConcat(t, [], '\n');
      assert Split(out, '\n') == [[]];
    } else {
      var o2 := Listing(ts[..|ts| - 1]) + ts[|ts| - 1];
      assert out == o2 + ['\n'] + [];
      SplitConcat(o2, [], '\n');
      assert out + t + "\n" == o2 + ['\n'] + (t + ['\n'] + []);
      SplitConcat(o2, t + ['\n'] + [], '\n');
      SplitConcat(t, [], '\n');
      assert Split(out + t + "\n", '\n') == Split(o2, '\n') + [t] + [[]];
      assert Split(out, '\n') == Split(o2, '\n') + [[]];
    }
  }

  /** A bare repository under synthesis. */
  class BareRepository {
    /** The directory of the repository. */
    const path: string
    /** Its tags. */
    var tags: set<string>
    /** The dependency whose commit the `latest` branch was last pushed from. */
    var latest: Option<Dependency>

    ghost predicate Valid()
      reads this
    {
      forall t :: t in tags ==> ValidTagName(t)
    }

    /** A freshly initialised bare repository (`git --bare init`). */
    constructor (path: string)
      ensures this.path == path && tags == {} && latest == None
      ensures Valid()
    {
      this.path := path;
      tags := {};
      latest := None;
    }

    function State(): RepoState
      reads this
    {
      RepoState(tags, latest)
    }

    /** `git tag` in the repository: the tags, one per line, in some order. */
    method ListTags(placeholder: Dependency, w: World) returns (r: Result<string, Step>)
      requires Valid()
      ensures r.Err? <==> Fails(w, ListCommand(path, placeholder))
      ensures r.Err? ==> r.error == ListCommand(path, placeholder)
      ensures r.Ok? ==> TagSet(r.value) == tags
    {
      if Fails(w, ListCommand(path, placeholder)) {
        return Err(ListCommand(path, placeholder));
      }
      var out := "";
      var rest := tags;
      ghost var listed: seq<string> := [];
      while rest != {}
        invariant rest <= tags
        invariant out == Listing(listed)
        invariant forall i :: 0 <= i < |listed| ==> ValidTagName(listed[i])
        invariant (set t | t in listed) == tags - rest
        decreases |rest|
      {
        var t :| t in rest;
        ghost var before := listed;
        out := out + t + "\n";
        listed := listed + [t];
        assert listed[..|listed| - 1] == before;
        assert (set x | x in listed) == (set x | x in before) + {t};
        rest := rest - {t};
      }
      TagSetListing(listed);
      return Ok(out);
    }

    /** `git tag -d tag`; a failure leaves the tag in place. */
    method DeleteTag(tag: string, placeholder: Dependency, w: World) returns (ok: bool)
      requires Valid()
      modifies this
      ensures Valid()
      ensures ok == !Fails(w, DeleteCommand(path, placeholder, tag))
      ensures tags == (if ok then old(tags) - {tag} else old(tags))
      ensures latest == old(latest)
    {
      ok := !Fails(w, DeleteCommand(path, placeholder, tag));
      if ok {
        tags := tags - {tag};
      }
    }

    /** Commits the work tree of `dep`, tags it and pushes the tags here. */
    method CommitAndPushTags(dep: Dependency, w: World) returns (ran: seq<Step>, ok: bool)
      requires Valid() && ValidTagName(dep.gitTag)
      modifies this
      ensures Valid()
      ensures ran == Execute(CommitSteps(path, dep), w) && ok == FailedStep(ran, w).None?
      ensures tags == old(tags) + (if ok then {dep.gitTag} else {})
      ensures latest == old(latest)
    {
      ghost var steps := CommitSteps(path, dep);
      var commit := CommitSteps(path, dep);
      ran, ok := Attempt([], commit[0], w);
      if !ok { FailedAt(steps, ran, w); return; }
      ran, ok := Attempt(ran, commit[1], w);
      if !ok { FailedAt(steps, ran, w); return; }
      ran, ok := Attempt(ran, commit[2], w);
      if !ok { FailedAt(steps, ran, w); return; }
      ran, ok := Attempt(ran, commit[3], w);
      if !ok { FailedAt(steps, ran, w); return; }
      ran, ok := Attempt(ran, commit[4], w);
      if !ok { FailedAt(steps, ran, w); return; }
      ran, ok := Attempt(ran, commit[5], w);
      if !ok { FailedAt(steps, ran, w); return; }
      AllSucceeded(steps, w);
      tags := tags + {dep.gitTag};
    }

    /** Asks the work tree of `dep` for its branch and pushes that branch
        here as `latest`, together with the tag. */
    method PushLatest(dep: Dependency, w: World) returns (ran: seq<Step>, ok: bool)
      modifies this
      ensures ran == Execute(LatestSteps(dep, w), w) && ok == FailedStep(ran, w).None?
      ensures tags == old(tags)
      ensures latest == (if ok then Some(dep) else old(latest))
    {
      ghost var steps := LatestSteps(dep, w);
      ran, ok := Attempt([], RevParseStep(dep), w);
      if !ok { FailedAt(steps, ran, w); return; }
      var defaultBranch := w.headOutput;
      ran, ok := Attempt(ran, PushLatestStep(dep, TrimSpace(defaultBranch)), w);
      if !ok { FailedAt(steps, ran, w); return; }
      AllSucceeded(steps, w);
      latest := Some(dep);
    }

    /** `gitPushDependencyTag`: runs the pipeline of `dep` against this
        repository and returns the step that failed, if any, with the steps
        it started and whether the deferred removal of the work tree ran. */
    method PushDependencyTag(kind: SourceKind, dep: Dependency, isLatest: bool, w: World)
      returns (r: Result<(), Step>, ran: seq<Step>, workTreeRemoved: bool)
      requires Valid() && ValidTagName(dep.gitTag)
      modifies this
      ensures Valid()
      ensures var run := Pipeline(kind, path, dep, isLatest, w);
        ran == run.ran && State() == AfterPush(old(State()), run, dep)
        && workTreeRemoved == run.workTreeRemoved
      ensures r == (match FailedStep(ran, w) case Some(s) => Err(s) case None => Ok(()))
    {
      var ok, more;
      ran, ok := PrepareWorkTree(kind, dep, w);
      // The removal is deferred once the first step, `MkdirTemp`, succeeded.
      workTreeRemoved := !Fails(w, ran[0]);
      if !ok {
        r := Err(ran[|ran| - 1]);
        return;
      }
      more, ok := CommitAndPushTags(dep, w);
      ran := ran + more;
      if !ok {
        r := Err(ran[|ran| - 1]);
        return;
      }
      if isLatest {
        more, ok := PushLatest(dep, w);
        ran := ran + more;
        if !ok {
          r := Err(ran[|ran| - 1]);
          return;
        }
      }
      r := Ok(());
    }

    /** One turn of the push loop of `Fetch`, on the version at index `i`:
        skipped when its tag is listed, otherwise pushed. `failure` is the
        error that ends the loop. */
    method PushTurn(kind: SourceKind, deps: seq<Dependency>, existing: set<string>, i: nat, w: World,
                    ghost pipeline: (Dependency, bool) -> PipelineRun,
                    pushedBefore: seq<Dependency>, ghost whole: PassOutcome)
      returns (pushed: seq<Dependency>, failure: Option<Error>)
      requires Valid() && i < |deps| && ValidTagName(deps[i].gitTag)
      requires Runs(pipeline, kind, path, w)
      requires Resumes(whole, pushedBefore, PushLoop(pipeline, deps, existing, i, w, State()))
      modifies this
      ensures Valid()
      ensures failure.Some? ==> whole == PassOutcome(State(), pushed, failure)
      ensures failure.None? ==> Resumes(whole, pushed, PushLoop(pipeline, deps, existing, i + 1, w, State()))
    {
      ghost var st := State();
      if deps[i].gitTag in existing {
        PushLoopSkip(pipeline, deps, existing, i, w, st);
        return pushedBefore, None;
      }
      var res, ran, _ := PushDependencyTag(kind, deps[i], i == 0, w);
      assert pipeline(deps[i], i == 0) == Pipeline(kind, path, deps[i], i == 0, w);
      PushLoopAdvance(pipeline, deps, existing, i, w, st, pushedBefore, whole);
      pushed := pushedBefore + [deps[i]];
      failure := if res.Err? then Some(PushFailed(deps[i].managerSyntax, res.error)) else None;
    }

    /** The push loop of `Fetch`: pipelines for the versions whose tag is not
        in `existing`, in order, until one fails. */
    method PushMissing(kind: SourceKind, deps: seq<Dependency>, existing: set<string>, w: World,
                       ghost pipeline: (Dependency, bool) -> PipelineRun)
      returns (pushed: seq<Dependency>, failure: Option<Error>)
      requires Valid() && Runs(pipeline, kind, path, w)
      requires forall d :: d in deps ==> ValidTagName(d.gitTag)
      modifies this
      ensures Valid()
      ensures PushLoop(pipeline, deps, existing, 0, w, old(State())) == PassOutcome(State(), pushed, failure)
    {
      ghost var whole := PushLoop(pipeline, deps, existing, 0, w, State());
      pushed := [];
      var i := 0;
      while i < |deps|
        invariant 0 <= i <= |deps| && Valid()
        invariant Resumes(whole, pushed, PushLoop(pipeline, deps, existing, i, w, State()))
      {
        pushed, failure := PushTurn(kind, deps, existing, i, w, pipeline, pushed, whole);
        if failure.Some? {
          return;
        }
        i := i + 1;
      }
      assert pushed + [] == pushed;
      failure := None;
    }

    /** One turn of the deletion loop: a tag no version wants is deleted,
        best effort, and recorded as attempted. */
    method DeleteTurn(tag: string, dependencyTags: set<string>, placeholder: Dependency, w: World,
                      attempts: set<string>, ghost before: set<string>)
      returns (attempts': set<string>)
      requires Valid() && tags == before - Deleted(path, placeholder, attempts, w)
      modifies this
      ensures Valid() && latest == old(latest)
      ensures attempts' == attempts + (if tag in dependencyTags then {} else {tag})
      ensures tags == before - Deleted(path, placeholder, attempts', w)
    {
      attempts' := attempts;
      if tag !in dependencyTags {
        var ok := DeleteTag(tag, placeholder, w);
        DeletedAdd(path, placeholder, attempts, tag, w);
        attempts' := attempts + {tag};
      }
    }

    /** The deletion loop of `Fetch`: every listed tag that no version wants
        is deleted; a failed deletion is logged and skipped. The tags are
        visited in an unspecified order, as Go iterates over a map. */
    method DeleteStale(existing: set<string>, dependencyTags: set<string>, placeholder: Dependency, w: World)
      returns (attempts: set<string>)
      requires Valid()
      modifies this
      ensures Valid()
      ensures attempts == existing - dependencyTags
      ensures tags == old(tags) - Deleted(path, placeholder, attempts, w)
      ensures latest == old(latest)
    {
      attempts := {};
      var remaining := existing;
      while remaining != {}
        invariant remaining <= existing && Valid()
        invariant attempts == (existing - remaining) - dependencyTags
        invariant tags == old(tags) - Deleted(path, placeholder, attempts, w)
        invariant latest == old(latest)
        decreases |remaining|
      {
        var tag :| tag in remaining;
        AttemptsStep(existing, remaining, dependencyTags, attempts, tag);
        attempts := DeleteTurn(tag, dependencyTags, placeholder, w, attempts, old(tags));
        remaining := remaining - {tag};
      }
    }

    /** One pass of `Fetch` once the wanted versions are known: list, push
        the missing versions, delete the stale tags. Returns the versions
        whose pipeline was started and the tags whose deletion was
        attempted. */
    method Reconcile(kind: SourceKind, deps: seq<Dependency>, placeholder: Dependency, w: World)
      returns (r: Result<(), Error>, pushed: seq<Dependency>, deleteAttempts: set<string>)
      requires Valid()
      requires forall d :: d in deps ==> ValidTagName(d.gitTag)
      modifies this
      ensures Valid()
      ensures var spec := ReconcilePass(kind, path, deps, placeholder, w, old(State()));
        State() == spec.state && pushed == spec.pushed && deleteAttempts == spec.deleteAttempts
        && r == spec.result
    {
      pushed, deleteAttempts := [], {};
      var out := ListTags(placeholder, w);
      if out.Err? {
        return Err(CommandFailed(out.error)), pushed, deleteAttempts;
      }
      var existing := ParseTags(out.value);
      var failure;
      pushed, failure := PushMissing(kind, deps, existing, w, Pipelines(kind, path, w));
      if failure.Some? {
        return Err(failure.value), pushed, deleteAttempts;
      }
      var dependencyTags := DependencyTags(deps);
      deleteAttempts := DeleteStale(existing, dependencyTags, placeholder, w);
      r := Ok(());
    }
  }

  /** The set of tags of `deps`, built by a loop as `Fetch` builds its map. */
  method DependencyTags(deps: seq<Dependency>) returns (dependencyTags: set<string>)
    ensures dependencyTags == Desired(deps)
  {
    dependencyTags := {};
    for j := 0 to |deps|
      invariant dependencyTags == set k | 0 <= k < j :: deps[k].gitTag
    {
      dependencyTags := dependencyTags + {deps[j].gitTag};
    }
    forall t | t in Desired(deps) ensures t in dependencyTags {
      var d :| d in deps && d.gitTag == t;
      var k :| 0 <= k < |deps| && deps[k] == d;
    }
  }

  /** Creates the work tree of `dep` and brings the sources into it. */
  method PrepareWorkTree(kind: SourceKind, dep: Dependency, w: World) returns (ran: seq<Step>, ok: bool)
    ensures ran == Execute(Head(kind, dep), w) && ok == FailedStep(ran, w).None?
  {
    ghost var steps := Head(kind, dep);
    ran, ok := Attempt([], MakeWorkTree(dep), w);
    if !ok { FailedAt(steps, ran, w); return; }
    match kind {
      case Download =>
        ran, ok := Attempt(ran, DownloadSources(dep), w);
        if !ok { FailedAt(steps, ran, w); return; }
      case FetchAndUnpack =>
        ran, ok := Attempt(ran, FetchArchive(dep), w);
        if !ok { FailedAt(steps, ran, w); return; }
        ran, ok := Attempt(ran, UnpackArchive(dep), w);
        if !ok { FailedAt(steps, ran, w); return; }
    }
    AllSucceeded(steps, w);
  }

  /** Starts one more step and reports whether it succeeded. */
  method Attempt(ran: seq<Step>, s: Step, w: World) returns (ran': seq<Step>, ok: bool)
    ensures ran' == ran + [s] && ok == !Fails(w, s)
  {
    ran' := ran + [s];
    ok := !Fails(w, s);
  }

  /** A prefix of `steps` whose last step is the first that fails is what
      `Execute` runs. */
  lemma FailedAt(steps: seq<Step>, ran: seq<Step>, w: World)
    requires ran <= steps && ran != [] && Fails(w, ran[|ran| - 1])
    requires forall i :: 0 <= i < |ran| - 1 ==> !Fails(w, ran[i])
    ensures Execute(steps, w) == ran && FailedStep(ran, w).Some?
  {
    ExecuteStopsAtFirstFailure(steps, w, |ran| - 1);
    assert steps[..|ran|] == ran;
  }

  /** When no step fails, `Execute` runs them all. */
  lemma {:induction false} AllSucceeded(steps: seq<Step>, w: World)
    requires forall i :: 0 <= i < |steps| ==> !Fails(w, steps[i])
    ensures Execute(steps, w) == steps && FailedStep(steps, w).None?
    decreases |steps|
  {
    if steps != [] {
      AllSucceeded(steps[1..], w);
    }
  }
}
