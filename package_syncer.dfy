/** `vcsPackageSyncer` (vcs_syncer_packages.go): the syncer whose package
    manager hands over the whole list of wanted dependencies at once
    (`fetchDependencies`) and whose sources are fetched as an archive and
    unpacked. The tag commands of its `Fetch` run as the global Go
    placeholder dependency, not as the syncer's own placeholder, which only
    `git --bare init` uses. */
module PackageSyncer {
  import opened Wrappers
  import opened GitEnv
  import opened PushPipeline
  import opened TagReconciler
  import ReconcileProperties

  /** The configuration of one syncer: its type and its own placeholder. */
  datatype Syncer = Syncer(typ: string, placeholder: Dependency)

  /** `Fetch`: ask the package manager for the dependencies of the
      repository, then reconcile the tags of the repository at `path`
      with them. */
  function FetchPass(repoName: string, fetchDependencies: string -> Result<seq<Dependency>, string>,
                     goPlaceholder: Dependency, path: string, w: World, st: RepoState): Reconciled
  {
    match fetchDependencies(repoName)
    case Err(_) => Reconciled(st, [], {}, Err(DependenciesUnavailable(repoName)))
    case Ok(deps) => ReconcilePass(FetchAndUnpack, path, deps, goPlaceholder, w, st)
  }

  /** The package manager only names tags git accepts. */
  ghost predicate DependencyTagsValid(fetchDependencies: string -> Result<seq<Dependency>, string>) {
    forall n: string, d: Dependency :: fetchDependencies(n).Ok? && d in fetchDependencies(n).value ==> ValidTagName(d.gitTag)
  }

  /** `vcsPackageSyncer.Fetch` against the bare repository `repo`. When the
      dependencies cannot be fetched, nothing else is done: the tags are
      neither read nor changed. */
  method Fetch(repoName: string, fetchDependencies: string -> Result<seq<Dependency>, string>,
               goPlaceholder: Dependency, w: World, repo: BareRepository)
    returns (r: Result<(), Error>, pushed: seq<Dependency>, deleteAttempts: set<string>)
    requires repo.Valid() && DependencyTagsValid(fetchDependencies)
    modifies repo
    ensures repo.Valid()
    ensures var spec := FetchPass(repoName, fetchDependencies, goPlaceholder, repo.path, w, old(repo.State()));
      repo.State() == spec.state && pushed == spec.pushed && deleteAttempts == spec.deleteAttempts
      && r == spec.result
    ensures fetchDependencies(repoName).Err? ==>
      r == Err(DependenciesUnavailable(repoName)) && unchanged(repo) && pushed == [] && deleteAttempts == {}
  {
    var dependencies := fetchDependencies(repoName);
    if dependencies.Err? {
      return Err(DependenciesUnavailable(repoName)), [], {};
    }
    r, pushed, deleteAttempts := repo.Reconcile(FetchAndUnpack, dependencies.value, goPlaceholder, w);
  }

  /** A successful `Fetch` leaves the tags of the fetched dependencies plus
      the stale tags whose deletion failed, and pushes exactly the
      dependencies whose tag was missing. */
  lemma FetchConverges(repoName: string, fetchDependencies: string -> Result<seq<Dependency>, string>,
                       goPlaceholder: Dependency, path: string, w: World, st: RepoState)
    requires FetchPass(repoName, fetchDependencies, goPlaceholder, path, w, st).result.Ok?
    ensures fetchDependencies(repoName).Ok?
    ensures var deps := fetchDependencies(repoName).value;
      var out := FetchPass(repoName, fetchDependencies, goPlaceholder, path, w, st);
      var stale := Stale(st.tags, deps);
      out.state.tags == Desired(deps) + (stale - Deleted(path, goPlaceholder, stale, w))
      && out.pushed == Absent(deps, st.tags) && out.deleteAttempts == stale
  {
    ReconcileProperties.Converges(FetchAndUnpack, path, fetchDependencies(repoName).value, goPlaceholder, w, st);
  }

  /** A second `Fetch` after a clean one, with the package manager giving
      the same list, pushes nothing, deletes nothing and changes nothing. */
  lemma SecondFetchIsNoOp(repoName: string, fetchDependencies: string -> Result<seq<Dependency>, string>,
                          goPlaceholder: Dependency, path: string, w: World, st: RepoState)
    requires FetchPass(repoName, fetchDependencies, goPlaceholder, path, w, st).result.Ok?
    requires forall t :: t in Stale(st.tags, fetchDependencies(repoName).value) ==>
      !Fails(w, DeleteCommand(path, goPlaceholder, t))
    ensures var first := FetchPass(repoName, fetchDependencies, goPlaceholder, path, w, st);
      var second := FetchPass(repoName, fetchDependencies, goPlaceholder, path, w, first.state);
      second.pushed == [] && second.deleteAttempts == {} && second.state == first.state && second.result.Ok?
  {
    ReconcileProperties.SecondPassIsNoOp(FetchAndUnpack, path, fetchDependencies(repoName).value, goPlaceholder, w, st);
  }

  /** A failed push ends `Fetch` with the display form of its dependency
      and keeps the pushes before it; no tag is deleted. */
  lemma FailedPushKeepsEarlierPushes(repoName: string, fetchDependencies: string -> Result<seq<Dependency>, string>,
                                     goPlaceholder: Dependency, path: string, w: World, st: RepoState)
    requires FetchPass(repoName, fetchDependencies, goPlaceholder, path, w, st).result.Err?
    requires fetchDependencies(repoName).Ok? && !Fails(w, ListCommand(path, goPlaceholder))
    ensures var out := FetchPass(repoName, fetchDependencies, goPlaceholder, path, w, st);
      out.deleteAttempts == {} && st.tags <= out.state.tags && out.pushed != []
      && (forall k :: 0 <= k < |out.pushed| - 1 ==> out.pushed[k].gitTag in out.state.tags)
      && out.result.error.PushFailed? && out.result.error.dependency == out.pushed[|out.pushed| - 1].managerSyntax
  {
    ReconcileProperties.PushFailureKeepsProgress(FetchAndUnpack, path, fetchDependencies(repoName).value, goPlaceholder, w, st);
  }

  /** The command that creates the repository's directory. */
  function BareInitCommand(path: string, placeholder: Dependency): Step {
    Git(RunInDirectory(["--bare", "init"], BareRepo(path), placeholder))
  }

  /** `CloneCommand`: create the directory, `git --bare init` it as the
      syncer's placeholder, and fill it with `Fetch`, whose error is
      wrapped. */
  method CloneCommand(s: Syncer, path: string, mkdirFails: bool, repoName: string,
                      fetchDependencies: string -> Result<seq<Dependency>, string>,
                      goPlaceholder: Dependency, w: World)
    returns (r: Result<(), Error>, repo: Option<BareRepository>)
    requires DependencyTagsValid(fetchDependencies)
    ensures mkdirFails ==> r == Err(DirectoryUnavailable(path)) && repo.None?
    ensures !mkdirFails && Fails(w, BareInitCommand(path, s.placeholder)) ==>
      r == Err(CommandFailed(BareInitCommand(path, s.placeholder))) && repo.None?
    ensures !mkdirFails && !Fails(w, BareInitCommand(path, s.placeholder)) ==>
      var spec := FetchPass(repoName, fetchDependencies, goPlaceholder, path, w, RepoState({}, None));
      repo.Some? && fresh(repo.value) && repo.value.path == path && repo.value.State() == spec.state
      && r == (if spec.result.Ok? then Ok(()) else Err(CloneFailed(repoName, spec.result.error)))
  {
    if mkdirFails {
      return Err(DirectoryUnavailable(path)), None;
    }
    if Fails(w, BareInitCommand(path, s.placeholder)) {
      return Err(CommandFailed(BareInitCommand(path, s.placeholder))), None;
    }
    var bare := new BareRepository(path);
    var res, _, _ := Fetch(repoName, fetchDependencies, goPlaceholder, w, bare);
    repo := Some(bare);
    if res.Err? {
      return Err(CloneFailed(repoName, res.error)), repo;
    }
    r := Ok(());
  }
}
