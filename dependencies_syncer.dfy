/** `vcsDependenciesSyncer` (vcs_dependencies_syncer.go): the syncer of
    dependency repositories whose versions come from the site configuration
    and from the dependencies store, and whose sources a registry downloads.
    The registry, the parsers of the package manager and the store are
    foreign and enter as parameters. */
module DependenciesSyncer {
  import opened Wrappers
  import opened GitEnv
  import opened PushPipeline
  import opened TagReconciler
  import ReconcileProperties

  /** The configuration of one syncer: its type, the scheme of its store
      rows, its placeholder dependency and its configured dependencies. */
  datatype Syncer = Syncer(typ: string, scheme: string, placeholder: Dependency, configDeps: seq<string>)

  /** How a `Get` of the registry fails: the version does not exist, or
      anything else. */
  datatype GetError = NotFound | Unavailable(reason: string)

  /** The version a configured dependency contributes when the versions of
      `name` are asked for: none when it does not parse or names another
      package. */
  function ConfigVersion(c: string, parse: string -> Result<Dependency, string>, name: string): seq<string> {
    match parse(c)
    case Err(_) => []
    case Ok(d) => if d.packageSyntax == name then [d.version] else []
  }

  /** The versions of `name` among the configured dependencies, in
      configuration order. */
  function ConfigVersions(configDeps: seq<string>, parse: string -> Result<Dependency, string>, name: string): seq<string>
    decreases |configDeps|
  {
    if configDeps == [] then []
    else ConfigVersions(configDeps[..|configDeps| - 1], parse, name) + ConfigVersion(configDeps[|configDeps| - 1], parse, name)
  }

  /** `versions`: the configured versions, then the versions listed by the
      store, newest first as the store returns them. A store failure is the
      only error. */
  function ResolvedVersions(configDeps: seq<string>, parse: string -> Result<Dependency, string>, name: string,
                            store: Result<seq<string>, string>): Result<seq<string>, Error>
  {
    match store
    case Err(_) => Err(StoreFailed)
    case Ok(listed) => Ok(ConfigVersions(configDeps, parse, name) + listed)
  }

  /** The outcome of `Get` for one version, as the cloneable filter sees it. */
  function CloneableStep(ds: seq<Dependency>, name: string, version: string,
                         get: (string, string) -> Result<Dependency, GetError>): Result<seq<Dependency>, Error>
  {
    match get(name, version)
    case Ok(d) => Ok(ds + [d])
    case Err(NotFound) => Ok(ds)
    case Err(Unavailable(_)) => Err(RegistryFailed(name, version))
  }

  /** The cloneable filter of `Fetch`: versions the registry does not know
      are dropped, and the first other registry error ends `Fetch`. */
  function CloneableDeps(name: string, versions: seq<string>,
                         get: (string, string) -> Result<Dependency, GetError>): Result<seq<Dependency>, Error>
    decreases |versions|
  {
    if versions == [] then Ok([])
    else
      match CloneableDeps(name, versions[..|versions| - 1], get)
      case Err(e) => Err(e)
      case Ok(ds) => CloneableStep(ds, name, versions[|versions| - 1], get)
  }

  /** A lookup of the registry that is neither a hit nor `NotFound`. */
  predicate RegistryError(get: (string, string) -> Result<Dependency, GetError>, name: string, version: string) {
    get(name, version).Err? && get(name, version).error.Unavailable?
  }

  /** `versions` as the loops of the source compute it. */
  method Versions(s: Syncer, parse: string -> Result<Dependency, string>, name: string,
                  store: Result<seq<string>, string>) returns (r: Result<seq<string>, Error>)
    ensures r == ResolvedVersions(s.configDeps, parse, name, store)
  {
    var versions := [];
    for i := 0 to |s.configDeps|
      invariant versions == ConfigVersions(s.configDeps[..i], parse, name)
    {
      assert s.configDeps[..i + 1][..i] == s.configDeps[..i];
      var dep := parse(s.configDeps[i]);
      if dep.Err? {
        continue;
      }
      if dep.value.packageSyntax == name {
        versions := versions + [dep.value.version];
      }
    }
    assert s.configDeps[..|s.configDeps|] == s.configDeps;
    if store.Err? {
      return Err(StoreFailed);
    }
    var listed := store.value;
    for i := 0 to |listed|
      invariant versions == ConfigVersions(s.configDeps, parse, name) + listed[..i]
    {
      assert listed[..i + 1] == listed[..i] + [listed[i]];
      versions := versions + [listed[i]];
    }
    assert listed[..|listed|] == listed;
    return Ok(versions);
  }

  /** The cloneable filter as the loop of `Fetch` computes it. */
  method Cloneable(name: string, versions: seq<string>, get: (string, string) -> Result<Dependency, GetError>)
    returns (r: Result<seq<Dependency>, Error>)
    ensures r == CloneableDeps(name, versions, get)
  {
    var cloneable := [];
    for i := 0 to |versions|
      invariant CloneableDeps(name, versions[..i], get) == Ok(cloneable)
    {
      assert versions[..i + 1][..i] == versions[..i];
      var d := get(name, versions[i]);
      if d.Err? {
        if d.error.NotFound? {
          continue;
        }
        CloneableStopsAtError(name, versions, i, get);
        return Err(RegistryFailed(name, versions[i]));
      }
      cloneable := cloneable + [d.value];
    }
    assert versions[..|versions|] == versions;
    return Ok(cloneable);
  }

  /** Configured versions split over concatenation: the order of the
      configuration is kept. */
  lemma {:induction false} ConfigVersionsAppend(a: seq<string>, b: seq<string>,
                                               parse: string -> Result<Dependency, string>, name: string)
    ensures ConfigVersions(a + b, parse, name) == ConfigVersions(a, parse, name) + ConfigVersions(b, parse, name)
    decreases |b|
  {
    if b != [] {
      var b' := b[..|b| - 1];
      assert (a + b)[..|a + b| - 1] == a + b';
      assert (a + b)[|a + b| - 1] == b[|b| - 1];
      ConfigVersionsAppend(a, b', parse, name);
    } else {
      assert a + b == a;
    }
  }

  /** A configured dependency that does not parse is skipped, without an
      error. */
  lemma MalformedSkipped(a: seq<string>, c: string, b: seq<string>,
                         parse: string -> Result<Dependency, string>, name: string)
    requires parse(c).Err?
    ensures ConfigVersions(a + [c] + b, parse, name) == ConfigVersions(a + b, parse, name)
  {
    assert ConfigVersions([c], parse, name) == [] by {
      assert [c][..0] == [];
    }
    ConfigVersionsAppend(a, [c], parse, name);
    assert ConfigVersions(a + [c], parse, name) == ConfigVersions(a, parse, name);
    ConfigVersionsAppend(a + [c], b, parse, name);
    ConfigVersionsAppend(a, b, parse, name);
  }

  /** A version is configured exactly when some configured dependency parses
      to that version of `name`. */
  lemma {:induction false} ConfigVersionsMembership(configDeps: seq<string>,
                                                   parse: string -> Result<Dependency, string>, name: string, v: string)
    ensures v in ConfigVersions(configDeps, parse, name) <==>
      exists i :: 0 <= i < |configDeps| && parse(configDeps[i]).Ok?
        && parse(configDeps[i]).value.packageSyntax == name && parse(configDeps[i]).value.version == v
    decreases |configDeps|
  {
    if configDeps != [] {
      var init := configDeps[..|configDeps| - 1];
      var c := configDeps[|configDeps| - 1];
      ConfigVersionsMembership(init, parse, name, v);
      assert forall i :: 0 <= i < |init| ==> init[i] == configDeps[i];
      if v in ConfigVersion(c, parse, name) {
        assert parse(configDeps[|configDeps| - 1]).Ok?;
      }
    }
  }

  /** The resolved list: every matching configured version first, then
      every store version, duplicates included. */
  lemma ResolvedVersionsShape(configDeps: seq<string>, parse: string -> Result<Dependency, string>, name: string,
                              store: Result<seq<string>, string>)
    ensures ResolvedVersions(configDeps, parse, name, store).Ok? <==> store.Ok?
    ensures store.Ok? ==>
      var vs := ResolvedVersions(configDeps, parse, name, store).value;
      var n := |ConfigVersions(configDeps, parse, name)|;
      |vs| == n + |store.value| && vs[n..] == store.value
      && vs[..n] == ConfigVersions(configDeps, parse, name)
  {
  }

  /** The filter stops at the first version with a registry error. */
  lemma {:induction false} CloneableStopsAtError(name: string, versions: seq<string>, i: nat,
                                                 get: (string, string) -> Result<Dependency, GetError>)
    requires i < |versions| && CloneableDeps(name, versions[..i], get).Ok? && RegistryError(get, name, versions[i])
    ensures CloneableDeps(name, versions, get) == Err(RegistryFailed(name, versions[i]))
    decreases |versions|
  {
    if i < |versions| - 1 {
      var init := versions[..|versions| - 1];
      assert init[..i] == versions[..i];
      CloneableStopsAtError(name, init, i, get);
    } else {
      assert versions[..|versions| - 1] == versions[..i];
    }
  }

  /** The filter fails exactly when some version meets a registry error, and
      then it names the first such version. */
  lemma {:induction false} CloneableErrors(name: string, versions: seq<string>,
                                           get: (string, string) -> Result<Dependency, GetError>)
    ensures CloneableDeps(name, versions, get).Err? <==>
      exists i :: 0 <= i < |versions| && RegistryError(get, name, versions[i])
    ensures CloneableDeps(name, versions, get).Err? ==>
      exists i :: 0 <= i < |versions| && RegistryError(get, name, versions[i])
        && CloneableDeps(name, versions, get).error == RegistryFailed(name, versions[i])
        && forall j :: 0 <= j < i ==> !RegistryError(get, name, versions[j])
    decreases |versions|
  {
    if versions != [] {
      var init := versions[..|versions| - 1];
      var last := versions[|versions| - 1];
      CloneableErrors(name, init, get);
      assert forall i :: 0 <= i < |init| ==> init[i] == versions[i];
      if CloneableDeps(name, init, get).Err? {
        var i :| 0 <= i < |init| && RegistryError(get, name, init[i])
          && CloneableDeps(name, init, get).error == RegistryFailed(name, init[i])
          && forall j :: 0 <= j < i ==> !RegistryError(get, name, init[j]);
        assert forall j :: 0 <= j < i ==> init[j] == versions[j];
      } else if RegistryError(get, name, last) {
        assert versions[|versions| - 1] == last;
      }
    }
  }

  /** On success, the cloneable dependencies are exactly the registry's
      answers for the versions it knows. */
  lemma {:induction false} CloneableMembership(name: string, versions: seq<string>,
                                               get: (string, string) -> Result<Dependency, GetError>, d: Dependency)
    requires CloneableDeps(name, versions, get).Ok?
    ensures d in CloneableDeps(name, versions, get).value <==>
      exists i :: 0 <= i < |versions| && get(name, versions[i]) == Ok(d)
    decreases |versions|
  {
    if versions != [] {
      var init := versions[..|versions| - 1];
      CloneableMembership(name, init, get, d);
      assert forall i :: 0 <= i < |init| ==> init[i] == versions[i];
      if get(name, versions[|versions| - 1]) == Ok(d) {
        assert d in CloneableDeps(name, versions, get).value;
      }
    }
  }

  /** The registry only answers with tags git accepts. */
  ghost predicate RegistryTagsValid(get: (string, string) -> Result<Dependency, GetError>) {
    forall n: string, v: string :: get(n, v).Ok? ==> ValidTagName(get(n, v).value.gitTag)
  }

  /** `Fetch`: parse the repository name, resolve the versions, filter them
      through the registry and reconcile the tags of the repository at
      `path` with them. */
  function FetchPass(s: Syncer, repoName: string, parseRepoName: string -> Result<Dependency, string>,
                     parse: string -> Result<Dependency, string>,
                     get: (string, string) -> Result<Dependency, GetError>,
                     store: Result<seq<string>, string>, path: string, w: World, st: RepoState): Reconciled
  {
    match parseRepoName(repoName)
    case Err(_) => Reconciled(st, [], {}, Err(RepoNameUnparsable(repoName)))
    case Ok(dep) =>
      match ResolvedVersions(s.configDeps, parse, dep.packageSyntax, store)
      case Err(e) => Reconciled(st, [], {}, Err(e))
      case Ok(versions) =>
        match CloneableDeps(dep.packageSyntax, versions, get)
        case Err(e) => Reconciled(st, [], {}, Err(e))
        case Ok(cloneable) => ReconcilePass(Download, path, cloneable, s.placeholder, w, st)
  }

  /** `vcsDependenciesSyncer.Fetch` against the bare repository `repo`. */
  method Fetch(s: Syncer, repoName: string, parseRepoName: string -> Result<Dependency, string>,
               parse: string -> Result<Dependency, string>,
               get: (string, string) -> Result<Dependency, GetError>,
               store: Result<seq<string>, string>, w: World, repo: BareRepository)
    returns (r: Result<(), Error>, pushed: seq<Dependency>, deleteAttempts: set<string>)
    requires repo.Valid() && RegistryTagsValid(get)
    modifies repo
    ensures repo.Valid()
    ensures var spec := FetchPass(s, repoName, parseRepoName, parse, get, store, repo.path, w, old(repo.State()));
      repo.State() == spec.state && pushed == spec.pushed && deleteAttempts == spec.deleteAttempts
      && r == spec.result
  {
    pushed, deleteAttempts := [], {};
    var dep := parseRepoName(repoName);
    if dep.Err? {
      return Err(RepoNameUnparsable(repoName)), pushed, deleteAttempts;
    }
    var depName := dep.value.packageSyntax;
    var versions := Versions(s, parse, depName, store);
    if versions.Err? {
      return Err(versions.error), pushed, deleteAttempts;
    }
    var cloneable := Cloneable(depName, versions.value, get);
    if cloneable.Err? {
      return Err(cloneable.error), pushed, deleteAttempts;
    }
    forall d | d in cloneable.value ensures ValidTagName(d.gitTag) {
      CloneableMembership(depName, versions.value, get, d);
    }
    r, pushed, deleteAttempts := repo.Reconcile(Download, cloneable.value, s.placeholder, w);
  }

  /** Every failure before the pushes, from the repository name to the
      listing of the tags, leaves the repository as it was. */
  lemma EarlyFailureChangesNothing(s: Syncer, repoName: string, parseRepoName: string -> Result<Dependency, string>,
                                   parse: string -> Result<Dependency, string>,
                                   get: (string, string) -> Result<Dependency, GetError>,
                                   store: Result<seq<string>, string>, path: string, w: World, st: RepoState)
    requires FetchPass(s, repoName, parseRepoName, parse, get, store, path, w, st).result.Err?
    requires !FetchPass(s, repoName, parseRepoName, parse, get, store, path, w, st).result.error.PushFailed?
    ensures var out := FetchPass(s, repoName, parseRepoName, parse, get, store, path, w, st);
      out.state == st && out.pushed == [] && out.deleteAttempts == {}
  {
    var out := FetchPass(s, repoName, parseRepoName, parse, get, store, path, w, st);
    match parseRepoName(repoName)
    case Err(_) =>
    case Ok(dep) =>
      match ResolvedVersions(s.configDeps, parse, dep.packageSyntax, store)
      case Err(_) =>
      case Ok(versions) =>
        match CloneableDeps(dep.packageSyntax, versions, get)
        case Err(_) =>
        case Ok(cloneable) =>
          ReconcileProperties.PushLoopFailureNamesLast(Pipelines(Download, path, w), cloneable, st.tags, 0, w, st);
  }

  /** A successful `Fetch` leaves the tags of the dependencies the registry
      knows, plus the stale tags whose deletion failed; only versions the
      registry answered for are pushed. */
  lemma FetchConverges(s: Syncer, repoName: string, parseRepoName: string -> Result<Dependency, string>,
                       parse: string -> Result<Dependency, string>,
                       get: (string, string) -> Result<Dependency, GetError>,
                       store: Result<seq<string>, string>, path: string, w: World, st: RepoState)
    requires FetchPass(s, repoName, parseRepoName, parse, get, store, path, w, st).result.Ok?
    ensures parseRepoName(repoName).Ok? && store.Ok?
    ensures var name := parseRepoName(repoName).value.packageSyntax;
      var versions := ConfigVersions(s.configDeps, parse, name) + store.value;
      var cloneable := CloneableDeps(name, versions, get);
      var stale := Stale(st.tags, cloneable.value);
      var out := FetchPass(s, repoName, parseRepoName, parse, get, store, path, w, st);
      cloneable.Ok?
      && out.state.tags == Desired(cloneable.value) + (stale - Deleted(path, s.placeholder, stale, w))
      && forall d :: d in out.pushed ==>
           d.gitTag !in st.tags && exists i :: 0 <= i < |versions| && get(name, versions[i]) == Ok(d)
  {
    var name := parseRepoName(repoName).value.packageSyntax;
    var versions := ConfigVersions(s.configDeps, parse, name) + store.value;
    var cloneable := CloneableDeps(name, versions, get).value;
    var out := FetchPass(s, repoName, parseRepoName, parse, get, store, path, w, st);
    ReconcileProperties.Converges(Download, path, cloneable, s.placeholder, w, st);
    forall d | d in out.pushed
      ensures d.gitTag !in st.tags && exists i :: 0 <= i < |versions| && get(name, versions[i]) == Ok(d)
    {
      CloneableMembership(name, versions, get, d);
    }
  }

  /** The command that creates the repository's directory. */
  function BareInitCommand(path: string, placeholder: Dependency): Step {
    Git(RunInDirectory(["--bare", "init"], BareRepo(path), placeholder))
  }

  /** `CloneCommand`: create the directory, `git --bare init` it as the
      placeholder, and fill it with `Fetch`, whose error is wrapped. The
      repository exists from the moment `git --bare init` succeeded. */
  method CloneCommand(s: Syncer, path: string, mkdirFails: bool, repoName: string,
                      parseRepoName: string -> Result<Dependency, string>,
                      parse: string -> Result<Dependency, string>,
                      get: (string, string) -> Result<Dependency, GetError>,
                      store: Result<seq<string>, string>, w: World)
    returns (r: Result<(), Error>, repo: Option<BareRepository>)
    requires RegistryTagsValid(get)
    ensures mkdirFails ==> r == Err(DirectoryUnavailable(path)) && repo.None?
    ensures !mkdirFails && Fails(w, BareInitCommand(path, s.placeholder)) ==>
      r == Err(CommandFailed(BareInitCommand(path, s.placeholder))) && repo.None?
    ensures !mkdirFails && !Fails(w, BareInitCommand(path, s.placeholder)) ==>
      var spec := FetchPass(s, repoName, parseRepoName, parse, get, store, path, w, RepoState({}, None));
      repo.Some? && fresh(repo.value) && repo.value.path == path && repo.value.State() == spec.state
      && r == (if spec.result.Ok? then Ok(()) else Err(CloneFailed(repoName, spec.result.error)))
  {
    if mkdirFails {
      return Err(DirectoryUnavailable(path)), None;
    }
    if Fails(w, BareInitCommand(path, s.placeholder)) {
      return Err(CommandFailed(BareInitCommand(path, s.placeholder))), None;
    }
    var bare := new BareRepository(path);
    var res, _, _ := Fetch(s, repoName, parseRepoName, parse, get, store, w, bare);
    repo := Some(bare);
    if res.Err? {
      return Err(CloneFailed(repoName, res.error)), repo;
    }
    r := Ok(());
  }
}
