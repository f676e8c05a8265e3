/** The identity under which the package syncers run git
    (`runCommandInDirectory`, defined identically in vcs_dependencies_syncer.go
    and vcs_syncer_packages.go), the dependency record those commands are
    about, and the git commands themselves as values. */
module GitEnv {
  import opened Wrappers
  import opened Strings

  /** Author and committer date of every synthesized commit; fixed so that
      the same package always gives the same commit hash. */
  const StableGitCommitDate: string := "Thu Apr 8 14:24:52 2021 +0200"

  /** Author and committer e-mail of every synthesized commit. */
  const GitEmail: string := "code-intel@sourcegraph.com"

  /** What the syncers use of `reposource.PackageDependency`: the package
      name (`PackageSyntax`), its version (`PackageVersion`), the git tag of
      that version (`GitTagFromVersion`) and the display form
      (`PackageManagerSyntax`). How these are derived from each other is the
      business of the package manager and is left abstract. */
  datatype Dependency = Dependency(packageSyntax: string, version: string, gitTag: string, managerSyntax: string)

  /** Where a command runs: the bare repository being synthesized, or the
      temporary work tree created for one dependency. */
  datatype Location = BareRepo(path: string) | WorkTree(dependency: Dependency)

  /** A git invocation: its arguments after `git`, its working directory and
      its complete environment. */
  datatype GitCommand = GitCommand(args: seq<string>, dir: Location, env: seq<string>)

  /** The author name given to the commits of `dep`. */
  function AuthorName(dep: Dependency): string {
    dep.managerSyntax + " authors"
  }

  /** One environment entry, `name=value`. */
  function Entry(name: string, value: string): string {
    name + "=" + value
  }

  /** The environment of every command `runCommandInDirectory` starts. The
      command's own environment is nil before the appends, so these seven
      variables are the whole environment of the child process. */
  function CommandEnv(dep: Dependency): (env: seq<string>)
    ensures |env| == 7
  {
    [Entry("EMAIL", GitEmail),
     Entry("GIT_AUTHOR_NAME", AuthorName(dep)),
     Entry("GIT_AUTHOR_EMAIL", GitEmail),
     Entry("GIT_AUTHOR_DATE", StableGitCommitDate),
     Entry("GIT_COMMITTER_NAME", AuthorName(dep)),
     Entry("GIT_COMMITTER_EMAIL", GitEmail),
     Entry("GIT_COMMITTER_DATE", StableGitCommitDate)]
  }

  /** `runCommandInDirectory(ctx, git args, dir, dep)` before it is run. */
  function RunInDirectory(args: seq<string>, dir: Location, dep: Dependency): (c: GitCommand)
    ensures c.args == args && c.dir == dir
  {
    GitCommand(args, dir, CommandEnv(dep))
  }

  /** How a child process reads its environment: the value of the last entry
      `key=value`, as `os/exec` keeps the last of duplicate keys. */
  function EnvLookup(env: seq<string>, key: string): (r: Option<string>)
    ensures r.Some? ==> exists i :: 0 <= i < |env| && env[i] == key + "=" + r.value
    decreases |env|
  {
    if env == [] then None
    else
      var e := env[|env| - 1];
      if key + "=" <= e then
        assert e == key + "=" + e[|key| + 1..];
        Some(e[|key| + 1..])
      else
        var r := EnvLookup(env[..|env| - 1], key);
        if r.Some? then
          var i :| 0 <= i < |env[..|env| - 1]| && env[..|env| - 1][i] == key + "=" + r.value;
          assert env[i] == key + "=" + r.value;
          r
        else r
  }

  /** The seven variable names `runCommandInDirectory` sets. */
  const EnvNames: seq<string> := ["EMAIL", "GIT_AUTHOR_NAME", "GIT_AUTHOR_EMAIL", "GIT_AUTHOR_DATE",
    "GIT_COMMITTER_NAME", "GIT_COMMITTER_EMAIL", "GIT_COMMITTER_DATE"]

  /** Two variable names without `=` only match each other's `name=` prefix
      when they are the same name. */
  lemma KeyPrefix(key: string, name: string, value: string)
    requires '=' !in key && '=' !in name
    ensures key + "=" <= name + "=" + value <==> key == name
  {
    var p := key + "=";
    var s := name + "=" + value;
    if p <= s {
      assert forall i :: 0 <= i < |name| ==> s[i] == name[i] && name[i] != '=';
      assert forall i :: 0 <= i < |key| ==> p[i] == key[i] && key[i] != '=';
      assert s[|key|] == p[|key|] == '=';
      assert |key| >= |name|;
      assert p[|name|] == s[|name|] == '=';
      assert |key| == |name|;
      assert forall i :: 0 <= i < |key| ==> key[i] == p[i] == s[i] == name[i];
    }
  }

  /** Every git command sees the dependency's authors as author and
      committer, the fixed e-mail and the fixed date for both dates. */
  lemma CommandIdentity(dep: Dependency)
    ensures var env := CommandEnv(dep);
      EnvLookup(env, "GIT_AUTHOR_NAME") == Some(dep.managerSyntax + " authors")
      && EnvLookup(env, "GIT_COMMITTER_NAME") == Some(dep.managerSyntax + " authors")
      && EnvLookup(env, "GIT_AUTHOR_EMAIL") == Some(GitEmail)
      && EnvLookup(env, "GIT_COMMITTER_EMAIL") == Some(GitEmail)
      && EnvLookup(env, "EMAIL") == Some(GitEmail)
      && EnvLookup(env, "GIT_AUTHOR_DATE") == Some(StableGitCommitDate)
      && EnvLookup(env, "GIT_COMMITTER_DATE") == Some(StableGitCommitDate)
  {
    LookupSetName(dep, 0);
    LookupSetName(dep, 1);
    LookupSetName(dep, 2);
    LookupSetName(dep, 3);
    LookupSetName(dep, 4);
    LookupSetName(dep, 5);
    LookupSetName(dep, 6);
  }

  /** The values `runCommandInDirectory` gives to its seven variables. */
  function EnvValues(dep: Dependency): seq<string> {
    [GitEmail, AuthorName(dep), GitEmail, StableGitCommitDate, AuthorName(dep), GitEmail, StableGitCommitDate]
  }

  /** No name occurs twice among the seven, so none is overridden. */
  lemma EnvNamesDistinct(i: nat, j: nat)
    requires i < 7 && j < 7 && EnvNames[i] == EnvNames[j]
    ensures i == j
  {
    var a := EnvNames[i];
    var b := EnvNames[j];
    assert |a| == |b|;
    assert a[|a| - 2] == b[|b| - 2];
    assert a[4] == b[4];
  }

  /** The seven entries are the seven names with their values. */
  lemma EnvEntries(dep: Dependency)
    ensures forall i :: 0 <= i < 7 ==> CommandEnv(dep)[i] == EnvNames[i] + "=" + EnvValues(dep)[i]
  {
    forall i | 0 <= i < 7
      ensures CommandEnv(dep)[i] == Entry(EnvNames[i], EnvValues(dep)[i])
    {
    }
  }

  /** No variable name holds `=`. */
  lemma EnvNamesWithoutEquals(i: nat)
    requires i < 7
    ensures '=' !in EnvNames[i]
  {
    var n := EnvNames[i];
    assert forall j :: 0 <= j < |n| ==> n[j] in "ABCDEFGHIJKLMNOPQRSTUVWXYZ_";
  }

  /** Only the entry of name `k` starts with `name=`. */
  lemma OnlyEntryWithPrefix(dep: Dependency, k: nat, i: nat)
    requires k < 7 && i < 7
    ensures EnvNames[k] + "=" <= CommandEnv(dep)[i] <==> i == k
  {
    EnvEntries(dep);
    EnvNamesWithoutEquals(k);
    EnvNamesWithoutEquals(i);
    KeyPrefix(EnvNames[k], EnvNames[i], EnvValues(dep)[i]);
    if EnvNames[k] == EnvNames[i] {
      EnvNamesDistinct(k, i);
    }
  }

  /** Each of the seven names is set once, to its value. */
  lemma LookupSetName(dep: Dependency, k: nat)
    requires k < 7
    ensures EnvLookup(CommandEnv(dep), EnvNames[k]) == Some(EnvValues(dep)[k])
  {
    var env := CommandEnv(dep);
    var key := EnvNames[k];
    forall i | 0 <= i < |env|
      ensures key + "=" <= env[i] <==> i == k
    {
      OnlyEntryWithPrefix(dep, k, i);
    }
    LookupUnique(env, key, k);
    EnvEntries(dep);
    assert env[k] == key + "=" + EnvValues(dep)[k];
    assert env[k][|key| + 1..] == EnvValues(dep)[k];
  }

  /** The lookup finds the only entry with the key's prefix. */
  lemma {:induction false} LookupUnique(env: seq<string>, key: string, k: nat)
    requires k < |env|
    requires forall i :: 0 <= i < |env| ==> (key + "=" <= env[i] <==> i == k)
    ensures EnvLookup(env, key) == Some(env[k][|key| + 1..])
    decreases |env|
  {
    if k < |env| - 1 {
      var init := env[..|env| - 1];
      assert forall i :: 0 <= i < |init| ==> init[i] == env[i];
      LookupUnique(init, key, k);
    }
  }

  /** No other variable reaches the child process: not even `PATH` or `HOME`
      of the server. */
  lemma OnlyTheseVariables(dep: Dependency, key: string)
    requires '=' !in key && key !in EnvNames
    ensures EnvLookup(CommandEnv(dep), key) == None
  {
    var env := CommandEnv(dep);
    forall i | 0 <= i < |env|
      ensures !(key + "=" <= env[i])
    {
      NoEntryWithPrefix(dep, key, i);
    }
    LookupAbsent(env, key);
  }

  /** A name that is not one of the seven starts none of the entries. */
  lemma NoEntryWithPrefix(dep: Dependency, key: string, i: nat)
    requires '=' !in key && key !in EnvNames && i < 7
    ensures !(key + "=" <= CommandEnv(dep)[i])
  {
    EnvEntries(dep);
    EnvNamesWithoutEquals(i);
    KeyPrefix(key, EnvNames[i], EnvValues(dep)[i]);
    assert EnvNames[i] in EnvNames;
  }

  lemma {:induction false} LookupAbsent(env: seq<string>, key: string)
    requires forall i :: 0 <= i < |env| ==> !(key + "=" <= env[i])
    ensures EnvLookup(env, key) == None
    decreases |env|
  {
    if env != [] {
      var init := env[..|env| - 1];
      assert forall i :: 0 <= i < |init| ==> init[i] == env[i];
      LookupAbsent(init, key);
    }
  }
}
