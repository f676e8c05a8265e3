/** What one reconciliation pass guarantees: it converges on the tags of the
    wanted versions, a second pass over the same versions does nothing,
    `latest` only follows the first version, and a failure keeps the
    progress made before it. */
module ReconcileProperties {
  import opened Wrappers
  import opened GitEnv
  import opened PushPipeline
  import opened TagReconciler

  /** The tags of the versions not yet tagged are the wanted tags not yet
      present. */
  lemma DesiredAbsent(deps: seq<Dependency>, existing: set<string>)
    ensures Desired(Absent(deps, existing)) == Desired(deps) - existing
  {
    var a := Absent(deps, existing);
    forall t | t in Desired(deps) - existing ensures t in Desired(a) {
      var d :| d in deps && d.gitTag == t;
      assert d in a;
    }
  }

  lemma AbsentCons(deps: seq<Dependency>, existing: set<string>, i: nat)
    requires i < |deps|
    ensures Absent(deps[i..], existing)
      == (if deps[i].gitTag in existing then [] else [deps[i]]) + Absent(deps[i + 1..], existing)
  {
    assert deps[i..][0] == deps[i];
    assert deps[i..][1..] == deps[i + 1..];
  }

  /** A push loop that does not fail runs the pipeline of exactly the
      versions whose tag is missing, in order, and adds their tags. */
  lemma {:induction false} PushLoopSucceeds(pipeline: (Dependency, bool) -> PipelineRun, deps: seq<Dependency>,
                                            existing: set<string>, i: nat, w: World, st: RepoState)
    requires i <= |deps|
    requires Coherent(pipeline, w)
    requires PushLoop(pipeline, deps, existing, i, w, st).failure.None?
    ensures var out := PushLoop(pipeline, deps, existing, i, w, st);
      out.pushed == Absent(deps[i..], existing)
      && out.state.tags == st.tags + Desired(Absent(deps[i..], existing))
    decreases |deps| - i
  {
    if i < |deps| {
      AbsentCons(deps, existing, i);
      if deps[i].gitTag in existing {
        PushLoopSucceeds(pipeline, deps, existing, i + 1, w, st);
      } else {
        var run := pipeline(deps[i], i == 0);
        var st' := AfterPush(st, run, deps[i]);
        assert FailedStep(run.ran, w).None?;
        PushLoopSucceeds(pipeline, deps, existing, i + 1, w, st');
        var rest := Absent(deps[i + 1..], existing);
        assert Desired([deps[i]] + rest) == {deps[i].gitTag} + Desired(rest) by {
          forall t | t in Desired([deps[i]] + rest) ensures t in {deps[i].gitTag} + Desired(rest) {
            var d :| d in [deps[i]] + rest && d.gitTag == t;
            if d != deps[i] { assert d in rest; }
          }
        }
      }
    } else {
      assert deps[i..] == [];
    }
  }

  /** The push loop removes no tag. */
  lemma {:induction false} PushLoopKeepsTags(pipeline: (Dependency, bool) -> PipelineRun, deps: seq<Dependency>,
                                             existing: set<string>, i: nat, w: World, st: RepoState)
    requires i <= |deps|
    ensures st.tags <= PushLoop(pipeline, deps, existing, i, w, st).state.tags
    decreases |deps| - i
  {
    if i < |deps| && deps[i].gitTag !in existing {
      var run := pipeline(deps[i], i == 0);
      var st' := AfterPush(st, run, deps[i]);
      PushLoopKeepsTags(pipeline, deps, existing, i + 1, w, st');
    } else if i < |deps| {
      PushLoopKeepsTags(pipeline, deps, existing, i + 1, w, st);
    }
  }

  /** The push loop starts pipelines only for the versions whose tag is
      missing, in list order. */
  lemma {:induction false} PushLoopPushesMissing(pipeline: (Dependency, bool) -> PipelineRun, deps: seq<Dependency>,
                                                 existing: set<string>, i: nat, w: World, st: RepoState)
    requires i <= |deps|
    ensures PushLoop(pipeline, deps, existing, i, w, st).pushed <= Absent(deps[i..], existing)
    decreases |deps| - i
  {
    if i < |deps| {
      AbsentCons(deps, existing, i);
      if deps[i].gitTag in existing {
        PushLoopSkip(pipeline, deps, existing, i, w, st);
        PushLoopPushesMissing(pipeline, deps, existing, i + 1, w, st);
      } else {
        var run := pipeline(deps[i], i == 0);
        var st' := AfterPush(st, run, deps[i]);
        PushLoopPushesMissing(pipeline, deps, existing, i + 1, w, st');
      }
    }
  }

  /** A failure of the push loop names the version whose pipeline failed,
      the last one started. */
  lemma {:induction false} PushLoopFailureNamesLast(pipeline: (Dependency, bool) -> PipelineRun, deps: seq<Dependency>,
                                                    existing: set<string>, i: nat, w: World, st: RepoState)
    requires i <= |deps|
    ensures var out := PushLoop(pipeline, deps, existing, i, w, st);
      out.failure.Some? ==>
        out.pushed != [] && out.failure.value.PushFailed?
        && out.failure.value.dependency == out.pushed[|out.pushed| - 1].managerSyntax
    decreases |deps| - i
  {
    if i < |deps| {
      if deps[i].gitTag in existing {
        PushLoopSkip(pipeline, deps, existing, i, w, st);
        PushLoopFailureNamesLast(pipeline, deps, existing, i + 1, w, st);
      } else {
        var run := pipeline(deps[i], i == 0);
        var st' := AfterPush(st, run, deps[i]);
        PushLoopFailureNamesLast(pipeline, deps, existing, i + 1, w, st');
      }
    }
  }

  /** The tag of every pipeline before the last one started is in the
      repository afterwards. */
  lemma {:induction false} PushLoopKeepsEarlier(pipeline: (Dependency, bool) -> PipelineRun, deps: seq<Dependency>,
                                                existing: set<string>, i: nat, w: World, st: RepoState)
    requires i <= |deps|
    requires Coherent(pipeline, w)
    ensures var out := PushLoop(pipeline, deps, existing, i, w, st);
      forall k :: 0 <= k < |out.pushed| - 1 ==> out.pushed[k].gitTag in out.state.tags
    decreases |deps| - i
  {
    if i < |deps| {
      if deps[i].gitTag in existing {
        PushLoopSkip(pipeline, deps, existing, i, w, st);
        PushLoopKeepsEarlier(pipeline, deps, existing, i + 1, w, st);
      } else {
        var run := pipeline(deps[i], i == 0);
        var st' := AfterPush(st, run, deps[i]);
        if FailedStep(run.ran, w).None? {
          var out := PushLoop(pipeline, deps, existing, i, w, st);
          var rest := PushLoop(pipeline, deps, existing, i + 1, w, st');
          PushLoopKeepsEarlier(pipeline, deps, existing, i + 1, w, st');
          PushLoopKeepsTags(pipeline, deps, existing, i + 1, w, st');
          assert out.pushed == [deps[i]] + rest.pushed && out.state == rest.state;
          assert deps[i].gitTag in st'.tags;
          forall k | 0 <= k < |out.pushed| - 1 ensures out.pushed[k].gitTag in out.state.tags {
            if k > 0 { assert out.pushed[k] == rest.pushed[k - 1]; }
          }
        }
      }
    }
  }

  /** Only the pipeline at index 0 carries the latest flag. */
  lemma {:induction false} PushLoopLatestAfterFirst(pipeline: (Dependency, bool) -> PipelineRun, deps: seq<Dependency>,
                                                    existing: set<string>, i: nat, w: World, st: RepoState)
    requires 1 <= i <= |deps|
    requires Coherent(pipeline, w)
    ensures PushLoop(pipeline, deps, existing, i, w, st).state.latest == st.latest
    decreases |deps| - i
  {
    if i < |deps| {
      if deps[i].gitTag in existing {
        PushLoopLatestAfterFirst(pipeline, deps, existing, i + 1, w, st);
      } else {
        var run := pipeline(deps[i], false);
        PushLoopLatestAfterFirst(pipeline, deps, existing, i + 1, w, AfterPush(st, run, deps[i]));
      }
    }
  }

  /** `latest` moves only to the first version, and only when that version's
      tag was missing: an existing first tag leaves `latest` alone. */
  lemma LatestFollowsFirstVersion(kind: SourceKind, path: string, deps: seq<Dependency>, placeholder: Dependency,
                                  w: World, st: RepoState)
    ensures var out := ReconcilePass(kind, path, deps, placeholder, w, st);
      out.state.latest != st.latest ==>
        deps != [] && deps[0].gitTag !in st.tags && out.state.latest == Some(deps[0])
  {
    PipelinesCoherent(kind, path, w);
    if !Fails(w, ListCommand(path, placeholder)) && deps != [] {
      if deps[0].gitTag in st.tags {
        PushLoopLatestAfterFirst(Pipelines(kind, path, w), deps, st.tags, 1, w, st);
      } else {
        var run := Pipelines(kind, path, w)(deps[0], true);
        var st' := AfterPush(st, run, deps[0]);
        if FailedStep(run.ran, w).None? {
          PushLoopLatestAfterFirst(Pipelines(kind, path, w), deps, st.tags, 1, w, st');
        }
      }
    }
  }

  /** A pass that succeeds leaves the wanted tags plus the stale tags whose
      deletion failed; if no deletion fails, exactly the wanted tags. */
  lemma Converges(kind: SourceKind, path: string, deps: seq<Dependency>, placeholder: Dependency,
                  w: World, st: RepoState)
    requires ReconcilePass(kind, path, deps, placeholder, w, st).result.Ok?
    ensures var out := ReconcilePass(kind, path, deps, placeholder, w, st);
      var stale := Stale(st.tags, deps);
      out.state.tags == Desired(deps) + (stale - Deleted(path, placeholder, stale, w))
      && out.pushed == Absent(deps, st.tags)
      && out.deleteAttempts == stale
    ensures (forall t :: t in Stale(st.tags, deps) ==> !Fails(w, DeleteCommand(path, placeholder, t))) ==>
      ReconcilePass(kind, path, deps, placeholder, w, st).state.tags == Desired(deps)
  {
    PipelinesCoherent(kind, path, w);
    PushLoopSucceeds(Pipelines(kind, path, w), deps, st.tags, 0, w, st);
    DesiredAbsent(deps, st.tags);
    assert deps[0..] == deps;
  }

  /** Every push loop over versions whose tags all exist does nothing. */
  lemma {:induction false} PushLoopNothingMissing(pipeline: (Dependency, bool) -> PipelineRun, deps: seq<Dependency>,
                                                  existing: set<string>, i: nat, w: World, st: RepoState)
    requires i <= |deps|
    requires forall k :: i <= k < |deps| ==> deps[k].gitTag in existing
    ensures PushLoop(pipeline, deps, existing, i, w, st) == PassOutcome(st, [], None)
    decreases |deps| - i
  {
    if i < |deps| {
      PushLoopNothingMissing(pipeline, deps, existing, i + 1, w, st);
    }
  }

  /** Idempotence: after a pass that succeeded and deleted every stale tag,
      a second pass over the same versions pushes nothing, deletes nothing
      and changes nothing. */
  lemma SecondPassIsNoOp(kind: SourceKind, path: string, deps: seq<Dependency>, placeholder: Dependency,
                         w: World, st: RepoState)
    requires ReconcilePass(kind, path, deps, placeholder, w, st).result.Ok?
    requires forall t :: t in Stale(st.tags, deps) ==> !Fails(w, DeleteCommand(path, placeholder, t))
    ensures var first := ReconcilePass(kind, path, deps, placeholder, w, st);
      var second := ReconcilePass(kind, path, deps, placeholder, w, first.state);
      second.pushed == [] && second.deleteAttempts == {} && second.state == first.state
      && second.result == Ok(())
  {
    var first := ReconcilePass(kind, path, deps, placeholder, w, st);
    Converges(kind, path, deps, placeholder, w, st);
    assert first.state.tags == Desired(deps);
    forall k | 0 <= k < |deps| ensures deps[k].gitTag in first.state.tags {
      assert deps[k] in deps;
    }
    PushLoopNothingMissing(Pipelines(kind, path, w), deps, first.state.tags, 0, w, first.state);
    assert Stale(first.state.tags, deps) == {};
  }

  /** A failing push loop keeps every tag, pushes only missing versions,
      keeps the tags of all but the last one started, and names that last
      one. */
  lemma PushLoopFailure(pipeline: (Dependency, bool) -> PipelineRun, deps: seq<Dependency>,
                        existing: set<string>, w: World, st: RepoState)
    requires Coherent(pipeline, w)
    requires PushLoop(pipeline, deps, existing, 0, w, st).failure.Some?
    ensures var out := PushLoop(pipeline, deps, existing, 0, w, st);
      st.tags <= out.state.tags
      && out.pushed != [] && out.pushed <= Absent(deps, existing)
      && (forall k :: 0 <= k < |out.pushed| - 1 ==> out.pushed[k].gitTag in out.state.tags)
      && out.failure.value.PushFailed?
      && out.failure.value.dependency == out.pushed[|out.pushed| - 1].managerSyntax
  {
    PushLoopKeepsTags(pipeline, deps, existing, 0, w, st);
    PushLoopPushesMissing(pipeline, deps, existing, 0, w, st);
    PushLoopFailureNamesLast(pipeline, deps, existing, 0, w, st);
    PushLoopKeepsEarlier(pipeline, deps, existing, 0, w, st);
    assert deps[0..] == deps;
  }

  /** A failing pipeline ends the pass before any deletion: no tag is lost,
      the tags of the pipelines before it stay, and the error names the
      version whose pipeline failed. */
  lemma PushFailureKeepsProgress(kind: SourceKind, path: string, deps: seq<Dependency>, placeholder: Dependency,
                                 w: World, st: RepoState)
    requires ReconcilePass(kind, path, deps, placeholder, w, st).result.Err?
    requires !Fails(w, ListCommand(path, placeholder))
    ensures var out := ReconcilePass(kind, path, deps, placeholder, w, st);
      out.deleteAttempts == {} && st.tags <= out.state.tags
      && out.pushed != [] && out.pushed <= Absent(deps, st.tags)
      && (forall k :: 0 <= k < |out.pushed| - 1 ==> out.pushed[k].gitTag in out.state.tags)
      && out.result.error.PushFailed?
      && out.result.error.dependency == out.pushed[|out.pushed| - 1].managerSyntax
  {
    PipelinesCoherent(kind, path, w);
    PushLoopFailure(Pipelines(kind, path, w), deps, st.tags, w, st);
  }

  /** The listing is read once: a version listed twice whose pipelines
      both succeed is pushed twice. */
  lemma PushLoopRepeats(pipeline: (Dependency, bool) -> PipelineRun, d: Dependency, existing: set<string>,
                        w: World, st: RepoState)
    requires d.gitTag !in existing
    requires FailedStep(pipeline(d, true).ran, w).None? && FailedStep(pipeline(d, false).ran, w).None?
    ensures PushLoop(pipeline, [d, d], existing, 0, w, st).pushed == [d, d]
  {
    var st1 := AfterPush(st, pipeline(d, true), d);
    var st2 := AfterPush(st1, pipeline(d, false), d);
    assert PushLoop(pipeline, [d, d], existing, 2, w, st2).pushed == [];
    assert PushLoop(pipeline, [d, d], existing, 1, w, st1).pushed == [d];
  }

  /** A version listed twice, whose tag is missing and whose pipelines
      succeed, runs its pipeline twice in one pass. */
  lemma ListedTwicePushedTwice(kind: SourceKind, path: string, d: Dependency, placeholder: Dependency,
                               w: World, st: RepoState)
    requires !Fails(w, ListCommand(path, placeholder)) && d.gitTag !in st.tags
    requires FailedStep(Pipeline(kind, path, d, true, w).ran, w).None?
    requires FailedStep(Pipeline(kind, path, d, false, w).ran, w).None?
    ensures ReconcilePass(kind, path, [d, d], placeholder, w, st).pushed == [d, d]
  {
    var pipeline := Pipelines(kind, path, w);
    assert pipeline(d, true) == Pipeline(kind, path, d, true, w);
    assert pipeline(d, false) == Pipeline(kind, path, d, false, w);
    PushLoopRepeats(pipeline, d, st.tags, w, st);
  }

  /** In a world where nothing fails, no run has a failed step. */
  lemma NothingFails(ran: seq<Step>, w: World)
    requires w.mkdirFails == {} && w.downloadFails == {} && w.fetchFails == {}
    requires w.unpackFails == {} && w.gitFails == {}
    ensures FailedStep(ran, w).None?
  {
    if ran != [] {
      match ran[|ran| - 1] {
        case MakeWorkTree(_) =>
        case DownloadSources(_) =>
        case FetchArchive(_) =>
        case UnpackArchive(_) =>
        case Git(_) =>
      }
    }
  }

  /** The tag set read at the start is not updated while pushing: in an
      empty repository where nothing fails, a version listed twice runs its
      pipeline twice. */
  lemma DuplicateVersionPushedTwice(d: Dependency, path: string, placeholder: Dependency, w: World)
    requires w.mkdirFails == {} && w.downloadFails == {} && w.fetchFails == {}
    requires w.unpackFails == {} && w.gitFails == {}
    ensures ReconcilePass(Download, path, [d, d], placeholder, w, RepoState({}, None)).pushed == [d, d]
  {
    NothingFails(Pipeline(Download, path, d, true, w).ran, w);
    NothingFails(Pipeline(Download, path, d, false, w).ran, w);
    ListedTwicePushedTwice(Download, path, d, placeholder, w, RepoState({}, None));
  }
}
