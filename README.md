# Package repositories, JVM class files, prompt truncation and CLI docs

This project models, in Dafny, five pieces of the Sourcegraph code base and
proves properties of them.

1. **The synthesis of package repositories** in gitserver
   (`vcsDependenciesSyncer` and `vcsPackageSyncer`). A package becomes a bare
   git repository with one tag per version. The model covers these steps:
   - `Fetch` resolves the wanted versions: configured versions first, then
     the versions in the dependencies store.
   - It drops the versions the registry does not know.
   - It reads the existing tags from `git tag`.
   - For every missing tag, it runs the `gitPushDependencyTag` pipeline:
     make a work tree, download or fetch and unpack, `git init`, `add`,
     `commit`, `tag`, `remote add`, push the tags, and, for the first
     version only, push the branch as `latest`.
   - Finally, it deletes the tags no version wants, best effort.

   The bare repository is a class whose fields are its tag set and the
   dependency `latest` was last pushed from. Every foreign operation (a
   directory, a download, a git subprocess) is a value, and its failure is
   read from a `World`.
2. **The zip-slip guard** `isPotentiallyMaliciousFilepathInArchive`, with
   `path.Join`/`path.Clean` written over segment lists, and the extraction
   loop of `unzipJarFile`.
3. **The class-file inspection of the JVM syncer**. It decodes the header
   of section 4.1 of The Java Virtual Machine Specification (magic
   `0xCAFEBABE`, big-endian minor and major versions). It scans a jar for its
   first class file, turns the major version into a release (`major - 44`)
   and rounds up to a stable release.
4. **The chat transcript of the assistant client**: the list of
   interactions, `truncatePrompt`, which keeps the newest message pairs that
   fit a token budget, and `toPrompt`.
5. **The Markdown reference generator of `sg`**: flag lines, usage
   paragraphs and the sections of all visible commands.

Modules (one file each):
- `Wrappers` holds `Option` and `Result`.
- `Strings` holds the Go `strings`/`strconv` functions the code uses.
- `GitEnv` holds `runCommandInDirectory`.
- `PushPipeline` holds `gitPushDependencyTag`.
- `TagReconciler` holds the shared reconciliation of both `Fetch` methods and the `BareRepository` class.
- `ReconcileProperties` holds what one pass guarantees.
- `DependenciesSyncer` and `PackageSyncer` hold the two syncers.
- `ArchivePaths`, `JvmPackages`, `Transcripts` and `DocGen` hold the rest.

Loops of the source are methods with loop invariants. Each method is proved
equal to a function, and the lemmas state the properties of that function.

## Model

| member | source | states |
|---|---|---|
| GitEnv.CommandEnv | cmd/gitserver/server/vcs_dependencies_syncer.go:233-243 | every command gets exactly seven environment entries |
| GitEnv.RunInDirectory | cmd/gitserver/server/vcs_dependencies_syncer.go:233-236 | the command keeps its arguments and runs in the given directory |
| GitEnv.CommandIdentity | cmd/gitserver/server/vcs_dependencies_syncer.go:234-243 | looked up as a child process reads its environment, author and committer name are `PackageManagerSyntax() + " authors"`, both e-mails are the fixed address, and both dates are `stableGitCommitDate` |
| GitEnv.EnvEntries | cmd/gitserver/server/vcs_dependencies_syncer.go:237-243 | the seven entries are the seven variable names, each with its value |
| GitEnv.EnvNamesDistinct | cmd/gitserver/server/vcs_dependencies_syncer.go:237-243 | no variable is set twice, so no entry overrides another |
| GitEnv.LookupSetName | cmd/gitserver/server/vcs_dependencies_syncer.go:237-243 | each of the seven names reads back as the value appended for it |
| GitEnv.OnlyTheseVariables | cmd/gitserver/server/vcs_dependencies_syncer.go:236-243 | any other variable (the server's `PATH`, `HOME`, …) is absent from the child's environment, because `cmd.Env` starts empty |
| PushPipeline.Execute | cmd/gitserver/server/vcs_dependencies_syncer.go:153-185 | steps run in order: every step before the last one started succeeded, and either all ran or the last one failed; when none failed, no planned step fails |
| PushPipeline.ExecuteStopsAtFirstFailure | cmd/gitserver/server/vcs_dependencies_syncer.go:153-185 | the steps started are exactly the planned ones up to and including the first that fails |
| PushPipeline.PlannedCommandsCarryIdentity | cmd/gitserver/server/vcs_dependencies_syncer.go:153-196 | every git command of a dependency's pipeline runs in that dependency's work tree with that dependency's environment |
| PushPipeline.SourceFailureRunsNoGit | cmd/gitserver/server/vcs_syncer_packages.go:116-130 | if creating the work tree, the fetch or the unpack fails, no git command runs |
| PushPipeline.LatestOnlyWhenFlagged | cmd/gitserver/server/vcs_syncer_packages.go:166-176 | without the latest flag, neither `rev-parse` nor the push to `latest` is started |
| PushPipeline.LatestPushedWhenFlagged | cmd/gitserver/server/vcs_syncer_packages.go:161-176 | with the flag and no failure, both the tags and the trimmed branch `:latest` are pushed successfully |
| PushPipeline.Pipeline | cmd/gitserver/server/vcs_syncer_packages.go:115-179 | the run starts with `MkdirTemp`, and the deferred removal of the work tree runs exactly when that step succeeded; `latest` moves only with the flag and only after the tag was pushed; a run without failure pushes the tag, and pushes `latest` exactly when flagged; a pushed tag means the push of the tags succeeded |
| PushPipeline.WorkTreeRemovedOnEveryExit | cmd/gitserver/server/vcs_syncer_packages.go:116-120 | once `MkdirTemp` succeeded, the work tree is removed whichever later step fails or none does; when it fails, nothing else runs and nothing is removed |
| PushPipeline.PipelineRunsPlanned | cmd/gitserver/server/vcs_syncer_packages.go:115-179 | the phases together start exactly the planned steps up to the first failure |
| TagReconciler.Absent | cmd/gitserver/server/vcs_dependencies_syncer.go:113-116 | a dependency is in the result exactly when it is in the list and its tag was not listed |
| TagReconciler.PushLoop | cmd/gitserver/server/vcs_dependencies_syncer.go:113-121 | no contract of its own: the push loop as a function (skip a listed tag, push otherwise with the `i == 0` latest flag, stop at the first failure); its properties are the `ReconcileProperties.PushLoop…` lemmas |
| TagReconciler.Stale | cmd/gitserver/server/vcs_dependencies_syncer.go:123-129 | no contract of its own: the listed tags no dependency wants; `ReconcileProperties.Converges` states what deleting them leaves |
| TagReconciler.ReconcilePass | cmd/gitserver/server/vcs_dependencies_syncer.go:100-138 | no contract of its own: list, push, delete as one function; `ReconcileProperties.Converges`, `SecondPassIsNoOp` and `PushFailureKeepsProgress` state its outcome |
| TagReconciler.PipelinesCoherent | cmd/gitserver/server/vcs_dependencies_syncer.go:141-200 | the pipeline against the bare repository has the properties the push loop relies on |
| TagReconciler.ParseTags | cmd/gitserver/server/vcs_dependencies_syncer.go:105-111 | the loop builds exactly the set of non-empty lines of the `git tag` output |
| TagReconciler.TagSet | cmd/gitserver/server/vcs_dependencies_syncer.go:105-111 | every tag parsed from the `git tag` output is a valid tag name: non-empty and without a newline |
| TagReconciler.TagSetListing | cmd/gitserver/server/vcs_syncer_packages.go:74-85 | parsing a listing of valid tag names, one per line, gives back exactly those names |
| TagReconciler.BareRepository.constructor | cmd/gitserver/server/vcs_dependencies_syncer.go:61-64 | a freshly initialised bare repository has no tags and no `latest` |
| TagReconciler.BareRepository.ListTags | cmd/gitserver/server/vcs_dependencies_syncer.go:100-103 | fails exactly when the listing command fails, with that command; otherwise its output parses to the repository's tags |
| TagReconciler.BareRepository.DeleteTag | cmd/gitserver/server/vcs_dependencies_syncer.go:130-134 | succeeds exactly when `git tag -d` does; the tag goes only on success, and `latest` is untouched |
| TagReconciler.BareRepository.CommitAndPushTags | cmd/gitserver/server/vcs_dependencies_syncer.go:153-185 | starts the six commit steps up to the first failure; the tag arrives exactly when all succeed |
| TagReconciler.BareRepository.PushLatest | cmd/gitserver/server/vcs_dependencies_syncer.go:187-197 | `rev-parse` then the push of the trimmed branch; `latest` moves to the dependency exactly when both succeed, and the tags are untouched |
| TagReconciler.PrepareWorkTree | cmd/gitserver/server/vcs_syncer_packages.go:116-130 | makes the work tree, then fetches and unpacks (or downloads), stopping at the first failure |
| TagReconciler.BareRepository.PushDependencyTag | cmd/gitserver/server/vcs_dependencies_syncer.go:141-200 | runs exactly the steps of the pipeline, leaves the repository in the state the pipeline's outcome implies, reports whether the work tree was removed, and returns the failed step, if any |
| TagReconciler.BareRepository.PushTurn | cmd/gitserver/server/vcs_dependencies_syncer.go:113-121 | one turn of the push loop: a listed tag is skipped, anything else is pushed, and a failure ends the pass with the whole loop's outcome |
| TagReconciler.BareRepository.PushMissing | cmd/gitserver/server/vcs_dependencies_syncer.go:113-121 | the loop's new state, pushed versions and failure are those of the push-loop function |
| TagReconciler.BareRepository.DeleteTurn | cmd/gitserver/server/vcs_dependencies_syncer.go:128-136 | a tag no version wants is deleted, best effort, and recorded as attempted; a wanted tag is left alone |
| TagReconciler.BareRepository.DeleteStale | cmd/gitserver/server/vcs_dependencies_syncer.go:123-136 | in whatever order the listed tags are visited, deletion is attempted for exactly the listed tags no version wants; exactly those whose deletion succeeds are removed, and `latest` is unchanged |
| TagReconciler.DependencyTags | cmd/gitserver/server/vcs_syncer_packages.go:97-100 | the loop builds exactly the set of tags of the dependencies |
| TagReconciler.BareRepository.Reconcile | cmd/gitserver/server/vcs_dependencies_syncer.go:100-138 | list, push the missing versions, delete the stale tags: state, pushes, deletion attempts and result are those of one reconciliation pass |
| ReconcileProperties.DesiredAbsent | cmd/gitserver/server/vcs_dependencies_syncer.go:113-126 | the tags of the versions still to push are the wanted tags not yet present |
| ReconcileProperties.PushLoopSucceeds | cmd/gitserver/server/vcs_dependencies_syncer.go:113-121 | a push loop without failure runs the pipeline of exactly the versions whose tag is missing, in order, and adds exactly their tags |
| ReconcileProperties.PushLoopKeepsTags | cmd/gitserver/server/vcs_dependencies_syncer.go:113-121 | the push loop removes no tag |
| ReconcileProperties.PushLoopPushesMissing | cmd/gitserver/server/vcs_dependencies_syncer.go:113-116 | pipelines start only for versions whose tag is missing, in list order, even when the loop fails |
| ReconcileProperties.PushLoopFailureNamesLast | cmd/gitserver/server/vcs_dependencies_syncer.go:118-120 | a failure is a wrapped push error naming the display syntax of the last version started |
| ReconcileProperties.PushLoopKeepsEarlier | cmd/gitserver/server/vcs_dependencies_syncer.go:113-121 | the tag of every version started before the last one is in the repository afterwards |
| ReconcileProperties.PushLoopLatestAfterFirst | cmd/gitserver/server/vcs_dependencies_syncer.go:118 | no version after index 0 moves `latest` |
| ReconcileProperties.LatestFollowsFirstVersion | cmd/gitserver/server/vcs_dependencies_syncer.go:113-121 | `latest` changes only to the version at index 0, and only when its tag was missing |
| ReconcileProperties.Converges | cmd/gitserver/server/vcs_dependencies_syncer.go:100-138 | after a pass that succeeds: the tags are the wanted tags plus the stale tags whose deletion failed; the pushes are exactly the missing versions; deletion is attempted for exactly the stale tags; if no deletion fails, exactly the wanted tags remain |
| ReconcileProperties.PushLoopNothingMissing | cmd/gitserver/server/vcs_dependencies_syncer.go:113-116 | the loop does nothing when every tag exists |
| ReconcileProperties.SecondPassIsNoOp | cmd/gitserver/server/vcs_syncer_packages.go:87-110 | after a successful pass whose deletions succeeded, a second pass over the same versions pushes nothing, deletes nothing, changes nothing and succeeds |
| ReconcileProperties.PushLoopFailure | cmd/gitserver/server/vcs_dependencies_syncer.go:113-121 | a failing loop keeps every tag, started only missing versions, kept the tags of all but the last, and names the last |
| ReconcileProperties.PushFailureKeepsProgress | cmd/gitserver/server/vcs_syncer_packages.go:87-95 | a failing pipeline ends the pass before any deletion; earlier pushes keep their tags, and the error names the failing dependency |
| ReconcileProperties.PushLoopRepeats | cmd/gitserver/server/vcs_dependencies_syncer.go:105-121 | the listing is read once, so a missing version listed twice is pushed twice |
| ReconcileProperties.ListedTwicePushedTwice | cmd/gitserver/server/vcs_dependencies_syncer.go:105-121 | the same, for the whole pass |
| ReconcileProperties.DuplicateVersionPushedTwice | cmd/gitserver/server/vcs_dependencies_syncer.go:113-121 | in an empty repository where nothing fails, a version listed twice runs its pipeline twice |
| DependenciesSyncer.Versions | cmd/gitserver/server/vcs_dependencies_syncer.go:202-231 | the two append loops compute the resolved-version function |
| DependenciesSyncer.ResolvedVersions | cmd/gitserver/server/vcs_dependencies_syncer.go:202-231 | no contract of its own: the configured versions, then the store's; `ResolvedVersionsShape` states its shape |
| DependenciesSyncer.ConfigVersionsAppend | cmd/gitserver/server/vcs_dependencies_syncer.go:204-214 | configured versions keep the configuration's order |
| DependenciesSyncer.MalformedSkipped | cmd/gitserver/server/vcs_dependencies_syncer.go:205-209 | a configured dependency that fails to parse is skipped without an error |
| DependenciesSyncer.ConfigVersionsMembership | cmd/gitserver/server/vcs_dependencies_syncer.go:204-214 | a version is configured exactly when some configured dependency parses to that version of the package |
| DependenciesSyncer.ResolvedVersionsShape | cmd/gitserver/server/vcs_dependencies_syncer.go:203-230 | fails exactly when the store fails; otherwise the list is exactly the configured versions in configuration order, then every store version in store order, with duplicates kept |
| DependenciesSyncer.Cloneable | cmd/gitserver/server/vcs_dependencies_syncer.go:87-98 | the loop computes the cloneable filter |
| DependenciesSyncer.CloneableDeps | cmd/gitserver/server/vcs_dependencies_syncer.go:87-98 | no contract of its own: the registry filter; `CloneableErrors`, `CloneableStopsAtError` and `CloneableMembership` state what it keeps and when it fails |
| DependenciesSyncer.CloneableStopsAtError | cmd/gitserver/server/vcs_dependencies_syncer.go:88-98 | the first version with a registry error other than not-found ends the filter with that error |
| DependenciesSyncer.CloneableErrors | cmd/gitserver/server/vcs_dependencies_syncer.go:88-98 | the filter fails exactly when some version meets such an error, and then it names the first one |
| DependenciesSyncer.CloneableMembership | cmd/gitserver/server/vcs_dependencies_syncer.go:88-98 | on success, the cloneable dependencies are exactly the registry's answers; not-found versions are dropped |
| DependenciesSyncer.Fetch | cmd/gitserver/server/vcs_dependencies_syncer.go:75-139 | parse the name, resolve, filter and reconcile, as the `FetchPass` function |
| DependenciesSyncer.FetchPass | cmd/gitserver/server/vcs_dependencies_syncer.go:75-139 | no contract of its own: parse the name, resolve, filter and reconcile; `EarlyFailureChangesNothing` and `FetchConverges` state its outcome |
| DependenciesSyncer.EarlyFailureChangesNothing | cmd/gitserver/server/vcs_dependencies_syncer.go:75-103 | any failure before the pushes leaves the repository as it was and attempts nothing |
| DependenciesSyncer.FetchConverges | cmd/gitserver/server/vcs_dependencies_syncer.go:75-139 | a successful `Fetch` leaves the tags of the dependencies the registry knows, plus stale tags whose deletion failed, and pushes only missing versions the registry answered for |
| DependenciesSyncer.CloneCommand | cmd/gitserver/server/vcs_dependencies_syncer.go:55-73 | a failing directory or `git --bare init` gives its error and no repository; otherwise a fresh repository filled by `Fetch`, whose error is wrapped |
| PackageSyncer.Fetch | cmd/gitserver/server/vcs_syncer_packages.go:68-113 | reconciles against the fetched list; when `fetchDependencies` fails it returns at once, with the repository unchanged |
| PackageSyncer.FetchPass | cmd/gitserver/server/vcs_syncer_packages.go:68-113 | no contract of its own: fetch the dependency list and reconcile as the Go placeholder; `FetchConverges`, `SecondFetchIsNoOp` and `FailedPushKeepsEarlierPushes` state its outcome |
| PackageSyncer.FetchConverges | cmd/gitserver/server/vcs_syncer_packages.go:68-113 | after success: the listed tags plus the stale tags whose deletion failed, exactly the missing dependencies pushed, and deletion attempted for exactly the stale tags |
| PackageSyncer.SecondFetchIsNoOp | cmd/gitserver/server/vcs_syncer_packages.go:87-110 | a second `Fetch` with the same list pushes, deletes and changes nothing |
| PackageSyncer.FailedPushKeepsEarlierPushes | cmd/gitserver/server/vcs_syncer_packages.go:87-95 | a failed push ends `Fetch` with the dependency's display syntax, keeps earlier pushes and deletes nothing |
| PackageSyncer.CloneCommand | cmd/gitserver/server/vcs_syncer_packages.go:48-66 | the same as for the dependencies syncer, with the syncer's own placeholder for `git --bare init` |
| ArchivePaths.AcceptedPathStaysInside | cmd/gitserver/server/vcs_dependencies_syncer.go:273-281 | an accepted output path lies strictly inside the destination directory: the directory followed by one or more normal segments |
| ArchivePaths.IsPotentiallyMaliciousFilepathInArchive | cmd/gitserver/server/vcs_dependencies_syncer.go:251-281 | a rejected entry has the empty path; an accepted one is not absolute, has no `.git` segment, and its output path starts with the destination |
| ArchivePaths.Clean | cmd/gitserver/server/vcs_dependencies_syncer.go:273 | no contract of its own: `path.Clean` over segments (`.` and empty segments vanish, `..` cancels the previous segment or is dropped at the root); `CleanSegmentsAppend` and `AcceptedPathStaysInside` use it |
| ArchivePaths.Join | cmd/gitserver/server/vcs_dependencies_syncer.go:273 | no contract of its own: `path.Join` as the cleaned concatenation; `BenignJoinKeepsSegments` states it for benign names |
| ArchivePaths.DotDotInsideAccepted | cmd/gitserver/server/vcs_dependencies_syncer.go:273-280 | an entry name that climbs with `..` but stays inside is accepted: `a/../b` under `/d/` is written to `/d/b` |
| ArchivePaths.BenignPathAccepted | cmd/gitserver/server/vcs_dependencies_syncer.go:251-281 | a relative name of normal segments without `.git` is accepted, at destination plus name, so its directory structure is kept |
| ArchivePaths.BenignNamePassesGuards | cmd/gitserver/server/vcs_dependencies_syncer.go:252-271 | such a name does not end or start with `/` and has no `.git` segment |
| ArchivePaths.BenignJoinKeepsSegments | cmd/gitserver/server/vcs_dependencies_syncer.go:273 | `path.Join` of such a destination and name is their concatenation |
| ArchivePaths.PrefixTestNeedsTrailingSeparator | cmd/gitserver/server/vcs_dependencies_syncer.go:273-278 | against a destination without its trailing separator, `../ab` under `/a` is accepted as `/ab`, which is outside `/a/` |
| ArchivePaths.CleanSegmentsAppend | cmd/gitserver/server/vcs_dependencies_syncer.go:273 | cleaning a concatenation of segment lists is cleaning the second part after the first |
| JvmPackages.RoundJvmVersion | cmd/gitserver/server/vcs_syncer_jvm_packages.go:324-337 | the result is the least stable release (8, 11, 16 or anything above 16) that is at least the input |
| JvmPackages.RoundBounds | cmd/gitserver/server/vcs_syncer_jvm_packages.go:324-337 | the result is at least 8 and at least the input, and leaves the input unchanged exactly when the input is a stable release |
| JvmPackages.RoundMonotoneIdempotent | cmd/gitserver/server/vcs_syncer_jvm_packages.go:324-337 | rounding is monotone and idempotent |
| JvmPackages.HeaderRoundTrip | cmd/gitserver/server/vcs_syncer_jvm_packages.go:408-418 | decoding a class-file header gives the decimal major version, whatever the minor version and whatever follows, and that string parses back to the major version |
| JvmPackages.EntryMajorVersion | cmd/gitserver/server/vcs_syncer_jvm_packages.go:385-419 | fails exactly when the entry cannot be opened or has fewer than 8 bytes; a successful answer is "" or a decimal number |
| JvmPackages.MagicBytes | cmd/gitserver/server/vcs_syncer_jvm_packages.go:412-413 | the big-endian word equals `0xCAFEBABE` exactly when the bytes are CA FE BA BE |
| JvmPackages.NotAClassFile | cmd/gitserver/server/vcs_syncer_jvm_packages.go:413-415 | a readable 8-byte header without the magic gives "" ("not a class file") |
| JvmPackages.ClassFileMajorVersion | cmd/gitserver/server/vcs_syncer_jvm_packages.go:364-382 | the loop's answer is the corrected scan's, and an unopenable jar gives its error |
| JvmPackages.Scan | cmd/gitserver/server/vcs_syncer_jvm_packages.go:364-382 | no contract of its own: the scan with the entry error passed on; `ScanFindsFirst`, `ScanDefault` and `ScanAnswersANumber` state it |
| JvmPackages.ScanAsWritten | cmd/gitserver/server/vcs_syncer_jvm_packages.go:364-382 | no contract of its own: the scan as written, which answers "" on an entry error; `ShortHeaderSwallowed` exhibits the difference |
| JvmPackages.ScanFindsFirst | cmd/gitserver/server/vcs_syncer_jvm_packages.go:364-376 | the answer is that of the first `.class` entry that is a class file or is unreadable |
| JvmPackages.ScanDefault | cmd/gitserver/server/vcs_syncer_jvm_packages.go:378-382 | without such an entry the answer is "8" |
| JvmPackages.ShortHeaderSwallowed | cmd/gitserver/server/vcs_syncer_jvm_packages.go:368-371 | as written, a jar whose first class entry has a short header answers "" without an error, and "" does not parse as a number |
| JvmPackages.ScanAnswersANumber | cmd/gitserver/server/vcs_syncer_jvm_packages.go:293-300 | with the read error passed on, every answer of the scan parses as a number |
| JvmPackages.JdkIsItsOwnVersion | cmd/gitserver/server/vcs_syncer_jvm_packages.go:285-287 | a JDK's release is its own version, whatever the byte code |
| JvmPackages.InferJvmVersion | cmd/gitserver/server/vcs_syncer_jvm_packages.go:283-314 | no contract of its own: a JDK's own version, otherwise the rounded `major - 44` of the scan; `InferFromFirstClassFile`, `NoClassFilesGives8` and `InferredReleaseIsStable` state it |
| JvmPackages.InferFromFirstClassFile | cmd/gitserver/server/vcs_syncer_jvm_packages.go:297-313 | the release of a jar whose first entry is a class file is the rounded `major - 44`: 52 gives 8, 55 gives 11 |
| JvmPackages.NoClassFilesGives8 | cmd/gitserver/server/vcs_syncer_jvm_packages.go:378-382 | a jar without class files is indexed with release 8 |
| JvmPackages.InferredReleaseIsStable | cmd/gitserver/server/vcs_syncer_jvm_packages.go:283-314 | every inferred release is the decimal form of a stable release |
| JvmPackages.FileTree.CopyEntry | cmd/gitserver/server/vcs_syncer_jvm_packages.go:251-279 | fails exactly when the entry cannot be opened or the path cannot be written; otherwise the file holds exactly the entry's bytes |
| JvmPackages.DestinationDirectory | cmd/gitserver/server/vcs_syncer_jvm_packages.go:234 | the destination directory ends in a separator |
| JvmPackages.DestinationDirectoryShape | cmd/gitserver/server/vcs_syncer_jvm_packages.go:234 | one trailing separator is kept, a missing one is added, and no second one appears |
| JvmPackages.UnzipJarFile | cmd/gitserver/server/vcs_syncer_jvm_packages.go:228-249 | the loop's files and result are those of the extraction function over the normalised destination |
| JvmPackages.Extract | cmd/gitserver/server/vcs_syncer_jvm_packages.go:236-246 | no contract of its own: the extraction loop as a function; `ExtractStaysInside`, `ExtractFailsIff` and `ExtractStopsAtFirstCopyError` state it |
| JvmPackages.ExtractStaysInside | cmd/gitserver/server/vcs_syncer_jvm_packages.go:236-246 | every file created or overwritten lies strictly inside the destination, whatever the entry names |
| JvmPackages.ExtractFailsIff | cmd/gitserver/server/vcs_syncer_jvm_packages.go:239-245 | the extraction fails exactly when an accepted entry cannot be copied; rejected entries never cause a failure |
| JvmPackages.ExtractStopsAtFirstCopyError | cmd/gitserver/server/vcs_syncer_jvm_packages.go:242-245 | the first failing copy ends the extraction with its output path |
| Transcripts.EstimateIsRounded | client/cody-shared/src/chat/transcript/index.ts:87-89 | the estimate is the JavaScript length of the text (UTF-16 code units) divided by the characters per token, rounded to the nearest whole number with halves up |
| Transcripts.EstimateTokens | client/cody-shared/src/chat/transcript/index.ts:87-89 | no contract of its own: `Math.round(text.length / CHARS_PER_TOKEN)` over UTF-16 code units; `EstimateIsRounded` states the rounding |
| Transcripts.SurrogatePairCountsTwice | client/cody-shared/src/chat/transcript/index.ts:88 | a character beyond U+FFFF is two code units, so with one character per token it is estimated as two tokens |
| Transcripts.TruncatePrompt | client/cody-shared/src/chat/transcript/index.ts:66-85 | the backwards loop with its budget, followed by the reversal, computes the truncation function |
| Transcripts.Truncated | client/cody-shared/src/chat/transcript/index.ts:66-85 | no contract of its own: the newest pairs that fit the budget; `TruncatedIsSuffix`, `TruncatedIsEven`, `TruncatedWithinBudget` and `TruncatedIsMaximal` state it |
| Transcripts.TruncatedIsSuffix | client/cody-shared/src/chat/transcript/index.ts:69-84 | the result is a contiguous suffix of the messages, in chronological order |
| Transcripts.TruncatedIsEven | client/cody-shared/src/chat/transcript/index.ts:69-71 | the result has even length, so with an odd count the first message is never kept |
| Transcripts.TruncatedWithinBudget | client/cody-shared/src/chat/transcript/index.ts:66-81 | the estimated tokens of the kept messages never exceed the budget, and a negative budget keeps nothing |
| Transcripts.TruncatedIsMaximal | client/cody-shared/src/chat/transcript/index.ts:74-80 | truncation stops only at a pair that does not fit what is left of the budget |
| Transcripts.Last | client/cody-shared/src/chat/transcript/index.ts:18-20 | the last interaction, or none for an empty list |
| Transcripts.WithAssistantMessage | client/cody-shared/src/chat/transcript/index.ts:22-29 | only the last interaction gets the message; an empty list stays empty |
| Transcripts.NewestWithContextUnique | client/cody-shared/src/chat/transcript/index.ts:31-39 | the newest interaction with context (or -1) is unique |
| Transcripts.Transcript.constructor | client/cody-shared/src/chat/transcript/index.ts:9 | a new transcript has no interactions |
| Transcripts.Transcript.AddInteraction | client/cody-shared/src/chat/transcript/index.ts:11-16 | a missing interaction leaves the list unchanged; any other is appended at the end |
| Transcripts.Transcript.GetLastInteraction | client/cody-shared/src/chat/transcript/index.ts:18-20 | returns the last interaction, or none when there is none |
| Transcripts.Transcript.AddAssistantResponse | client/cody-shared/src/chat/transcript/index.ts:22-29 | sets the assistant message of the last interaction only; it does nothing on an empty transcript |
| Transcripts.Transcript.GetLastInteractionWithContextIndex | client/cody-shared/src/chat/transcript/index.ts:31-39 | the index of the newest interaction with context, or -1 exactly when none has context |
| Transcripts.Transcript.ToPrompt | client/cody-shared/src/chat/transcript/index.ts:41-55 | the preamble, then the truncation of all interaction messages, with context for the newest interaction with context only; the budget is the maximum minus the preamble's tokens |
| Transcripts.Transcript.Reset | client/cody-shared/src/chat/transcript/index.ts:61-63 | the list becomes empty |
| Transcripts.PreambleTokens | client/cody-shared/src/chat/transcript/index.ts:52 | the `reduce` sums the estimates of the preamble |
| Transcripts.PromptRespectsBudget | client/cody-shared/src/chat/transcript/index.ts:52-54 | the prompt starts with the whole preamble and, unless nothing follows the preamble, its tokens fit the maximum prompt length |
| DocGen.FlagDetails | dev/sg/internal/docgen/markdown.go:128-135 | `": " + usage`, followed by `" (default: v)"` exactly when the default `v` is non-empty |
| DocGen.DashedName | dev/sg/internal/docgen/markdown.go:100-110 | a dashed name starts with `-`; the one-or-two-dash choice tests the name's UTF-8 byte length, as Go's `len` does |
| DocGen.DashedNameShape | dev/sg/internal/docgen/markdown.go:101-109 | a trimmed name longer than one byte in UTF-8 (two or more characters, or one beyond ASCII) gets `--`; an empty name or one ASCII character gets `-` |
| DocGen.NonAsciiLetterGetsTwoDashes | dev/sg/internal/docgen/markdown.go:105-109 | `é` is written `--é` because it is two bytes long, while `v` is written `-v` |
| DocGen.AppendNames | dev/sg/internal/docgen/markdown.go:98-110 | the names loop builds the opener, then the dashed names with the separator only between two of them |
| DocGen.FlagNamesSplit | dev/sg/internal/docgen/markdown.go:100-110 | split at a one-character separator, the joined names give back exactly the dashed names |
| DocGen.FlagLineValue | dev/sg/internal/docgen/markdown.go:111-114 | `=value` follows the closer exactly when the flag takes a value |
| DocGen.FlagLine | dev/sg/internal/docgen/markdown.go:98-120 | no contract of its own: one flag line; `FlagLineValue`, `FlagNamesSplit` and `FlagLinesMembership` state it |
| DocGen.LessEqTotal | dev/sg/internal/docgen/markdown.go:123 | the order of `sort.Strings` is total |
| DocGen.LessEqTransitive | dev/sg/internal/docgen/markdown.go:123 | the order is transitive |
| DocGen.LessEqAntisymmetric | dev/sg/internal/docgen/markdown.go:123 | the order is antisymmetric |
| DocGen.SortStringsSortsAndPermutes | dev/sg/internal/docgen/markdown.go:123 | the sorted list is sorted and is a permutation of the input |
| DocGen.SortedPermutationUnique | dev/sg/internal/docgen/markdown.go:123 | two sorted permutations of a list are equal, so the sorted lines do not depend on the sorting algorithm |
| DocGen.PrepareFlags | dev/sg/internal/docgen/markdown.go:87-125 | the lines of the flags that document themselves, sorted, and a permutation of those lines |
| DocGen.PrepareArgsWithValues | dev/sg/internal/docgen/markdown.go:83-85 | the lines of the same flags in the argument style, with their details: sorted, and a permutation of those lines |
| DocGen.FlagLinesCount | dev/sg/internal/docgen/markdown.go:93-97 | one line per flag that documents itself, before and after sorting |
| DocGen.FlagLinesMembership | dev/sg/internal/docgen/markdown.go:93-122 | a line is present exactly when it is the line of a flag that documents itself, so other flags are skipped |
| DocGen.PrepareUsageText | dev/sg/internal/docgen/markdown.go:137-161 | the method computes the usage-text function |
| DocGen.UsageText | dev/sg/internal/docgen/markdown.go:137-161 | no contract of its own: the usage text or the arguments line; `UsageTextArguments`, `UsageTextSingleLine` and `UsageTextMultiLine` state it |
| DocGen.UsageTextArguments | dev/sg/internal/docgen/markdown.go:138-143 | without a usage text, the result is "**Arguments:** `ArgsUsage`\n" when the arguments are not blank, and "" exactly when they are |
| DocGen.PromptedLinesSplit | dev/sg/internal/docgen/markdown.go:150-154 | split at its newlines, the prompted text is an empty first piece, then each line after `$ ` |
| DocGen.UsageTextSingleLine | dev/sg/internal/docgen/markdown.go:157 | a one-line usage text, without its surrounding newlines, becomes the lines "```sh", "$ " + text, "```" |
| DocGen.UsageTextMultiLine | dev/sg/internal/docgen/markdown.go:149-155 | a multi-line text becomes the opening fence, each line after a newline and `$ `, and the closing fence |
| DocGen.PrepareUsage | dev/sg/internal/docgen/markdown.go:163-175 | "" exactly when the usage is empty; otherwise usage + ".\n", with one more "\n" exactly when a usage text follows |
| DocGen.PreparedHeading | dev/sg/internal/docgen/markdown.go:53-58 | a prepared section starts with its heading, and the heading is `level + 2` hashes followed by a space |
| DocGen.PrepareSection | dev/sg/internal/docgen/markdown.go:49-67 | the loop body builds the section the `Prepared` function describes: the heading, usage, usage text, flags (after a newline) and description (after another) |
| DocGen.PrepareCommands | dev/sg/internal/docgen/markdown.go:42-81 | computes the sections function |
| DocGen.Sections | dev/sg/internal/docgen/markdown.go:42-81 | no contract of its own: the sections of the visible commands, depth first; `SectionOrder`, `SectionsCount` and `SectionsHeadingDepth` state it |
| DocGen.SectionOrder | dev/sg/internal/docgen/markdown.go:44-77 | a hidden command contributes nothing, not even its subcommands; a visible one contributes its section, then its subcommands' sections under the extended lineage one level deeper |
| DocGen.SectionsHeadingDepth | dev/sg/internal/docgen/markdown.go:53-77 | every section at `level` starts with at least `level + 2` hashes, whatever a section holds |
| DocGen.PrepareCommandsHeadingDepth | dev/sg/internal/docgen/markdown.go:42-81 | the same for the sections `prepareCommands` makes |
| DocGen.SectionsCount | dev/sg/internal/docgen/markdown.go:44-78 | one section per visible command, counting subcommands of visible commands only |
| Strings.TrimSuffix | cmd/gitserver/server/vcs_syncer_jvm_packages.go:234 | drops the suffix once when present, and otherwise leaves the string unchanged |
| Strings.Split | cmd/gitserver/server/vcs_dependencies_syncer.go:106 | at least one piece, none holding the separator |
| Strings.SplitJoin | cmd/gitserver/server/vcs_dependencies_syncer.go:265 | splitting a join of separator-free pieces gives the pieces back |
| Strings.TrimSpaceShape | cmd/gitserver/server/vcs_dependencies_syncer.go:193 | the result neither starts nor ends with white space, and only white space around it was dropped |
| Strings.TrimSpace | cmd/gitserver/server/vcs_dependencies_syncer.go:193 | no contract of its own: drops white space at both ends; `TrimSpaceShape` states it |
| Strings.TrimCharShape | dev/sg/internal/docgen/markdown.go:146 | the trimmed text is a consecutive part of the input that neither starts nor ends with the character, and everything dropped before and after it is that character |
| Strings.Repeat | dev/sg/internal/docgen/markdown.go:54 | `n` copies of the character |
| Strings.AtoiItoa | cmd/gitserver/server/vcs_syncer_jvm_packages.go:297 | `Atoi` inverts `Itoa` on non-negative numbers |
| Strings.Itoa | cmd/gitserver/server/vcs_syncer_jvm_packages.go:313 | at least one character, all decimal digits |
| Strings.Atoi | cmd/gitserver/server/vcs_syncer_jvm_packages.go:297 | the empty string does not parse, and a string of digits parses to its value |
| Strings.Utf8Length | dev/sg/internal/docgen/markdown.go:105 | Go's `len`: at least one and at most four bytes per character |
| Strings.Utf8LengthAboveOne | dev/sg/internal/docgen/markdown.go:105 | more than one byte exactly when there are two or more characters, or one beyond ASCII |
| Strings.Utf16Length | client/cody-shared/src/chat/transcript/index.ts:88 | JavaScript's `length`: one or two code units per character |

## Left out

- Process execution and temporary directories are not modelled: `exec.CommandContext`, `runWith` and `os.MkdirTemp` are steps whose failure is read from `PushPipeline.World`. For the deferred `os.RemoveAll`, only whether it runs is modelled (`workTreeRemoved`). The removal itself and its ignored error are not modelled. Captured output and error wrapping with the command line are left out too.
- The registry (`Get`, `Download`), the package managers' `fetch`/`unpack`, the parsers of dependency strings and repository names, and the dependencies store are foreign calls: they are function or value parameters. The "no sources available" soft skip of some registries lives in such adapters and is not modelled.
- `PushPipeline.World`: one `headOutput` serves every work tree, so `rev-parse` prints the same branch in each.
- `TagReconciler.BareRepository.Reconcile` and the `Fetch` methods require every dependency's tag to be a valid git tag name (non-empty, no newline). The code relies on git and the package manager for this.
- `ArchivePaths.AcceptedPathStaysInside` and `JvmPackages.ExtractStaysInside` are stated for an absolute destination that ends in a separator. `unzipJarFile` always adds the separator, and relative destinations are not covered.
- Zip and jar decoding are not modelled: a jar is its list of entries, each with a name, whether it opens, and its bytes.
- A `Read` that returns fewer than 8 bytes from a longer entry is treated like a short entry, so short reads are not modelled.
- A copy that fails part-way: `JvmPackages.FileTree.CopyEntry` writes a file completely or not at all.
- Aliasing between the zip reader and the written files is not modelled.
- Strings are sequences of Unicode scalar values. Byte and code-unit lengths are computed from them (`Strings.Utf8Length`, `Strings.Utf16Length`), but invalid UTF-8 and lone UTF-16 surrogates cannot occur in the model.
- `Strings.Atoi`: the 64-bit range check of `strconv.Atoi` is not modelled.
- The broken JVM wrappers `Download`, `gitPushDependencyTag` and `commitJar`, and `lsifJavaJSON`, are left out because they are mid-refactor.
- `IsCloneable`, `Type` and `RemoteShowCommand` are left out: they return constants.
- Sorting: `sort.Strings` is modelled as a function on values, and `DocGen.SortedPermutationUnique` shows that the result does not depend on the algorithm. Sorting in place is not modelled.
- `cli.Command.Names()[0]` and `VisibleFlags()` are fields (`name`, `flags`), and only `DocGenerationFlag` behaviour is modelled.
- The `text/template` part of markdown.go (`Markdown`, `writeDocTemplate`, `markdownDocTemplate`) is not modelled.
- The `Interaction` class is not part of this model. `hasContext` is a field, and `toPrompt(withContext)` is a function parameter. `toChat` and the asynchronous calls are left out, and so is the timestamp of `addAssistantResponse`.
- The token estimator is `round(length / CHARS_PER_TOKEN)` for an abstract `CHARS_PER_TOKEN > 0`. `Math.round` is exact integer round-half-up, because lengths are non-negative. The truncation properties hold for any estimator.
- `MAX_AVAILABLE_PROMPT_LENGTH` is the parameter `maxPromptLength`.
- Concurrency and cancellation are left out: the context, and passes racing on one repository.

## Findings

| source | as written | input that shows it | evidently intended | confidence | as-written member | corrected member |
|---|---|---|---|---|---|---|
| cmd/gitserver/server/vcs_syncer_jvm_packages.go:369-370 | when `classFileEntryMajorVersion` fails, `classFileMajorVersion` returns `"", nil`: the error is dropped | a jar whose first `.class` entry has only the bytes CA FE: the answer is "" with no error, and the caller's `strconv.Atoi("")` then fails with "failed to convert string" | return the entry's error (`return "", err`), so that every successful answer is a number | not executed; high, the sibling branches all return `err` | JvmPackages.ShortHeaderSwallowed | JvmPackages.ScanAnswersANumber |

The model uses the corrected scan (`JvmPackages.Scan`) everywhere. The
as-written scan is `JvmPackages.ScanAsWritten`.

## Behaviour that follows the code

- Duplicate versions are not filtered by the existing tags as one might expect. The tag set is read once, before the pushes, and is not updated while pushing. A version listed twice whose tag is missing therefore runs its pipeline twice in one pass (`ReconcileProperties.DuplicateVersionPushedTwice`).
- A pass does not always leave exactly the wanted tags: a failed deletion is only logged. So `ReconcileProperties.Converges` states the tag set as the wanted tags plus the stale tags whose deletion failed, and gives the exact equality when no deletion fails.
- `vcsPackageSyncer.Fetch` lists and deletes tags as the global Go placeholder dependency. It does not use the syncer's own placeholder, which only `git --bare init` uses. `PackageSyncer.Fetch` does the same.
- A multi-line usage text ends its last prompted line directly with the closing fence, with no newline before it (`DocGen.UsageTextMultiLine`).
- Entry names with a `..` segment are not rejected as such. The guard rejects only names whose cleaned path leaves the destination, so `a/../b` under `/d/` is written to `/d/b` (`ArchivePaths.DotDotInsideAccepted`). Every accepted path still lies inside the destination (`ArchivePaths.AcceptedPathStaysInside`).
