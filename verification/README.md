# Verified model of cargo-port's stateful cores

cargo-port watches Rust workspaces: it keeps a bounded cache of lint runs, observes the
processes of the host to show which Cargo builds are going on, and can terminate them. This
project models the parts of it that carry state or exact arithmetic, in Dafny 4.11, and proves
what they promise over every input and every run. `dafny verify dfyconfig.toml` checks all of it.

Each component is modelled twice over: the operations of the source as imperative methods
(classes with the source's fields, loops where the source loops), and a specification of what
one operation does on values. The methods are proved against the specification; the theorems
are about the specification, over single operations and over whole runs of them.

- **Lint cache** (`CacheFiles`, `EvictionBatches`, `CacheEviction`, `LintCache`,
  `LintCacheRuns`, `LintCacheEffects`). The cache is a map from a (project, file) to its lines or length. A stored
  count, itself a file whose length is its number of decimal digits, stands in for walking the
  cache. Pruning evicts the oldest runs in batches of a twentieth of the limit against a moving
  target; which runs go is characterized without the loop by `EvictionBatches.EvictionCount`.
- **Build classifier** (`Processes`, `Attribution`, `Ordering`, `Classify`, `ClassifyFacts`,
  `ClassifyResults`, `BuildLedgers`, `LedgerFacts`, `BuildClassifier`, `BuildClassifierRuns`,
  `BuildProfileRuns`, `BuildRunExamples`). A pure classification of one process snapshot between three bounded
  ledgers. Parentage is validated as in the source: an edge counts only when the parent was
  created strictly before the child.
- **Refresh executor** (`RefreshExecutor`, `RefreshExecutorRuns`). Three deadline sources, one
  worker behind two channels. Runs interleave re-arming, dispatch, both halves of a worker turn,
  worker death and polling in any order.
- **Termination** (`TerminationPlan`, `TerminationRuns`). A frozen plan executed deepest first
  under a deadline, on a host whose clock never runs backwards and whose answers may be anything;
  and the request/summary correlation over every interleaving with the worker.
- **Monitor** (`Monitor`, `MonitorRuns`). The snapshot and authority state machine, narrowing to
  a scope, and lock contention between sessions that share a target directory.
- **Arithmetic and encodings** (`Decimal`, `CacheSize`, `CacheSizeFacts`, `CacheSizeTexts`,
  `CivilTime`, `Timestamps`, `CiRun`, `Fingerprint`). The cache-size parser, civil dates both
  ways and the timestamp reader against the timestamp writer, CI runs, and the length-prefixed
  stream a process fingerprint digests.

## What turned out not to hold

Seven statements one would expect fail on the code as it is. Each has a concrete witness and the
exact condition under which it does hold.

- Authority for terminating a session can outlive its row. `replace_current_authorities`
  (`src/build_monitor/termination/transaction.rs:263-270`) does nothing while a transaction is
  active, so a classification stored meanwhile leaves the old keys in place:
  `MonitorRuns.AuthorityCanOutliveItsRow`. `RecordKeepsKeysShownIff` says exactly when it does so
  in one step, `RunKeysShownIff` in a run. Such a key cannot be used: `AuthorizationNeedsRow`.
- The stored cache count is not always within the digits of its own file: archiving a log over
  an archived one of the same name counts both (`LintCacheRuns.SameNamedCommandsOvercount`);
  it is exact if and only if nothing is overwritten (`ArchiveExactIff`). It never undercounts.
- `0.0 GiB` means no limit, but its normal form `0 GiB` means a limit of no bytes
  (`CacheSizeFacts.ZeroWithFractionExample`, `NormalFormIsFixed`).
- A cycle in which a session's compilers write under two build directories shows the first in
  compiler order, but remembers the greatest name for the quiet cycles after it
  (`BuildRunExamples.TwoNamesDisagree`); the two agree if and only if the first compiler to write
  wrote under the greatest name (`BuildProfileRuns.LabelCarriesOverIff`).
- Once the 64-bit cycle counter has saturated, a newly seen session can stand before an older
  one (`BuildRunExamples.SaturatedCounterReorders`); `BuildClassifierRuns.NewcomerStandsLast` says
  exactly when.
- The wait for a signalled process can outlive the plan's deadline: its timeout is computed
  before the signal is delivered and counted from after it
  (`TerminationRuns.ConfirmationCanOutliveDeadline`). It goes past the deadline for no longer than
  the delivery took (`ConfirmationOverrun`); `ConfirmationEndsWithinIff` says when it does not.
- Evicting in batches is meant to leave headroom, but the archives freed can leave none, and only
  the history lines that go with them then make room (`EvictionBatches.NoHeadroom`; `Headroom`
  says exactly how much there is).

An eighth holds for a reason outside the pruner. Its total includes the digits of the index file it
met, not of the one it writes, so a walk right after a prune can find more than the count
(`LintCacheRuns.WalkAfterPrune`). It is within the limit all the same, because a line that parses
carries the fields of `LintRun` (`src/lint/run.rs:51-64`) and is longer than any index file; this
is the hypothesis `RunLinesAreLong`.

## Model

| member | source | states |
|---|---|---|
| LintCache.Cache.ApplyWriteDelta | src/lint/cache_size_index.rs:63-70 | the stored count moves by the difference of two sizes, clamped to 64 bits, and only if there is a count |
| LintCache.Cache.AdjustCount | src/lint/cache_size_index.rs:77-91 | saturating signed adjustment of the count, no file no change |
| LintCache.Cache.WriteFile | src/lint/read_write.rs:13-30 | one file replaced and the count moved by what that changed |
| LintCache.Cache.ClearLatest | src/lint/read_write.rs:32-46 | the latest-run file removed and the count lowered by its size |
| LintCache.Cache.ArchiveRunOutput | src/lint/history.rs:64-106 | each command's log copied into the run's directory, the count raised by the bytes copied |
| LintCache.Cache.ReclaimProject | src/lint/reclaim.rs:18-24 | the project's whole directory gone, the count lowered by what it held |
| LintCache.Cache.ReadUsage | src/lint/history.rs:43-60 | the usage shown is the count, seeded from a walk when there is none |
| LintCache.Cache.AppendHistory | src/lint/history.rs:108-138 | a line appended and counted, then the cache pruned to the limit, sparing the run just appended |
| LintCache.Cache.CollectPrunableRuns | src/lint/history.rs:217-250 | exactly the parseable lines of all histories, each once |
| LintCache.Cache.SortOldestFirst | src/lint/history.rs:302-307 | the same runs oldest first, ties by project and line |
| LintCache.Cache.EvictOne | src/lint/history.rs:329-349 | one archive gone; the target moves to the next batch boundary exactly when it was reached without freeing enough, so reaching the target again means being within the limit |
| LintCache.Cache.EvictArchives | src/lint/history.rs:309-350 | the loop evicts the oldest-first prefix the batch rule names; reclaimed and remaining bytes always add up to the bytes before |
| LintCache.Cache.RewriteHistoryFile | src/lint/history.rs:252-271 | a history keeps the lines at the kept indices, or is removed when none is left |
| LintCache.Cache.PruneRuns | src/lint/history.rs:285-375 | the whole prune: nothing within the limit; otherwise the evicted runs lose archive and line, everything else stays, and the count is rewritten |
| EvictionBatches.AdvanceTargetExact | src/lint/history.rs:309-350 | the saturating target arithmetic is the next multiple of the batch strictly above what was reclaimed |
| EvictionBatches.AdvanceTargetSaturates | src/lint/history.rs:346-348 | beyond 64 bits the target stops at the greatest number |
| EvictionBatches.LoopTracks | src/lint/history.rs:309-350 | after any evictions the loop's target is the boundary above the last amount that did not free enough, and no earlier eviction could have been the last |
| EvictionBatches.EvictionCountUnique | src/lint/history.rs:309-350 | how many runs are evicted is determined by their sizes |
| EvictionBatches.EvictionOvershoot | src/lint/history.rs:309-350 | before the last eviction less than one batch too much had been reclaimed |
| EvictionBatches.StoppedAboveBatch | src/lint/history.rs:309-350 | a prune that stops early has freed the excess and a whole batch |
| EvictionBatches.Headroom | src/lint/history.rs:273-279 | a prune that stops early leaves a given room if and only if every amount that reaches what is needed does; what the batch rule needs is always less than a whole batch beyond the excess |
| EvictionBatches.NoHeadroom | src/lint/history.rs:273-279 | amounts after which a prune leaves no room at all |
| CacheEviction.ArchivesOvershoot | src/lint/history.rs:309-350 | after the number of evictions the batch rule names, reclaimed bytes stay below the excess plus one batch plus the last evicted archive |
| CacheEviction.EvictFreesLine | src/lint/history.rs:352-368 | evicting frees the archives and the line of every evicted run |
| CacheEviction.ListingUnique | src/lint/history.rs:217-250 | there is only one listing of the prunable runs, whatever order the walk found them in |
| CacheEviction.EvictionTurn | src/lint/history.rs:321-349 | one turn of the eviction loop keeps files, reclaimed bytes and target what the evictions so far make them |
| CacheEviction.EvictionComplete | src/lint/history.rs:309-350 | when the loop ends its evictions are the prefix the batch rule counts |
| CacheEviction.EvictedLine | src/lint/history.rs:252-271 | after a rewrite a history holds exactly its kept lines |
| CacheEviction.EvictSparesLine | src/lint/history.rs:352-368 | a line no evicted run stands for stays in its history |
| CacheEviction.EvictSparesArchive | src/lint/history.rs:321-349 | the archive of a run not evicted stays as it was |
| CacheEviction.RewriteShrinks | src/lint/history.rs:252-271 | rewriting histories never adds bytes |
| LintCacheRuns.StepCounts | src/lint/cache_size_index.rs:63-91 | every operation keeps the count covering the files, and within the digits of its file when nothing is overwritten |
| LintCacheRuns.RunNeverUndercounts | src/lint/history.rs:43-60 | over any run from a cache without a count, the count is at least the bytes of all files other than its own |
| LintCacheRuns.RunTracks | src/lint/history.rs:43-137 | and exceeds them by at most twenty, as long as no archived log is overwritten |
| LintCacheRuns.ArchiveExactIff | src/lint/history.rs:64-106 | archiving moves the count by what the cache grew by plus the archived bytes it replaced: exactly if and only if it overwrites nothing |
| LintCacheRuns.OverwrittenExactly | src/lint/history.rs:64-106 | no archived byte is replaced if and only if every log that exists goes to a name nothing was copied to |
| LintCacheRuns.SameNamedCommandsOvercount | src/lint/history.rs:64-106 | two commands of one name overcount, a concrete cache |
| LintCacheRuns.FreshArchiveReplacesNothing | src/lint/history.rs:64-106 | a fresh run identity and distinct command names overwrite nothing |
| LintCacheRuns.PruneResetsCount | src/lint/history.rs:285-370 | a prune sets the count from its own walk, old count file included |
| LintCacheRuns.AppendKeepsItsRun | src/lint/history.rs:108-138 | the appended run keeps its line and its archive under any limit |
| LintCacheRuns.AppendEvictsOldest | src/lint/history.rs:108-138 | the evicted runs are an oldest-first prefix of the other parseable runs, and either the total is within the limit, as stored and as a fresh walk finds it, or no other parseable run is left |
| LintCacheRuns.PruneEndsWithin | src/lint/history.rs:309-370 | a prune that leaves runs it may evict ends within the limit, as stored, and as walked when lines of runs are longer than an index file |
| LintCacheRuns.WalkAfterPrune | src/lint/history.rs:285-370 | whatever the lines, a walk is within the limit if and only if the count with its own digits is, give or take the old index file |
| LintCacheRuns.PruneFreesBatch | src/lint/history.rs:285-350 | a prune that leaves a run it may evict has freed all that was too much, and at least a twentieth of the limit and one byte; which runs those are, in which order |
| LintCacheRuns.PruneOvershoot | src/lint/history.rs:285-370 | the archives a prune frees stay below the excess plus a twentieth of the limit, or one byte, plus the last of them |
| LintCacheRuns.KeepLinesInOrder | src/lint/history.rs:252-271 | kept lines, unparseable ones included, keep their order |
| LintCacheEffects.WriteMeans | src/lint/read_write.rs:13-30 | the file has the new length, every other is as it was |
| LintCacheEffects.ClearMeans | src/lint/read_write.rs:32-46 | the latest-run file is gone, every other is as it was |
| LintCacheEffects.AppendMeans | src/lint/history.rs:108-130 | the history has one more line, every other file is as it was |
| LintCacheEffects.ReclaimMeans | src/lint/reclaim.rs:18-24 | no file of the project is left, every other is as it was |
| LintCacheEffects.ArchivedLogMeans | src/lint/history.rs:64-106 | an archived log is a copy of the last existing log of its name |
| LintCacheEffects.ArchiveSparesOthers | src/lint/history.rs:64-106 | archiving changes no other file |
| LintCacheEffects.AdjustMeans | src/lint/cache_size_index.rs:77-91 | a count moves within 64 bits; without a count there is nothing to move |
| LintCacheEffects.ClampMeans | src/lint/cache_size_index.rs:63-70 | a change is clamped to a signed 64-bit number |
| LintCacheEffects.WriteCountsExactly | src/lint/read_write.rs:13-30 | a write moves the count by exactly what the files grew or shrank by |
| LintCacheEffects.ClearCountsExactly | src/lint/read_write.rs:32-46 | so does a removal |
| LintCacheEffects.ReclaimCountsExactly | src/lint/reclaim.rs:18-24 | so does reclaiming a project |
| LintCacheEffects.AppendCountsExactly | src/lint/history.rs:108-137 | so does appending a line |
| LintCacheEffects.UsageMeans | src/lint/history.rs:43-60 | the usage shown is the count or a walk, and is shown again while nothing changes |
| LintCacheEffects.PruneReports | src/lint/history.rs:285-375 | a prune reports what the files shrank by |
| Processes.ValidatedAncestry | src/process_observation/snapshot.rs:574-660 | the walk collects every ancestor within the depth; its check for a cycle never cuts it short |
| Processes.AncestorsAre | src/process_observation/snapshot.rs:574-660 | the walk finds exactly the processes up to that many validated edges above |
| Processes.DescentIsStrictOrder | src/process_observation/identity.rs:57-72 | descent along validated edges is transitive and never circular |
| Processes.ValidatedEdgeMeans | src/process_observation/identity.rs:57-72 | an edge counts exactly when both positions in the creation order are known and the parent's is lower |
| Processes.RejectedEdgeMeans | src/process_observation/snapshot.rs:574-660 | why any other edge does not |
| Attribution.CompilerSessionCandidates.Include | src/build_monitor/activity.rs:64-68 | a session is recorded once |
| Attribution.CollectCandidates | src/build_monitor/classify.rs:1391-1480 | the sessions a kind of evidence selects, in root order |
| Attribution.CandidatesAreSelected | src/build_monitor/activity.rs:53-68 | the candidates are exactly the selected sessions, without repeats |
| Attribution.AttributeCompiler | src/build_monitor/classify.rs:1333-1384 | ancestry first, then output directory, then primary input |
| Attribution.ConfirmedMeans | src/build_monitor/classify.rs:1333-1352 | a compiler is confirmed for a session if and only if that session alone is in its ancestry |
| Attribution.UniqueOutputMatchMeans | src/build_monitor/classify.rs:1354-1377 | a unique output match needs complete evidence, no ancestor root, and one session by output directory, or failing that by primary input; and these suffice |
| Attribution.UnattributedMeans | src/build_monitor/classify.rs:1333-1384 | unattributed if and only if no evidence selects any session |
| Attribution.AmbiguousMeans | src/build_monitor/activity.rs:72-111 | which sessions an ambiguous attribution names; at least two in a complete cycle |
| Classify.CollectCandidates | src/build_monitor/classify.rs:1005-1101 | pass one: observed incarnations, completeness, Cargo roots, compilers |
| Classify.AttachCompilers | src/build_monitor/classify.rs:805-881 | pass two: each compiler attributed, roots promoted, directories and manifest requests noted |
| Classify.FindRoot | src/build_monitor/classify.rs:838-842 | the root of a session, if it is among the surviving ones |
| Classify.Classify | src/build_monitor/classify.rs:624-695 | the whole cycle as a function of its input |
| ClassifyFacts.RootsAre | src/build_monitor/classify.rs:1005-1101 | the roots collected are exactly the readable, current Cargo candidates |
| ClassifyFacts.CompilersAre | src/build_monitor/classify.rs:1005-1101 | the compilers collected are exactly the readable, current compiler candidates |
| ClassifyFacts.ObservedAre | src/build_monitor/classify.rs:1011-1035 | an incarnation is observed whether or not its fields can be read |
| ClassifyFacts.DroppedMeans | src/build_monitor/classify.rs:1128-1177 | a root is dropped if and only if another root of its checkout is within eight validated edges above it |
| ClassifyFacts.SurvivorsAreNotNested | src/build_monitor/classify.rs:1128-1177 | no survivor has another survivor of its checkout among its ancestors |
| ClassifyFacts.DroppedRootReachesSurvivor | src/build_monitor/classify.rs:1128-1177 | every dropped root descends from a survivor of its checkout, even through dropped ones |
| ClassifyFacts.CompilersArePartitioned | src/build_monitor/classify.rs:805-881 | each recognized compiler is in exactly one of the attributed and unattributed lists, once |
| ClassifyFacts.ActivityNamesShownSession | src/build_monitor/classify.rs:727-881 | every attributed activity names a session of the same cycle's list |
| ClassifyFacts.SessionsAreOrdered | src/build_monitor/classify.rs:652-657 | session identities are distinct, and sessions stand by first sighting, then identity |
| ClassifyFacts.SessionsAre | src/build_monitor/classify.rs:727-775 | a session is shown for exactly the surviving roots that compile by argv, by a compiler now, or by earlier promotion |
| ClassifyFacts.PromotedAre | src/build_monitor/classify.rs:838-845 | the roots promoted are exactly those a compiler was attributed to |
| ClassifyFacts.BuildDirectoriesAre | src/build_monitor/classify.rs:845-853 | the build directories noted are those attributed compilers write under |
| ClassifyFacts.ManifestRequestsAre | src/build_monitor/classify.rs:1530-1547 | a manifest is requested exactly for source roots in use that were never looked up |
| ClassifyResults.CompleteMeans | src/build_monitor/classify.rs:1036-1053 | a cycle is complete exactly when argv, executable and working directory of every candidate still there could be read |
| ClassifyResults.AttributedMeans | src/build_monitor/classify.rs:1333-1384 | the activities of a cycle: confirmed for the one session within eight edges above, or, with none above and only where everything could be read, matched to the one session written into or else compiled from |
| ClassifyResults.UnattributedMeansNothingFound | src/build_monitor/classify.rs:1333-1384 | listed as unattributed exactly when ancestry, output and input relate it to no session |
| ClassifyResults.AmbiguousNamesCandidates | src/build_monitor/classify.rs:1333-1384 | which sessions an ambiguous compiler names; at least two where everything could be read |
| ClassifyResults.EvidenceMeans | src/build_monitor/classify.rs:1391-1480 | what ancestry, output directory and primary input mean on parents and path components |
| ClassifyResults.BuildDirectoryMeans | src/build_monitor/classify.rs:905-937 | the build directory observed is the component right below target directory and triple |
| ClassifyResults.ActivityFields | src/build_monitor/classify.rs:805-881 | each activity carries its compiler's crate, by index or manifest, and first sighting |
| ClassifyResults.UnattributedFields | src/build_monitor/classify.rs:805-881 | each unattributed one its compiler's crate and working directory |
| ClassifyResults.ListsAreOrdered | src/build_monitor/classify.rs:652-695 | in which order sessions, activities and unattributed compilers are listed |
| ClassifyResults.RootsMean | src/build_monitor/classify.rs:1128-1177 | a recognized root is left exactly when no other of its checkout is within eight edges above |
| ClassifyResults.SessionsMean | src/build_monitor/classify.rs:727-775 | a session is shown exactly for a recognized, unabsorbed root that compiles by argv, by earlier promotion, or by an activity of this cycle |
| ClassifyResults.SessionFields | src/build_monitor/classify.rs:746-775 | it carries its root's scope and target directory, and the sighting the ledger holds or else this cycle's |
| ClassifyResults.ObservedMeans | src/build_monitor/classify.rs:1011-1035 | what is observed is every candidate still there |
| BuildLedgers.Trim | src/build_monitor/build_classifier.rs:185-207 | eviction drops oldest entries only, and exactly down to the cap |
| BuildLedgers.NewestSurvive | src/build_monitor/build_classifier.rs:279-310 | entries of the newest age survive when no more than the cap have it |
| BuildLedgers.FirstSeenLedger.RecordObserved | src/build_monitor/build_classifier.rs:397-410 | new incarnations get this cycle's sighting, known ones keep theirs |
| BuildLedgers.FirstSeenLedger.RecordPromotions | src/build_monitor/build_classifier.rs:412-427 | promotion is set and nothing else changes |
| BuildLedgers.FirstSeenLedger.Prune | src/build_monitor/build_classifier.rs:432-448 | only observed incarnations stay, and beyond the cap the earliest seen go |
| BuildLedgers.BuildDirectoryLedger.Record | src/build_monitor/build_classifier.rs:257-274 | the last name recorded for a session wins |
| BuildLedgers.BuildDirectoryLedger.RetainLive | src/build_monitor/build_classifier.rs:279-310 | shown sessions become most recent, beyond the cap the least recent go, ties by identity |
| BuildLedgers.TouchedAre | src/build_monitor/build_classifier.rs:279-288 | exactly the shown sessions' entries are marked used |
| BuildLedgers.DependencyManifestSnapshot.ReadNearestManifest | src/build_monitor/build_classifier.rs:705-722 | the nearest manifest within six directories, or none |
| BuildLedgers.DependencyManifestSnapshot.Record | src/build_monitor/build_classifier.rs:140-157 | each requested root gets what its nearest manifest says now |
| BuildLedgers.DependencyManifestSnapshot.Revalidate | src/build_monitor/build_classifier.rs:161-180 | roots in use stay if their manifest is unchanged and go if not |
| BuildLedgers.DependencyManifestSnapshot.EvictLeastRecentlyUsed | src/build_monitor/build_classifier.rs:185-207 | beyond the cap the least recently used go |
| LedgerFacts.TrimmedMeans | src/build_monitor/build_classifier.rs:185-207 | an entry is kept exactly when fewer than the cap are newer |
| LedgerFacts.RetainedMeans | src/build_monitor/build_classifier.rs:279-310 | a build directory is kept exactly when fewer than 1024 others were used later, shown sessions counting as used now |
| LedgerFacts.NearestMeans | src/build_monitor/build_classifier.rs:705-722 | the manifest found is the nearest readable one on the way up |
| LedgerFacts.ManifestReadMeans | src/build_monitor/build_classifier.rs:140-157 | an entry says what the nearest manifest within six directories says, and is fresh when read |
| LedgerFacts.FreshMeans | src/build_monitor/build_classifier.rs:77-88 | an entry is fresh while its file has the same time and length, or is still absent |
| LedgerFacts.RunStaysCapped | src/build_monitor/build_classifier.rs:161-448 | in every reachable state the tables hold at most 8192, 1024 and 4096 entries |
| BuildClassifier.Classifier.ClassifyCycle | src/build_monitor/build_classifier.rs:561-620 | a cycle classifies against the ledgers as they stood, then applies what it asked for |
| BuildClassifierRuns.FirstSightingIsStable | src/build_monitor/build_classifier.rs:397-448 | an incarnation observed without a gap keeps its first-seen cycle and instant |
| BuildClassifierRuns.SessionOrderIsStable | src/build_monitor/classify.rs:652-657 | two sessions observed without a gap keep their relative order |
| BuildClassifierRuns.NewcomerStandsLast | src/build_monitor/classify.rs:1106-1116 | a session observed later stands after every older one in every later cycle that shows both, whenever each is first shown; with the exact condition once the cycle counter has saturated |
| BuildClassifierRuns.EarlierObservedStandsFirst | src/build_monitor/build_classifier.rs:568-606 | of two processes watched without a gap, the one observed a cycle earlier is listed first ever after |
| BuildClassifierRuns.RunCountsCycles | src/build_monitor/build_classifier.rs:568-606 | cycles are numbered from one on until the numbers run out |
| BuildClassifierRuns.NewSessionIsSeenNow | src/build_monitor/classify.rs:1106-1116 | a session not known yet is first seen in this cycle and instant |
| BuildClassifierRuns.PromotedAreObserved | src/build_monitor/build_classifier.rs:412-427 | promoted roots are observed, so recording promotions never adds an entry of its own |
| BuildClassifierRuns.PromotionIsKept | src/build_monitor/build_classifier.rs:412-448 | promotion lasts as long as the root is observed |
| BuildClassifierRuns.PromotedRootStaysASession | src/build_monitor/classify.rs:733-756 | a root promoted once and observed without a gap is a session whenever it is readable and no outer root absorbs it |
| BuildClassifierRuns.SightingsAfter | src/build_monitor/build_classifier.rs:432-448 | within the cap the ledger is exactly the observed incarnations |
| BuildProfileRuns.RecordedNames | src/build_monitor/build_classifier.rs:257-274 | a cycle's sorted directories leave each named session with its greatest name |
| BuildProfileRuns.CycleKeepsDirectory | src/build_monitor/build_classifier.rs:279-310 | while the table stays within its cap a session keeps its name, shown or not, or takes this cycle's greatest; over the cap so does one shown beside no more sessions than the cap |
| BuildProfileRuns.ArgumentProfileWins | src/build_monitor/classify.rs:950-975 | a profile argument is never overridden |
| BuildProfileRuns.FirstDirectoryMeans | src/build_monitor/classify.rs:976-992 | the first name noted for a session is the one its first writing compiler wrote under, in compiler order |
| BuildProfileRuns.UnnamedSessionShowsDefault | src/build_monitor/classify.rs:950-992 | without a name from a compiler or the ledger a session shows what its root was found with |
| BuildProfileRuns.BusyCycleShowsFirstName | src/build_monitor/classify.rs:970-992 | while compilers write, the session shows the name the first of them wrote under |
| BuildProfileRuns.LedgerKeepsGreatestName | src/build_monitor/build_classifier.rs:257-310 | the greatest name of a busy cycle is held until the next one, in cycles that do not show the session too |
| BuildProfileRuns.QuietCyclesShowNewestBusyCycle | src/build_monitor/classify.rs:950-965 | in the quiet cycles after, every shown session without a profile argument shows the greatest name of the newest busy cycle |
| BuildProfileRuns.LabelCarriesOverIff | src/build_monitor/classify.rs:950-992 | the label carries over if and only if the first compiler to write wrote under the greatest name; a single name always does |
| BuildRunExamples.TwoNamesDisagree | src/build_monitor/classify.rs:976-992 | a root with two compilers writing under two names, then alone: shown as one and remembered as the other |
| BuildRunExamples.SaturatedCounterReorders | src/build_monitor/build_classifier.rs:561-620 | a run that uses up every cycle number and then lists a newcomer before an older session |
| BuildProfileRuns.ManifestRequestedAgainIff | src/build_monitor/build_classifier.rs:161-207 | a source root in use in two successive cycles is requested again if and only if its manifest was found changed |
| RefreshExecutor.Executor.RefreshDue | src/process_observation/executor.rs:391-428 | a dispatch sends one request for exactly the due consumers and advances only their deadlines |
| RefreshExecutor.Executor.PollResult | src/process_observation/executor.rs:430-469 | a matching result is returned, another dropped, a dead worker reported |
| RefreshExecutor.Executor.DueDemand | src/process_observation/executor.rs:486-527 | the demand is exactly the consumers whose deadline has passed |
| RefreshExecutor.Executor.AdvanceDispatchedDeadlines | src/process_observation/executor.rs:529-545 | served one-shots are disarmed, running targets move an interval on, others stay |
| RefreshExecutor.Worker.RunOne | src/process_observation/executor.rs:574-597 | one turn of the worker loop |
| RefreshExecutorRuns.RunAnswersInOrder | src/process_observation/executor.rs:391-469 | over every interleaving at most one request is outstanding, it is the awaited one, and requests are answered once each, in order |
| RefreshExecutorRuns.NeverMismatched | src/process_observation/executor.rs:443-469 | the mismatched-result branch is never reached |
| RefreshExecutorRuns.AnswerArrives | src/process_observation/executor.rs:430-469 | a worker turn and a poll answer the awaited request, completed exactly when it was not lost with the worker |
| RefreshExecutorRuns.RefreshSendsExactlyWhenDue | src/process_observation/executor.rs:361-428 | a cycle goes out if and only if the next deadline has passed, for exactly the due consumers |
| RefreshExecutorRuns.NextDeadlineMeans | src/process_observation/executor.rs:361-390 | what the event loop sleeps on: the worker while it owes an answer, else the least deadline there is |
| RefreshExecutorRuns.InitiallyDue | src/process_observation/executor.rs:300-345 | running targets are due at once unless suppressed |
| RefreshExecutorRuns.ServedTargetsWaitAnInterval | src/process_observation/executor.rs:529-545 | a cycle serving running targets puts their next deadline exactly an interval on |
| RefreshExecutorRuns.RunNumbersRequests | src/process_observation/executor.rs:391-428 | the k-th request has number k, modulo 2^64 |
| RefreshExecutorRuns.DispatchMeans | src/process_observation/executor.rs:391-428 | when a request is sent, executed on the spot, or fails to be sent |
| RefreshExecutorRuns.LostAnswerMeans | src/process_observation/executor.rs:430-469 | a poll reports the worker lost exactly when it is dead and left no answer |
| RefreshExecutorRuns.RunSpacesRunningTargets | src/process_observation/executor.rs:529-545 | cycles serving running targets are at least the interval apart |
| RefreshExecutorRuns.StepServes | src/process_observation/executor.rs:391-428 | an armed one-shot is disarmed, and one cycle serves it, exactly by a dispatch at or after its instant while the worker is free |
| RefreshExecutorRuns.ArmedIsServedOnce | src/process_observation/executor.rs:346-428 | over a run without a re-arm it stays armed up to the first such dispatch, is served by that one, and is disarmed ever after |
| RefreshExecutorRuns.RunDispatchesEachArmingOnce | src/process_observation/executor.rs:529-545 | cycles serving a one-shot consumer never outnumber its armings |
| RefreshExecutorRuns.ArmedDuringFlightSurvives | src/process_observation/executor.rs:346-359 | a deadline armed during flight is still armed when the answer comes |
| TerminationPlan.SortDeepestFirst | src/process_termination/mod.rs:452-460 | a stable sort, deepest first, then by target identity |
| TerminationPlan.DeliverOneBoundSignal | src/process_termination/mod.rs:583-611 | exactly one signal, then at most one bounded wait |
| TerminationPlan.TerminateOneTarget | src/process_termination/mod.rs:499-543 | the result and the signal one admission leads to; a wait's timeout is computed from a reading before the signal, and the wait starts after it |
| TerminationPlan.TakeTurn | src/process_termination/mod.rs:464-482 | one target's turn between two clock readings |
| TerminationPlan.ExecuteTerminationPlan | src/process_termination/mod.rs:449-493 | the whole plan: one turn per target in order, the deadline flag, the signals sent |
| TerminationRuns.OutcomesDeepestFirst | src/process_termination/mod.rs:449-493 | one outcome per target of the plan, a permutation, descendants before ancestors |
| TerminationRuns.OutcomesMean | src/process_termination/mod.rs:464-611 | which start, admission, delivery and presence lead to which result, for every result |
| TerminationRuns.DeadlineRefusalsAreASuffix | src/process_termination/mod.rs:464-482 | once a target is refused for time so is every later one, and no ancestor of less depth is signalled |
| TerminationRuns.EachTargetSignalledAtMostOnce | src/process_termination/mod.rs:511-611 | with distinct identities no target is signalled twice, and exactly the actionable targets found unchanged in a turn begun in time are |
| TerminationRuns.SignalsWithinPlan | src/process_termination/mod.rs:464-611 | whatever identities a plan repeats, each is signalled once per turn that admits it, never more often than the plan names it |
| TerminationRuns.ConfirmationOverrun | src/process_termination/mod.rs:118-125 | a wait is bounded, and past the deadline lasts at most as long as the delivery took |
| TerminationRuns.ConfirmationEndsWithinIff | src/process_termination/mod.rs:527-600 | it stays within the deadline if and only if the full timeout still fits after delivery, or delivery took no time |
| TerminationRuns.ConfirmationCanOutliveDeadline | src/process_termination/mod.rs:527-600 | a delivery of five ticks and a wait that ends five past the deadline |
| TerminationRuns.CompletedMeansBeforeDeadline | src/process_termination/mod.rs:461-482 | the summary says completed if and only if the last reading was before the deadline; then nobody was refused for time |
| TerminationRuns.ProcessTerminator.PlanTermination | src/process_termination/mod.rs:349-381 | a plan takes the next request identity, or none is left |
| TerminationRuns.ProcessTerminator.RequestTermination | src/process_termination/mod.rs:384-396 | a plan is handed to a live worker, or lost |
| TerminationRuns.ProcessTerminator.PollOutcome | src/process_termination/mod.rs:399-407 | the oldest unread summary, or why there is none |
| TerminationRuns.ProcessTerminator.ExecuteReceived | src/process_termination/mod.rs:430-447 | the worker sends the summary of the plan it received |
| TerminationRuns.RunCorrelatesSummaries | src/process_termination/mod.rs:384-447 | the k-th summary polled is an execution of the k-th plan submitted; no request is answered twice; a live worker loses none |
| TerminationRuns.RunExhaustsIds | src/process_termination/mod.rs:349-381 | identities are never reused, and run out after exactly 2^64 - 2 plans |
| Monitor.BuildLockContention | src/build_monitor/poll.rs:253-301 | every session's place in the queue for its target directory |
| Monitor.BuildMonitor.RecordClassification | src/build_monitor/poll.rs:54-77 | fresh data stored; authority replaced unless a transaction is active |
| Monitor.BuildMonitor.RecordClassificationFailure | src/build_monitor/poll.rs:84-88 | what is shown ages and authority is cleared |
| Monitor.BuildMonitor.ReplaceScope | src/build_monitor/poll.rs:96-112 | rows of the same roots are retained, others go with their authority |
| Monitor.BuildMonitor.SwitchOn | src/build_monitor/mod.rs:212-215 | pending, no authority |
| Monitor.BuildMonitor.SwitchOff | src/build_monitor/mod.rs:204-208 | off, no authority |
| Monitor.BuildMonitor.SelectedTerminationAuthorization | src/build_monitor/mod.rs:218-242 | authority is frozen only for a displayed actionable session, and taken out |
| Monitor.BuildMonitor.OutputBuildSetAuthorization | src/build_monitor/termination/transaction.rs:370-410 | all displayed sessions' authority is frozen, or none |
| MonitorRuns.HoldingMeans | src/build_monitor/poll.rs:253-301 | a session holds if and only if others share its directory and it alone has a compiler |
| MonitorRuns.WaitingMeans | src/build_monitor/poll.rs:253-301 | a session waits behind a pid if and only if it has no compiler and that is the pid of its directory's holder |
| MonitorRuns.OneHolder | src/build_monitor/poll.rs:253-325 | one holder per directory, and no session with a compiler waits |
| MonitorRuns.StoredRowsAre | src/build_monitor/poll.rs:181-217 | the rows are exactly the sessions in scope or owned, with their own activities and their place in the host-wide queue |
| MonitorRuns.RowsKeepOrder | src/build_monitor/poll.rs:181-217 | rows are listed in the order of the sessions |
| MonitorRuns.ActivitiesKeepOrder | src/build_monitor/poll.rs:181-217 | a row's activities in the order of the classification |
| MonitorRuns.UnattributedKeepOrder | src/build_monitor/poll.rs:224-250 | and so are the unattributed compilers a scope explains |
| MonitorRuns.StoredUnattributedAre | src/build_monitor/poll.rs:224-371 | which unattributed compilers a scope shows |
| MonitorRuns.AuthoritiesAre | src/build_monitor/poll.rs:118-166 | authority exists exactly for rows that support it |
| MonitorRuns.AuthorityMeans | src/build_monitor/poll.rs:118-166 | a session is given authority exactly for a row owned by the supported run, or an external one with a capability and a resolved scope, and it is that run or that scope |
| MonitorRuns.ActionableMeansDrawnLive | src/build_monitor/snapshot.rs:367-413 | what may be acted on is exactly what is drawn as live |
| MonitorRuns.RecordedIsActionable | src/build_monitor/snapshot.rs:367-389 | a stored classification is acted on under its own scope |
| MonitorRuns.ScopeMeans | src/build_monitor/snapshot.rs:445-478 | a scope of the same roots keeps rows, staleness and authority and is acted on under the new key; any other leaves nothing |
| MonitorRuns.FailureMeans | src/build_monitor/snapshot.rs:429-442 | what a failed cycle leaves of each display, and no authority |
| MonitorRuns.RunGuarded | src/build_monitor/snapshot.rs:431-472 | authority only beside an actionable snapshot, retained rows only under the same roots |
| MonitorRuns.FailureDisarms | src/build_monitor/poll.rs:84-112 | after a failed cycle nothing is actionable or authorized until a classification is stored |
| MonitorRuns.TwoFailuresClear | src/build_monitor/snapshot.rs:431-472 | two failures with nothing stored between leave no rows, however scopes and switches move |
| MonitorRuns.OneFailureKeepsRows | src/build_monitor/snapshot.rs:431-435 | one failure keeps the rows, marked stale |
| MonitorRuns.RecordKeepsKeysShownIff | src/build_monitor/poll.rs:54-77 | authority names displayed rows only, if and only if no transaction is active or every key held names a classified session in the new scope or owned |
| MonitorRuns.RunKeysShownIff | src/build_monitor/poll.rs:54-112 | so it does throughout a run if and only if every classification stored during a transaction keeps all sessions that authority is held for |
| MonitorRuns.RunKeysShown | src/build_monitor/poll.rs:54-112 | in particular in a run that stores nothing during a transaction |
| MonitorRuns.AuthorityCanOutliveItsRow | src/build_monitor/termination/transaction.rs:263-270 | a run in which it does not |
| MonitorRuns.AuthorizationNeedsRow | src/build_monitor/mod.rs:218-242 | a key without a row cannot be used |
| MonitorRuns.BuildSetMeans | src/build_monitor/termination/transaction.rs:370-410 | a build set is authorized exactly when each of its rows could be, and takes exactly their authority |
| MonitorRuns.AuthorizedOnce | src/build_monitor/termination/transaction.rs:334-357 | a session is authorized once per stored classification |
| CacheSizeFacts.AcceptedNumbers | src/config.rs:572-627 | exactly which numbers a unit accepts |
| CacheSizeFacts.ParsedBytesAreExact | src/config.rs:572-627 | the bytes are the exact ceiling of quantity times unit |
| CacheSizeTexts.SizeMeans | src/config.rs:629-681 | for each spelling of each unit, spaces and case aside: which quantities are accepted, and to which bytes and normal form |
| CacheSizeTexts.OtherUnitsAreRefused | src/config.rs:629-637 | any other unit is refused as unsupported |
| CacheSizeTexts.QuantityErrors | src/config.rs:538-627 | when a quantity is refused as no number, and when as too large |
| CacheSizeTexts.NormalNumberMeans | src/config.rs:538-570 | a normalized number is the same quantity without needless zeros |
| CacheSizeTexts.NoLimitTexts | src/config.rs:644-655 | the word for no limit in any case, and a bare zero |
| CacheSizeTexts.EmptyTexts | src/config.rs:639-643 | nothing but spaces is refused as empty |
| CacheSizeTexts.NumberlessTexts | src/config.rs:657-670 | a text that starts with no number needs one |
| CacheSizeTexts.UnitlessTexts | src/config.rs:657-670 | and one with nothing after its number a unit |
| CacheSizeFacts.NormalizedBytes | src/config.rs:538-570 | a normalized number parses to the same bytes, but never to no limit |
| CacheSizeFacts.NormalFormIsFixed | src/config.rs:639-681 | the normal form is a fixed point of parsing, with the same bytes if and only if the text is no zero with a fraction |
| CacheSizeFacts.ZeroWithFractionExample | src/config.rs:620-625 | `0.0 GiB` and its normal form differ |
| CivilTime.NothingWraps | src/ci.rs:264-274 | for every date from the epoch on whose count fits 64 bits, the wrapping arithmetic is exact |
| CivilTime.NextDayCounts | src/ci.rs:264-274 | the next day is one more, across months, leap days, centuries and 400-year eras |
| CivilTime.DaysFromCivilCounts | src/ci.rs:264-274 | it is the number of days to count, one by one, from the epoch to the date |
| CivilTime.CivilIsDateAfter | src/project/git/repo/history.rs:64-84 | the inverse conversion gives the date that many days after the epoch |
| CivilTime.CivilInverts | src/project/git/repo/history.rs:64-84 | converting a date to days and back gives the date |
| CivilTime.DaysKeepOrder | src/ci.rs:264-274 | dates order as their day counts do |
| Timestamps.TextIsRead | src/ci.rs:239-260 | every well-formed timestamp that fits 64 bits is read as its number of seconds |
| Timestamps.FormattedSecondsAreRead | src/project/git/repo/history.rs:48-62 | what the writer writes for any signed 64-bit clock value, the reader reads back |
| Timestamps.OnlyTimestampsAreRead | src/ci.rs:239-260 | anything read is three numerals joined by dashes, a `T`, and three joined by colons |
| Timestamps.SecondsKeepOrder | src/ci.rs:239-260 | timestamps read in chronological order; a leap second reads as the second after |
| CiRun.BuildCiRun | src/ci.rs:123-173 | the jobs, the span from least start to greatest completion, and the conclusion |
| CiRun.LeastOfIsLeast | src/ci.rs:124-143 | the earliest start is the least readable one |
| CiRun.GreatestOfIsGreatest | src/ci.rs:124-143 | the latest completion is the greatest readable one |
| CiRun.WallClockCoversJobs | src/ci.rs:155-157 | no job lasts longer than the wall clock |
| CiRun.JobMeans | src/ci.rs:200-220 | which conclusion text gives which status, and how long a job lasted |
| CiRun.LongestSpan | src/ci.rs:155-157 | the wall clock is the longest span from a start to a completion, if there is one |
| CiRun.ConclusionMeans | src/ci.rs:187-198 | which jobs make a run failed, passed or skipped |
| Fingerprint.WriteHashInput | src/process_observation/identity.rs:784-798 | the loop emits the length-prefixed stream |
| Fingerprint.HashInputRoundTrip | src/process_observation/identity.rs:784-798 | a decoder recovers executable and arguments, whatever follows |
| Fingerprint.HashInputInjective | src/process_observation/identity.rs:784-798 | streams agree, or one begins the other, only for equal observations |

## Left out

- Filesystem, process and clock failures of the lint cache: reads, writes and removals succeed, and the walk's total fits a signed 64-bit number.
- History lines with carriage returns or invalid UTF-8, and concurrent writers of the count (its lock serializes them): lines are already split, operations are one at a time.
- An empty run directory is not told apart from a missing one; log files to archive are the projects' rolling logs.
- Project keys are ranks in the order of their names.
- Clearing the latest run only if it is running: the same removal behind one more test.
- Argument and selector parsing, scope resolution against the workspace index, and crate identity resolution: a candidate carries what they found.
- `--target` triples and profile names that contain a path separator: each is one path component.
- Sorting and deduplicating the promoted, observed, requested and in-use lists: only membership in them is read. Repeats among the sorted build directories are recorded twice to the same effect.
- In-place library sorts of session, activity and directory lists: modelled as insertion sorts on values, as their result is what is used.
- Root CPU activity, operative commands and compiler kinds: carried through unchanged by the source and read by the display only.
- Cancellation and the error of an empty workspace index in `classify_demand`: no cycle runs.
- The content of a refresh cycle, and shutting the workers down or joining them: an execution completes or its worker dies.
- Termination on hosts other than Linux, which never waits for a confirmation.
- Wake-up registration on the result channels: plumbing.
- The transaction that follows an authorization: only whether one is active matters to the monitor.
- The terminal-record registry cleared beside the authorities: no modelled decision reads it.
- Overflow panics of debug builds in the civil-date arithmetic: release builds wrap, as modelled.
- Human-readable durations, commit titles and URLs of a CI run: formatting.
- The SHA-256 digest itself: injectivity is proved of its input.
- Non-ASCII digits and fractional seconds: the readers reject them, as `ParseU64` and `AllDigits` do.
