/** What holds of the lint cache after any run of its operations. */
module LintCacheRuns {
  import opened Common
  import opened CacheFiles
  import opened CacheEviction
  import opened EvictionBatches
  import opened LintCache

  datatype Operation =
    | WriteFile(file: CacheFile, length: nat)
    | ClearLatest(project: Project)
    | ArchiveRunOutput(project: Project, runId: RunId, commands: seq<Command>)
    | AppendHistory(project: Project, line: HistoryLine, limit: Option<nat>)
    | ReclaimProject(project: Project)
    | ReadUsage

  ghost predicate Next(before: CacheState, operation: Operation, after: CacheState) {
    match operation
    case WriteFile(file, length) => WroteFile(before, file, length, after)
    case ClearLatest(project) => ClearedLatest(before, project, after)
    case ArchiveRunOutput(project, runId, commands) => Archived(before, project, runId, commands, after)
    case AppendHistory(project, line, limit) =>
      && Valid(WithLine(before, project, line))
      && exists stats :: Appended(before, project, line, limit, after, stats)
    case ReclaimProject(project) => ProjectReclaimed(before, project, after)
    case ReadUsage => exists bytes :: UsageRead(before, bytes, after)
  }

  ghost predicate IsRun(states: seq<CacheState>, operations: seq<Operation>) {
    && |states| == |operations| + 1
    && Valid(states[0])
    && forall i: nat :: i < |operations| ==> RunsOperation(states, operations, i)
  }

  ghost predicate RunsOperation(states: seq<CacheState>, operations: seq<Operation>, i: nat)
    requires i < |operations| && |states| == |operations| + 1
  {
    Valid(states[i]) && Valid(states[i + 1]) && Next(states[i], operations[i], states[i + 1])
  }

  // ---------------------------------------------------------------------------
  // The stored count against the bytes it stands for
  // ---------------------------------------------------------------------------

  /** The stored count covers every file but its own. */
  ghost predicate NeverUndercounts(cache: CacheState) {
    cache.index.Holds? ==> Bytes(cache.files) <= cache.index.count
  }

  /** ... and exceeds them by no more than the digits of its own file. */
  ghost predicate Tracks(cache: CacheState) {
    cache.index.Holds? ==> Bytes(cache.files) <= cache.index.count <= Bytes(cache.files) + MAX_INDEX_DIGITS
  }

  /** The bytes of archived logs that archiving this run replaces. */
  function Overwritten(files: Files, project: Project, runId: RunId, commands: seq<Command>): nat {
    if commands == [] then 0
    else
      var front, command := commands[..|commands| - 1], commands[|commands| - 1];
      Overwritten(files, project, runId, front)
      + if RollingLog(project, command.rollingLog) in files
        then SizeOrZero(ArchivedCopy(files, project, runId, front), ArchivedLog(project, runId, command.name))
        else 0
  }

  lemma {:induction false} ArchiveAccounts(files: Files, project: Project, runId: RunId, commands: seq<Command>)
    ensures Bytes(ArchivedCopy(files, project, runId, commands)) + Overwritten(files, project, runId, commands)
         == Bytes(files) + CopiedBytes(files, project, commands)
  {
    if commands != [] {
      var front, command := commands[..|commands| - 1], commands[|commands| - 1];
      ArchiveAccounts(files, project, runId, front);
      var source := RollingLog(project, command.rollingLog);
      if source in files {
        BytesUpdate(ArchivedCopy(files, project, runId, front), ArchivedLog(project, runId, command.name),
                    Sized(Length(files[source])));
      }
    }
  }

  /** Whether every log that exists lands on a name nothing has been copied to. */
  ghost predicate NothingReplaced(files: Files, project: Project, runId: RunId, commands: seq<Command>) {
    forall i :: 0 <= i < |commands| && RollingLog(project, commands[i].rollingLog) in files ==>
      && SizeOrZero(files, ArchivedLog(project, runId, commands[i].name)) == 0
      && forall j :: 0 <= j < i && commands[j].name == commands[i].name
           ==> SizeOrZero(files, RollingLog(project, commands[j].rollingLog)) == 0
  }

  /** After copying, an archived log has the size of the last existing log copied to it. */
  lemma {:induction false} ArchivedSize(files: Files, project: Project, runId: RunId, commands: seq<Command>,
                                        name: LogName)
    requires NothingReplaced(files, project, runId, commands)
    ensures SizeOrZero(ArchivedCopy(files, project, runId, commands), ArchivedLog(project, runId, name)) == 0
      <==> && (SizeOrZero(files, ArchivedLog(project, runId, name)) == 0)
           && forall j :: 0 <= j < |commands| && commands[j].name == name
                ==> SizeOrZero(files, RollingLog(project, commands[j].rollingLog)) == 0
  {
    if commands != [] {
      var front, last := commands[..|commands| - 1], commands[|commands| - 1];
      assert forall i :: 0 <= i < |front| ==> front[i] == commands[i];
      ArchivedSize(files, project, runId, front, name);
      assert commands[|commands| - 1] == last;
    }
  }

  lemma {:induction false} OverwrittenExactly(files: Files, project: Project, runId: RunId, commands: seq<Command>)
    ensures Overwritten(files, project, runId, commands) == 0 <==> NothingReplaced(files, project, runId, commands)
  {
    if commands != [] {
      var front, last := commands[..|commands| - 1], commands[|commands| - 1];
      assert forall i :: 0 <= i < |front| ==> front[i] == commands[i];
      OverwrittenExactly(files, project, runId, front);
      assert commands[|commands| - 1] == last;
      if NothingReplaced(files, project, runId, front) {
        ArchivedSize(files, project, runId, front, last.name);
      }
    }
  }

  /** Archiving moves the count by what the cache grew by, and by the archived bytes it
      replaced on top: exactly by the growth if and only if no copy replaces any. */
  lemma ArchiveExactIff(before: CacheState, project: Project, runId: RunId, commands: seq<Command>, after: CacheState)
    requires Archived(before, project, runId, commands, after)
    requires before.index.Holds?
    requires before.index.count + CopiedBytes(before.files, project, commands) <= I64_MAX
    ensures after.index.Holds?
    ensures after.index.count - before.index.count
         == Bytes(after.files) - Bytes(before.files) + Overwritten(before.files, project, runId, commands)
    ensures after.index.count - before.index.count == Bytes(after.files) - Bytes(before.files)
       <==> NothingReplaced(before.files, project, runId, commands)
  {
    ArchiveAccounts(before.files, project, runId, commands);
    OverwrittenExactly(before.files, project, runId, commands);
  }

  /** Two commands of one name leave one archived log and are counted twice. */
  lemma SameNamedCommandsOvercount(before: CacheState, after: CacheState)
    requires before == CacheState(map[RollingLog(0, "lint") := Sized(100)], Holds(100))
    requires Archived(before, 0, "run", [Command("lint", "lint"), Command("lint", "lint")], after)
    ensures Tracks(before) && !Tracks(after) && NeverUndercounts(after)
  {
    var log := RollingLog(0, "lint");
    var commands := [Command("lint", "lint"), Command("lint", "lint")];
    BytesUpdate(map[], log, Sized(100));
    assert map[][log := Sized(100)] == before.files;
    assert commands[..1] == [Command("lint", "lint")];
    assert commands[..1][..0] == [];
    var archived := ArchivedLog(0, "run", "lint");
    assert ArchivedCopy(before.files, 0, "run", commands[..1]) == before.files[archived := Sized(100)];
    assert after.files == before.files[archived := Sized(100)];
    BytesUpdate(before.files, archived, Sized(100));
    assert CopiedBytes(before.files, 0, commands[..1]) == 100;
    assert CopiedBytes(before.files, 0, commands) == 200;
  }

  lemma WriteMovesCount(before: CacheState, file: CacheFile, length: nat, after: CacheState)
    requires Valid(before) && Valid(after) && NeverUndercounts(before)
    requires WroteFile(before, file, length, after)
    ensures NeverUndercounts(after) && (Tracks(before) ==> Tracks(after))
  {
    BytesUpdate(before.files, file, Sized(length));
  }

  lemma ClearMovesCount(before: CacheState, project: Project, after: CacheState)
    requires Valid(before) && NeverUndercounts(before)
    requires ClearedLatest(before, project, after)
    ensures NeverUndercounts(after) && (Tracks(before) ==> Tracks(after))
  {
    if Latest(project) in before.files {
      BytesRemove(before.files, Latest(project));
    } else {
      assert after.files == before.files;
    }
  }

  lemma ArchiveMovesCount(before: CacheState, project: Project, runId: RunId, commands: seq<Command>, after: CacheState)
    requires Valid(before) && Valid(after) && NeverUndercounts(before)
    requires Archived(before, project, runId, commands, after)
    ensures NeverUndercounts(after)
    ensures Tracks(before) && NothingReplaced(before.files, project, runId, commands) ==> Tracks(after)
  {
    ArchiveAccounts(before.files, project, runId, commands);
    OverwrittenExactly(before.files, project, runId, commands);
  }

  lemma ReclaimMovesCount(before: CacheState, project: Project, after: CacheState)
    requires Valid(before) && NeverUndercounts(before)
    requires ProjectReclaimed(before, project, after)
    ensures NeverUndercounts(after) && (Tracks(before) ==> Tracks(after))
  {
    BytesDirectory(before.files, ProjectDirectory(project));
  }

  /** A prune stores what its walk found less what it removed, so afterwards the count is
      off by the length of the index file the walk met, whatever it was off by before. */
  lemma PruneResetsCount(before: CacheState, limit: nat, protection: Protection, after: CacheState, stats: PruneStats)
    requires Valid(before) && Pruned(before, limit, protection, after, stats)
    ensures after != before ==> after.index == Holds(Bytes(after.files) + IndexLength(before.index))
  {
  }

  lemma AppendedLineMovesCount(before: CacheState, project: Project, line: HistoryLine)
    requires Valid(before) && Valid(WithLine(before, project, line))
    ensures var appended := WithLine(before, project, line);
            && (NeverUndercounts(before) ==> NeverUndercounts(appended))
            && (Tracks(before) ==> Tracks(appended))
  {
    var lines := LinesOf(before.files, project);
    assert (lines + [line])[..|lines|] == lines;
    assert SizeOrZero(before.files, History(project)) == LinesBytes(lines);
    BytesUpdate(before.files, History(project), Lines(lines + [line]));
  }

  lemma AppendMovesCount(before: CacheState, project: Project, line: HistoryLine, limit: Option<nat>,
                         after: CacheState, stats: PruneStats)
    requires Valid(before) && NeverUndercounts(before) && Valid(WithLine(before, project, line))
    requires Appended(before, project, line, limit, after, stats)
    ensures NeverUndercounts(after)
    ensures Tracks(before) && IndexLength(before.index) <= MAX_INDEX_DIGITS ==> Tracks(after)
  {
    var appended := WithLine(before, project, line);
    AppendedLineMovesCount(before, project, line);
    if appended.index.Holds? {
      IndexDigitsBound(appended.index.count);
    }
    if limit.Some? {
      PruneResetsCount(appended, limit.value, Protects(project, line.run.value.runId), after, stats);
    }
  }

  lemma StepCounts(before: CacheState, operation: Operation, after: CacheState)
    requires Valid(before) && Valid(after) && NeverUndercounts(before)
    requires Next(before, operation, after)
    ensures NeverUndercounts(after)
    ensures && Tracks(before)
            && IndexLength(before.index) <= MAX_INDEX_DIGITS
            && (operation.ArchiveRunOutput?
                ==> NothingReplaced(before.files, operation.project, operation.runId, operation.commands))
            ==> Tracks(after) && IndexLength(after.index) <= MAX_INDEX_DIGITS
  {
    if after.index.Holds? {
      IndexDigitsBound(after.index.count);
    }
    match operation
    case WriteFile(file, length) => WriteMovesCount(before, file, length, after);
    case ClearLatest(project) => ClearMovesCount(before, project, after);
    case ArchiveRunOutput(project, runId, commands) => ArchiveMovesCount(before, project, runId, commands, after);
    case AppendHistory(project, line, limit) =>
      var stats :| Appended(before, project, line, limit, after, stats);
      AppendMovesCount(before, project, line, limit, after, stats);
    case ReclaimProject(project) => ReclaimMovesCount(before, project, after);
    case ReadUsage =>
  }

  lemma RunStepNeverUndercounts(states: seq<CacheState>, operations: seq<Operation>, i: nat)
    requires IsRun(states, operations) && i < |operations| && NeverUndercounts(states[i])
    ensures NeverUndercounts(states[i + 1])
  {
    assert RunsOperation(states, operations, i);
    StepCounts(states[i], operations[i], states[i + 1]);
  }

  /** Whatever is run on a cache that starts without an index, the stored count never falls
      below the bytes of the files it stands for. */
  lemma {:induction false} RunNeverUndercounts(states: seq<CacheState>, operations: seq<Operation>, i: nat)
    requires IsRun(states, operations) && i < |states|
    requires states[0].index == Absent
    ensures NeverUndercounts(states[i])
  {
    if i > 0 {
      RunNeverUndercounts(states, operations, i - 1);
      RunStepNeverUndercounts(states, operations, i - 1);
    }
  }

  /** ... and exceeds them by at most the twenty digits its own file can have, as long as
      no archived log is replaced. */
  lemma {:induction false} RunTracks(states: seq<CacheState>, operations: seq<Operation>, i: nat)
    requires IsRun(states, operations) && i < |states|
    requires states[0].index == Absent
    requires forall k :: 0 <= k < i && operations[k].ArchiveRunOutput? ==>
               NothingReplaced(states[k].files, operations[k].project, operations[k].runId, operations[k].commands)
    ensures Tracks(states[i]) && IndexLength(states[i].index) <= MAX_INDEX_DIGITS
  {
    if i > 0 {
      RunTracks(states, operations, i - 1);
      RunNeverUndercounts(states, operations, i - 1);
      assert RunsOperation(states, operations, i - 1);
      StepCounts(states[i - 1], operations[i - 1], states[i]);
    }
  }

  /** A fresh run directory and distinct command names are enough. */
  lemma FreshArchiveReplacesNothing(files: Files, project: Project, runId: RunId, commands: seq<Command>)
    requires FilesUnder(files, RunDirectory(project, runId)) == map[]
    requires forall i, j :: 0 <= i < j < |commands| ==> commands[i].name != commands[j].name
    ensures NothingReplaced(files, project, runId, commands)
  {
    forall name ensures ArchivedLog(project, runId, name) !in files {
      assert ArchivedLog(project, runId, name) !in FilesUnder(files, RunDirectory(project, runId));
    }
  }

  // ---------------------------------------------------------------------------
  // What an append keeps and evicts
  // ---------------------------------------------------------------------------

  /** Kept lines keep their order: they are the lines at the indices that stay, ascending. */
  lemma {:induction false} KeepLinesInOrder(lines: seq<HistoryLine>, removed: set<nat>) returns (kept: seq<nat>)
    ensures forall i, j :: 0 <= i < j < |kept| ==> kept[i] < kept[j]
    ensures forall index: nat :: index in kept <==> index < |lines| && index !in removed
    ensures Selected(lines, kept) == KeepLines(lines, removed)
  {
    if lines == [] {
      return [];
    }
    var last := |lines| - 1;
    var front := KeepLinesInOrder(lines[..last], removed);
    forall i | 0 <= i < |front| ensures front[i] < last {
      assert front[i] in front;
    }
    kept := if last in removed then front else front + [last];
    SelectedExtends(lines, front);
  }

  lemma SelectedExtends(lines: seq<HistoryLine>, kept: seq<nat>)
    requires lines != [] && forall index <- kept :: index < |lines| - 1
    ensures Selected(lines, kept) == Selected(lines[..|lines| - 1], kept)
    ensures Selected(lines, kept + [|lines| - 1]) == Selected(lines[..|lines| - 1], kept) + [lines[|lines| - 1]]
  {
    var last := |lines| - 1;
    forall i | 0 <= i < |kept| ensures Selected(lines, kept)[i] == Selected(lines[..last], kept)[i] {
      assert kept[i] in kept;
    }
  }

  /** The run just appended survives its own prune, line and archive. */
  lemma AppendKeepsItsRun(before: CacheState, project: Project, line: HistoryLine, limit: Option<nat>,
                          after: CacheState, stats: PruneStats)
    requires Valid(WithLine(before, project, line))
    requires Appended(before, project, line, limit, after, stats)
    ensures line in LinesOf(after.files, project)
    ensures forall name :: SameEntry(before.files, after.files, ArchivedLog(project, line.run.value.runId, name))
  {
    var appended := WithLine(before, project, line);
    var lines := LinesOf(appended.files, project);
    assert lines[|lines| - 1] == line;
    if limit.Some? && after != appended {
      var runs, evicted := PruneSparesProtected(appended, limit.value, project, line.run.value.runId, after, stats);
      forall run | run in evicted ensures !(run.project == project && run.lineIndex == |lines| - 1) {
        assert IsRunOf(appended.files, run);
      }
      EvictSparesLine(appended.files, evicted, project, |lines| - 1);
      forall name ensures SameEntry(before.files, after.files, ArchivedLog(project, line.run.value.runId, name)) {
        EvictSparesArchive(appended.files, evicted, project, line.run.value.runId, name);
      }
    }
  }

  lemma PruneSparesProtected(before: CacheState, limit: nat, project: Project, runId: RunId,
                             after: CacheState, stats: PruneStats)
      returns (runs: seq<PrunableRun>, evicted: seq<PrunableRun>)
    requires Pruned(before, limit, Protects(project, runId), after, stats) && after != before
    ensures IsListing(before.files, runs) && after.files == Evict(before.files, evicted)
    ensures forall run <- evicted :: IsRunOf(before.files, run) && !(run.project == project && run.runId == runId)
  {
    var protection := Protects(project, runId);
    var listed, count := PrunedRuns(before, limit, protection, after, stats);
    runs := listed;
    evicted := Evictable(runs, protection)[..count];
    EvictableMembers(runs, protection);
    assert forall run <- evicted :: run in Evictable(runs, protection);
  }

  /** A prune that had to go to work listed runs and evicted some of them. */
  lemma PrunedRuns(before: CacheState, limit: nat, protection: Protection, after: CacheState, stats: PruneStats)
      returns (runs: seq<PrunableRun>, count: nat)
    requires Pruned(before, limit, protection, after, stats)
    requires after != before || (limit < WalkedBytes(before) && !NoRuns(before.files))
    ensures limit < WalkedBytes(before) && PrunedBy(before, limit, protection, runs, count, after, stats)
  {
    runs, count :| PrunedBy(before, limit, protection, runs, count, after, stats);
  }

  ghost predicate OnlyRunsOf(files: Files, project: Project, runId: RunId) {
    forall run :: IsRunOf(files, run) ==> run.project == project && run.runId == runId
  }

  /** Evicting every run a prune may evict leaves only lines of the protected run. */
  lemma EvictingAllLeavesProtected(files: Files, runs: seq<PrunableRun>, project: Project, runId: RunId)
    requires IsListing(files, runs)
    ensures OnlyRunsOf(Evict(files, Evictable(runs, Protects(project, runId))), project, runId)
  {
    var evicted := Evictable(runs, Protects(project, runId));
    EvictableMembers(runs, Protects(project, runId));
    forall run | IsRunOf(Evict(files, evicted), run) ensures run.project == project && run.runId == runId {
      EvictedLine(files, evicted, run.project);
      var lines := LinesOf(files, run.project);
      var removed := RemovedFrom(RemovedLinesOf(evicted), run.project);
      KeepLinesMembers(lines, removed);
      var line := KeepLines(lines, removed)[run.lineIndex];
      assert line in KeepLines(lines, removed);
      var i :| 0 <= i < |lines| && i !in removed && lines[i] == line;
      var original := PrunableRun(run.project, i, run.sortKey, run.runId);
      assert IsRunOf(files, original);
      RemovedLinesMembers(evicted, run.project, i);
      assert forall k :: 0 <= k < |evicted| ==> evicted[k] != original;
    }
  }

  /** Every line that parses is long enough for the fields a run must have, and so longer
      than any index file. */
  ghost predicate RunLinesAreLong(files: Files) {
    forall run :: IsRunOf(files, run) ==> LinesOf(files, run.project)[run.lineIndex].length + 1 >= MAX_INDEX_DIGITS
  }

  /** A prune that leaves evictable runs has brought the count within the limit; so has it the
      bytes a fresh walk would find, whatever digits the new index file has. */
  lemma PruneEndsWithin(before: CacheState, limit: nat, protection: Protection, runs: seq<PrunableRun>, count: nat,
                        after: CacheState, stats: PruneStats)
    requires Valid(before) && limit < WalkedBytes(before)
    requires PrunedBy(before, limit, protection, runs, count, after, stats)
    requires count < |Evictable(runs, protection)|
    ensures after.index.count <= limit
    ensures RunLinesAreLong(before.files) ==> WalkedBytes(after) <= limit
  {
    var evicted := Evictable(runs, protection)[..count];
    EvictFreesArchives(before.files, evicted);
    NothingEvicted(before.files);
    assert Evictable(runs, protection)[..0] == [];
    assert count > 0 && evicted[0] in Evictable(runs, protection);
    EvictableMembers(runs, protection);
    EvictFreesLine(before.files, evicted, 0);
    IndexDigitsBound(after.index.count);
  }

  /** An append that has to prune evicts an oldest-first prefix of the other runs, and
      either the total is back within the limit, as stored and as walked, or no other run
      is left. */
  lemma AppendEvictsOldest(before: CacheState, project: Project, line: HistoryLine, bytes: nat,
                           after: CacheState, stats: PruneStats)
      returns (evictable: seq<PrunableRun>)
    requires Valid(WithLine(before, project, line)) && bytes < WalkedBytes(WithLine(before, project, line))
    requires Appended(before, project, line, Some(bytes), after, stats)
    ensures OldestFirst(evictable)
    ensures forall run :: run in evictable <==>
              && IsRunOf(WithLine(before, project, line).files, run)
              && !(run.project == project && run.runId == line.run.value.runId)
    ensures stats.runsEvicted <= |evictable|
    ensures after.files == Evict(WithLine(before, project, line).files, evictable[..stats.runsEvicted])
    ensures after.index.Holds?
    ensures after.index.count <= bytes || OnlyRunsOf(after.files, project, line.run.value.runId)
    ensures RunLinesAreLong(WithLine(before, project, line).files) ==>
              WalkedBytes(after) <= bytes || OnlyRunsOf(after.files, project, line.run.value.runId)
  {
    var appended := WithLine(before, project, line);
    var protection := Protects(project, line.run.value.runId);
    AppendedRun(before, project, line);
    var runs, count := PrunedRuns(appended, bytes, protection, after, stats);
    evictable := Evictable(runs, protection);
    EvictableMembers(runs, protection);
    EvictableOldestFirst(runs, protection);
    if count == |evictable| {
      assert evictable[..count] == evictable;
      EvictingAllLeavesProtected(appended.files, runs, project, line.run.value.runId);
    } else {
      PruneEndsWithin(appended, bytes, protection, runs, count, after, stats);
    }
  }

  lemma AppendedRun(before: CacheState, project: Project, line: HistoryLine)
    requires line.run.Some?
    ensures !NoRuns(WithLine(before, project, line).files)
  {
    var lines := LinesOf(WithLine(before, project, line).files, project);
    assert IsRunOf(WithLine(before, project, line).files,
                   PrunableRun(project, |lines| - 1, line.run.value.sortKey, line.run.value.runId));
  }

  /** The stored count and the walk differ by the index files alone: the one the prune met and
      the one it wrote. So whatever the lines, a walk is within a limit exactly when the count
      with its own digits is, give or take the old file. */
  lemma WalkAfterPrune(before: CacheState, limit: nat, protection: Protection, after: CacheState, stats: PruneStats)
    requires Valid(before) && Pruned(before, limit, protection, after, stats) && after != before
    ensures after.index.Holds?
    ensures WalkedBytes(after) <= limit
       <==> after.index.count + IndexLength(after.index) <= limit + IndexLength(before.index)
  {
    PruneResetsCount(before, limit, protection, after, stats);
  }

  lemma SelectedOvershoot(before: CacheState, limit: nat, evictable: seq<PrunableRun>, count: nat)
    requires limit < WalkedBytes(before) && count <= |evictable|
    ensures Selects(before, limit, evictable, count) ==>
              !Overshoots(before.files, evictable[..count], WalkedBytes(before) - limit, BatchBytes(limit))
  {
    ArchivesOvershoot(before.files, evictable, WalkedBytes(before) - limit, BatchBytes(limit), count);
  }

  /** The archives a prune frees stay below the excess plus a twentieth of the limit, or one
      byte where that is nothing, plus the last of them. */
  lemma PruneOvershoot(before: CacheState, limit: nat, protection: Protection, after: CacheState, stats: PruneStats)
      returns (evicted: seq<PrunableRun>)
    requires Pruned(before, limit, protection, after, stats) && after != before
    ensures |evicted| == stats.runsEvicted && after.files == Evict(before.files, evicted)
    ensures evicted != [] ==>
              ArchiveBytes(before.files, evicted)
              < WalkedBytes(before) - limit + (if limit < 20 then 1 else limit / 20)
                + LastArchiveBytes(before.files, evicted)
  {
    var runs, count := PrunedRuns(before, limit, protection, after, stats);
    evicted := Evictable(runs, protection)[..count];
    SelectedOvershoot(before, limit, Evictable(runs, protection), count);
    TwentiethOfLimit(limit);
  }

  lemma TwentiethOfLimit(limit: nat)
    ensures BatchBytes(limit) == if limit < 20 then 1 else limit / 20
  {
  }

  lemma SelectedFrees(before: CacheState, limit: nat, evictable: seq<PrunableRun>, count: nat)
    requires limit < WalkedBytes(before) && count < |evictable|
    ensures Selects(before, limit, evictable, count) ==>
              && WalkedBytes(before) - limit <= ArchiveBytes(before.files, evictable[..count])
              && BatchBytes(limit) <= ArchiveBytes(before.files, evictable[..count])
  {
    NothingEvicted(before.files);
    assert evictable[..0] == [];
    StoppedAboveBatch(Reclaimed(before.files, evictable), WalkedBytes(before) - limit, BatchBytes(limit), count);
  }

  /** A prune that leaves a run it may evict has freed all that was too much, and at least a
      twentieth of the limit, and at least one byte. */
  lemma PruneFreesBatch(before: CacheState, limit: nat, protection: Protection, after: CacheState, stats: PruneStats)
      returns (evictable: seq<PrunableRun>)
    requires Pruned(before, limit, protection, after, stats)
    requires limit < WalkedBytes(before) && !NoRuns(before.files)
    ensures forall i, j :: 0 <= i < j < |evictable| ==>
              var left, right := evictable[i], evictable[j];
              || left.sortKey < right.sortKey
              || (left.sortKey == right.sortKey
                  && (|| left.project < right.project
                      || (left.project == right.project && left.lineIndex < right.lineIndex)))
    ensures forall run :: run in evictable <==> IsRunOf(before.files, run) && !protection.Covers(run)
    ensures stats.runsEvicted <= |evictable| && after.files == Evict(before.files, evictable[..stats.runsEvicted])
    ensures stats.runsEvicted < |evictable| ==>
              var freed := ArchiveBytes(before.files, evictable[..stats.runsEvicted]);
              freed >= WalkedBytes(before) - limit && freed >= limit / 20 && freed >= 1
  {
    var runs, count := PrunedRuns(before, limit, protection, after, stats);
    evictable := Evictable(runs, protection);
    EvictableMembers(runs, protection);
    EvictableOldestFirst(runs, protection);
    if count < |evictable| {
      SelectedFrees(before, limit, evictable, count);
      TwentiethOfLimit(limit);
    }
  }
}
