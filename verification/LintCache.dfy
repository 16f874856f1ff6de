/** The lint cache directory and the byte count that stands in for walking it
    (src/lint/history.rs, cache_size_index.rs, read_write.rs, reclaim.rs). */
module LintCache {
  import opened Common
  import Decimal
  import opened CacheFiles
  import opened CacheEviction
  import opened EvictionBatches

  // ---------------------------------------------------------------------------
  // The byte-count index
  // ---------------------------------------------------------------------------

  /** The `.cache_size` file at the cache root: a decimal number when it parses. */
  datatype IndexFile = Absent | Holds(count: nat) | Unparseable(length: nat)

  /** The length of the index file, which a walk of the cache root counts too. */
  function IndexLength(index: IndexFile): nat {
    match index
    case Absent => 0
    case Holds(count) => |Decimal.Digits(count)|
    case Unparseable(length) => length
  }

  const MAX_INDEX_DIGITS: nat := 20

  lemma IndexDigitsBound(count: nat)
    requires count <= U64_MAX
    ensures |Decimal.Digits(count)| <= MAX_INDEX_DIGITS
  {
    assert Decimal.Power10(5) == 10 * (10 * (10 * (10 * (10 * Decimal.Power10(0)))));
    assert Decimal.Power10(10) == 10 * (10 * (10 * (10 * (10 * Decimal.Power10(5)))));
    assert Decimal.Power10(15) == 10 * (10 * (10 * (10 * (10 * Decimal.Power10(10)))));
    assert Decimal.Power10(20) == 10 * (10 * (10 * (10 * (10 * Decimal.Power10(15)))));
    Decimal.DigitsBound(count, MAX_INDEX_DIGITS);
  }

  /** Clamp a byte delta to what an `i64` holds. */
  function ClampI64(delta: int): int {
    if delta > I64_MAX then I64_MAX
    else if delta < -I64_MAX - 1 then -I64_MAX - 1
    else delta
  }

  /** The stored count after a signed adjustment; an index that does not parse is
      left alone. */
  function AdjustIndex(index: IndexFile, delta: int): IndexFile {
    if !index.Holds? then index
    else if delta >= 0 then Holds(SaturatingAdd(index.count, delta))
    else Holds(SaturatingSub(index.count, -delta))
  }

  // ---------------------------------------------------------------------------
  // What each operation does to the cache
  // ---------------------------------------------------------------------------

  datatype CacheState = CacheState(files: Files, index: IndexFile)

  ghost predicate Valid(cache: CacheState) {
    && WellTyped(cache.files)
    && (cache.index.Holds? ==> cache.index.count <= U64_MAX)
    && Bytes(cache.files) + IndexLength(cache.index) <= I64_MAX
  }

  /** What `total_bytes_under` finds below the cache root. */
  ghost function WalkedBytes(cache: CacheState): nat {
    Bytes(cache.files) + IndexLength(cache.index)
  }

  ghost predicate WroteFile(before: CacheState, file: CacheFile, length: nat, after: CacheState) {
    && !file.History?
    && after.files == before.files[file := Sized(length)]
    && after.index == AdjustIndex(before.index, ClampI64(length - SizeOrZero(before.files, file)))
  }

  ghost predicate ClearedLatest(before: CacheState, project: Project, after: CacheState) {
    && after.files == before.files - {Latest(project)}
    && after.index == AdjustIndex(before.index, ClampI64(0 - SizeOrZero(before.files, Latest(project))))
  }

  /** One lint command: the name its archived log gets and the rolling log it left. */
  datatype Command = Command(name: LogName, rollingLog: LogName)

  function ArchivedCopy(files: Files, project: Project, runId: RunId, commands: seq<Command>): Files {
    if commands == [] then files
    else
      var copied := ArchivedCopy(files, project, runId, commands[..|commands| - 1]);
      var command := commands[|commands| - 1];
      var source := RollingLog(project, command.rollingLog);
      if source in files
      then copied[ArchivedLog(project, runId, command.name) := Sized(Length(files[source]))]
      else copied
  }

  function CopiedBytes(files: Files, project: Project, commands: seq<Command>): nat {
    if commands == [] then 0
    else
      CopiedBytes(files, project, commands[..|commands| - 1])
      + SizeOrZero(files, RollingLog(project, commands[|commands| - 1].rollingLog))
  }

  ghost predicate Archived(before: CacheState, project: Project, runId: RunId, commands: seq<Command>,
                           after: CacheState)
  {
    && after.files == ArchivedCopy(before.files, project, runId, commands)
    && after.index == AdjustIndex(before.index, ClampI64(CopiedBytes(before.files, project, commands)))
  }

  datatype PruneStats = PruneStats(runsEvicted: nat, bytesReclaimed: nat)

  ghost predicate NoRuns(files: Files) {
    forall run :: !IsRunOf(files, run)
  }

  /** The runs a prune may evict, and how many of them the batch rule makes it evict. */
  ghost predicate Selects(before: CacheState, limit: nat, evictable: seq<PrunableRun>, count: nat)
    requires limit < WalkedBytes(before)
  {
    StopsAfter(before.files, evictable, WalkedBytes(before) - limit, BatchBytes(limit), count)
  }

  ghost predicate PrunedBy(before: CacheState, limit: nat, protection: Protection,
                           runs: seq<PrunableRun>, count: nat, after: CacheState, stats: PruneStats)
    requires limit < WalkedBytes(before)
  {
    var evictable := Evictable(runs, protection);
    && IsListing(before.files, runs)
    && count <= |evictable|
    && Selects(before, limit, evictable, count)
    && after.files == Evict(before.files, evictable[..count])
    && Bytes(after.files) <= Bytes(before.files)
    && after.index == Holds(WalkedBytes(before) - (Bytes(before.files) - Bytes(after.files)))
    && stats == PruneStats(count, Bytes(before.files) - Bytes(after.files))
  }

  ghost predicate Pruned(before: CacheState, limit: nat, protection: Protection, after: CacheState, stats: PruneStats) {
    if WalkedBytes(before) <= limit || NoRuns(before.files)
    then after == before && stats == PruneStats(0, 0)
    else exists runs, count: nat :: PrunedBy(before, limit, protection, runs, count, after, stats)
  }

  function WithLine(cache: CacheState, project: Project, line: HistoryLine): CacheState {
    CacheState(
      cache.files[History(project) := Lines(LinesOf(cache.files, project) + [line])],
      AdjustIndex(cache.index, ClampI64(line.length + 1)))
  }

  ghost predicate Appended(before: CacheState, project: Project, line: HistoryLine, limit: Option<nat>,
                           after: CacheState, stats: PruneStats)
  {
    && line.run.Some?
    && match limit
       case None => after == WithLine(before, project, line) && stats == PruneStats(0, 0)
       case Some(bytes) =>
         Pruned(WithLine(before, project, line), bytes, Protects(project, line.run.value.runId), after, stats)
  }

  ghost predicate ProjectReclaimed(before: CacheState, project: Project, after: CacheState) {
    && after.files == FilesOutside(before.files, ProjectDirectory(project))
    && after.index
       == AdjustIndex(before.index, ClampI64(0 - Bytes(FilesUnder(before.files, ProjectDirectory(project)))))
  }

  ghost predicate UsageRead(before: CacheState, bytes: nat, after: CacheState) {
    && after.files == before.files
    && bytes == (if before.index.Holds? then before.index.count else WalkedBytes(before))
    && after.index == Holds(bytes)
  }

  // ---------------------------------------------------------------------------
  // The cache on disk
  // ---------------------------------------------------------------------------

  class Cache {
    var files: Files
    var index: IndexFile

    ghost function State(): CacheState
      reads this
    {
      CacheState(files, index)
    }

    constructor (files: Files, index: IndexFile)
      ensures State() == CacheState(files, index)
    {
      this.files := files;
      this.index := index;
    }

    method AdjustCount(delta: int)
      modifies this`index
      ensures index == AdjustIndex(old(index), delta)
    {
      if index.Holds? {
        var current := index.count;
        if delta >= 0 {
          index := Holds(SaturatingAdd(current, delta));
        } else {
          index := Holds(SaturatingSub(current, -delta));
        }
      }
    }

    method ApplyWriteDelta(oldSize: nat, newSize: nat)
      modifies this`index
      requires index.Holds? ==> index.count <= U64_MAX
      ensures index == AdjustIndex(old(index), ClampI64(newSize - oldSize))
    {
      if newSize == oldSize {
        SaturatingNoChange(index);
        return;
      }
      AdjustCount(ClampI64(newSize - oldSize));
    }

    /** `write_latest_under`, and the rolling-log write of a lint command. */
    method WriteFile(file: CacheFile, length: nat)
      requires Valid(State()) && !file.History?
      modifies this
      ensures WroteFile(old(State()), file, length, State())
    {
      var oldSize := SizeOrZero(files, file);
      files := files[file := Sized(length)];
      var newSize := SizeOrZero(files, file);
      ApplyWriteDelta(oldSize, newSize);
    }

    method ClearLatest(project: Project)
      requires Valid(State())
      modifies this
      ensures ClearedLatest(old(State()), project, State())
    {
      var oldSize := SizeOrZero(files, Latest(project));
      if Latest(project) in files {
        files := files - {Latest(project)};
        ApplyWriteDelta(oldSize, 0);
      } else {
        SaturatingNoChange(index);
        assert files - {Latest(project)} == files;
      }
    }

    /** `archive_run_output`: copy every command's rolling log into the run's directory. */
    method ArchiveRunOutput(project: Project, runId: RunId, commands: seq<Command>) returns (archivedBytes: nat)
      requires Valid(State())
      modifies this
      ensures Archived(old(State()), project, runId, commands, State())
      ensures archivedBytes <= CopiedBytes(old(files), project, commands)
      ensures CopiedBytes(old(files), project, commands) <= U64_MAX
        ==> archivedBytes == CopiedBytes(old(files), project, commands)
    {
      archivedBytes := 0;
      ghost var before := files;
      for i := 0 to |commands|
        invariant files == ArchivedCopy(before, project, runId, commands[..i])
        invariant forall name :: SameEntry(files, before, RollingLog(project, name))
        invariant var copied := CopiedBytes(before, project, commands[..i]);
          archivedBytes == if copied <= U64_MAX then copied else U64_MAX
        invariant index == old(index)
      {
        assert commands[..i + 1][..i] == commands[..i];
        var source := RollingLog(project, commands[i].rollingLog);
        assert SameEntry(files, before, source);
        if source in files {
          var length := Length(files[source]);
          files := files[ArchivedLog(project, runId, commands[i].name) := Sized(length)];
          archivedBytes := SaturatingAdd(archivedBytes, length);
        }
      }
      assert commands[..|commands|] == commands;
      SaturatingNoChange(index);
      if archivedBytes > 0 {
        AdjustCount(ClampI64(archivedBytes));
      }
    }

    /** `retained_cache_usage_under`: the stored count, or a walk that seeds it. */
    method ReadUsage() returns (bytes: nat)
      requires Valid(State())
      modifies this`index
      ensures UsageRead(old(State()), bytes, State())
    {
      if index.Holds? {
        bytes := index.count;
      } else {
        var walked := TotalBytes(files);
        bytes := walked + IndexLength(index);
        index := Holds(bytes);
      }
    }

    method ReclaimProject(project: Project)
      requires Valid(State())
      modifies this
      ensures ProjectReclaimed(old(State()), project, State())
    {
      var directory := ProjectDirectory(project);
      var bytes := TotalBytes(FilesUnder(files, directory));
      files := FilesOutside(files, directory);
      SaturatingNoChange(index);
      if bytes > 0 {
        var removed: int := bytes;
        AdjustCount(ClampI64(-removed));
      }
    }

    method AppendHistory(project: Project, line: HistoryLine, limit: Option<nat>) returns (stats: PruneStats)
      requires Valid(State()) && line.run.Some?
      requires Valid(WithLine(State(), project, line))
      modifies this
      ensures Appended(old(State()), project, line, limit, State(), stats)
    {
      files := files[History(project) := Lines(LinesOf(files, project) + [line])];
      AdjustCount(ClampI64(line.length + 1));
      match limit
      case None => stats := PruneStats(0, 0);
      case Some(bytes) => stats := PruneRuns(bytes, Protects(project, line.run.value.runId));
    }

    method CollectPrunableRuns() returns (runs: seq<PrunableRun>)
      requires WellTyped(files)
      ensures forall run :: run in runs <==> IsRunOf(files, run)
      ensures forall i, j :: 0 <= i < j < |runs| ==> !SameLine(runs[i], runs[j])
    {
      runs := [];
      var remaining := set file | file in files && file.History? :: file.project;
      ghost var visited: set<Project> := {};
      while remaining != {}
        invariant forall project :: project in visited || project in remaining <==> History(project) in files
        invariant visited !! remaining
        invariant forall run :: run in runs <==> run.project in visited && IsRunOf(files, run)
        invariant forall i, j :: 0 <= i < j < |runs| ==> !SameLine(runs[i], runs[j])
        decreases |remaining|
      {
        var project :| project in remaining;
        var lines := LinesOf(files, project);
        for lineIndex := 0 to |lines|
          invariant forall run :: run in runs <==>
                                  && IsRunOf(files, run)
                                  && (run.project in visited || (run.project == project && run.lineIndex < lineIndex))
          invariant forall i, j :: 0 <= i < j < |runs| ==> !SameLine(runs[i], runs[j])
        {
          if lines[lineIndex].run.Some? {
            var RunSummary(runId, sortKey) := lines[lineIndex].run.value;
            var run := PrunableRun(project, lineIndex, sortKey, runId);
            assert forall earlier <- runs :: !SameLine(earlier, run);
            runs := runs + [run];
          }
        }
        remaining := remaining - {project};
        visited := visited + {project};
      }
    }

    method {:induction false} SortOldestFirst(runs: seq<PrunableRun>) returns (sorted: seq<PrunableRun>)
      requires forall i, j :: 0 <= i < j < |runs| ==> !SameLine(runs[i], runs[j])
      ensures OldestFirst(sorted)
      ensures forall run :: run in sorted <==> run in runs
    {
      sorted := [];
      for i := 0 to |runs|
        invariant OldestFirst(sorted)
        invariant forall run :: run in sorted <==> run in runs[..i]
      {
        var position := 0;
        while position < |sorted| && OlderThan(sorted[position], runs[i])
          invariant position <= |sorted|
          invariant forall k :: 0 <= k < position ==> OlderThan(sorted[k], runs[i])
        {
          position := position + 1;
        }
        if position < |sorted| {
          assert sorted[position] in runs[..i];
          NotOlder(sorted[position], runs[i]);
        }
        InsertedOldestFirst(sorted, position, runs[i]);
        sorted := sorted[..position] + [runs[i]] + sorted[position..];
        assert runs[..i + 1] == runs[..i] + [runs[i]];
      }
      assert runs[..|runs|] == runs;
    }

    method RemoveArchive(run: PrunableRun) returns (bytes: nat)
      modifies this`files
      ensures files == FilesOutside(old(files), run.Archive())
      ensures bytes == Bytes(FilesUnder(old(files), run.Archive()))
    {
      bytes := 0;
      var archived := FilesUnder(files, run.Archive());
      if archived != map[] {
        bytes := TotalBytes(archived);
        files := FilesOutside(files, run.Archive());
      } else {
        assert forall file <- files :: file !in archived;
        assert FilesOutside(files, run.Archive()) == files;
      }
    }

    method NextTarget(reclaimed: nat, batch: nat) returns (target: nat)
      requires batch >= 1 && reclaimed + batch <= U64_MAX
      ensures target == Boundary(reclaimed, batch)
    {
      AdvanceTargetExact(reclaimed, batch);
      target := AdvanceTarget(reclaimed, batch);
    }

    /** One archive gone, and the target moved if what it freed was not enough. */
    method EvictOne(run: PrunableRun, limit: nat, total: nat, reclaimed: nat, target: nat)
        returns (newTotal: nat, newReclaimed: nat, newTarget: nat)
      requires reclaimed + Bytes(files) <= reclaimed + total <= I64_MAX && limit < I64_MAX
      modifies this`files
      ensures files == FilesOutside(old(files), run.Archive())
      ensures var bytes := Bytes(FilesUnder(old(files), run.Archive()));
              && newTotal == total - bytes && newReclaimed == reclaimed + bytes
              && newTarget == if target <= newReclaimed < reclaimed + total - limit
                              then Boundary(newReclaimed, BatchBytes(limit))
                              else target
      ensures newTarget <= newReclaimed ==> newTotal <= limit
    {
      BytesDirectory(files, run.Archive());
      var bytes := RemoveArchive(run);
      newTotal := SaturatingSub(total, bytes);
      newReclaimed := SaturatingAdd(reclaimed, bytes);
      newTarget := target;
      if newReclaimed >= target && newTotal > limit {
        newTarget := NextTarget(newReclaimed, BatchBytes(limit));
        BatchBoundary(newReclaimed, newReclaimed, BatchBytes(limit));
      }
    }

    /** One turn of the eviction loop. */
    method EvictNext(run: PrunableRun, limit: nat, total: nat, reclaimed: nat, target: nat,
                     ghost before: Files, ghost excess: nat, ghost evicted: seq<PrunableRun>)
        returns (newTotal: nat, newReclaimed: nat, newTarget: nat)
      requires LoopStateAfter(before, excess, BatchBytes(limit), evicted) == LoopState(files, reclaimed, target, true)
      requires reclaimed + total == excess + limit <= I64_MAX && Bytes(before) <= excess + limit && 0 < excess
      requires reclaimed < target || reclaimed < excess
      modifies this`files
      ensures LoopStateAfter(before, excess, BatchBytes(limit), evicted + [run])
           == LoopState(files, newReclaimed, newTarget, true)
      ensures newReclaimed + newTotal == reclaimed + total
      ensures newTarget <= newReclaimed ==> newTotal <= limit
    {
      ghost var held := files;
      FreedBound(before, excess, BatchBytes(limit), evicted, held, reclaimed, target);
      newTotal, newReclaimed, newTarget := EvictOne(run, limit, total, reclaimed, target);
      EvictionTurn(before, excess, BatchBytes(limit), evicted, held, reclaimed, target, run, newReclaimed, newTarget);
    }

    /** The eviction loop: archives go now, the history lines they belong to later. */
    method EvictArchives(runs: seq<PrunableRun>, limit: nat, protection: Protection, bytesBefore: nat)
        returns (evicted: seq<PrunableRun>, total: nat, reclaimed: nat)
      requires Bytes(files) <= bytesBefore <= I64_MAX && limit < bytesBefore
      modifies this`files
      ensures evicted <= Evictable(runs, protection)
      ensures StopsAfter(old(files), Evictable(runs, protection), bytesBefore - limit, BatchBytes(limit), |evicted|)
      ensures files == WithoutArchives(old(files), evicted)
      ensures reclaimed == ArchiveBytes(old(files), evicted)
      ensures reclaimed + total == bytesBefore
    {
      ghost var before := files;
      ghost var batch := BatchBytes(limit);
      var target: nat := BatchBytes(limit);
      total, reclaimed, evicted := bytesBefore, 0, [];
      NothingEvicted(before);
      var i := 0;
      while i < |runs|
        invariant i <= |runs|
        invariant evicted == Evictable(runs[..i], protection)
        invariant LoopStateAfter(before, bytesBefore - limit, batch, evicted)
             == LoopState(files, reclaimed, target, true)
        invariant reclaimed + total == bytesBefore && (target <= reclaimed ==> total <= limit)
      {
        if reclaimed >= target && total <= limit {
          break;
        }
        EvictableOneMore(runs, i, protection);
        var run := runs[i];
        i := i + 1;
        if protection.Covers(run) {
          continue;
        }
        total, reclaimed, target := EvictNext(run, limit, total, reclaimed, target, before, bytesBefore - limit,
                                              evicted);
        evicted := evicted + [run];
      }
      EvictionComplete(before, runs, i, protection, bytesBefore - limit, batch, evicted, files, reclaimed, target);
    }

    method KeptIndices(lines: seq<HistoryLine>, removed: set<nat>) returns (kept: seq<nat>)
      ensures forall index <- kept :: index < |lines|
      ensures Selected(lines, kept) == KeepLines(lines, removed)
    {
      kept := [];
      for index := 0 to |lines|
        invariant forall earlier <- kept :: earlier < index
        invariant Selected(lines, kept) == KeepLines(lines[..index], removed)
      {
        assert lines[..index + 1][..index] == lines[..index];
        if index !in removed {
          kept := kept + [index];
        }
      }
      assert lines[..|lines|] == lines;
    }

    method RewriteHistoryFile(project: Project, kept: seq<nat>)
      requires History(project) in files
      requires forall index <- kept :: index < |LinesOf(files, project)|
      modifies this`files
      ensures files == if kept == [] then old(files) - {History(project)}
                       else old(files)[History(project) := Lines(Selected(LinesOf(old(files), project), kept))]
    {
      if kept == [] {
        files := files - {History(project)};
        return;
      }
      var lines := LinesOf(files, project);
      var rewritten := [];
      for i := 0 to |kept|
        invariant |rewritten| == i && forall j :: 0 <= j < i ==> rewritten[j] == Selected(lines, kept)[j]
      {
        assert kept[i] in kept;
        rewritten := rewritten + [lines[kept[i]]];
      }
      assert rewritten == Selected(lines, kept);
      files := files[History(project) := Lines(rewritten)];
    }

    method RewriteOneHistory(project: Project, removed: set<nat>, totalBefore: nat) returns (total: nat)
      requires WellTyped(files) && History(project) in files && Bytes(files) <= totalBefore
      modifies this`files
      ensures files == RewriteHistory(old(files), project, removed)
      ensures Bytes(files) <= Bytes(old(files)) && total == totalBefore - (Bytes(old(files)) - Bytes(files))
    {
      RewriteHistoryBytes(files, project, removed);
      var kept := KeptIndices(LinesOf(files, project), removed);
      var fileBefore := SizeOrZero(files, History(project));
      RewriteHistoryFile(project, kept);
      var fileAfter := SizeOrZero(files, History(project));
      total := SaturatingSub(totalBefore, SaturatingSub(fileBefore, fileAfter));
    }

    /** Rewrite every history a line was removed from, keeping the running total. */
    method RewriteAffectedHistories(removed: RemovedLines, totalBefore: nat) returns (total: nat)
      requires WellTyped(files) && Bytes(files) <= totalBefore
      requires forall project <- removed :: History(project) in files
      modifies this`files
      ensures files == RewriteHistories(old(files), removed)
      ensures Bytes(files) <= Bytes(old(files)) && total == totalBefore - (Bytes(old(files)) - Bytes(files))
    {
      ghost var before := files;
      total := totalBefore;
      var remaining := removed.Keys;
      assert RewriteHistories(before, removed - remaining) == before;
      while remaining != {}
        invariant remaining <= removed.Keys
        invariant files == RewriteHistories(before, removed - remaining)
        invariant Bytes(files) <= Bytes(before) && total == totalBefore - (Bytes(before) - Bytes(files))
        decreases remaining
      {
        var project :| project in remaining;
        RewriteRemaining(before, removed, remaining, project);
        total := RewriteOneHistory(project, removed[project], total);
        remaining := remaining - {project};
      }
      assert removed - {} == removed;
    }

    /** The part of a prune that runs once something has to go. */
    method EvictOldest(collected: seq<PrunableRun>, limit: nat, protection: Protection, bytesBefore: nat)
        returns (stats: PruneStats)
      requires Valid(State()) && bytesBefore == WalkedBytes(State()) && limit < bytesBefore
      requires forall run :: run in collected <==> IsRunOf(files, run)
      requires forall i, j :: 0 <= i < j < |collected| ==> !SameLine(collected[i], collected[j])
      modifies this
      ensures exists runs, count: nat :: PrunedBy(old(State()), limit, protection, runs, count, State(), stats)
    {
      ghost var before := State();
      var runs := SortOldestFirst(collected);
      assert IsListing(before.files, runs);
      var evicted, total, reclaimed := EvictArchives(runs, limit, protection, bytesBefore);
      EvictedHaveHistories(before.files, runs, protection, evicted);
      BytesWithoutArchives(before.files, evicted);
      total := RewriteAffectedHistories(RemovedLinesOf(evicted), total);
      index := Holds(total);
      stats := PruneStats(|evicted|, SaturatingSub(bytesBefore, total));
      EvictionPrunes(before, limit, protection, runs, evicted, State(), stats);
    }

    /** `prune_runs_under`. */
    method PruneRuns(limit: nat, protection: Protection) returns (stats: PruneStats)
      requires Valid(State())
      modifies this
      ensures Pruned(old(State()), limit, protection, State(), stats)
    {
      var walked := TotalBytes(files);
      var bytesBefore := walked + IndexLength(index);
      if bytesBefore <= limit {
        return PruneStats(0, 0);
      }
      var collected := CollectPrunableRuns();
      if collected == [] {
        return PruneStats(0, 0);
      }
      assert IsRunOf(files, collected[0]);
      stats := EvictOldest(collected, limit, protection, bytesBefore);
    }
  }

  lemma EvictionPrunes(before: CacheState, limit: nat, protection: Protection, runs: seq<PrunableRun>,
                       evicted: seq<PrunableRun>, after: CacheState, stats: PruneStats)
    requires limit < WalkedBytes(before) && IsListing(before.files, runs)
    requires evicted <= Evictable(runs, protection)
    requires StopsAfter(before.files, Evictable(runs, protection), WalkedBytes(before) - limit, BatchBytes(limit),
                        |evicted|)
    requires after.files == Evict(before.files, evicted)
    requires Bytes(after.files) <= Bytes(before.files)
    requires after.index == Holds(WalkedBytes(before) - (Bytes(before.files) - Bytes(after.files)))
    requires stats == PruneStats(|evicted|, Bytes(before.files) - Bytes(after.files))
    ensures PrunedBy(before, limit, protection, runs, |evicted|, after, stats)
  {
    assert Evictable(runs, protection)[..|evicted|] == evicted;
  }

  function Selected(lines: seq<HistoryLine>, kept: seq<nat>): (selected: seq<HistoryLine>)
    requires forall index <- kept :: index < |lines|
    ensures |selected| == |kept|
  {
    seq(|kept|, i requires 0 <= i < |kept| => assert kept[i] in kept; lines[kept[i]])
  }

  lemma SaturatingNoChange(index: IndexFile)
    ensures (index.Holds? ==> index.count <= U64_MAX) ==> AdjustIndex(index, 0) == index
  {
  }
}
