/** What each operation of the lint cache does to every single file, and to the stored count. */
module LintCacheEffects {
  import opened Common
  import opened CacheFiles
  import opened CacheEviction
  import opened LintCache
  import opened LintCacheRuns

  // ---------------------------------------------------------------------------
  // Files
  // ---------------------------------------------------------------------------

  /** Apart from one file everything is as it was. */
  ghost predicate OnlyChanges(before: Files, after: Files, file: CacheFile) {
    forall other :: other != file ==> SameEntry(before, after, other)
  }

  lemma WriteMeans(before: CacheState, file: CacheFile, length: nat, after: CacheState)
    requires WroteFile(before, file, length, after)
    ensures file in after.files && after.files[file] == Sized(length)
    ensures OnlyChanges(before.files, after.files, file)
  {
  }

  lemma ClearMeans(before: CacheState, project: Project, after: CacheState)
    requires ClearedLatest(before, project, after)
    ensures Latest(project) !in after.files && OnlyChanges(before.files, after.files, Latest(project))
  {
  }

  lemma AppendMeans(before: CacheState, project: Project, line: HistoryLine)
    ensures var after := WithLine(before, project, line);
            && LinesOf(after.files, project) == LinesOf(before.files, project) + [line]
            && OnlyChanges(before.files, after.files, History(project))
  {
  }

  lemma ReclaimMeans(before: CacheState, project: Project, after: CacheState)
    requires ProjectReclaimed(before, project, after)
    ensures forall file <- after.files :: file.project != project
    ensures forall file: CacheFile :: file.project != project ==> SameEntry(before.files, after.files, file)
  {
  }

  /** The archived log of a name is a copy of the last existing log of that name. */
  lemma {:induction false} ArchivedLogMeans(files: Files, project: Project, runId: RunId, commands: seq<Command>,
                                            i: nat)
    requires i < |commands| && RollingLog(project, commands[i].rollingLog) in files
    requires forall j :: i < j < |commands| && commands[j].name == commands[i].name ==>
               RollingLog(project, commands[j].rollingLog) !in files
    ensures var archived := ArchivedLog(project, runId, commands[i].name);
            var copied := ArchivedCopy(files, project, runId, commands);
            && archived in copied
            && copied[archived] == Sized(Length(files[RollingLog(project, commands[i].rollingLog)]))
  {
    if i < |commands| - 1 {
      ArchivedLogMeans(files, project, runId, commands[..|commands| - 1], i);
    }
  }

  /** Nothing but the archived logs of these commands changes. */
  lemma {:induction false} ArchiveSparesOthers(files: Files, project: Project, runId: RunId, commands: seq<Command>,
                                               file: CacheFile)
    requires forall i :: 0 <= i < |commands| && RollingLog(project, commands[i].rollingLog) in files ==>
               file != ArchivedLog(project, runId, commands[i].name)
    ensures SameEntry(files, ArchivedCopy(files, project, runId, commands), file)
  {
    if commands != [] {
      ArchiveSparesOthers(files, project, runId, commands[..|commands| - 1], file);
    }
  }

  // ---------------------------------------------------------------------------
  // The stored count
  // ---------------------------------------------------------------------------

  /** A stored count moves by a change and stays within 64 bits; there is nothing to move where
      no count is stored. */
  lemma AdjustMeans(index: IndexFile, delta: int)
    requires index.Holds? ==> index.count <= 0xFFFF_FFFF_FFFF_FFFF
    ensures AdjustIndex(index, delta).Holds? <==> index.Holds?
    ensures !index.Holds? ==> AdjustIndex(index, delta) == index
    ensures index.Holds? ==>
              var moved := index.count + delta;
              AdjustIndex(index, delta).count
              == if moved < 0 then 0 else if moved > 0xFFFF_FFFF_FFFF_FFFF then 0xFFFF_FFFF_FFFF_FFFF else moved
  {
  }

  lemma ClampMeans(delta: int)
    ensures -0x8000_0000_0000_0000 <= ClampI64(delta) <= 0x7FFF_FFFF_FFFF_FFFF
    ensures -0x8000_0000_0000_0000 <= delta <= 0x7FFF_FFFF_FFFF_FFFF ==> ClampI64(delta) == delta
    ensures delta > 0x7FFF_FFFF_FFFF_FFFF ==> ClampI64(delta) == 0x7FFF_FFFF_FFFF_FFFF
    ensures delta < -0x8000_0000_0000_0000 ==> ClampI64(delta) == -0x8000_0000_0000_0000
  {
  }

  /** The count, if there is one, has moved by exactly what the files have. */
  ghost predicate CountsExactly(before: CacheState, after: CacheState) {
    && (before.index.Holds? ==>
          after.index.Holds? && after.index.count - before.index.count == Bytes(after.files) - Bytes(before.files))
    && (!before.index.Holds? ==> after.index == before.index)
  }

  /** The count has room for what the files grow by. */
  ghost predicate HasRoom(before: CacheState, after: CacheState) {
    before.index.Holds? ==> before.index.count + Bytes(after.files) - Bytes(before.files) <= 0xFFFF_FFFF_FFFF_FFFF
  }

  lemma WriteCountsExactly(before: CacheState, file: CacheFile, length: nat, after: CacheState)
    requires Valid(before) && Valid(after) && NeverUndercounts(before) && HasRoom(before, after)
    requires WroteFile(before, file, length, after)
    ensures CountsExactly(before, after)
  {
    BytesUpdate(before.files, file, Sized(length));
  }

  lemma ClearCountsExactly(before: CacheState, project: Project, after: CacheState)
    requires Valid(before) && NeverUndercounts(before) && ClearedLatest(before, project, after)
    ensures CountsExactly(before, after)
  {
    if Latest(project) in before.files {
      BytesRemove(before.files, Latest(project));
    } else {
      assert after.files == before.files;
    }
  }

  lemma ReclaimCountsExactly(before: CacheState, project: Project, after: CacheState)
    requires Valid(before) && NeverUndercounts(before) && ProjectReclaimed(before, project, after)
    ensures CountsExactly(before, after)
  {
    BytesDirectory(before.files, ProjectDirectory(project));
  }

  lemma AppendCountsExactly(before: CacheState, project: Project, line: HistoryLine, after: CacheState)
    requires Valid(before) && Valid(after) && NeverUndercounts(before) && HasRoom(before, after)
    requires after == WithLine(before, project, line)
    ensures CountsExactly(before, after)
  {
    var lines := LinesOf(before.files, project);
    assert (lines + [line])[..|lines|] == lines;
    assert SizeOrZero(before.files, History(project)) == LinesBytes(lines);
    BytesUpdate(before.files, History(project), Lines(lines + [line]));
  }

  /** The usage shown is the stored count, or what a walk finds where there is none; it is
      stored, so that it is shown again as long as nothing changes. */
  lemma UsageMeans(before: CacheState, shown: nat, after: CacheState, shownAgain: nat, later: CacheState)
    requires UsageRead(before, shown, after) && UsageRead(after, shownAgain, later)
    ensures shown == match before.index
                     case Holds(count) => count
                     case Absent => Bytes(before.files)
                     case Unparseable(length) => Bytes(before.files) + length
    ensures after.index == Holds(shown) && after.files == before.files
    ensures shownAgain == shown && later == after
  {
  }

  /** What a prune says it reclaimed is what the files shrank by. */
  lemma PruneReports(before: CacheState, limit: nat, protection: Protection, after: CacheState, stats: PruneStats)
    requires Pruned(before, limit, protection, after, stats)
    ensures stats.bytesReclaimed == Bytes(before.files) - Bytes(after.files)
    ensures WalkedBytes(before) <= limit || NoRuns(before.files) ==> after == before && stats.runsEvicted == 0
  {
  }
}
