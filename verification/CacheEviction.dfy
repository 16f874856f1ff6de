/** What a prune of the lint cache removes, stated over values
    (src/lint/history.rs:290-370). */
module CacheEviction {
  import opened Common
  import opened CacheFiles
  import opened EvictionBatches

  /** One parseable history line, with what it takes to remove it. */
  datatype PrunableRun = PrunableRun(project: Project, lineIndex: nat, sortKey: int, runId: RunId)
  {
    function Archive(): Directory {
      RunDirectory(project, runId)
    }
  }

  predicate IsRunOf(files: Files, run: PrunableRun) {
    var lines := LinesOf(files, run.project);
    && run.lineIndex < |lines|
    && lines[run.lineIndex].run == Some(RunSummary(run.runId, run.sortKey))
  }

  // ---------------------------------------------------------------------------
  // Oldest-first order
  // ---------------------------------------------------------------------------

  predicate OlderThan(left: PrunableRun, right: PrunableRun) {
    || left.sortKey < right.sortKey
    || (left.sortKey == right.sortKey && left.project < right.project)
    || (left.sortKey == right.sortKey && left.project == right.project && left.lineIndex < right.lineIndex)
  }

  predicate SameLine(left: PrunableRun, right: PrunableRun) {
    left.project == right.project && left.lineIndex == right.lineIndex
  }

  ghost predicate OldestFirst(runs: seq<PrunableRun>) {
    forall i, j :: 0 <= i < j < |runs| ==> OlderThan(runs[i], runs[j])
  }

  lemma NotOlder(left: PrunableRun, right: PrunableRun)
    requires !OlderThan(left, right) && !SameLine(left, right)
    ensures OlderThan(right, left)
  {
  }

  lemma InsertedOldestFirst(runs: seq<PrunableRun>, position: nat, run: PrunableRun)
    requires OldestFirst(runs) && position <= |runs|
    requires forall k :: 0 <= k < position ==> OlderThan(runs[k], run)
    requires position < |runs| ==> OlderThan(run, runs[position])
    ensures OldestFirst(runs[..position] + [run] + runs[position..])
    ensures forall other :: other in runs[..position] + [run] + runs[position..] <==> other in runs || other == run
  {
    assert runs == runs[..position] + runs[position..];
  }

  /** Every parseable line of every history, each once, oldest first. */
  ghost predicate IsListing(files: Files, runs: seq<PrunableRun>) {
    && OldestFirst(runs)
    && forall run :: run in runs <==> IsRunOf(files, run)
  }

  /** There is only one such list, so the order files are walked in is not observable. */
  lemma {:induction false} ListingUnique(left: seq<PrunableRun>, right: seq<PrunableRun>)
    requires OldestFirst(left) && OldestFirst(right)
    requires forall run :: run in left <==> run in right
    ensures left == right
  {
    assert left != [] ==> left[0] in right;
    assert right != [] ==> right[0] in left;
    if left != [] {
      assert left[0] == right[0];
      assert left == [left[0]] + left[1..];
      assert right == [right[0]] + right[1..];
      forall run ensures run in left[1..] <==> run in right[1..] {
        if run in left[1..] {
          assert OlderThan(left[0], run);
          assert run in right;
        }
        if run in right[1..] {
          assert OlderThan(right[0], run);
          assert run in left;
        }
      }
      ListingUnique(left[1..], right[1..]);
    }
  }

  datatype Protection = Unprotected | Protects(project: Project, runId: RunId)
  {
    predicate Covers(run: PrunableRun) {
      Protects? && run.project == project && run.runId == runId
    }
  }

  /** The runs a prune may evict. */
  function Evictable(runs: seq<PrunableRun>, protection: Protection): seq<PrunableRun> {
    if runs == [] then []
    else
      var last := runs[|runs| - 1];
      Evictable(runs[..|runs| - 1], protection) + (if protection.Covers(last) then [] else [last])
  }

  lemma {:induction false} EvictableMembers(runs: seq<PrunableRun>, protection: Protection)
    ensures forall run :: run in Evictable(runs, protection) <==> run in runs && !protection.Covers(run)
  {
    if runs != [] {
      var front, last := runs[..|runs| - 1], runs[|runs| - 1];
      EvictableMembers(front, protection);
      assert runs == front + [last];
    }
  }

  lemma {:induction false} EvictableOldestFirst(runs: seq<PrunableRun>, protection: Protection)
    requires OldestFirst(runs)
    ensures OldestFirst(Evictable(runs, protection))
  {
    if runs != [] {
      var front := runs[..|runs| - 1];
      EvictableOldestFirst(front, protection);
      EvictableMembers(front, protection);
      var kept := Evictable(front, protection);
      forall i | 0 <= i < |kept| ensures OlderThan(kept[i], runs[|runs| - 1]) {
        assert kept[i] in front;
      }
    }
  }

  // ---------------------------------------------------------------------------
  // What evicting a list of runs leaves behind
  // ---------------------------------------------------------------------------

  predicate ArchiveEvicted(file: CacheFile, evicted: seq<PrunableRun>) {
    exists i :: 0 <= i < |evicted| && Under(file, evicted[i].Archive())
  }

  function WithoutArchives(files: Files, evicted: seq<PrunableRun>): Files {
    map file | file in files && !ArchiveEvicted(file, evicted) :: files[file]
  }

  ghost function ArchiveBytes(files: Files, evicted: seq<PrunableRun>): nat {
    BytesWithoutArchives(files, evicted);
    Bytes(files) - Bytes(WithoutArchives(files, evicted))
  }

  lemma BytesWithoutArchives(files: Files, evicted: seq<PrunableRun>)
    ensures Bytes(WithoutArchives(files, evicted)) <= Bytes(files)
  {
    var part := WithoutArchives(files, evicted).Keys;
    BytesSplit(files, part);
    assert Restrict(files, part) == WithoutArchives(files, evicted);
  }

  lemma EvictOneArchive(files: Files, evicted: seq<PrunableRun>, run: PrunableRun)
    ensures WithoutArchives(files, evicted + [run]) == FilesOutside(WithoutArchives(files, evicted), run.Archive())
    ensures ArchiveBytes(files, evicted + [run])
         == ArchiveBytes(files, evicted) + Bytes(FilesUnder(WithoutArchives(files, evicted), run.Archive()))
  {
    var left := WithoutArchives(files, evicted);
    var more := evicted + [run];
    forall file ensures ArchiveEvicted(file, more) <==> ArchiveEvicted(file, evicted) || Under(file, run.Archive()) {
      if Under(file, run.Archive()) {
        assert more[|evicted|] == run;
      }
      if ArchiveEvicted(file, evicted) {
        var i :| 0 <= i < |evicted| && Under(file, evicted[i].Archive());
        assert more[i] == evicted[i];
      }
    }
    assert WithoutArchives(files, more) == FilesOutside(left, run.Archive());
    BytesDirectory(left, run.Archive());
  }

  /** A history keeps its lines in order, minus the removed ones. */
  function KeepLines(lines: seq<HistoryLine>, removed: set<nat>): seq<HistoryLine> {
    if lines == [] then []
    else
      var last := |lines| - 1;
      KeepLines(lines[..last], removed) + (if last in removed then [] else [lines[last]])
  }

  lemma {:induction false} KeepLinesBytes(lines: seq<HistoryLine>, removed: set<nat>)
    ensures LinesBytes(KeepLines(lines, removed)) <= LinesBytes(lines)
  {
    if lines != [] {
      var last := |lines| - 1;
      KeepLinesBytes(lines[..last], removed);
      var kept := KeepLines(lines[..last], removed);
      assert (kept + [lines[last]])[..|kept|] == kept;
      assert kept + [] == kept;
    }
  }

  lemma {:induction false} KeepLinesMembers(lines: seq<HistoryLine>, removed: set<nat>)
    ensures forall line :: line in KeepLines(lines, removed) <==>
                           exists i :: 0 <= i < |lines| && i !in removed && lines[i] == line
  {
    if lines != [] {
      var last := |lines| - 1;
      var front := lines[..last];
      KeepLinesMembers(front, removed);
      forall line ensures line in KeepLines(lines, removed)
        <==> exists i :: 0 <= i < |lines| && i !in removed && lines[i] == line
      {
        if line in KeepLines(front, removed) {
          var i :| 0 <= i < last && i !in removed && front[i] == line;
          assert lines[i] == line;
        }
        if i :| 0 <= i < |lines| && i !in removed && lines[i] == line {
          assert i < last ==> front[i] == line;
        }
      }
    }
  }

  type RemovedLines = map<Project, set<nat>>

  function RemovedFrom(removed: RemovedLines, project: Project): set<nat> {
    if project in removed then removed[project] else {}
  }

  function RemovedLinesOf(evicted: seq<PrunableRun>): RemovedLines {
    if evicted == [] then map[]
    else
      var removed := RemovedLinesOf(evicted[..|evicted| - 1]);
      var last := evicted[|evicted| - 1];
      removed[last.project := RemovedFrom(removed, last.project) + {last.lineIndex}]
  }

  predicate LineEvicted(evicted: seq<PrunableRun>, project: Project, index: nat) {
    exists i :: 0 <= i < |evicted| && evicted[i].project == project && evicted[i].lineIndex == index
  }

  lemma {:induction false} RemovedProjects(evicted: seq<PrunableRun>)
    ensures forall project <- RemovedLinesOf(evicted) :: exists i :: 0 <= i < |evicted| && evicted[i].project == project
  {
    if evicted != [] {
      var front, last := evicted[..|evicted| - 1], evicted[|evicted| - 1];
      RemovedProjects(front);
      forall project | project in RemovedLinesOf(evicted)
        ensures exists i :: 0 <= i < |evicted| && evicted[i].project == project
      {
        if project == last.project {
          assert evicted[|evicted| - 1].project == project;
        } else {
          assert project in RemovedLinesOf(front);
          var i :| 0 <= i < |front| && front[i].project == project;
          assert evicted[i].project == project;
        }
      }
    }
  }

  lemma {:induction false} RemovedLinesMembers(evicted: seq<PrunableRun>, project: Project, index: nat)
    ensures index in RemovedFrom(RemovedLinesOf(evicted), project) <==> LineEvicted(evicted, project, index)
  {
    if evicted != [] {
      var front, last := evicted[..|evicted| - 1], evicted[|evicted| - 1];
      RemovedLinesMembers(front, project, index);
      if LineEvicted(front, project, index) {
        var i :| 0 <= i < |front| && front[i].project == project && front[i].lineIndex == index;
        assert evicted[i] == front[i];
      }
      if i :| 0 <= i < |evicted| && evicted[i].project == project && evicted[i].lineIndex == index {
        assert i < |front| ==> front[i] == evicted[i];
      }
    }
  }

  predicate HistoryEmptied(files: Files, removed: RemovedLines, file: CacheFile) {
    file.History? && file.project in removed && KeepLines(LinesOf(files, file.project), removed[file.project]) == []
  }

  function RewrittenContent(files: Files, removed: RemovedLines, file: CacheFile): Content
    requires file in files
  {
    if file.History? && file.project in removed
    then Lines(KeepLines(LinesOf(files, file.project), removed[file.project]))
    else files[file]
  }

  /** Rewrite each history a line was removed from; one left with no line is deleted. */
  function RewriteHistories(files: Files, removed: RemovedLines): Files {
    map file | file in files && !HistoryEmptied(files, removed, file) :: RewrittenContent(files, removed, file)
  }

  function RewriteHistory(files: Files, project: Project, removed: set<nat>): Files {
    var kept := KeepLines(LinesOf(files, project), removed);
    if kept == [] then files - {History(project)} else files[History(project) := Lines(kept)]
  }

  lemma RewriteHistoryBytes(files: Files, project: Project, removed: set<nat>)
    requires WellTyped(files) && History(project) in files
    ensures var rewritten := RewriteHistory(files, project, removed);
            && SizeOrZero(rewritten, History(project)) <= SizeOrZero(files, History(project)) <= Bytes(files)
            && Bytes(rewritten)
               == Bytes(files) - (SizeOrZero(files, History(project)) - SizeOrZero(rewritten, History(project)))
  {
    var kept := KeepLines(LinesOf(files, project), removed);
    KeepLinesBytes(LinesOf(files, project), removed);
    BytesUpdate(files, History(project), Lines(kept));
    BytesRemove(files, History(project));
  }

  lemma RewriteHistoriesStep(files: Files, removed: RemovedLines, project: Project, lines: set<nat>)
    requires WellTyped(files)
    requires project !in removed && History(project) in files
    ensures SizeOrZero(RewriteHistories(files, removed), History(project)) == SizeOrZero(files, History(project))
    ensures LinesOf(RewriteHistories(files, removed), project) == LinesOf(files, project)
    ensures History(project) in RewriteHistories(files, removed)
    ensures WellTyped(RewriteHistories(files, removed))
    ensures RewriteHistories(files, removed[project := lines])
         == RewriteHistory(RewriteHistories(files, removed), project, lines)
  {
    var partial := RewriteHistories(files, removed);
    var more := removed[project := lines];
    var whole := RewriteHistories(files, more);
    assert forall file :: file != History(project) ==>
      (HistoryEmptied(files, more, file) <==> HistoryEmptied(files, removed, file));
    forall file | file != History(project) ensures SameEntry(whole, partial, file) {
    }
    assert whole == RewriteHistory(partial, project, lines);
  }

  lemma RewriteRemaining(files: Files, removed: RemovedLines, remaining: set<Project>, project: Project)
    requires WellTyped(files)
    requires project in remaining && project in removed && History(project) in files
    ensures var partial := RewriteHistories(files, removed - remaining);
            && WellTyped(partial) && History(project) in partial
            && RewriteHistories(files, removed - (remaining - {project}))
               == RewriteHistory(partial, project, removed[project])
  {
    RewriteHistoriesStep(files, removed - remaining, project, removed[project]);
    assert removed - (remaining - {project}) == (removed - remaining)[project := removed[project]];
  }

  /** The cache after evicting exactly these runs. */
  function Evict(files: Files, evicted: seq<PrunableRun>): Files {
    RewriteHistories(WithoutArchives(files, evicted), RemovedLinesOf(evicted))
  }

  // ---------------------------------------------------------------------------
  // How much each eviction reclaims
  // ---------------------------------------------------------------------------

  /** Bytes reclaimed after 0, 1, 2, ... evictions. */
  ghost function Reclaimed(files: Files, evicted: seq<PrunableRun>): (amounts: seq<nat>)
    ensures |amounts| == |evicted| + 1
  {
    seq(|evicted| + 1, i requires 0 <= i <= |evicted| => ArchiveBytes(files, evicted[..i]))
  }

  /** The batch rule stops a prune after this many of the runs it may evict. */
  ghost predicate StopsAfter(files: Files, evictable: seq<PrunableRun>, excess: nat, batch: nat, count: nat)
    requires batch >= 1
  {
    EvictionCount(Reclaimed(files, evictable), excess, batch, count)
  }

  lemma NothingEvicted(files: Files)
    ensures WithoutArchives(files, []) == files
    ensures ArchiveBytes(files, []) == 0
    ensures Reclaimed(files, []) == [0]
  {
    assert WithoutArchives(files, []) == files;
  }

  lemma ReclaimedExtends(files: Files, evicted: seq<PrunableRun>, run: PrunableRun)
    ensures Reclaimed(files, evicted + [run]) == Reclaimed(files, evicted) + [ArchiveBytes(files, evicted + [run])]
    ensures ArchiveBytes(files, evicted) <= ArchiveBytes(files, evicted + [run])
  {
    var more := evicted + [run];
    assert more[..|more|] == more;
    forall i | 0 <= i <= |evicted| ensures more[..i] == evicted[..i] {
    }
    EvictOneArchive(files, evicted, run);
  }

  /** Where the eviction loop stands: what it has left and freed, its target, and that it had
      reason to come this far. */
  datatype LoopState = LoopState(files: Files, reclaimed: nat, target: nat, continued: bool)

  ghost function LoopStateAfter(before: Files, excess: nat, batch: nat, evicted: seq<PrunableRun>): LoopState
    requires batch >= 1
  {
    var amounts := Reclaimed(before, evicted);
    LoopState(WithoutArchives(before, evicted), ArchiveBytes(before, evicted), LoopTarget(amounts, excess, batch),
              LoopContinued(amounts, excess, batch))
  }

  /** What one turn of the eviction loop re-establishes. */
  lemma EvictionTurn(before: Files, excess: nat, batch: nat, evicted: seq<PrunableRun>, files: Files,
                     reclaimed: nat, target: nat, run: PrunableRun, newReclaimed: nat, newTarget: nat)
    requires batch >= 1
    requires LoopStateAfter(before, excess, batch, evicted) == LoopState(files, reclaimed, target, true)
    requires reclaimed < target || reclaimed < excess
    requires newReclaimed == reclaimed + Bytes(FilesUnder(files, run.Archive()))
    requires newTarget == if target <= newReclaimed < excess then Boundary(newReclaimed, batch) else target
    ensures LoopStateAfter(before, excess, batch, evicted + [run])
         == LoopState(FilesOutside(files, run.Archive()), newReclaimed, newTarget, true)
  {
    EvictOneArchive(before, evicted, run);
    ReclaimedExtends(before, evicted, run);
    var amounts := Reclaimed(before, evicted);
    var more := Reclaimed(before, evicted + [run]);
    assert more[..|more| - 1] == amounts && more[|more| - 1] == newReclaimed;
    assert evicted[..|evicted|] == evicted;
    assert amounts[|amounts| - 1] == reclaimed;
  }

  /** What is freed and what is left add up to what there was. */
  lemma FreedBound(before: Files, excess: nat, batch: nat, evicted: seq<PrunableRun>, files: Files,
                   reclaimed: nat, target: nat)
    requires batch >= 1
    requires LoopStateAfter(before, excess, batch, evicted) == LoopState(files, reclaimed, target, true)
    ensures reclaimed + Bytes(files) == Bytes(before)
  {
  }

  lemma ReclaimedNondecreasing(files: Files, evicted: seq<PrunableRun>)
    ensures Nondecreasing(Reclaimed(files, evicted))
    ensures Reclaimed(files, evicted)[0] == 0
  {
    NothingEvicted(files);
    if evicted != [] {
      var front, last := evicted[..|evicted| - 1], evicted[|evicted| - 1];
      ReclaimedNondecreasing(files, front);
      ReclaimedExtends(files, front, last);
      assert evicted == front + [last] && front[..|front|] == front;
      var amounts := Reclaimed(files, front);
      assert Reclaimed(files, evicted) == amounts + [ArchiveBytes(files, evicted)];
      assert amounts[|amounts| - 1] == ArchiveBytes(files, front);
    }
  }

  lemma ReclaimedPrefix(files: Files, shorter: seq<PrunableRun>, longer: seq<PrunableRun>)
    requires shorter <= longer
    ensures Reclaimed(files, shorter) <= Reclaimed(files, longer)
  {
    forall i | 0 <= i <= |shorter| ensures shorter[..i] == longer[..i] {
    }
  }

  lemma EvictableOneMore(runs: seq<PrunableRun>, i: nat, protection: Protection)
    requires i < |runs|
    ensures Evictable(runs[..i + 1], protection)
         == Evictable(runs[..i], protection) + (if protection.Covers(runs[i]) then [] else [runs[i]])
  {
    assert runs[..i + 1][..i] == runs[..i];
  }

  lemma {:induction false} EvictableSplit(left: seq<PrunableRun>, right: seq<PrunableRun>, protection: Protection)
    ensures Evictable(left + right, protection) == Evictable(left, protection) + Evictable(right, protection)
  {
    if right == [] {
      assert left + right == left;
    } else {
      var front := right[..|right| - 1];
      assert (left + right)[..|left + right| - 1] == left + front;
      EvictableSplit(left, front, protection);
    }
  }

  /** When the loop ends, what it evicted is the prefix the batch rule names. */
  lemma EvictionComplete(before: Files, runs: seq<PrunableRun>, i: nat, protection: Protection, excess: nat, batch: nat,
                         evicted: seq<PrunableRun>, files: Files, reclaimed: nat, target: nat)
    requires batch >= 1 && 0 < excess && i <= |runs| && evicted == Evictable(runs[..i], protection)
    requires LoopStateAfter(before, excess, batch, evicted) == LoopState(files, reclaimed, target, true)
    requires i == |runs| || (target <= reclaimed && excess <= reclaimed)
    ensures evicted <= Evictable(runs, protection)
    ensures StopsAfter(before, Evictable(runs, protection), excess, batch, |evicted|)
    ensures files == WithoutArchives(before, evicted) && reclaimed == ArchiveBytes(before, evicted)
  {
    assert evicted[..|evicted|] == evicted;
    ReclaimedNondecreasing(before, evicted);
    assert runs[..i] + runs[i..] == runs;
    EvictableSplit(runs[..i], runs[i..], protection);
    assert i == |runs| ==> runs[..i] == runs;
    ReclaimedPrefix(before, evicted, Evictable(runs, protection));
    LoopCounts(Reclaimed(before, evicted), Reclaimed(before, Evictable(runs, protection)), excess, batch);
  }

  lemma EvictedHaveHistories(files: Files, runs: seq<PrunableRun>, protection: Protection, evicted: seq<PrunableRun>)
    requires IsListing(files, runs) && evicted <= Evictable(runs, protection)
    ensures forall project <- RemovedLinesOf(evicted) :: History(project) in WithoutArchives(files, evicted)
  {
    EvictableMembers(runs, protection);
    RemovedProjects(evicted);
    forall project | project in RemovedLinesOf(evicted) ensures History(project) in files {
      var i :| 0 <= i < |evicted| && evicted[i].project == project;
      assert evicted[i] in Evictable(runs, protection);
      assert IsRunOf(files, evicted[i]);
    }
  }

  lemma {:induction false} RewriteShrinks(files: Files, removed: RemovedLines)
    requires WellTyped(files)
    ensures Bytes(RewriteHistories(files, removed)) <= Bytes(files)
    decreases |removed|
  {
    if removed == map[] {
      assert RewriteHistories(files, removed) == files;
    } else {
      var project :| project in removed;
      var fewer := removed - {project};
      RewriteShrinks(files, fewer);
      assert removed == fewer[project := removed[project]];
      if History(project) in files {
        RewriteHistoriesStep(files, fewer, project, removed[project]);
        RewriteHistoryBytes(RewriteHistories(files, fewer), project, removed[project]);
      } else {
        assert RewriteHistories(files, removed) == RewriteHistories(files, fewer);
      }
    }
  }

  /** Evicting frees at least the archives. */
  lemma EvictFreesArchives(files: Files, evicted: seq<PrunableRun>)
    requires WellTyped(files)
    ensures Bytes(Evict(files, evicted)) + ArchiveBytes(files, evicted) <= Bytes(files)
  {
    BytesWithoutArchives(files, evicted);
    RewriteShrinks(WithoutArchives(files, evicted), RemovedLinesOf(evicted));
  }

  lemma {:induction false} KeepLinesLoses(lines: seq<HistoryLine>, removed: set<nat>, index: nat)
    requires index < |lines| && index in removed
    ensures LinesBytes(KeepLines(lines, removed)) + lines[index].length + 1 <= LinesBytes(lines)
  {
    var last := |lines| - 1;
    if index == last {
      KeepLinesBytes(lines[..last], removed);
      assert KeepLines(lines, removed) == KeepLines(lines[..last], removed);
    } else {
      KeepLinesLoses(lines[..last], removed, index);
      var kept := KeepLines(lines[..last], removed);
      assert (kept + [lines[last]])[..|kept|] == kept;
      assert kept + [] == kept;
    }
  }

  lemma RewriteFreesLine(files: Files, removed: RemovedLines, project: Project, index: nat)
    requires WellTyped(files) && History(project) in files && index < |LinesOf(files, project)|
    requires index in RemovedFrom(removed, project)
    ensures Bytes(RewriteHistories(files, removed)) + LinesOf(files, project)[index].length + 1 <= Bytes(files)
  {
    var others := removed - {project};
    RewriteShrinks(files, others);
    assert removed == others[project := removed[project]];
    RewriteHistoriesStep(files, others, project, removed[project]);
    RewriteHistoryBytes(RewriteHistories(files, others), project, removed[project]);
    KeepLinesLoses(LinesOf(files, project), removed[project], index);
  }

  /** ... and the line of every evicted run. */
  lemma EvictFreesLine(files: Files, evicted: seq<PrunableRun>, k: nat)
    requires WellTyped(files) && k < |evicted| && IsRunOf(files, evicted[k])
    ensures Bytes(Evict(files, evicted)) + ArchiveBytes(files, evicted)
            + LinesOf(files, evicted[k].project)[evicted[k].lineIndex].length + 1
         <= Bytes(files)
  {
    BytesWithoutArchives(files, evicted);
    RemovedLinesMembers(evicted, evicted[k].project, evicted[k].lineIndex);
    RewriteFreesLine(WithoutArchives(files, evicted), RemovedLinesOf(evicted), evicted[k].project,
                     evicted[k].lineIndex);
  }

  /** What removing the last of the evicted archives freed. */
  ghost function LastArchiveBytes(files: Files, evicted: seq<PrunableRun>): nat
    requires evicted != []
  {
    var last := |evicted| - 1;
    Bytes(FilesUnder(WithoutArchives(files, evicted[..last]), evicted[last].Archive()))
  }

  /** The archives freed go beyond what had to be freed by a batch and the last of them. */
  ghost predicate Overshoots(files: Files, evicted: seq<PrunableRun>, excess: nat, batch: nat) {
    evicted != [] && ArchiveBytes(files, evicted) >= excess + batch + LastArchiveBytes(files, evicted)
  }

  lemma ArchivesOvershoot(files: Files, evictable: seq<PrunableRun>, excess: nat, batch: nat, count: nat)
    requires batch >= 1 && 0 < excess
    ensures StopsAfter(files, evictable, excess, batch, count) ==>
              count <= |evictable| && !Overshoots(files, evictable[..count], excess, batch)
  {
    if StopsAfter(files, evictable, excess, batch, count) && count > 0 {
      var evicted := evictable[..count];
      EvictionOvershoot(Reclaimed(files, evictable), excess, batch, count);
      assert evicted[..count - 1] == evictable[..count - 1];
      EvictOneArchive(files, evicted[..count - 1], evicted[count - 1]);
      assert evicted == evicted[..count - 1] + [evicted[count - 1]];
    }
  }

  /** A line no evicted run stands for stays, in a history that stays. */
  lemma EvictSparesLine(files: Files, evicted: seq<PrunableRun>, project: Project, index: nat)
    requires index < |LinesOf(files, project)|
    requires forall run <- evicted :: !(run.project == project && run.lineIndex == index)
    ensures LinesOf(files, project)[index] in LinesOf(Evict(files, evicted), project)
  {
    EvictedLine(files, evicted, project);
    RemovedLinesMembers(evicted, project, index);
    assert forall i :: 0 <= i < |evicted| ==> evicted[i] in evicted;
    KeepLinesMembers(LinesOf(files, project), RemovedFrom(RemovedLinesOf(evicted), project));
  }

  /** The archive of a run no evicted run shares stays as it was. */
  lemma EvictSparesArchive(files: Files, evicted: seq<PrunableRun>, project: Project, runId: RunId, name: LogName)
    requires forall run <- evicted :: !(run.project == project && run.runId == runId)
    ensures SameEntry(files, Evict(files, evicted), ArchivedLog(project, runId, name))
  {
    assert forall i :: 0 <= i < |evicted| ==> evicted[i] in evicted;
    assert !ArchiveEvicted(ArchivedLog(project, runId, name), evicted);
  }

  /** Each history keeps the lines no evicted run stands for. */
  lemma EvictedLine(files: Files, evicted: seq<PrunableRun>, project: Project)
    ensures LinesOf(Evict(files, evicted), project)
         == KeepLines(LinesOf(files, project), RemovedFrom(RemovedLinesOf(evicted), project))
  {
    var removed := RemovedLinesOf(evicted);
    var left := WithoutArchives(files, evicted);
    assert History(project) in left <==> History(project) in files;
    if project !in removed {
      KeepAllLines(LinesOf(files, project));
    }
    assert LinesOf(left, project) == LinesOf(files, project);
  }

  lemma {:induction false} KeepAllLines(lines: seq<HistoryLine>)
    ensures KeepLines(lines, {}) == lines
  {
    if lines != [] {
      KeepAllLines(lines[..|lines| - 1]);
    }
  }

  predicate SameEntry(left: Files, right: Files, file: CacheFile) {
    (file in left <==> file in right) && (file in left ==> left[file] == right[file])
  }
}
