/** Building one CI run from its check runs (src/ci.rs). */
module CiRun {
  import opened Common
  import opened Ordering
  import opened Timestamps

  datatype CiStatus = Passed | Failed | Cancelled | Skipped

  datatype CheckRun = CheckRun(
    name: string, startedAt: Option<string>, completedAt: Option<string>, conclusion: Option<string>)

  datatype CiJob = CiJob(name: string, status: CiStatus, durationSecs: Option<nat>)

  datatype CiRun = CiRun(jobs: seq<CiJob>, wallClockSecs: Option<nat>, status: CiStatus)

  function ConclusionOf(conclusion: Option<string>): CiStatus {
    if conclusion == Some("SUCCESS") then Passed
    else if conclusion == Some("FAILURE") then Failed
    else if conclusion == Some("SKIPPED") then Skipped
    else Cancelled
  }

  function TimeOf(text: Option<string>): Option<nat> {
    if text.Some? then ParseTimestamp(text.value) else None
  }

  function DurationSecs(startedAt: Option<string>, completedAt: Option<string>): Option<nat> {
    if TimeOf(startedAt).Some? && TimeOf(completedAt).Some?
    then Some(SaturatingSub(TimeOf(completedAt).value, TimeOf(startedAt).value))
    else None
  }

  function JobOf(run: CheckRun): CiJob {
    CiJob(run.name, ConclusionOf(run.conclusion), DurationSecs(run.startedAt, run.completedAt))
  }

  function RunConclusion(jobs: seq<CiJob>): CiStatus {
    if exists job <- jobs :: job.status == Failed then Failed
    else if exists job <- jobs :: job.status == Cancelled then Cancelled
    else if exists job <- jobs :: job.status == Passed then Passed
    else Skipped
  }

  function StartOf(run: CheckRun): Option<nat> {
    TimeOf(run.startedAt)
  }

  function CompletionOf(run: CheckRun): Option<nat> {
    TimeOf(run.completedAt)
  }

  /** `least` is the least of the times that could be read, if any could. */
  ghost predicate IsLeast(times: seq<Option<nat>>, least: Option<nat>) {
    && (least == None <==> forall i :: 0 <= i < |times| ==> times[i] == None)
    && (least != None ==> exists i :: 0 <= i < |times| && times[i] == least)
    && (least != None ==> forall i :: 0 <= i < |times| && times[i] != None ==> least.value <= times[i].value)
  }

  ghost predicate IsGreatest(times: seq<Option<nat>>, greatest: Option<nat>) {
    && (greatest == None <==> forall i :: 0 <= i < |times| ==> times[i] == None)
    && (greatest != None ==> exists i :: 0 <= i < |times| && times[i] == greatest)
    && (greatest != None ==> forall i :: 0 <= i < |times| && times[i] != None ==> times[i].value <= greatest.value)
  }

  function WallClock(earliest: Option<nat>, latest: Option<nat>): Option<nat> {
    if earliest.Some? && latest.Some? then Some(SaturatingSub(latest.value, earliest.value)) else None
  }

  function Earlier(least: Option<nat>, time: Option<nat>): Option<nat> {
    if time == None then least else if least == None || time.value < least.value then time else least
  }

  function Later(greatest: Option<nat>, time: Option<nat>): Option<nat> {
    if time == None then greatest else if greatest == None || time.value > greatest.value then time else greatest
  }

  function LeastOf(times: seq<Option<nat>>): Option<nat> {
    if times == [] then None else Earlier(LeastOf(times[..|times| - 1]), times[|times| - 1])
  }

  function GreatestOf(times: seq<Option<nat>>): Option<nat> {
    if times == [] then None else Later(GreatestOf(times[..|times| - 1]), times[|times| - 1])
  }

  lemma EarlierIsLeast(times: seq<Option<nat>>, least: Option<nat>, time: Option<nat>)
    requires IsLeast(times, least)
    ensures IsLeast(times + [time], Earlier(least, time))
  {
    var more := times + [time];
    assert more[|times|] == time;
    assert forall i :: 0 <= i < |times| ==> more[i] == times[i];
  }

  lemma LaterIsGreatest(times: seq<Option<nat>>, greatest: Option<nat>, time: Option<nat>)
    requires IsGreatest(times, greatest)
    ensures IsGreatest(times + [time], Later(greatest, time))
  {
    var more := times + [time];
    assert more[|times|] == time;
    assert forall i :: 0 <= i < |times| ==> more[i] == times[i];
  }

  lemma {:induction false} LeastOfIsLeast(times: seq<Option<nat>>)
    ensures IsLeast(times, LeastOf(times))
  {
    if times != [] {
      var fewer := times[..|times| - 1];
      LeastOfIsLeast(fewer);
      EarlierIsLeast(fewer, LeastOf(fewer), times[|times| - 1]);
      assert times == fewer + [times[|times| - 1]];
    }
  }

  lemma {:induction false} GreatestOfIsGreatest(times: seq<Option<nat>>)
    ensures IsGreatest(times, GreatestOf(times))
  {
    if times != [] {
      var fewer := times[..|times| - 1];
      GreatestOfIsGreatest(fewer);
      LaterIsGreatest(fewer, GreatestOf(fewer), times[|times| - 1]);
      assert times == fewer + [times[|times| - 1]];
    }
  }

  lemma OneMore(runs: seq<CheckRun>, i: nat)
    requires i < |runs|
    ensures Map(JobOf, runs[..i + 1]) == Map(JobOf, runs[..i]) + [JobOf(runs[i])]
    ensures Map(StartOf, runs[..i + 1])[..i] == Map(StartOf, runs[..i])
    ensures Map(CompletionOf, runs[..i + 1])[..i] == Map(CompletionOf, runs[..i])
  {
    assert runs[..i + 1] == runs[..i] + [runs[i]];
  }

  /** One check run's job, and what its times make of the earliest and latest so far. */
  method ScanRun(run: CheckRun, earliest: Option<nat>, latest: Option<nat>)
    returns (job: CiJob, newEarliest: Option<nat>, newLatest: Option<nat>)
    ensures job == JobOf(run)
    ensures newEarliest == Earlier(earliest, StartOf(run)) && newLatest == Later(latest, CompletionOf(run))
  {
    var start, completion := StartOf(run), CompletionOf(run);
    newEarliest, newLatest := earliest, latest;
    if start.Some? && (earliest.None? || start.value < earliest.value) {
      newEarliest := start;
    }
    if completion.Some? && (latest.None? || completion.value > latest.value) {
      newLatest := completion;
    }
    job := JobOf(run);
  }

  method BuildCiRun(runs: seq<CheckRun>) returns (ci: CiRun)
    ensures ci.jobs == Map(JobOf, runs)
    ensures ci.wallClockSecs == WallClock(LeastOf(Map(StartOf, runs)), GreatestOf(Map(CompletionOf, runs)))
    ensures ci.status == RunConclusion(ci.jobs)
  {
    var earliestStart: Option<nat> := None;
    var latestCompletion: Option<nat> := None;
    var jobs: seq<CiJob> := [];
    for i := 0 to |runs|
      invariant jobs == Map(JobOf, runs[..i])
      invariant earliestStart == LeastOf(Map(StartOf, runs[..i]))
      invariant latestCompletion == GreatestOf(Map(CompletionOf, runs[..i]))
    {
      OneMore(runs, i);
      var job: CiJob;
      job, earliestStart, latestCompletion := ScanRun(runs[i], earliestStart, latestCompletion);
      jobs := jobs + [job];
    }
    assert runs[..|runs|] == runs;
    ci := CiRun(jobs, WallClock(earliestStart, latestCompletion), RunConclusion(jobs));
  }

  lemma SpanCovers(starts: seq<Option<nat>>, completions: seq<Option<nat>>, i: nat)
    requires i < |starts| == |completions| && starts[i] != None && completions[i] != None
    ensures WallClock(LeastOf(starts), GreatestOf(completions)) != None
    ensures SaturatingSub(completions[i].value, starts[i].value)
         <= WallClock(LeastOf(starts), GreatestOf(completions)).value
  {
    LeastOfIsLeast(starts);
    GreatestOfIsGreatest(completions);
  }

  /** The wall clock covers every job: no job with a duration lasts longer. */
  lemma WallClockCoversJobs(runs: seq<CheckRun>, i: nat)
    requires i < |runs| && JobOf(runs[i]).durationSecs.Some?
    ensures var wallClock := WallClock(LeastOf(Map(StartOf, runs)), GreatestOf(Map(CompletionOf, runs)));
            wallClock.Some? && JobOf(runs[i]).durationSecs.value <= wallClock.value
  {
    SpanCovers(Map(StartOf, runs), Map(CompletionOf, runs), i);
  }

  /** A run fails exactly when a job does, and passes exactly when one does and none failed
      or was cancelled. */
  lemma ConclusionMeans(jobs: seq<CiJob>)
    ensures RunConclusion(jobs) == Failed <==> exists job <- jobs :: job.status == Failed
    ensures RunConclusion(jobs) == Passed <==>
              && (exists job <- jobs :: job.status == Passed)
              && (forall job <- jobs :: job.status != Failed && job.status != Cancelled)
    ensures RunConclusion(jobs) == Skipped <==> forall job <- jobs :: job.status == Skipped
  {
  }

  // ---------------------------------------------------------------------------
  // What the parts say
  // ---------------------------------------------------------------------------

  /** The start and the completion are the times the texts are read as, if they are. */
  lemma TimesMean(run: CheckRun, time: nat)
    ensures StartOf(run) == Some(time) <==> run.startedAt.Some? && ParseTimestamp(run.startedAt.value) == Some(time)
    ensures CompletionOf(run) == Some(time)
       <==> run.completedAt.Some? && ParseTimestamp(run.completedAt.value) == Some(time)
  {
  }

  /** A job passed, failed or was skipped exactly when its check says so in these words; any
      other conclusion, or none, counts as cancelled. It lasted from its start to its
      completion, where both can be read. */
  lemma JobMeans(run: CheckRun)
    ensures JobOf(run).name == run.name
    ensures JobOf(run).status == Passed <==> run.conclusion == Some("SUCCESS")
    ensures JobOf(run).status == Failed <==> run.conclusion == Some("FAILURE")
    ensures JobOf(run).status == Skipped <==> run.conclusion == Some("SKIPPED")
    ensures JobOf(run).durationSecs.Some? <==> StartOf(run).Some? && CompletionOf(run).Some?
    ensures JobOf(run).durationSecs.Some? && StartOf(run).value <= CompletionOf(run).value ==>
              JobOf(run).durationSecs.value == CompletionOf(run).value - StartOf(run).value
    ensures JobOf(run).durationSecs.Some? && CompletionOf(run).value < StartOf(run).value ==>
              JobOf(run).durationSecs.value == 0
  {
  }

  /** From one start to one completion, where both could be read. */
  predicate IsSpan(starts: seq<Option<nat>>, completions: seq<Option<nat>>, i: nat, j: nat, span: int) {
    && i < |starts| && j < |completions| && starts[i].Some? && completions[j].Some?
    && completions[j].value == starts[i].value + span
  }

  /** The wall clock is the longest span from any start to any completion, and there is one
      exactly when some start and some completion could be read. */
  lemma LongestSpan(starts: seq<Option<nat>>, completions: seq<Option<nat>>)
    ensures var wallClock := WallClock(LeastOf(starts), GreatestOf(completions));
            && (wallClock.Some? <==> exists i: nat, j: nat, span :: IsSpan(starts, completions, i, j, span))
            && (forall i: nat, j: nat, span :: IsSpan(starts, completions, i, j, span) ==> span <= wallClock.value)
            && (wallClock.Some? && wallClock.value > 0 ==>
                  exists i: nat, j: nat :: IsSpan(starts, completions, i, j, wallClock.value))
  {
    LeastOfIsLeast(starts);
    GreatestOfIsGreatest(completions);
    if LeastOf(starts).Some? && GreatestOf(completions).Some? {
      var i: nat :| i < |starts| && starts[i] == LeastOf(starts);
      var j: nat :| j < |completions| && completions[j] == GreatestOf(completions);
      var start: int, completion: int := starts[i].value, completions[j].value;
      assert IsSpan(starts, completions, i, j, completion - start);
    }
  }
}
