/** What every execution of a termination plan guarantees, and how requests and summaries
    are correlated over whole runs (src/process_termination/mod.rs). */
module TerminationRuns {
  import opened Common
  import opened Ordering
  import opened TerminationPlan

  // ---------------------------------------------------------------------------
  // One execution
  // ---------------------------------------------------------------------------

  function TargetLabel(target: Target): (nat, Role) {
    (target.id, target.role)
  }

  function OutcomeLabel(outcome: TargetOutcome): (nat, Role) {
    (outcome.id, outcome.role)
  }

  function TargetId(target: Target): nat {
    target.id
  }

  /** How far below the root of its tree a target is; the root itself is at no depth. */
  function DepthOf(role: Role): nat {
    if role.AdmittedDescendant? then role.depthFromRoot else 0
  }

  predicate TimedOut(outcome: TargetOutcome) {
    outcome.result.Refused? && outcome.result.error.DeadlineExpired?
  }

  /** A result that says a signal was sent. */
  predicate ClaimsSignal(result: TargetResult) {
    || result.GoneAfterSignaling? || result.Survived? || result.SignaledButUnconfirmed?
    || (result.Refused? && result.error.HostRejectedSignal?)
  }

  /** One outcome per target of the plan, children always before their ancestors. */
  lemma OutcomesDeepestFirst(plan: Plan, ordered: seq<Target>, passes: seq<Pass>, summary: Summary)
    requires Executed(plan, ordered, passes, summary)
    ensures summary.requestId == plan.requestId
    ensures multiset(Map(OutcomeLabel, summary.outcomes)) == multiset(Map(TargetLabel, plan.targets))
    ensures forall i, j :: 0 <= i < j < |summary.outcomes| ==>
              var left, right := summary.outcomes[i], summary.outcomes[j];
              || DepthOf(left.role) > DepthOf(right.role)
              || (DepthOf(left.role) == DepthOf(right.role) && left.id <= right.id)
  {
    StablySortedPermutes(plan.targets, ordered);
    MapPermutes(TargetLabel, ordered, plan.targets);
    assert Map(OutcomeLabel, summary.outcomes) == Map(TargetLabel, ordered);
    forall i, j | 0 <= i < j < |summary.outcomes| ensures NotAfter(ordered[i], ordered[j]) {}
  }

  /** The turn began before the deadline. */
  predicate BeganInTime(deadline: PlanDeadline, pass: Pass) {
    deadline.At? ==> pass.started < deadline.instant
  }

  /** The host took the signal, for an actionable target found to be the same process object. */
  predicate TookSignal(deadline: PlanDeadline, target: Target, pass: Pass) {
    && BeganInTime(deadline, pass) && pass.admission == SameProcessObject && target.actionable
    && pass.delivery == Accepted
  }

  /** Which answers of the host lead to which result. */
  lemma OutcomesMean(plan: Plan, ordered: seq<Target>, passes: seq<Pass>, summary: Summary, i: nat)
    requires Executed(plan, ordered, passes, summary) && i < |ordered|
    ensures |summary.outcomes| == |passes| == |ordered|
    ensures var outcome, target, pass := summary.outcomes[i], ordered[i], passes[i];
            var inTime, took := BeganInTime(plan.deadline, pass), TookSignal(plan.deadline, target, pass);
            var same := inTime && pass.admission == SameProcessObject;
            && outcome.id == target.id && outcome.role == target.role && outcome.result.pid == target.pid
            && (outcome.result.GoneAfterSignaling? <==> took && pass.presence == Gone)
            && (outcome.result.Survived? <==> took && pass.presence == Present)
            && (outcome.result.SignaledButUnconfirmed? <==> took && pass.presence == Presence.Unavailable)
            && (outcome.result.AlreadyGone? <==>
                  || (inTime && (pass.admission == PidReused || pass.admission == ProcessGone))
                  || (same && target.actionable && pass.delivery == GoneAtDelivery))
            && (RefusedFor(outcome, DeadlineExpired) <==> !inTime)
            && (RefusedFor(outcome, ProcessRevalidationUnavailable) <==>
                  inTime && pass.admission == RevalidationUnavailable)
            && (RefusedFor(outcome, ImageReplaced) <==> inTime && pass.admission == ProcessImageReplaced)
            && (RefusedFor(outcome, HostHasNoIdentityBoundAdapter) <==> same && !target.actionable)
            && (RefusedFor(outcome, HostRejectedSignal) <==> same && target.actionable && pass.delivery == Rejected)
  {
    assert summary.outcomes[i].result == PassResult(plan.deadline, ordered[i], passes[i]);
  }

  predicate RefusedFor(outcome: TargetOutcome, error: TerminationError) {
    outcome.result.Refused? && outcome.result.error == error
  }

  /** Once one target is refused for time, so is every later one, and none of them is
      signalled: no ancestor is after a deeper target was refused for time. */
  lemma DeadlineRefusalsAreASuffix(plan: Plan, ordered: seq<Target>, passes: seq<Pass>, summary: Summary)
    requires Executed(plan, ordered, passes, summary)
    ensures forall i, j :: 0 <= i < j < |summary.outcomes| && TimedOut(summary.outcomes[i])
              ==> TimedOut(summary.outcomes[j])
    ensures forall i, j :: 0 <= i < |summary.outcomes| && 0 <= j < |summary.outcomes|
              && TimedOut(summary.outcomes[i])
              && DepthOf(summary.outcomes[j].role) < DepthOf(summary.outcomes[i].role)
              ==> TimedOut(summary.outcomes[j]) && !Signalled(plan.deadline, ordered[j], passes[j])
  {
    var outcomes := summary.outcomes;
    assert |ordered| == |outcomes| == |passes|;
    assert forall i ::
             0 <= i < |outcomes| ==> (TimedOut(outcomes[i]) <==> HasExpired(plan.deadline, passes[i].started));
    forall i, j | 0 <= i < j < |outcomes| && TimedOut(outcomes[i]) ensures TimedOut(outcomes[j]) {
      assert passes[i].started <= passes[i].finished <= passes[j].started;
    }
    forall i, j | 0 <= i < |outcomes| && 0 <= j < |outcomes| && TimedOut(outcomes[i])
      && DepthOf(outcomes[j].role) < DepthOf(outcomes[i].role)
      ensures TimedOut(outcomes[j]) && !Signalled(plan.deadline, ordered[j], passes[j])
    {
      assert !NotAfter(ordered[j], ordered[i]);
    }
  }

  /** The summary says completed exactly when the last reading was still before the
      deadline; then nobody was refused for time. A startup handshake never runs out. */
  lemma CompletedMeansBeforeDeadline(plan: Plan, ordered: seq<Target>, passes: seq<Pass>, summary: Summary)
    requires Executed(plan, ordered, passes, summary)
    ensures |passes| == |plan.targets|
    ensures summary.deadline.CompletedWithinDeadline? <==>
              || plan.targets == [] || plan.deadline.StartupHandshake?
              || passes[|passes| - 1].finished < plan.deadline.instant
    ensures summary.deadline.CompletedWithinDeadline? ==> forall outcome <- summary.outcomes :: !TimedOut(outcome)
    ensures plan.deadline.StartupHandshake? ==> summary.deadline.CompletedWithinDeadline?
  {
    StablySortedPermutes(plan.targets, ordered);
    assert |passes| == |plan.targets|;
    if passes != [] {
      var last := |passes| - 1;
      assert passes[last].started <= passes[last].finished;
      assert forall i :: 0 <= i < |passes| ==> passes[i].started <= passes[i].finished <= passes[last].finished;
      assert HasExpired(plan.deadline, passes[last].finished) ==> ReadPastDeadline(plan.deadline, passes);
    }
    forall outcome | outcome in summary.outcomes && TimedOut(outcome) ensures ReadPastDeadline(plan.deadline, passes) {
      var i :| 0 <= i < |summary.outcomes| && summary.outcomes[i] == outcome;
      assert HasExpired(plan.deadline, passes[i].started);
    }
  }

  /** A confirmation wait is bounded, and goes past the deadline for no longer than delivering
      the signal took; a timeout read at or after the deadline allows no wait. */
  lemma ConfirmationOverrun(deadline: PlanDeadline, wait: Wait)
    requires IsConfirmation(deadline, wait)
    ensures wait.timeout <= 2_000 && (deadline.StartupHandshake? ==> wait.timeout == 2_000)
    ensures deadline.At? && wait.reading <= deadline.instant
      ==> wait.start + wait.timeout <= deadline.instant + (wait.start - wait.reading)
    ensures deadline.At? && deadline.instant <= wait.reading ==> wait.timeout == 0
  {
  }

  /** It stays within the deadline exactly when the full timeout still fits once the signal is
      delivered, or the delivery took no time. */
  lemma ConfirmationEndsWithinIff(deadline: PlanDeadline, wait: Wait)
    requires IsConfirmation(deadline, wait) && deadline.At?
    ensures EndsWithin(deadline, wait) <==>
              || wait.start + 2_000 <= deadline.instant
              || wait.start == wait.reading <= deadline.instant
  {
  }

  /** A delivery of five ticks against a deadline of ten leaves a wait that ends at fifteen. */
  lemma ConfirmationCanOutliveDeadline() returns (wait: Wait)
    ensures IsConfirmation(At(10), wait) && wait.reading == 0 && wait.start == 5
    ensures !EndsWithin(At(10), wait) && wait.start + wait.timeout == 15
  {
    wait := Wait(0, 5, ConfirmationTimeout(At(10), 0));
  }

  ghost predicate DistinctIds(targets: seq<Target>) {
    Distinct(TargetIds(targets))
  }

  lemma {:induction false} SignalledIdsAre(deadline: PlanDeadline, targets: seq<Target>, passes: seq<Pass>)
    requires |targets| == |passes| && DistinctIds(targets)
    ensures var ids := SignalledIds(deadline, targets, passes);
            && Distinct(ids)
            && (forall id <- ids :: exists i :: 0 <= i < |targets| && targets[i].id == id)
            && (forall i :: 0 <= i < |targets|
                    ==> (targets[i].id in ids <==> Signalled(deadline, targets[i], passes[i])))
  {
    if targets != [] {
      var last := |targets| - 1;
      assert Map(TargetId, targets[..last]) == Map(TargetId, targets)[..last];
      SignalledIdsAre(deadline, targets[..last], passes[..last]);
      var before := SignalledIds(deadline, targets[..last], passes[..last]);
      assert forall i :: 0 <= i < last ==> Map(TargetId, targets)[i] != Map(TargetId, targets)[last];
      assert forall i :: 0 <= i < last ==> targets[..last][i].id != targets[last].id;
      assert targets[last].id !in before;
      assert forall i :: 0 <= i < last ==> targets[i] == targets[..last][i] && passes[i] == passes[..last][i];
    }
  }

  /** The signals a plan sends: no target twice, and exactly the actionable targets still
      found to be the authorized process object in a turn that began before the deadline. */
  lemma EachTargetSignalledAtMostOnce(plan: Plan, ordered: seq<Target>, passes: seq<Pass>, summary: Summary)
    requires Executed(plan, ordered, passes, summary) && DistinctIds(plan.targets)
    ensures var ids := SignalledIds(plan.deadline, ordered, passes);
            && Distinct(ids)
            && (forall i :: 0 <= i < |ordered| ==>
                  && (ordered[i].id in ids <==>
                      && ordered[i].actionable && passes[i].admission.SameProcessObject?
                      && !(plan.deadline.At? && plan.deadline.instant <= passes[i].started))
                  && (ClaimsSignal(summary.outcomes[i].result) ==> ordered[i].id in ids)
                  && (TimedOut(summary.outcomes[i]) ==> ordered[i].id !in ids))
  {
    OrderedIdsDistinct(plan, ordered);
    SignalledIdsAre(plan.deadline, ordered, passes);
    forall i | 0 <= i < |ordered|
      ensures ClaimsSignal(summary.outcomes[i].result) ==> Signalled(plan.deadline, ordered[i], passes[i])
      ensures TimedOut(summary.outcomes[i]) ==> !Signalled(plan.deadline, ordered[i], passes[i])
    {
      assert summary.outcomes[i].result == PassResult(plan.deadline, ordered[i], passes[i]);
    }
  }

  function TargetIds(targets: seq<Target>): seq<nat> {
    Map(TargetId, targets)
  }

  /** The turns in which a target of this identity was signalled. */
  function SignallingTurns(deadline: PlanDeadline, targets: seq<Target>, passes: seq<Pass>, id: nat): set<nat>
    requires |targets| == |passes|
  {
    set i: nat | i < |targets| && targets[i].id == id && Signalled(deadline, targets[i], passes[i])
  }

  lemma TurnsOneMore(deadline: PlanDeadline, targets: seq<Target>, passes: seq<Pass>, target: Target, pass: Pass,
                     id: nat)
    requires |targets| == |passes|
    ensures SignallingTurns(deadline, targets + [target], passes + [pass], id)
         == SignallingTurns(deadline, targets, passes, id)
            + (if target.id == id && Signalled(deadline, target, pass) then {|targets|} else {})
  {
    var more, later := targets + [target], passes + [pass];
    assert forall i :: 0 <= i < |targets| ==> more[i] == targets[i] && later[i] == passes[i];
  }

  lemma IdsOneMore(deadline: PlanDeadline, targets: seq<Target>, passes: seq<Pass>, target: Target, pass: Pass)
    requires |targets| == |passes|
    ensures SignalledIds(deadline, targets + [target], passes + [pass])
         == SignalledIds(deadline, targets, passes) + (if Signalled(deadline, target, pass) then [target.id] else [])
    ensures TargetIds(targets + [target]) == TargetIds(targets) + [target.id]
  {
    assert (targets + [target])[..|targets|] == targets && (passes + [pass])[..|targets|] == passes;
  }

  ghost predicate CountsTurns(deadline: PlanDeadline, targets: seq<Target>, passes: seq<Pass>, id: nat)
    requires |targets| == |passes|
  {
    var signals := multiset(SignalledIds(deadline, targets, passes))[id];
    signals == |SignallingTurns(deadline, targets, passes, id)| <= multiset(TargetIds(targets))[id]
  }

  lemma CountsOneMore(deadline: PlanDeadline, targets: seq<Target>, passes: seq<Pass>, target: Target, pass: Pass,
                      id: nat)
    requires |targets| == |passes| && CountsTurns(deadline, targets, passes, id)
    ensures CountsTurns(deadline, targets + [target], passes + [pass], id)
  {
    TurnsOneMore(deadline, targets, passes, target, pass, id);
    IdsOneMore(deadline, targets, passes, target, pass);
    assert |targets| !in SignallingTurns(deadline, targets, passes, id);
  }

  lemma {:induction false} SignalsPerTurn(deadline: PlanDeadline, targets: seq<Target>, passes: seq<Pass>, id: nat)
    requires |targets| == |passes|
    ensures CountsTurns(deadline, targets, passes, id)
  {
    if targets != [] {
      var last := |targets| - 1;
      SignalsPerTurn(deadline, targets[..last], passes[..last], id);
      CountsOneMore(deadline, targets[..last], passes[..last], targets[last], passes[last], id);
      assert targets == targets[..last] + [targets[last]] && passes == passes[..last] + [passes[last]];
    }
  }

  /** Whatever identities a plan repeats, each is signalled once per turn that admits it, and
      so never more often than the plan has targets of it. */
  lemma SignalsWithinPlan(plan: Plan, ordered: seq<Target>, passes: seq<Pass>, summary: Summary, id: nat)
    requires Executed(plan, ordered, passes, summary)
    ensures multiset(SignalledIds(plan.deadline, ordered, passes))[id]
         == |SignallingTurns(plan.deadline, ordered, passes, id)|
    ensures multiset(SignalledIds(plan.deadline, ordered, passes))[id] <= multiset(TargetIds(plan.targets))[id]
  {
    SignalsPerTurn(plan.deadline, ordered, passes, id);
    OrderedIdsPermute(plan, ordered);
  }

  lemma OrderedIdsPermute(plan: Plan, ordered: seq<Target>)
    requires StablySorted(plan.targets, ordered)
    ensures multiset(TargetIds(ordered)) == multiset(TargetIds(plan.targets))
  {
    StablySortedPermutes(plan.targets, ordered);
    MapPermutes(TargetId, ordered, plan.targets);
  }

  lemma OrderedIdsDistinct(plan: Plan, ordered: seq<Target>)
    requires StablySorted(plan.targets, ordered) && DistinctIds(plan.targets)
    ensures DistinctIds(ordered)
  {
    OrderedIdsPermute(plan, ordered);
    DistinctPermutes(TargetIds(ordered), TargetIds(plan.targets));
  }

  // ---------------------------------------------------------------------------
  // The terminator and its worker
  // ---------------------------------------------------------------------------

  datatype PlanCreation = Planned(plan: Plan) | RequestIdsExhausted

  datatype DispatchOutcome = Dispatched(requestId: nat) | NotDispatched

  datatype ResultPoll = Completed(summary: Summary) | NoCompletedRequest | WorkerUnavailable

  /** `held` are the plans built but not yet submitted; `planned`, `submitted` and `polled`
      record the run so far. */
  datatype TerminatorState = TerminatorState(
    nextRequestId: nat,
    alive: bool,
    commands: seq<Plan>,
    executing: Option<Plan>,
    outcomes: seq<Summary>,
    held: set<Plan>,
    planned: seq<Plan>,
    submitted: seq<Plan>,
    polled: seq<Summary>)

  const INITIAL := TerminatorState(1, true, [], None, [], {}, [], [], [])

  ghost predicate IsExecution(plan: Plan, summary: Summary) {
    exists ordered, passes :: Executed(plan, ordered, passes, summary)
  }

  function AfterPlanning(s: TerminatorState, targets: seq<Target>, deadline: PlanDeadline): TerminatorState {
    if s.nextRequestId >= U64_MAX then s
    else
      var plan := Plan(s.nextRequestId, deadline, targets);
      s.(nextRequestId := s.nextRequestId + 1, held := s.held + {plan}, planned := s.planned + [plan])
  }

  /** A dead worker has dropped its receiver, so the plan is lost with the failed send. */
  function AfterRequest(s: TerminatorState, plan: Plan): TerminatorState {
    if s.alive then s.(held := s.held - {plan}, commands := s.commands + [plan], submitted := s.submitted + [plan])
    else s.(held := s.held - {plan})
  }

  function AfterPoll(s: TerminatorState): TerminatorState {
    if s.outcomes == [] then s
    else s.(outcomes := s.outcomes[1..], polled := s.polled + [s.outcomes[0]])
  }

  function AfterReceive(s: TerminatorState): TerminatorState {
    if s.alive && s.executing.None? && s.commands != []
    then s.(executing := Some(s.commands[0]), commands := s.commands[1..])
    else s
  }

  ghost predicate AfterExecution(before: TerminatorState, after: TerminatorState) {
    if before.alive && before.executing.Some?
    then exists summary :: IsExecution(before.executing.value, summary)
                           && after == before.(executing := None, outcomes := before.outcomes + [summary])
    else after == before
  }

  class ProcessTerminator {
    var nextRequestId: nat
    var alive: bool
    var commands: seq<Plan>
    var executing: Option<Plan>
    var outcomes: seq<Summary>
    ghost var held: set<Plan>
    ghost var planned: seq<Plan>
    ghost var submitted: seq<Plan>
    ghost var polled: seq<Summary>

    ghost function State(): TerminatorState
      reads this
    {
      TerminatorState(nextRequestId, alive, commands, executing, outcomes, held, planned, submitted, polled)
    }

    constructor ()
      ensures State() == INITIAL
    {
      nextRequestId, alive, commands, executing, outcomes := 1, true, [], None, [];
      held, planned, submitted, polled := {}, [], [], [];
    }

    method PlanTermination(targets: seq<Target>, deadline: PlanDeadline) returns (creation: PlanCreation)
      modifies this
      ensures State() == AfterPlanning(old(State()), targets, deadline)
      ensures creation == if old(nextRequestId) >= U64_MAX then RequestIdsExhausted
                          else Planned(Plan(old(nextRequestId), deadline, targets))
    {
      if nextRequestId >= U64_MAX {
        return RequestIdsExhausted;
      }
      var plan := Plan(nextRequestId, deadline, targets);
      nextRequestId := nextRequestId + 1;
      held, planned := held + {plan}, planned + [plan];
      creation := Planned(plan);
    }

    method RequestTermination(plan: Plan) returns (outcome: DispatchOutcome)
      requires plan in held
      modifies this
      ensures State() == AfterRequest(old(State()), plan)
      ensures outcome == if old(alive) then Dispatched(plan.requestId) else NotDispatched
    {
      held := held - {plan};
      if !alive {
        return NotDispatched;
      }
      commands, submitted := commands + [plan], submitted + [plan];
      outcome := Dispatched(plan.requestId);
    }

    method PollOutcome() returns (poll: ResultPoll)
      modifies this
      ensures State() == AfterPoll(old(State()))
      ensures poll == if old(outcomes) != [] then Completed(old(outcomes)[0])
                      else if old(alive) then NoCompletedRequest else WorkerUnavailable
    {
      if outcomes == [] {
        return if alive then NoCompletedRequest else WorkerUnavailable;
      }
      poll := Completed(outcomes[0]);
      polled := polled + [outcomes[0]];
      outcomes := outcomes[1..];
    }

    /** The worker's receive. */
    method ReceiveCommand()
      modifies this
      ensures State() == AfterReceive(old(State()))
    {
      if alive && executing.None? && commands != [] {
        executing, commands := Some(commands[0]), commands[1..];
      }
    }

    /** The worker executing what it received and sending the summary. */
    method ExecuteReceived(host: Host)
      modifies this, host
      ensures AfterExecution(old(State()), State())
    {
      if alive && executing.Some? {
        var plan := executing.value;
        var summary, ordered, passes := ExecuteTerminationPlan(plan, host);
        assert IsExecution(plan, summary);
        executing, outcomes := None, outcomes + [summary];
      }
    }
  }

  // ---------------------------------------------------------------------------
  // Runs
  // ---------------------------------------------------------------------------

  datatype Event =
    | PlanTargets(targets: seq<Target>, deadline: PlanDeadline)
    | Request(plan: Plan)
    | Poll
    | WorkerReceive
    | WorkerExecute
    | WorkerDie

  ghost predicate Next(before: TerminatorState, event: Event, after: TerminatorState) {
    match event
    case PlanTargets(targets, deadline) => after == AfterPlanning(before, targets, deadline)
    case Request(plan) => plan in before.held && after == AfterRequest(before, plan)
    case Poll => after == AfterPoll(before)
    case WorkerReceive => after == AfterReceive(before)
    case WorkerExecute => AfterExecution(before, after)
    case WorkerDie => after == before.(alive := false, commands := [], executing := None)
  }

  ghost predicate IsRun(states: seq<TerminatorState>, events: seq<Event>) {
    && |states| == |events| + 1
    && states[0] == INITIAL
    && forall i :: 0 <= i < |events| ==> Next(states[i], events[i], states[i + 1])
  }

  /** Request identities are 1, 2, 3, … in the order of planning. */
  ghost predicate IdsAllocated(s: TerminatorState) {
    && s.nextRequestId == |s.planned| + 1 <= U64_MAX
    && forall k :: 0 <= k < |s.planned| ==> s.planned[k].requestId == k + 1
  }

  /** A plan is moved into its one submission. */
  ghost predicate SubmittedOnce(s: TerminatorState) {
    && (forall plan <- s.held :: plan in s.planned && plan !in s.submitted)
    && (forall plan <- s.submitted :: plan in s.planned)
    && forall i, j :: 0 <= i < j < |s.submitted| ==> s.submitted[i] != s.submitted[j]
  }

  function Answers(s: TerminatorState): seq<Summary> {
    s.polled + s.outcomes
  }

  function Waiting(s: TerminatorState): seq<Plan> {
    (match s.executing case Some(plan) => [plan] case None => []) + s.commands
  }

  /** Summaries answer submissions one for one and in order, and the submissions of a live
      worker that are not answered are waiting. */
  ghost predicate InOrder(submitted: seq<Plan>, answers: seq<Summary>, waiting: seq<Plan>, alive: bool) {
    && |answers| + |waiting| <= |submitted|
    && (forall i :: 0 <= i < |answers| ==> IsExecution(submitted[i], answers[i]))
    && (if alive then submitted[|answers|..] == waiting else waiting == [])
  }

  ghost predicate AnsweredInOrder(s: TerminatorState) {
    InOrder(s.submitted, Answers(s), Waiting(s), s.alive)
  }

  lemma OneMoreAnswer(submitted: seq<Plan>, answers: seq<Summary>, waiting: seq<Plan>, summary: Summary)
    requires InOrder(submitted, answers, waiting, true) && waiting != [] && IsExecution(waiting[0], summary)
    ensures InOrder(submitted, answers + [summary], waiting[1..], true)
  {
    assert submitted[|answers|] == submitted[|answers|..][0];
    assert submitted[|answers| + 1..] == submitted[|answers|..][1..];
  }

  lemma StepAllocates(before: TerminatorState, event: Event, after: TerminatorState)
    requires IdsAllocated(before) && SubmittedOnce(before) && Next(before, event, after)
    ensures IdsAllocated(after) && SubmittedOnce(after)
  {
    if event.PlanTargets? && before.nextRequestId < U64_MAX {
      var plan := Plan(before.nextRequestId, event.deadline, event.targets);
      assert plan !in before.planned;
    }
  }

  lemma StepAnswers(before: TerminatorState, event: Event, after: TerminatorState)
    requires AnsweredInOrder(before) && Next(before, event, after)
    ensures AnsweredInOrder(after)
  {
    match event
    case PlanTargets(targets, deadline) => assert Answers(after) == Answers(before);
    case Request(plan) =>
      if before.alive {
        assert Answers(after) == Answers(before) && Waiting(after) == Waiting(before) + [plan];
        assert after.submitted[|Answers(after)|..] == before.submitted[|Answers(before)|..] + [plan];
      }
    case Poll => assert Answers(after) == Answers(before);
    case WorkerReceive => assert Waiting(after) == Waiting(before);
    case WorkerExecute => ExecutionAnswers(before, after);
    case WorkerDie => assert Answers(after) == Answers(before);
  }

  lemma ExecutionAnswers(before: TerminatorState, after: TerminatorState)
    requires AnsweredInOrder(before) && AfterExecution(before, after)
    ensures AnsweredInOrder(after)
  {
    if before.alive && before.executing.Some? {
      var summary :| IsExecution(before.executing.value, summary)
                     && after == before.(executing := None, outcomes := before.outcomes + [summary]);
      assert Answers(after) == Answers(before) + [summary];
      assert Waiting(before)[0] == before.executing.value && Waiting(after) == Waiting(before)[1..];
      OneMoreAnswer(before.submitted, Answers(before), Waiting(before), summary);
    }
  }

  ghost predicate Consistent(s: TerminatorState) {
    IdsAllocated(s) && SubmittedOnce(s) && AnsweredInOrder(s)
  }

  lemma StepConsistent(before: TerminatorState, event: Event, after: TerminatorState)
    requires Consistent(before) && Next(before, event, after)
    ensures Consistent(after)
  {
    StepAllocates(before, event, after);
    StepAnswers(before, event, after);
  }

  lemma {:induction false} RunConsistent(states: seq<TerminatorState>, events: seq<Event>, i: nat)
    requires IsRun(states, events) && i < |states|
    ensures Consistent(states[i])
  {
    if i > 0 {
      RunConsistent(states, events, i - 1);
      StepConsistent(states[i - 1], events[i - 1], states[i]);
    }
  }

  /** Over every interleaving, the k-th summary polled is an execution of the k-th plan
      submitted, no two summaries name one request, and while the worker lives each
      submitted plan is answered, executing or queued. */
  lemma RunCorrelatesSummaries(states: seq<TerminatorState>, events: seq<Event>, at: nat)
    requires IsRun(states, events) && at < |states|
    ensures var s := states[at];
            && |s.polled| <= |s.submitted|
            && (forall k :: 0 <= k < |s.polled| ==>
                  IsExecution(s.submitted[k], s.polled[k]) && s.polled[k].requestId == s.submitted[k].requestId)
            && (forall i, j :: 0 <= i < j < |s.polled| ==> s.polled[i].requestId != s.polled[j].requestId)
            && (s.alive ==> |s.polled| + |s.outcomes| + |Waiting(s)| == |s.submitted|)
  {
    RunConsistent(states, events, at);
    var s := states[at];
    SubmittedIdsDistinct(s);
    forall k | 0 <= k < |s.polled|
      ensures IsExecution(s.submitted[k], s.polled[k]) && s.polled[k].requestId == s.submitted[k].requestId
    {
      assert Answers(s)[k] == s.polled[k];
    }
    if s.alive {
      assert |s.submitted[|Answers(s)|..]| == |Waiting(s)|;
    }
  }

  lemma SubmittedIdsDistinct(s: TerminatorState)
    requires IdsAllocated(s) && SubmittedOnce(s)
    ensures forall i, j :: 0 <= i < j < |s.submitted| ==> s.submitted[i].requestId != s.submitted[j].requestId
  {
    forall i, j | 0 <= i < j < |s.submitted| ensures s.submitted[i].requestId != s.submitted[j].requestId {
      assert s.submitted[i] in s.planned && s.submitted[j] in s.planned;
    }
  }

  /** Planning fails exactly when 2^64 - 2 plans have been built, and never repeats an
      identity before that. */
  lemma RunExhaustsIds(states: seq<TerminatorState>, events: seq<Event>, i: nat)
    requires IsRun(states, events) && i < |events| && events[i].PlanTargets?
    ensures states[i + 1] == states[i] <==> |states[i].planned| == U64_MAX - 1
    ensures states[i + 1] != states[i] ==>
              forall plan <- states[i].planned :: plan.requestId < states[i].nextRequestId
    ensures states[i + 1] != states[i] ==>
              states[i + 1].planned
              == states[i].planned + [Plan(states[i].nextRequestId, events[i].deadline, events[i].targets)]
  {
    RunConsistent(states, events, i);
    assert Next(states[i], events[i], states[i + 1]);
  }
}
