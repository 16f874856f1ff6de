/** What holds of the refresh executor over every interleaving with its worker. */
module RefreshExecutorRuns {
  import opened Common
  import opened RefreshExecutor

  datatype Event =
    | RearmCompileMonitor(schedule: OneShotSchedule)
    | RearmTerminationTransaction(schedule: OneShotSchedule)
    | RefreshDue(now: Instant)
    | PollResult
    | WorkerReceive
    | WorkerFinish
    | WorkerDie

  ghost predicate Next(before: ExecutorState, event: Event, after: ExecutorState) {
    match event
    case RearmCompileMonitor(schedule) => after == before.(compileMonitor := schedule)
    case RearmTerminationTransaction(schedule) => after == before.(terminationTransaction := schedule)
    case RefreshDue(now) => exists outcome :: Refreshed(before, now, after, outcome)
    case PollResult => exists poll :: Polled(before, after, poll)
    case WorkerReceive => after == before.(worker := WorkerReceives(before.worker))
    case WorkerFinish => after == before.(worker := WorkerFinishes(before.worker))
    case WorkerDie => after == before.(worker := WorkerDies(before.worker))
  }

  ghost predicate IsInitial(s: ExecutorState) {
    exists startedAt :: s == InitialState(s.backend, s.runningTargetsSchedule, s.compileMonitor, startedAt)
  }

  ghost predicate IsRun(states: seq<ExecutorState>, events: seq<Event>) {
    && |states| == |events| + 1
    && IsInitial(states[0])
    && forall i: nat :: i < |events| ==> RunsEvent(states, events, i)
  }

  ghost predicate RunsEvent(states: seq<ExecutorState>, events: seq<Event>, i: nat)
    requires i < |events| && |states| == |events| + 1
  {
    Next(states[i], events[i], states[i + 1])
  }

  // ---------------------------------------------------------------------------
  // Correlation
  // ---------------------------------------------------------------------------

  /** Every request anywhere between the executor and its worker. */
  function Outstanding(worker: WorkerState): seq<Request> {
    worker.commands
    + (match worker.executing case Some(request) => [request] case None => [])
    + Requests(worker.results)
  }

  function Requests(executions: seq<Execution>): (requests: seq<Request>)
    ensures |requests| == |executions|
  {
    seq(|executions|, i requires 0 <= i < |executions| => executions[i].request)
  }

  /** Nothing is outstanding unless it is the one awaited request, and requests are
      answered once each in the order they were dispatched. */
  ghost predicate Correlated(s: ExecutorState) {
    && (s.backend.Synchronous? ==> s.inFlight.Idle?)
    && (!s.worker.alive ==> s.worker.commands == [] && s.worker.executing.None?)
    && (forall execution <- s.worker.results :: execution.outcome == Completed)
    && match s.inFlight
       case Idle => Outstanding(s.worker) == [] && s.dispatched == Requests(s.answered)
       case Awaiting(request) =>
         && (Outstanding(s.worker) == [request] || (!s.worker.alive && Outstanding(s.worker) == []))
         && s.dispatched == Requests(s.answered) + [request]
  }

  lemma StepCorrelated(before: ExecutorState, event: Event, after: ExecutorState)
    requires Correlated(before) && Next(before, event, after)
    ensures Correlated(after)
  {
    match event
    case RearmCompileMonitor(_) =>
    case RearmTerminationTransaction(_) =>
    case RefreshDue(now) => RefreshCorrelated(before, now, after);
    case PollResult => PollCorrelated(before, after);
    case WorkerReceive => ReceiveOutstanding(before.worker);
    case WorkerFinish => FinishOutstanding(before.worker);
    case WorkerDie =>
      assert Outstanding(after.worker) == Requests(before.worker.results);
  }

  lemma ReceiveOutstanding(worker: WorkerState)
    requires |Outstanding(worker)| <= 1
    ensures Outstanding(WorkerReceives(worker)) == Outstanding(worker)
    ensures WorkerReceives(worker).alive == worker.alive
  {
  }

  lemma FinishOutstanding(worker: WorkerState)
    requires |Outstanding(worker)| <= 1
    ensures Outstanding(WorkerFinishes(worker)) == Outstanding(worker)
    ensures WorkerFinishes(worker).alive == worker.alive
  {
    if worker.alive && worker.executing.Some? {
      assert Outstanding(worker)[|worker.commands|] == worker.executing.value;
    }
  }

  lemma RefreshCorrelated(before: ExecutorState, now: Instant, after: ExecutorState)
    requires Correlated(before) && Next(before, RefreshDue(now), after)
    ensures Correlated(after)
  {
    var outcome :| Refreshed(before, now, after, outcome);
    if outcome != NotDue {
      var demand :| IsDueDemand(before, now, demand) && Sent(before, now, demand, after, outcome);
      var request := Request(before.nextRequestId, demand);
      assert before.worker.commands == [] && before.worker.results == [] by {
        assert |Outstanding(before.worker)| == 0;
      }
      if after.inFlight.Awaiting? {
        assert Outstanding(after.worker) == [request];
      } else {
        var execution := after.answered[|before.answered|];
        assert Requests(after.answered) == Requests(before.answered) + [execution.request];
      }
    }
  }

  lemma PollCorrelated(before: ExecutorState, after: ExecutorState)
    requires Correlated(before) && Next(before, PollResult, after)
    ensures Correlated(after)
  {
    var poll :| Polled(before, after, poll);
    if before.inFlight.Awaiting? && poll.Ready? {
      var request := before.inFlight.request;
      assert Requests(after.answered) == Requests(before.answered) + [poll.execution.request];
      if before.worker.results != [] {
        assert |Outstanding(before.worker)| == 1;
        assert Outstanding(after.worker) == [];
      }
    } else if before.inFlight.Awaiting? && before.worker.results != [] {
      NeverMismatched(before);
    }
  }

  /** A result is only ever received while its own request is awaited. */
  lemma NeverMismatched(s: ExecutorState)
    requires Correlated(s) && s.worker.results != []
    ensures s.inFlight == Awaiting(s.worker.results[0].request) && |s.worker.results| == 1
  {
    var outstanding := Outstanding(s.worker);
    assert |outstanding| >= 1;
    assert outstanding[|outstanding| - |s.worker.results|] == s.worker.results[0].request;
  }

  lemma {:induction false} RunCorrelated(states: seq<ExecutorState>, events: seq<Event>)
    requires IsRun(states, events)
    ensures forall s <- states :: Correlated(s)
  {
    var i := 0;
    while i < |events|
      invariant i <= |events|
      invariant forall k :: 0 <= k <= i ==> Correlated(states[k])
    {
      assert RunsEvent(states, events, i);
      StepCorrelated(states[i], events[i], states[i + 1]);
      i := i + 1;
    }
  }

  /** Over every interleaving: at most one request is outstanding, it is the awaited one,
      answers follow dispatches one for one, and no received result is ever dropped. */
  lemma RunAnswersInOrder(states: seq<ExecutorState>, events: seq<Event>)
    requires IsRun(states, events)
    ensures forall s <- states ::
              && |Outstanding(s.worker)| <= 1
              && (forall request <- Outstanding(s.worker) :: s.inFlight == Awaiting(request))
              && Requests(s.answered) <= s.dispatched
              && |s.dispatched| - |s.answered| == (if s.inFlight.Awaiting? then 1 else 0)
    ensures forall i :: 0 <= i < |events| && events[i].PollResult? && states[i].worker.results != []
              ==> states[i + 1].answered == states[i].answered + [states[i].worker.results[0]]
  {
    RunCorrelated(states, events);
    forall i | 0 <= i < |events| && events[i].PollResult? && states[i].worker.results != []
      ensures states[i + 1].answered == states[i].answered + [states[i].worker.results[0]]
    {
      assert Correlated(states[i]);
      NeverMismatched(states[i]);
      assert RunsEvent(states, events, i);
    }
  }

  /** No dispatched request waits forever on a worker that runs, or on one that died. */
  lemma AnswerArrives(s: ExecutorState, received: ExecutorState, finished: ExecutorState, polled: ExecutorState)
    requires Correlated(s) && s.inFlight.Awaiting?
    requires Next(s, WorkerReceive, received) && Next(received, WorkerFinish, finished)
    requires Next(finished, PollResult, polled)
    ensures polled.inFlight.Idle? && |polled.answered| == |s.answered| + 1
    ensures polled.answered[|s.answered|].request == s.inFlight.request
    ensures polled.answered[|s.answered|].outcome == Completed <==> Outstanding(s.worker) != []
    ensures s.worker.alive ==> Outstanding(s.worker) != []
  {
    StepCorrelated(s, WorkerReceive, received);
    StepCorrelated(received, WorkerFinish, finished);
    assert |Outstanding(s.worker)| <= 1;
    if finished.worker.results != [] {
      NeverMismatched(finished);
    } else {
      assert !s.worker.alive;
    }
  }

  // ---------------------------------------------------------------------------
  // Deadlines
  // ---------------------------------------------------------------------------

  /** A cycle goes out exactly when the deadline the event loop sleeps on has passed, and
      it serves exactly the consumers whose deadlines have. */
  lemma RefreshSendsExactlyWhenDue(before: ExecutorState, now: Instant, after: ExecutorState, outcome: DispatchOutcome)
    requires Refreshed(before, now, after, outcome)
    requires Spaced(before)
    ensures outcome != NotDue <==> NextDeadline(before).At? && NextDeadline(before).instant <= now
    ensures |after.cycles| == |before.cycles| + (if outcome != NotDue then 1 else 0)
    ensures outcome != NotDue ==>
              && after.cycles[|before.cycles|].at == now
              && forall consumer :: consumer in after.cycles[|before.cycles|].demand <==>
                   DeadlineOf(before, consumer).At? && DeadlineOf(before, consumer).instant <= now
    ensures forall consumer :: !(DeadlineOf(before, consumer).At? && DeadlineOf(before, consumer).instant <= now)
              ==> DeadlineOf(after, consumer) == DeadlineOf(before, consumer)
  {
    if before.inFlight.Idle? {
      assert Expired(NextDeadline(before), now)
        <==> exists consumer :: Expired(DeadlineOf(before, consumer), now) by {
        if Expired(NextDeadline(before), now) {
          assert Expired(DeadlineOf(before, RunningTargets), now)
              || Expired(DeadlineOf(before, CompileMonitor), now)
              || Expired(DeadlineOf(before, TerminationTransaction), now);
        }
        if consumer :| Expired(DeadlineOf(before, consumer), now) {
          match consumer {
            case RunningTargets =>
            case CompileMonitor =>
            case TerminationTransaction =>
          }
        }
      }
    }
    if outcome != NotDue {
      var demand :| IsDueDemand(before, now, demand) && Sent(before, now, demand, after, outcome);
      forall consumer | !Expired(DeadlineOf(before, consumer), now)
        ensures DeadlineOf(after, consumer) == DeadlineOf(before, consumer)
      {
        assert consumer !in demand;
        match consumer {
          case RunningTargets =>
          case CompileMonitor =>
          case TerminationTransaction =>
        }
      }
    }
  }

  /** What the event loop sleeps on: the worker while it owes an answer, else the least of the
      deadlines there are. */
  lemma NextDeadlineMeans(s: ExecutorState)
    requires !s.runningTargetsDeadline.AwaitingWorker?
    ensures NextDeadline(s) == AwaitingWorker <==> s.inFlight.Awaiting?
    ensures NextDeadline(s).At? ==>
              && (exists consumer :: DeadlineOf(s, consumer) == NextDeadline(s))
              && forall consumer :: DeadlineOf(s, consumer).At? ==>
                   NextDeadline(s).instant <= DeadlineOf(s, consumer).instant
    ensures NextDeadline(s) == NotScheduled <==> s.inFlight.Idle? && forall consumer :: !DeadlineOf(s, consumer).At?
  {
    assert DeadlineOf(s, RunningTargets) == s.runningTargetsDeadline;
    assert DeadlineOf(s, CompileMonitor) == OneShotDeadline(s.compileMonitor);
    assert DeadlineOf(s, TerminationTransaction) == OneShotDeadline(s.terminationTransaction);
  }

  /** A consumer's deadline is the instant it armed, if it did. */
  lemma OneShotMeans(s: ExecutorState, instant: Instant)
    ensures DeadlineOf(s, CompileMonitor) == At(instant) <==> s.compileMonitor == ArmedAt(instant)
    ensures DeadlineOf(s, TerminationTransaction) == At(instant) <==> s.terminationTransaction == ArmedAt(instant)
    ensures s.compileMonitor == NotArmed ==> DeadlineOf(s, CompileMonitor) == NotScheduled
    ensures s.terminationTransaction == NotArmed ==> DeadlineOf(s, TerminationTransaction) == NotScheduled
  {
  }

  /** At first running targets are due at once, unless they are suppressed, and a termination
      transaction is not. */
  lemma InitiallyDue(backend: Backend, schedule: RunningTargetsSchedule, compileMonitor: OneShotSchedule,
                     startedAt: Instant)
    ensures var s := InitialState(backend, schedule, compileMonitor, startedAt);
            && DeadlineOf(s, RunningTargets) == (if schedule.Every? then At(startedAt) else NotScheduled)
            && s.compileMonitor == compileMonitor && DeadlineOf(s, TerminationTransaction) == NotScheduled
            && s.inFlight.Idle? && s.dispatched == [] && s.worker.alive
  {
  }

  /** A cycle that serves running targets puts their next deadline one interval after it. */
  lemma ServedTargetsWaitAnInterval(before: ExecutorState, now: Instant, after: ExecutorState, outcome: DispatchOutcome)
    requires Refreshed(before, now, after, outcome) && before.runningTargetsSchedule.Every?
    requires before.inFlight.Idle? && Expired(before.runningTargetsDeadline, now)
    ensures after.runningTargetsDeadline == At(now + before.runningTargetsSchedule.interval)
  {
    assert Expired(DeadlineOf(before, RunningTargets), now);
    var demand :| IsDueDemand(before, now, demand) && Sent(before, now, demand, after, outcome);
  }

  /** The k-th request dispatched has number k, from zero on and around at 64 bits. */
  ghost predicate Numbered(s: ExecutorState) {
    && s.nextRequestId == |s.dispatched| % 0x1_0000_0000_0000_0000
    && forall k :: 0 <= k < |s.dispatched| ==> s.dispatched[k].id == k % 0x1_0000_0000_0000_0000
  }

  lemma StepNumbers(before: ExecutorState, event: Event, after: ExecutorState)
    requires Numbered(before) && Next(before, event, after)
    ensures Numbered(after)
  {
    if event.RefreshDue? {
      var outcome :| Refreshed(before, event.now, after, outcome);
      if outcome != NotDue {
        var demand :| IsDueDemand(before, event.now, demand) && Sent(before, event.now, demand, after, outcome);
        NextNumber(|before.dispatched|, before.nextRequestId);
      }
    }
  }

  lemma NextNumber(count: nat, id: nat)
    requires id == count % 0x1_0000_0000_0000_0000
    ensures (count + 1) % 0x1_0000_0000_0000_0000 == if id == 0xFFFF_FFFF_FFFF_FFFF then 0 else id + 1
  {
  }

  lemma {:induction false} RunNumbersRequests(states: seq<ExecutorState>, events: seq<Event>, i: nat)
    requires IsRun(states, events) && i < |states|
    ensures Numbered(states[i])
  {
    if i > 0 {
      RunNumbersRequests(states, events, i - 1);
      assert RunsEvent(states, events, i - 1);
      StepNumbers(states[i - 1], events[i - 1], states[i]);
    }
  }

  /** A request fails to be sent exactly when the worker is already dead, and is answered on the
      spot exactly when it fails so or there is no worker. */
  lemma DispatchMeans(before: ExecutorState, now: Instant, after: ExecutorState, outcome: DispatchOutcome)
    requires Refreshed(before, now, after, outcome) && outcome != NotDue
    ensures outcome.Dispatched? <==> before.backend.DedicatedWorker? && before.worker.alive
    ensures outcome.Finished? && before.backend.Synchronous? ==> outcome.execution.outcome == Completed
    ensures outcome.Finished? && before.backend.DedicatedWorker? ==>
              outcome.execution.outcome == Failed(RequestChannelDisconnected)
  {
  }

  /** A poll reports the worker lost exactly when it is dead and left no answer. */
  lemma LostAnswerMeans(before: ExecutorState, after: ExecutorState, poll: ResultPoll)
    requires Correlated(before) && before.inFlight.Awaiting? && Polled(before, after, poll)
    ensures poll.Ready? && poll.execution.outcome == Failed(ResultChannelDisconnected) <==>
              !before.worker.alive && before.worker.results == []
    ensures poll == Pending <==> before.worker.alive && before.worker.results == []
  {
    if before.worker.results != [] {
      NeverMismatched(before);
    }
  }

  /** The running-targets deadline is an interval past every running-targets cycle, and no
      two such cycles are closer than that. */
  ghost predicate Spaced(s: ExecutorState) {
    match s.runningTargetsSchedule
    case Suppressed =>
      s.runningTargetsDeadline.NotScheduled? && forall cycle <- s.cycles :: RunningTargets !in cycle.demand
    case Every(interval) =>
      && s.runningTargetsDeadline.At?
      && (forall cycle <- s.cycles :: RunningTargets in cycle.demand
            ==> cycle.at + interval <= s.runningTargetsDeadline.instant)
      && forall i, j :: 0 <= i < j < |s.cycles|
            && RunningTargets in s.cycles[i].demand && RunningTargets in s.cycles[j].demand
            ==> s.cycles[i].at + interval <= s.cycles[j].at
  }

  lemma StepSpaced(before: ExecutorState, event: Event, after: ExecutorState)
    requires Spaced(before) && Next(before, event, after)
    ensures Spaced(after) && after.runningTargetsSchedule == before.runningTargetsSchedule
  {
    if event.RefreshDue? {
      var outcome :| Refreshed(before, event.now, after, outcome);
      if outcome != NotDue {
        var demand :| IsDueDemand(before, event.now, demand) && Sent(before, event.now, demand, after, outcome);
        assert RunningTargets in demand ==> Expired(before.runningTargetsDeadline, event.now);
        assert forall cycle <- after.cycles :: cycle in before.cycles || cycle == Cycle(event.now, demand);
      }
    }
  }

  /** In every run, two cycles that serve running targets are at least the interval apart. */
  lemma {:induction false} RunSpacesRunningTargets(states: seq<ExecutorState>, events: seq<Event>)
    requires IsRun(states, events)
    ensures forall s <- states :: Spaced(s)
  {
    var i := 0;
    while i < |events|
      invariant i <= |events|
      invariant forall k :: 0 <= k <= i ==> Spaced(states[k])
    {
      assert RunsEvent(states, events, i);
      StepSpaced(states[i], events[i], states[i + 1]);
      i := i + 1;
    }
  }

  // ---------------------------------------------------------------------------
  // One-shot deadlines
  // ---------------------------------------------------------------------------

  function OneShotOf(s: ExecutorState, consumer: Consumer): OneShotSchedule
    requires consumer != RunningTargets
  {
    if consumer == CompileMonitor then s.compileMonitor else s.terminationTransaction
  }

  predicate Rearms(event: Event, consumer: Consumer) {
    || (consumer == CompileMonitor && event.RearmCompileMonitor?)
    || (consumer == TerminationTransaction && event.RearmTerminationTransaction?)
  }

  function CyclesServing(cycles: seq<Cycle>, consumer: Consumer): nat {
    if cycles == [] then 0
    else CyclesServing(cycles[..|cycles| - 1], consumer) + (if consumer in cycles[|cycles| - 1].demand then 1 else 0)
  }

  lemma OneMoreCycle(cycles: seq<Cycle>, cycle: Cycle, consumer: Consumer)
    ensures CyclesServing(cycles + [cycle], consumer)
         == CyclesServing(cycles, consumer) + (if consumer in cycle.demand then 1 else 0)
  {
    assert (cycles + [cycle])[..|cycles|] == cycles;
  }

  /** Times the consumer armed its deadline. */
  function Armings(events: seq<Event>, consumer: Consumer): nat {
    if events == [] then 0
    else
      var last := events[|events| - 1];
      Armings(events[..|events| - 1], consumer)
      + (if Rearms(last, consumer) && last.schedule.ArmedAt? then 1 else 0)
  }

  /** The consumer's deadline and the number of cycles that served it. */
  function Service(s: ExecutorState, consumer: Consumer): (OneShotSchedule, nat)
    requires consumer != RunningTargets
  {
    (OneShotOf(s, consumer), CyclesServing(s.cycles, consumer))
  }

  /** A dispatch while the worker is free, at or after the instant the consumer armed. */
  ghost predicate Serves(before: ExecutorState, event: Event, consumer: Consumer) {
    event.RefreshDue? && before.inFlight.Idle? && Expired(DeadlineOf(before, consumer), event.now)
  }

  lemma SentServes(before: ExecutorState, now: Instant, demand: Demand, after: ExecutorState, outcome: DispatchOutcome,
                   consumer: Consumer)
    requires consumer != RunningTargets && IsDueDemand(before, now, demand) && Sent(before, now, demand, after, outcome)
    ensures Service(after, consumer) == if Expired(DeadlineOf(before, consumer), now)
                                        then (NotArmed, Service(before, consumer).1 + 1)
                                        else Service(before, consumer)
  {
    OneMoreCycle(before.cycles, Cycle(now, demand), consumer);
    assert consumer in demand <==> Expired(DeadlineOf(before, consumer), now);
  }

  /** Such a dispatch, and nothing else but a re-arm, disarms the deadline and sends one cycle
      that serves the consumer. */
  lemma StepServes(before: ExecutorState, event: Event, after: ExecutorState, consumer: Consumer)
    requires consumer != RunningTargets && Next(before, event, after) && !Rearms(event, consumer)
    ensures Service(after, consumer)
         == if Serves(before, event, consumer) then (NotArmed, Service(before, consumer).1 + 1)
                                        else Service(before, consumer)
  {
    if event.RefreshDue? {
      var outcome :| Refreshed(before, event.now, after, outcome);
      if before.inFlight.Idle? && !IsDueDemand(before, event.now, {}) {
        var demand :| IsDueDemand(before, event.now, demand) && Sent(before, event.now, demand, after, outcome);
        SentServes(before, event.now, demand, after, outcome, consumer);
      }
    }
  }

  /** While nobody re-arms it, an armed deadline stays armed up to the first dispatch at or
      after its instant, which sends the one cycle that serves it, and is disarmed from then
      on; without such a dispatch it is still armed at the end. */
  lemma {:induction false} ArmedIsServedOnce(states: seq<ExecutorState>, events: seq<Event>, first: nat, last: nat,
                                             consumer: Consumer)
    requires IsRun(states, events) && consumer != RunningTargets
    requires first <= last <= |events|
    requires forall k :: first <= k < last ==> !Rearms(events[k], consumer)
    ensures Service(states[last], consumer)
         == if exists k :: first <= k < last && Serves(states[k], events[k], consumer)
            then (NotArmed, Service(states[first], consumer).1 + 1)
            else Service(states[first], consumer)
    decreases last
  {
    if first < last {
      ArmedIsServedOnce(states, events, first, last - 1, consumer);
      assert RunsEvent(states, events, last - 1);
      StepServes(states[last - 1], events[last - 1], states[last], consumer);
    }
  }

  /** Cycles that served a consumer, plus the one its armed deadline is still owed. */
  function Owed(s: ExecutorState, consumer: Consumer): nat
    requires consumer != RunningTargets
  {
    CyclesServing(s.cycles, consumer) + (if OneShotOf(s, consumer).ArmedAt? then 1 else 0)
  }

  lemma StepOwes(before: ExecutorState, event: Event, after: ExecutorState, consumer: Consumer)
    requires consumer != RunningTargets && Next(before, event, after)
    ensures Owed(after, consumer)
         <= Owed(before, consumer) + (if Rearms(event, consumer) && event.schedule.ArmedAt? then 1 else 0)
  {
    if !Rearms(event, consumer) {
      StepServes(before, event, after, consumer);
    }
  }

  /** A deadline armed once is dispatched at most once: cycles serving a one-shot consumer
      never outnumber the times it was armed. */
  lemma {:induction false} RunDispatchesEachArmingOnce(states: seq<ExecutorState>, events: seq<Event>,
                                                       consumer: Consumer, i: nat)
    requires IsRun(states, events) && consumer != RunningTargets && i <= |events|
    ensures Owed(states[i], consumer) <= Owed(states[0], consumer) + Armings(events[..i], consumer)
  {
    if i > 0 {
      RunDispatchesEachArmingOnce(states, events, consumer, i - 1);
      assert RunsEvent(states, events, i - 1);
      StepOwes(states[i - 1], events[i - 1], states[i], consumer);
      assert events[..i][..i - 1] == events[..i - 1];
    }
  }

  /** A deadline armed while a request is in flight is still armed when the answer comes. */
  lemma {:induction false} ArmedDuringFlightSurvives(states: seq<ExecutorState>, events: seq<Event>,
                                                     first: nat, last: nat, consumer: Consumer)
    requires IsRun(states, events) && consumer != RunningTargets
    requires first <= last <= |events|
    requires forall i :: first <= i < last ==> !Rearms(events[i], consumer) && states[i].inFlight.Awaiting?
    ensures OneShotOf(states[last], consumer) == OneShotOf(states[first], consumer)
    decreases last
  {
    if first < last {
      ArmedDuringFlightSurvives(states, events, first, last - 1, consumer);
      assert RunsEvent(states, events, last - 1);
      StepServes(states[last - 1], events[last - 1], states[last], consumer);
    }
  }
}
