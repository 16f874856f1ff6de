/** The refresh scheduler and the worker it correlates requests with
    (src/process_observation/executor.rs).

    Instants are whole ticks of the clock. What a cycle observes and classifies is not
    part of this model: a completed execution is just `Completed`. */
module RefreshExecutor {
  import opened Common

  // ---------------------------------------------------------------------------
  // Values
  // ---------------------------------------------------------------------------

  type Instant = int

  datatype Consumer = RunningTargets | CompileMonitor | TerminationTransaction

  /** The consumers one cycle serves. */
  type Demand = set<Consumer>

  datatype RunningTargetsSchedule = Every(interval: nat) | Suppressed

  /** A deadline a consumer arms for one dispatch. */
  datatype OneShotSchedule = ArmedAt(instant: Instant) | NotArmed

  datatype Deadline = At(instant: Instant) | AwaitingWorker | NotScheduled

  type RequestId = id: nat | id <= U64_MAX witness 0

  datatype Request = Request(id: RequestId, demand: Demand)

  datatype Failure = RequestChannelDisconnected | ResultChannelDisconnected

  datatype ExecutionOutcome = Completed | Failed(failure: Failure)

  datatype Execution = Execution(request: Request, outcome: ExecutionOutcome)

  datatype Backend = Synchronous | DedicatedWorker

  datatype InFlight = Idle | Awaiting(request: Request)

  datatype DispatchOutcome = NotDue | Dispatched(id: RequestId) | Finished(execution: Execution)

  datatype ResultPoll = Pending | Ready(execution: Execution)

  /** The worker thread and the two channels that reach it. */
  datatype WorkerState = WorkerState(
    alive: bool, commands: seq<Request>, executing: Option<Request>, results: seq<Execution>)

  const FRESH_WORKER := WorkerState(true, [], None, [])

  /** One cycle the executor sent. */
  datatype Cycle = Cycle(at: Instant, demand: Demand)

  /** `dispatched`, `answered` and `cycles` record the run so far. */
  datatype ExecutorState = ExecutorState(
    backend: Backend,
    runningTargetsSchedule: RunningTargetsSchedule,
    runningTargetsDeadline: Deadline,
    compileMonitor: OneShotSchedule,
    terminationTransaction: OneShotSchedule,
    inFlight: InFlight,
    nextRequestId: RequestId,
    worker: WorkerState,
    dispatched: seq<Request>,
    answered: seq<Execution>,
    cycles: seq<Cycle>)

  // ---------------------------------------------------------------------------
  // Deadlines
  // ---------------------------------------------------------------------------

  function MinimumDeadline(left: Deadline, right: Deadline): Deadline {
    match (left, right)
    case (At(l), At(r)) => At(if l <= r then l else r)
    case (At(l), NotScheduled) => left
    case (NotScheduled, At(r)) => right
    case (AwaitingWorker, _) => AwaitingWorker
    case (_, AwaitingWorker) => AwaitingWorker
    case (NotScheduled, NotScheduled) => NotScheduled
  }

  function OneShotDeadline(schedule: OneShotSchedule): Deadline {
    match schedule
    case ArmedAt(instant) => At(instant)
    case NotArmed => NotScheduled
  }

  function NextDeadline(s: ExecutorState): Deadline {
    if s.inFlight.Awaiting? then AwaitingWorker
    else
      MinimumDeadline(MinimumDeadline(s.runningTargetsDeadline, OneShotDeadline(s.compileMonitor)),
                      OneShotDeadline(s.terminationTransaction))
  }

  predicate Expired(deadline: Deadline, now: Instant) {
    deadline.At? && deadline.instant <= now
  }

  function DeadlineOf(s: ExecutorState, consumer: Consumer): Deadline {
    match consumer
    case RunningTargets => s.runningTargetsDeadline
    case CompileMonitor => OneShotDeadline(s.compileMonitor)
    case TerminationTransaction => OneShotDeadline(s.terminationTransaction)
  }

  ghost predicate IsDueDemand(s: ExecutorState, now: Instant, demand: Demand) {
    forall consumer :: consumer in demand <==> Expired(DeadlineOf(s, consumer), now)
  }

  lemma SomeoneIsDue(s: ExecutorState, now: Instant, demand: Demand)
    requires IsDueDemand(s, now, demand) && demand != {}
    ensures !IsDueDemand(s, now, {})
  {
    var consumer :| consumer in demand;
    assert Expired(DeadlineOf(s, consumer), now);
  }

  // ---------------------------------------------------------------------------
  // What each step does
  // ---------------------------------------------------------------------------

  /** Deadlines after dispatching a demand: the running-targets one moves an interval on,
      a served one-shot is disarmed, and nobody else's changes. */
  ghost predicate DeadlinesAdvanced(before: ExecutorState, now: Instant, demand: Demand, after: ExecutorState) {
    && after.runningTargetsDeadline
       == (if RunningTargets !in demand then before.runningTargetsDeadline
           else match before.runningTargetsSchedule
                case Every(interval) => At(now + interval)
                case Suppressed => NotScheduled)
    && after.compileMonitor == (if CompileMonitor in demand then NotArmed else before.compileMonitor)
    && after.terminationTransaction
       == (if TerminationTransaction in demand then NotArmed else before.terminationTransaction)
  }

  /** The request a dispatch sends, and where it goes. */
  ghost predicate Sent(before: ExecutorState, now: Instant, demand: Demand, after: ExecutorState,
                       outcome: DispatchOutcome)
  {
    var request := Request(before.nextRequestId, demand);
    && DeadlinesAdvanced(before, now, demand, after)
    && after.nextRequestId == (if before.nextRequestId == U64_MAX then 0 else before.nextRequestId + 1)
    && after.dispatched == before.dispatched + [request]
    && after.cycles == before.cycles + [Cycle(now, demand)]
    && if before.backend.DedicatedWorker? && before.worker.alive then
         && outcome == Dispatched(request.id)
         && after.inFlight == Awaiting(request)
         && after.worker == before.worker.(commands := before.worker.commands + [request])
         && after.answered == before.answered
       else
         var result := if before.backend.Synchronous? then Completed else Failed(RequestChannelDisconnected);
         && outcome == Finished(Execution(request, result))
         && after.inFlight == before.inFlight
         && after.worker == before.worker
         && after.answered == before.answered + [Execution(request, result)]
  }

  ghost predicate SameConfiguration(before: ExecutorState, after: ExecutorState) {
    && after.backend == before.backend
    && after.runningTargetsSchedule == before.runningTargetsSchedule
  }

  ghost predicate Refreshed(before: ExecutorState, now: Instant, after: ExecutorState, outcome: DispatchOutcome) {
    if before.inFlight.Awaiting? || IsDueDemand(before, now, {})
    then after == before && outcome == NotDue
    else SameConfiguration(before, after)
         && exists demand :: IsDueDemand(before, now, demand) && Sent(before, now, demand, after, outcome)
  }

  ghost predicate Polled(before: ExecutorState, after: ExecutorState, poll: ResultPoll) {
    var worker := before.worker;
    if before.inFlight.Idle? then after == before && poll == Pending
    else if before.backend.DedicatedWorker? && worker.results != [] then
      var execution := worker.results[0];
      var received := before.(worker := worker.(results := worker.results[1..]));
      if execution.request == before.inFlight.request
      then && after == received.(inFlight := Idle, answered := before.answered + [execution])
           && poll == Ready(execution)
      else after == received && poll == Pending
    else if before.backend.DedicatedWorker? && worker.alive then after == before && poll == Pending
    else
      var execution := Execution(before.inFlight.request, Failed(ResultChannelDisconnected));
      && after == before.(inFlight := Idle, answered := before.answered + [execution])
      && poll == Ready(execution)
  }

  function WorkerReceives(worker: WorkerState): WorkerState {
    if worker.alive && worker.executing.None? && worker.commands != []
    then worker.(executing := Some(worker.commands[0]), commands := worker.commands[1..])
    else worker
  }

  function WorkerFinishes(worker: WorkerState): WorkerState {
    if worker.alive && worker.executing.Some?
    then worker.(executing := None, results := worker.results + [Execution(worker.executing.value, Completed)])
    else worker
  }

  /** A worker thread that ends drops its command receiver and its result sender;
      results already sent can still be received. */
  function WorkerDies(worker: WorkerState): WorkerState {
    WorkerState(false, [], None, worker.results)
  }

  // ---------------------------------------------------------------------------
  // The executor
  // ---------------------------------------------------------------------------

  class Worker {
    var state: WorkerState

    constructor ()
      ensures state == FRESH_WORKER
    {
      state := FRESH_WORKER;
    }

    method Dispatch(request: Request) returns (sent: bool)
      modifies this
      ensures sent == old(state).alive
      ensures state == if sent then old(state).(commands := old(state).commands + [request]) else old(state)
    {
      sent := state.alive;
      if sent {
        state := state.(commands := state.commands + [request]);
      }
    }

    /** One turn of the worker loop, up to the point where the result is sent. */
    method RunOne()
      modifies this
      ensures state == WorkerFinishes(WorkerReceives(old(state)))
    {
      if state.alive && state.executing.None? && state.commands != [] {
        state := state.(executing := Some(state.commands[0]), commands := state.commands[1..]);
      }
      if state.alive && state.executing.Some? {
        var execution := Execution(state.executing.value, Completed);
        state := state.(executing := None, results := state.results + [execution]);
      }
    }
  }

  class Executor {
    const backend: Backend
    const worker: Worker
    const runningTargetsSchedule: RunningTargetsSchedule
    var runningTargetsDeadline: Deadline
    var compileMonitor: OneShotSchedule
    var terminationTransaction: OneShotSchedule
    var inFlight: InFlight
    var nextRequestId: RequestId
    ghost var dispatched: seq<Request>
    ghost var answered: seq<Execution>
    ghost var cycles: seq<Cycle>

    ghost function State(): ExecutorState
      reads this, worker
    {
      ExecutorState(backend, runningTargetsSchedule, runningTargetsDeadline, compileMonitor, terminationTransaction,
                    inFlight, nextRequestId, worker.state, dispatched, answered, cycles)
    }

    constructor (backend: Backend, runningTargetsSchedule: RunningTargetsSchedule, compileMonitor: OneShotSchedule,
                 startedAt: Instant)
      ensures fresh(worker)
      ensures State() == InitialState(backend, runningTargetsSchedule, compileMonitor, startedAt)
    {
      this.backend := backend;
      this.runningTargetsSchedule := runningTargetsSchedule;
      this.compileMonitor := compileMonitor;
      terminationTransaction := NotArmed;
      runningTargetsDeadline := if runningTargetsSchedule.Every? then At(startedAt) else NotScheduled;
      inFlight := Idle;
      nextRequestId := 0;
      dispatched, answered, cycles := [], [], [];
      worker := new Worker();
    }

    method RearmCompileMonitor(schedule: OneShotSchedule)
      modifies this
      ensures State() == old(State()).(compileMonitor := schedule)
    {
      compileMonitor := schedule;
    }

    method RearmTerminationTransaction(schedule: OneShotSchedule)
      modifies this
      ensures State() == old(State()).(terminationTransaction := schedule)
    {
      terminationTransaction := schedule;
    }

    method DueDemand(now: Instant) returns (demand: Demand)
      ensures IsDueDemand(State(), now, demand)
    {
      demand := {};
      if Expired(runningTargetsDeadline, now) {
        demand := demand + {RunningTargets};
      }
      if compileMonitor.ArmedAt? && compileMonitor.instant <= now {
        demand := demand + {CompileMonitor};
      }
      if terminationTransaction.ArmedAt? && terminationTransaction.instant <= now {
        demand := demand + {TerminationTransaction};
      }
      ghost var due := demand;
      forall consumer ensures consumer in due <==> Expired(DeadlineOf(State(), consumer), now) {
        match consumer {
          case RunningTargets =>
          case CompileMonitor =>
          case TerminationTransaction =>
        }
      }
    }

    method AdvanceDispatchedDeadlines(now: Instant, demand: Demand)
      modifies this`runningTargetsDeadline, this`compileMonitor, this`terminationTransaction
      ensures DeadlinesAdvanced(old(State()), now, demand, State())
    {
      if RunningTargets in demand {
        match runningTargetsSchedule
        case Every(interval) => runningTargetsDeadline := At(now + interval);
        case Suppressed => runningTargetsDeadline := NotScheduled;
      }
      if CompileMonitor in demand {
        compileMonitor := NotArmed;
      }
      if TerminationTransaction in demand {
        terminationTransaction := NotArmed;
      }
    }

    /** Executes a request on the spot, or hands it to the worker; a dead worker fails it. */
    method Deliver(request: Request) returns (outcome: DispatchOutcome)
      modifies this`inFlight, this`answered, worker
      ensures backend.DedicatedWorker? && old(worker.state).alive ==>
                && outcome == Dispatched(request.id) && inFlight == Awaiting(request)
                && worker.state == old(worker.state).(commands := old(worker.state).commands + [request])
                && answered == old(answered)
      ensures backend.Synchronous? || !old(worker.state).alive ==>
                var result := if backend.Synchronous? then Completed else Failed(RequestChannelDisconnected);
                && outcome == Finished(Execution(request, result)) && inFlight == old(inFlight)
                && worker.state == old(worker.state)
                && answered == old(answered) + [Execution(request, result)]
    {
      match backend
      case Synchronous =>
        outcome := Finished(Execution(request, Completed));
        answered := answered + [Execution(request, Completed)];
      case DedicatedWorker =>
        var sent := worker.Dispatch(request);
        if sent {
          inFlight := Awaiting(request);
          outcome := Dispatched(request.id);
        } else {
          var failed := Execution(request, Failed(RequestChannelDisconnected));
          outcome := Finished(failed);
          answered := answered + [failed];
        }
    }

    method RefreshDue(now: Instant) returns (outcome: DispatchOutcome)
      modifies this, worker
      ensures Refreshed(old(State()), now, State(), outcome)
    {
      if inFlight.Awaiting? {
        return NotDue;
      }
      var demand := DueDemand(now);
      if demand == {} {
        return NotDue;
      }
      ghost var before := State();
      SomeoneIsDue(before, now, demand);
      var request := Request(nextRequestId, demand);
      nextRequestId := if nextRequestId == U64_MAX then 0 else nextRequestId + 1;
      AdvanceDispatchedDeadlines(now, demand);
      dispatched := dispatched + [request];
      cycles := cycles + [Cycle(now, demand)];
      outcome := Deliver(request);
      assert Sent(before, now, demand, State(), outcome);
    }

    method PollResult() returns (poll: ResultPoll)
      modifies this, worker
      ensures Polled(old(State()), State(), poll)
    {
      if inFlight.Idle? {
        return Pending;
      }
      if backend.DedicatedWorker? {
        if worker.state.results != [] {
          var execution := worker.state.results[0];
          worker.state := worker.state.(results := worker.state.results[1..]);
          if execution.request == inFlight.request {
            inFlight := Idle;
            answered := answered + [execution];
            return Ready(execution);
          }
          return Pending;
        }
        if worker.state.alive {
          return Pending;
        }
      }
      var failed := Execution(inFlight.request, Failed(ResultChannelDisconnected));
      inFlight := Idle;
      answered := answered + [failed];
      poll := Ready(failed);
    }
  }

  function InitialState(backend: Backend, runningTargetsSchedule: RunningTargetsSchedule,
                        compileMonitor: OneShotSchedule, startedAt: Instant): ExecutorState
  {
    ExecutorState(backend, runningTargetsSchedule,
                  if runningTargetsSchedule.Every? then At(startedAt) else NotScheduled,
                  compileMonitor, NotArmed, Idle, 0, FRESH_WORKER, [], [], [])
  }
}
