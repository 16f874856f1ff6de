/** Executing one frozen termination plan (src/process_termination/mod.rs).

    The host is a clock that never runs backwards and answers that may be anything: whether
    the process object is still the authorized one, whether it takes the signal, and
    whether it is gone afterwards. */
module TerminationPlan {
  // ---------------------------------------------------------------------------
  // Values
  // ---------------------------------------------------------------------------

  /** Whole ticks of the clock. */
  type Instant = int

  /** Two seconds (src/process_termination/constants.rs:5). */
  const CONFIRMATION_TIMEOUT: nat := 2_000

  datatype Role = FrozenRoot | AdmittedDescendant(depthFromRoot: nat)

  datatype Target = Target(id: nat, role: Role, pid: nat, actionable: bool)

  datatype PlanDeadline = At(instant: Instant) | StartupHandshake

  datatype Plan = Plan(requestId: nat, deadline: PlanDeadline, targets: seq<Target>)

  datatype Admission =
    | PidReused
    | ProcessGone
    | RevalidationUnavailable
    | ProcessImageReplaced
    | SameProcessObject

  datatype Delivery = Rejected | GoneAtDelivery | Accepted

  datatype Presence = Gone | Present | Unavailable

  datatype TerminationError =
    | HostHasNoIdentityBoundAdapter
    | ImageReplaced
    | ProcessRevalidationUnavailable
    | HostRejectedSignal
    | DeadlineExpired

  datatype TargetResult =
    | AlreadyGone(pid: nat)
    | GoneAfterSignaling(pid: nat)
    | Survived(pid: nat)
    | SignaledButUnconfirmed(pid: nat)
    | Refused(error: TerminationError, pid: nat)

  datatype TargetOutcome = TargetOutcome(id: nat, role: Role, result: TargetResult)

  datatype OutcomeDeadline = CompletedWithinDeadline | Expired

  datatype Summary = Summary(requestId: nat, deadline: OutcomeDeadline, outcomes: seq<TargetOutcome>)

  /** What the host answered while one target had its turn, and the clock on either side. */
  datatype Pass = Pass(started: Instant, admission: Admission, delivery: Delivery, presence: Presence,
                       finished: Instant)

  /** One bounded wait for a signalled process to go: the reading its timeout was computed
      from, and the instant it started, once the signal was delivered. */
  datatype Wait = Wait(reading: Instant, start: Instant, timeout: nat)

  function LeafOrder(role: Role): nat {
    match role
    case FrozenRoot => 0
    case AdmittedDescendant(depth) => depth
  }

  predicate HasExpired(deadline: PlanDeadline, now: Instant) {
    deadline.At? && now >= deadline.instant
  }

  function ConfirmationTimeout(deadline: PlanDeadline, now: Instant): nat {
    match deadline
    case StartupHandshake => CONFIRMATION_TIMEOUT
    case At(instant) =>
      if instant <= now then 0
      else if instant - now < CONFIRMATION_TIMEOUT then instant - now
      else CONFIRMATION_TIMEOUT
  }

  // ---------------------------------------------------------------------------
  // The order of a pass
  // ---------------------------------------------------------------------------

  /** Whether `left` may stand before `right`: deeper first, then the smaller identity. */
  predicate NotAfter(left: Target, right: Target) {
    || LeafOrder(left.role) > LeafOrder(right.role)
    || (LeafOrder(left.role) == LeafOrder(right.role) && left.id <= right.id)
  }

  predicate Tie(left: Target, right: Target) {
    LeafOrder(left.role) == LeafOrder(right.role) && left.id == right.id
  }

  /** The targets that tie with one target, in order. */
  function Tied(targets: seq<Target>, target: Target): seq<Target> {
    if targets == [] then []
    else (if Tie(targets[0], target) then [targets[0]] else []) + Tied(targets[1..], target)
  }

  ghost predicate Sorted(targets: seq<Target>) {
    forall i, j :: 0 <= i < j < |targets| ==> NotAfter(targets[i], targets[j])
  }

  /** `ordered` is `targets` under a stable sort. */
  ghost predicate StablySorted(targets: seq<Target>, ordered: seq<Target>) {
    Sorted(ordered) && forall target :: Tied(ordered, target) == Tied(targets, target)
  }

  lemma {:induction false} TiedConcat(left: seq<Target>, right: seq<Target>, target: Target)
    ensures Tied(left + right, target) == Tied(left, target) + Tied(right, target)
  {
    if left == [] {
      assert left + right == right;
    } else {
      var all := left + right;
      var head := if Tie(left[0], target) then [left[0]] else [];
      assert all[0] == left[0] && all[1..] == left[1..] + right;
      TiedConcat(left[1..], right, target);
      assert Tied(all, target) == head + Tied(all[1..], target);
      assert Tied(left, target) == head + Tied(left[1..], target);
    }
  }

  lemma {:induction false} TiedNone(targets: seq<Target>, target: Target)
    requires forall other <- targets :: !Tie(other, target)
    ensures Tied(targets, target) == []
  {
    if targets != [] {
      assert targets[0] in targets;
      TiedNone(targets[1..], target);
    }
  }

  lemma {:induction false} TiedCount(targets: seq<Target>, target: Target)
    ensures multiset(targets)[target] == multiset(Tied(targets, target))[target]
  {
    if targets != [] {
      assert targets == [targets[0]] + targets[1..];
      TiedCount(targets[1..], target);
      assert Tied(targets, target)
           == (if Tie(targets[0], target) then [targets[0]] else []) + Tied(targets[1..], target);
    }
  }

  /** A stable sort keeps every target, as often as it was there. */
  lemma StablySortedPermutes(targets: seq<Target>, ordered: seq<Target>)
    requires StablySorted(targets, ordered)
    ensures multiset(ordered) == multiset(targets) && |ordered| == |targets|
  {
    forall target ensures multiset(ordered)[target] == multiset(targets)[target] {
      TiedCount(targets, target);
      TiedCount(ordered, target);
    }
    assert multiset(ordered) == multiset(targets);
    assert |multiset(ordered)| == |ordered| && |multiset(targets)| == |targets|;
  }

  lemma InsertedTied(left: seq<Target>, target: Target, right: seq<Target>, other: Target)
    requires forall later <- right :: !NotAfter(later, target)
    ensures Tied(left + [target] + right, other) == Tied(left + right, other) + Tied([target], other)
  {
    TiedConcat(left + [target], right, other);
    TiedConcat(left, [target], other);
    TiedConcat(left, right, other);
    if Tie(target, other) {
      TiedNone(right, other);
    }
  }

  lemma InsertedSorted(ordered: seq<Target>, at: nat, target: Target)
    requires Sorted(ordered) && at <= |ordered|
    requires at > 0 ==> NotAfter(ordered[at - 1], target)
    requires forall k :: at <= k < |ordered| ==> !NotAfter(ordered[k], target)
    ensures Sorted(ordered[..at] + [target] + ordered[at..])
  {
    assert forall k :: 0 <= k < at ==> NotAfter(ordered[k], target);
    assert forall k :: at <= k < |ordered| ==> NotAfter(target, ordered[k]);
  }

  lemma InsertedStably(targets: seq<Target>, ordered: seq<Target>, at: nat, target: Target)
    requires StablySorted(targets, ordered) && at <= |ordered|
    requires at > 0 ==> NotAfter(ordered[at - 1], target)
    requires forall k :: at <= k < |ordered| ==> !NotAfter(ordered[k], target)
    ensures StablySorted(targets + [target], ordered[..at] + [target] + ordered[at..])
  {
    InsertedSorted(ordered, at, target);
    var inserted := ordered[..at] + [target] + ordered[at..];
    forall other ensures Tied(inserted, other) == Tied(targets + [target], other) {
      InsertedTied(ordered[..at], target, ordered[at..], other);
      assert ordered == ordered[..at] + ordered[at..];
      TiedConcat(targets, [target], other);
    }
  }

  method SortDeepestFirst(targets: seq<Target>) returns (ordered: seq<Target>)
    ensures StablySorted(targets, ordered)
  {
    ordered := [];
    var next := 0;
    assert targets[..0] == [];
    while next < |targets|
      invariant next <= |targets|
      invariant StablySorted(targets[..next], ordered)
    {
      var at := |ordered|;
      while at > 0 && !NotAfter(ordered[at - 1], targets[next])
        invariant 0 <= at <= |ordered|
        invariant forall k :: at <= k < |ordered| ==> !NotAfter(ordered[k], targets[next])
      {
        at := at - 1;
      }
      InsertedStably(targets[..next], ordered, at, targets[next]);
      assert targets[..next + 1] == targets[..next] + [targets[next]];
      ordered := ordered[..at] + [targets[next]] + ordered[at..];
      next := next + 1;
    }
    assert targets[..|targets|] == targets;
  }

  // ---------------------------------------------------------------------------
  // One target
  // ---------------------------------------------------------------------------

  /** The result one target's admission and signal lead to. */
  function AdmissionResult(target: Target, admission: Admission, delivery: Delivery, presence: Presence): TargetResult {
    match admission
    case PidReused => AlreadyGone(target.pid)
    case ProcessGone => AlreadyGone(target.pid)
    case RevalidationUnavailable => Refused(ProcessRevalidationUnavailable, target.pid)
    case ProcessImageReplaced => Refused(ImageReplaced, target.pid)
    case SameProcessObject =>
      if !target.actionable then Refused(HostHasNoIdentityBoundAdapter, target.pid)
      else
        match delivery
        case Rejected => Refused(HostRejectedSignal, target.pid)
        case GoneAtDelivery => AlreadyGone(target.pid)
        case Accepted =>
          match presence
          case Gone => GoneAfterSignaling(target.pid)
          case Present => Survived(target.pid)
          case Unavailable => SignaledButUnconfirmed(target.pid)
  }

  function PassResult(deadline: PlanDeadline, target: Target, pass: Pass): TargetResult {
    if HasExpired(deadline, pass.started) then Refused(DeadlineExpired, target.pid)
    else AdmissionResult(target, pass.admission, pass.delivery, pass.presence)
  }

  /** Whether the host was asked to signal the target. */
  predicate Signalled(deadline: PlanDeadline, target: Target, pass: Pass) {
    !HasExpired(deadline, pass.started) && pass.admission.SameProcessObject? && target.actionable
  }

  function SignalledIds(deadline: PlanDeadline, targets: seq<Target>, passes: seq<Pass>): seq<nat>
    requires |targets| == |passes|
  {
    if targets == [] then []
    else
      var last := |targets| - 1;
      SignalledIds(deadline, targets[..last], passes[..last])
      + (if Signalled(deadline, targets[last], passes[last]) then [targets[last].id] else [])
  }

  /** The timeout is computed before the signal is delivered, the wait starts after. */
  predicate IsConfirmation(deadline: PlanDeadline, wait: Wait) {
    wait.reading <= wait.start && wait.timeout == ConfirmationTimeout(deadline, wait.reading)
  }

  /** The latest instant the wait can end is not past the deadline. */
  predicate EndsWithin(deadline: PlanDeadline, wait: Wait) {
    deadline.At? ==> wait.start + wait.timeout <= deadline.instant
  }

  ghost predicate WaitsAdded(deadline: PlanDeadline, before: seq<Wait>, after: seq<Wait>) {
    before <= after && forall k :: |before| <= k < |after| ==> IsConfirmation(deadline, after[k])
  }

  lemma SignalOne(deadline: PlanDeadline, targets: seq<Target>, passes: seq<Pass>, pass: Pass)
    requires |passes| < |targets|
    ensures var next := |passes|;
            SignalledIds(deadline, targets[..next + 1], passes + [pass])
            == SignalledIds(deadline, targets[..next], passes)
               + (if Signalled(deadline, targets[next], pass) then [targets[next].id] else [])
  {
    var next := |passes|;
    assert targets[..next + 1][..next] == targets[..next] && (passes + [pass])[..next] == passes;
  }

  class Host {
    var now: Instant
    ghost var signals: seq<nat>
    ghost var waits: seq<Wait>

    method Now() returns (reading: Instant)
      modifies this`now
      ensures old(now) <= now == reading
    {
      var elapsed: nat :| elapsed >= 0;
      now := now + elapsed;
      reading := now;
    }

    method ObserveAdmission() returns (admission: Admission)
      modifies this`now
      ensures old(now) <= now
    {
      var elapsed: nat :| elapsed >= 0;
      now := now + elapsed;
      admission := *;
    }

    method DeliverTerminationRequest(target: Target) returns (delivery: Delivery)
      modifies this`now, this`signals
      ensures old(now) <= now && signals == old(signals) + [target.id]
    {
      var elapsed: nat :| elapsed >= 0;
      now := now + elapsed;
      signals := signals + [target.id];
      delivery := *;
    }

    method ConfirmProcessObjectGone(ghost reading: Instant, timeout: nat) returns (presence: Presence)
      modifies this`now, this`waits
      ensures old(now) <= now && waits == old(waits) + [Wait(reading, old(now), timeout)]
    {
      waits := waits + [Wait(reading, now, timeout)];
      var elapsed: nat :| elapsed >= 0;
      now := now + elapsed;
      presence := *;
    }
  }

  method DeliverOneBoundSignal(host: Host, target: Target, ghost reading: Instant, timeout: nat)
    returns (result: TargetResult, ghost delivery: Delivery, ghost presence: Presence, ghost start: Instant)
    requires target.actionable
    modifies host
    ensures old(host.now) <= host.now
    ensures host.signals == old(host.signals) + [target.id]
    ensures old(host.now) <= start <= host.now
    ensures host.waits == old(host.waits) + (if delivery.Accepted? then [Wait(reading, start, timeout)] else [])
    ensures result == AdmissionResult(target, SameProcessObject, delivery, presence)
  {
    presence := Unavailable;
    var answer := host.DeliverTerminationRequest(target);
    delivery, start := answer, host.now;
    match answer {
      case Rejected => result := Refused(HostRejectedSignal, target.pid);
      case GoneAtDelivery => result := AlreadyGone(target.pid);
      case Accepted =>
        var seen := host.ConfirmProcessObjectGone(reading, timeout);
        presence := seen;
        result := match seen
          case Gone => GoneAfterSignaling(target.pid)
          case Present => Survived(target.pid)
          case Unavailable => SignaledButUnconfirmed(target.pid);
    }
  }

  /** Observe the host once, then act on what it reported. */
  method TerminateOneTarget(host: Host, target: Target, deadline: PlanDeadline)
    returns (result: TargetResult, ghost admission: Admission, ghost delivery: Delivery, ghost presence: Presence)
    modifies host
    ensures old(host.now) <= host.now
    ensures result == AdmissionResult(target, admission, delivery, presence)
    ensures host.signals
         == old(host.signals) + (if admission.SameProcessObject? && target.actionable then [target.id] else [])
    ensures WaitsAdded(deadline, old(host.waits), host.waits)
    ensures |host.waits| == |old(host.waits)|
              + (if admission.SameProcessObject? && target.actionable && delivery.Accepted? then 1 else 0)
  {
    delivery, presence := Rejected, Unavailable;
    var seen := host.ObserveAdmission();
    admission := seen;
    match seen {
      case PidReused => result := AlreadyGone(target.pid);
      case ProcessGone => result := AlreadyGone(target.pid);
      case RevalidationUnavailable => result := Refused(ProcessRevalidationUnavailable, target.pid);
      case ProcessImageReplaced => result := Refused(ImageReplaced, target.pid);
      case SameProcessObject =>
        if target.actionable {
          var now := host.Now();
          var timeout := ConfirmationTimeout(deadline, now);
          ghost var start;
          result, delivery, presence, start := DeliverOneBoundSignal(host, target, now, timeout);
        } else {
          result := Refused(HostHasNoIdentityBoundAdapter, target.pid);
        }
    }
  }

  // ---------------------------------------------------------------------------
  // The whole plan
  // ---------------------------------------------------------------------------

  /** Every reading is at or after the ones before it. */
  ghost predicate ClockRuns(passes: seq<Pass>) {
    && (forall i :: 0 <= i < |passes| ==> passes[i].started <= passes[i].finished)
    && forall i, j :: 0 <= i < j < |passes| ==> passes[i].finished <= passes[j].started
  }

  ghost predicate ReadPastDeadline(deadline: PlanDeadline, passes: seq<Pass>) {
    exists i ::
      && 0 <= i < |passes|
      && (HasExpired(deadline, passes[i].started) || HasExpired(deadline, passes[i].finished))
  }

  /** The outcomes and the deadline flag after the passes made so far. */
  ghost predicate Recorded(deadline: PlanDeadline, targets: seq<Target>, passes: seq<Pass>, flag: OutcomeDeadline,
                           outcomes: seq<TargetOutcome>)
  {
    && |passes| == |outcomes| <= |targets|
    && ClockRuns(passes)
    && (forall i :: 0 <= i < |passes| ==>
          outcomes[i] == TargetOutcome(targets[i].id, targets[i].role, PassResult(deadline, targets[i], passes[i])))
    && (flag.Expired? <==> ReadPastDeadline(deadline, passes))
  }

  ghost predicate Executed(plan: Plan, ordered: seq<Target>, passes: seq<Pass>, summary: Summary) {
    && StablySorted(plan.targets, ordered)
    && |passes| == |ordered|
    && summary.requestId == plan.requestId
    && Recorded(plan.deadline, ordered, passes, summary.deadline, summary.outcomes)
  }

  lemma RecordOne(deadline: PlanDeadline, targets: seq<Target>, passes: seq<Pass>, flag: OutcomeDeadline,
                  outcomes: seq<TargetOutcome>, pass: Pass)
    requires Recorded(deadline, targets, passes, flag, outcomes) && |passes| < |targets|
    requires pass.started <= pass.finished
    requires forall i :: 0 <= i < |passes| ==> passes[i].finished <= pass.started
    ensures var target := targets[|passes|];
            Recorded(deadline, targets, passes + [pass],
                     if HasExpired(deadline, pass.started) || HasExpired(deadline, pass.finished) then Expired
                     else flag,
                     outcomes + [TargetOutcome(target.id, target.role, PassResult(deadline, target, pass))])
  {
    var extended := passes + [pass];
    assert forall i :: 0 <= i < |passes| ==> extended[i] == passes[i];
    assert extended[|passes|] == pass;
    if ReadPastDeadline(deadline, passes) {
      var i :| 0 <= i < |passes|
        && (HasExpired(deadline, passes[i].started) || HasExpired(deadline, passes[i].finished));
      assert HasExpired(deadline, extended[i].started) || HasExpired(deadline, extended[i].finished);
    }
  }

  /** One target's turn, between two readings of the clock. */
  method TakeTurn(host: Host, target: Target, deadline: PlanDeadline, flag: OutcomeDeadline)
    returns (outcome: TargetOutcome, newFlag: OutcomeDeadline, ghost pass: Pass)
    modifies host
    ensures old(host.now) <= pass.started <= pass.finished == host.now
    ensures outcome == TargetOutcome(target.id, target.role, PassResult(deadline, target, pass))
    ensures newFlag == if HasExpired(deadline, pass.started) || HasExpired(deadline, pass.finished) then Expired
                       else flag
    ensures host.signals == old(host.signals) + (if Signalled(deadline, target, pass) then [target.id] else [])
    ensures WaitsAdded(deadline, old(host.waits), host.waits)
  {
    newFlag := flag;
    ghost var admission, delivery, presence := ProcessGone, Rejected, Unavailable;
    var result: TargetResult;
    var started := host.Now();
    if HasExpired(deadline, started) {
      newFlag := Expired;
      result := Refused(DeadlineExpired, target.pid);
    } else {
      result, admission, delivery, presence := TerminateOneTarget(host, target, deadline);
    }
    var finished := host.Now();
    if HasExpired(deadline, finished) {
      newFlag := Expired;
    }
    pass := Pass(started, admission, delivery, presence, finished);
    outcome := TargetOutcome(target.id, target.role, result);
  }

  /** Where a pass over the targets stands: what it recorded, and what it asked of the host. */
  ghost predicate Progress(deadline: PlanDeadline, targets: seq<Target>, passes: seq<Pass>, flag: OutcomeDeadline,
                           outcomes: seq<TargetOutcome>, now: Instant, signals: seq<nat>, waits: seq<Wait>,
                           signalsBefore: seq<nat>, waitsBefore: seq<Wait>)
  {
    && Recorded(deadline, targets, passes, flag, outcomes)
    && (forall pass <- passes :: pass.finished <= now)
    && signals == signalsBefore + SignalledIds(deadline, targets[..|passes|], passes)
    && WaitsAdded(deadline, waitsBefore, waits)
  }

  lemma WaitsAccumulate(deadline: PlanDeadline, first: seq<Wait>, middle: seq<Wait>, last: seq<Wait>)
    requires WaitsAdded(deadline, first, middle) && WaitsAdded(deadline, middle, last)
    ensures WaitsAdded(deadline, first, last)
  {
    assert forall k :: 0 <= k < |middle| ==> last[k] == middle[k];
  }

  lemma FinishedBy(passes: seq<Pass>, now: Instant, pass: Pass)
    requires (forall earlier <- passes :: earlier.finished <= now) && now <= pass.started <= pass.finished
    ensures forall i :: 0 <= i < |passes| ==> passes[i].finished <= pass.started
    ensures forall earlier <- passes + [pass] :: earlier.finished <= pass.finished
  {
    assert forall i :: 0 <= i < |passes| ==> passes[i] in passes;
  }

  lemma TurnProgresses(deadline: PlanDeadline, targets: seq<Target>, passes: seq<Pass>, flag: OutcomeDeadline,
                       outcomes: seq<TargetOutcome>, now: Instant, signals: seq<nat>, waits: seq<Wait>,
                       signalsBefore: seq<nat>, waitsBefore: seq<Wait>, pass: Pass, laterWaits: seq<Wait>)
    requires Progress(deadline, targets, passes, flag, outcomes, now, signals, waits, signalsBefore, waitsBefore)
    requires |passes| < |targets| && now <= pass.started <= pass.finished
    requires WaitsAdded(deadline, waits, laterWaits)
    ensures var target := targets[|passes|];
            Progress(deadline, targets, passes + [pass],
                     if HasExpired(deadline, pass.started) || HasExpired(deadline, pass.finished) then Expired
                     else flag,
                     outcomes + [TargetOutcome(target.id, target.role, PassResult(deadline, target, pass))],
                     pass.finished,
                     signals + (if Signalled(deadline, target, pass) then [target.id] else []), laterWaits,
                     signalsBefore, waitsBefore)
  {
    FinishedBy(passes, now, pass);
    RecordOne(deadline, targets, passes, flag, outcomes, pass);
    SignalOne(deadline, targets, passes, pass);
    WaitsAccumulate(deadline, waitsBefore, waits, laterWaits);
    assert |passes + [pass]| == |passes| + 1;
  }

  method ExecuteTerminationPlan(plan: Plan, host: Host)
    returns (summary: Summary, ghost ordered: seq<Target>, ghost passes: seq<Pass>)
    modifies host
    ensures Executed(plan, ordered, passes, summary)
    ensures host.signals == old(host.signals) + SignalledIds(plan.deadline, ordered, passes)
    ensures WaitsAdded(plan.deadline, old(host.waits), host.waits)
  {
    var targets := SortDeepestFirst(plan.targets);
    ordered, passes := targets, [];
    var flag := CompletedWithinDeadline;
    var outcomes: seq<TargetOutcome> := [];
    var next := 0;
    while next < |targets|
      invariant next <= |targets| && |passes| == next
      invariant Progress(plan.deadline, targets, passes, flag, outcomes, host.now, host.signals, host.waits,
                         old(host.signals), old(host.waits))
    {
      ghost var now, signals, waits := host.now, host.signals, host.waits;
      var outcome, newFlag, pass := TakeTurn(host, targets[next], plan.deadline, flag);
      TurnProgresses(plan.deadline, targets, passes, flag, outcomes, now, signals, waits,
                     old(host.signals), old(host.waits), pass, host.waits);
      outcomes, flag, passes := outcomes + [outcome], newFlag, passes + [pass];
      next := next + 1;
    }
    assert targets[..|targets|] == targets;
    summary := Summary(plan.requestId, flag, outcomes);
  }
}
