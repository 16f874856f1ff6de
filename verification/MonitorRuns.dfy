/** What every classification's lock queue means, what a scope keeps of it, and what holds of
    the monitor over every sequence of its operations. */
module MonitorRuns {
  import opened Common
  import opened Processes
  import opened Attribution
  import opened Classify
  import opened ClassifyFacts
  import opened ClassifyResults
  import opened Monitor

  // ---------------------------------------------------------------------------
  // Lock contention
  // ---------------------------------------------------------------------------

  lemma OnlyCompiling(sessions: seq<BuildSession>, activities: seq<CompileActivity>, directory: Path,
                      session: BuildSession)
    requires DistinctIds(sessions)
    requires session in sessions && session.targetDirectory == Some(directory)
    ensures var compiling := Compiling(Sharing(sessions, directory), activities);
            && (session in compiling <==> HasCompiler(activities, session.id))
            && (|compiling| == 1 ==> (session.id == compiling[0].id <==> session in compiling))
            && (forall other <- compiling :: other in sessions && other.targetDirectory == Some(directory)
                                             && HasCompiler(activities, other.id))
            && DistinctIds(compiling)
  {
    var sharing := Sharing(sessions, directory);
    var compiling := Compiling(sharing, activities);
    GroupFacts(sessions, directory);
    CompilingDistinct(sharing, activities);
    forall other ensures other in compiling <==> other in sharing && HasCompiler(activities, other.id) {
      CompilingAre(sharing, activities, other);
    }
    if |compiling| == 1 {
      assert compiling[0] in compiling;
    }
  }

  /** An activity names the session. */
  predicate IsBuilding(activities: seq<CompileActivity>, session: Incarnation) {
    exists activity <- activities :: IsFor(activity, session)
  }

  lemma BuildingMeans(activities: seq<CompileActivity>, session: Incarnation)
    ensures HasCompiler(activities, session) <==> IsBuilding(activities, session)
    ensures forall activity :: NamesSession(activity, session) <==> IsFor(activity, session)
  {
  }

  /** A session holds the lock exactly when others share its target directory and it alone of
      them has a compiler. */
  lemma HoldingMeans(sessions: seq<BuildSession>, activities: seq<CompileActivity>, session: BuildSession)
    requires DistinctIds(sessions) && session in sessions
    ensures ContentionOf(sessions, activities, session) == Holding <==>
              && session.targetDirectory.Some?
              && IsBuilding(activities, session.id)
              && (exists other <- sessions :: other != session && other.targetDirectory == session.targetDirectory)
              && (forall other <- sessions :: other != session && other.targetDirectory == session.targetDirectory
                    ==> !IsBuilding(activities, other.id))
  {
    BuildingMeans(activities, session.id);
    if session.targetDirectory.Some? {
      var directory := session.targetDirectory.value;
      var sharing := Sharing(sessions, directory);
      var compiling := Compiling(sharing, activities);
      GroupFacts(sessions, directory);
      OnlyCompiling(sessions, activities, directory, session);
      TwoMembers(sharing, session);
      if session in compiling {
        OneMember(compiling, session);
      }
      forall other | other in sessions && other.targetDirectory == session.targetDirectory
        ensures other in compiling <==> IsBuilding(activities, other.id)
      {
        CompilingAre(sharing, activities, other);
        BuildingMeans(activities, other.id);
      }
    }
  }

  lemma TwoMembers(sessions: seq<BuildSession>, session: BuildSession)
    requires DistinctIds(sessions) && session in sessions
    ensures |sessions| >= 2 <==> exists other <- sessions :: other != session
  {
    var k :| 0 <= k < |sessions| && sessions[k] == session;
    if |sessions| >= 2 {
      var other := if k == 0 then 1 else 0;
      assert sessions[other] in sessions && sessions[other] != session;
    }
  }

  lemma OneMember(sessions: seq<BuildSession>, session: BuildSession)
    requires DistinctIds(sessions) && session in sessions
    ensures |sessions| == 1 <==> forall other <- sessions :: other == session
  {
    TwoMembers(sessions, session);
  }

  /** A session waits exactly when it has no compiler while exactly one other session of its
      target directory has; it names the root pid of that session, which holds the lock. */
  lemma WaitingMeans(sessions: seq<BuildSession>, activities: seq<CompileActivity>, session: BuildSession, pid: nat)
    requires DistinctIds(sessions) && session in sessions
    ensures ContentionOf(sessions, activities, session) == WaitingBehind(pid) <==>
              && !IsBuilding(activities, session.id)
              && exists holder <- sessions ::
                   && holder.targetDirectory == session.targetDirectory && holder.id.identity.pid == pid
                   && ContentionOf(sessions, activities, holder) == Holding
  {
    BuildingMeans(activities, session.id);
    if session.targetDirectory.Some? {
      var directory := session.targetDirectory.value;
      GroupFacts(sessions, directory);
      OnlyCompiling(sessions, activities, directory, session);
      var compiling := Compiling(Sharing(sessions, directory), activities);
      if ContentionOf(sessions, activities, session) == WaitingBehind(pid) {
        assert compiling[0] in compiling;
        assert ContentionOf(sessions, activities, compiling[0]) == Holding;
      }
      if holder :| && holder in sessions && holder.targetDirectory == session.targetDirectory
                   && holder.id.identity.pid == pid && ContentionOf(sessions, activities, holder) == Holding
      {
        OnlyCompiling(sessions, activities, directory, holder);
      }
    }
  }

  /** One target directory has at most one holder, and a session with a compiler never waits. */
  lemma OneHolder(sessions: seq<BuildSession>, activities: seq<CompileActivity>, left: BuildSession,
                  right: BuildSession)
    requires DistinctIds(sessions) && left in sessions && right in sessions
    requires left.targetDirectory == right.targetDirectory
    ensures ContentionOf(sessions, activities, left) == Holding == ContentionOf(sessions, activities, right)
          ==> left == right
    ensures IsBuilding(activities, left.id) ==> !ContentionOf(sessions, activities, left).WaitingBehind?
  {
    BuildingMeans(activities, left.id);
    HoldingMeans(sessions, activities, left);
    if ContentionOf(sessions, activities, left).WaitingBehind? {
      WaitingMeans(sessions, activities, left, ContentionOf(sessions, activities, left).holderPid);
    }
    if left.targetDirectory.Some? {
      OnlyCompiling(sessions, activities, left.targetDirectory.value, right);
    }
  }

  // ---------------------------------------------------------------------------
  // Narrowing
  // ---------------------------------------------------------------------------

  lemma {:induction false} RowsAre(sessions: seq<BuildSession>, activities: seq<CompileActivity>, key: ScopeKey,
                                   owned: OwnedRootEvidence, contentions: map<Incarnation, LockContention>,
                                   row: SessionRow)
    ensures row in ScopedRows(sessions, activities, key, owned, contentions) <==>
              && row.session in sessions && IsKept(row.session, key, owned)
              && row == RowOf(row.session, activities, owned, contentions)
  {
    if sessions != [] {
      RowsAre(sessions[..|sessions| - 1], activities, key, owned, contentions, row);
      assert sessions == sessions[..|sessions| - 1] + [sessions[|sessions| - 1]];
    }
  }

  lemma {:induction false} AttributedActivitiesAre(session: Incarnation, activities: seq<CompileActivity>,
                                                   activity: CompileActivity)
    ensures activity in AttributedActivities(session, activities)
       <==> activity in activities && IsFor(activity, session)
  {
    BuildingMeans(activities, session);
    if activities != [] {
      AttributedActivitiesAre(session, activities[..|activities| - 1], activity);
      assert activities == activities[..|activities| - 1] + [activities[|activities| - 1]];
    }
  }

  lemma {:induction false} ExplainedAre(unattributed: seq<UnattributedActivity>, key: ScopeKey, shown: set<Incarnation>,
                                        activity: UnattributedActivity)
    ensures activity in ExplainedActivities(unattributed, key, shown)
       <==> activity in unattributed && ScopeExplains(activity, key, shown)
  {
    if unattributed != [] {
      ExplainedAre(unattributed[..|unattributed| - 1], key, shown, activity);
      assert unattributed == unattributed[..|unattributed| - 1] + [unattributed[|unattributed| - 1]];
    }
  }

  /** The session builds in a checkout the scope covers. */
  predicate IsInScope(session: BuildSession, key: ScopeKey) {
    session.scope.Resolved? && session.scope.checkout in key.checkoutRoots
  }

  /** The session was related to its checkout by being the root the live run started. */
  predicate IsOwnRoot(session: BuildSession, owned: OwnedRootEvidence) {
    owned.LiveRoot? && session.scope.Resolved? && session.scope.relation.OwnedRoot?
  }

  /** What a stored classification shows: the sessions in scope or owned, each with its own
      activities and its place in the queue of the whole host. */
  lemma StoredRowsAre(completed: Completed, data: MonitorData, row: SessionRow)
    requires Stores(completed, data)
    ensures data.scopeKey == completed.key && data.observedAt == completed.classification.instant
    ensures row in data.rows <==>
              && row.session in completed.classification.sessions
              && (IsInScope(row.session, completed.key) || IsOwnRoot(row.session, completed.owned))
              && row.ownership
                   == (if IsOwnRoot(row.session, completed.owned) then Owned(completed.owned.runId) else External)
              && row.activities == AttributedActivities(row.session.id, completed.classification.activities)
              && row.contention
                   == ContentionOf(completed.classification.sessions, completed.classification.activities, row.session)
  {
    var contentions :|
      && (forall session <- completed.classification.sessions ::
            ContentionIn(contentions, session.id)
            == ContentionOf(completed.classification.sessions, completed.classification.activities, session))
      && data == ScopedData(completed.classification, completed.key, completed.owned, contentions);
    RowsAre(completed.classification.sessions, completed.classification.activities, completed.key, completed.owned,
            contentions, row);
  }

  /** An unattributed compiler is shown when one of the sessions it might belong to is, or,
      when it might belong to none, where it works or if that is unknown. */
  lemma StoredUnattributedAre(completed: Completed, data: MonitorData, activity: UnattributedActivity)
    requires Stores(completed, data)
    ensures activity in data.unattributed <==>
              && activity in completed.classification.unattributed
              && (|| (activity.attribution.Ambiguous?
                      && exists row <- data.rows :: row.session.id in activity.attribution.candidates)
                  || (activity.attribution.Unattributed?
                      && (|| activity.workingDirectory.None?
                          || exists root <- completed.key.checkoutRoots :: root <= activity.workingDirectory.value)))
  {
    ExplainedAre(completed.classification.unattributed, completed.key, RowIds(data.rows), activity);
    if activity.attribution.Ambiguous? {
      forall session ensures session in RowIds(data.rows) <==> exists row <- data.rows :: row.session.id == session {
      }
    }
  }

  lemma {:induction false} AuthoritiesAre(rows: seq<SessionRow>, capabilities: set<Incarnation>, support: OwnedSupport,
                                          id: Incarnation)
    ensures id in CurrentAuthorities(rows, capabilities, support) <==>
              exists row <- rows :: row.session.id == id && RowAuthority(row, capabilities, support).Some?
    ensures id in CurrentAuthorities(rows, capabilities, support) ==>
              exists row <- rows :: row.session.id == id
                && RowAuthority(row, capabilities, support) == Some(CurrentAuthorities(rows, capabilities, support)[id])
  {
    if rows != [] {
      AuthoritiesAre(rows[..|rows| - 1], capabilities, support, id);
      assert rows == rows[..|rows| - 1] + [rows[|rows| - 1]];
    }
  }

  /** Ascending indices below a bound. */
  ghost predicate AreAscending(indices: seq<nat>, bound: nat) {
    && (forall k :: 0 <= k < |indices| ==> indices[k] < bound)
    && forall i, j :: 0 <= i < j < |indices| ==> indices[i] < indices[j]
  }

  /** Rows are listed in the order of their sessions. */
  lemma {:induction false} RowsKeepOrder(sessions: seq<BuildSession>, activities: seq<CompileActivity>, key: ScopeKey,
                                         owned: OwnedRootEvidence, contentions: map<Incarnation, LockContention>)
      returns (indices: seq<nat>)
    ensures var rows := ScopedRows(sessions, activities, key, owned, contentions);
            && AreAscending(indices, |sessions|)
            && |rows| == |indices|
            && forall k :: 0 <= k < |rows| ==> rows[k].session == sessions[indices[k]]
  {
    indices := [];
    if sessions != [] {
      var last := |sessions| - 1;
      indices := RowsKeepOrder(sessions[..last], activities, key, owned, contentions);
      if IsKept(sessions[last], key, owned) {
        indices := indices + [last];
      }
    }
  }

  /** A row's activities are listed in the order of the classification. */
  lemma {:induction false} ActivitiesKeepOrder(session: Incarnation, activities: seq<CompileActivity>)
      returns (indices: seq<nat>)
    ensures var own := AttributedActivities(session, activities);
            && AreAscending(indices, |activities|)
            && |own| == |indices|
            && forall k :: 0 <= k < |own| ==> own[k] == activities[indices[k]]
  {
    indices := [];
    if activities != [] {
      var last := |activities| - 1;
      indices := ActivitiesKeepOrder(session, activities[..last]);
      if NamesSession(activities[last], session) {
        indices := indices + [last];
      }
    }
  }

  /** So are the unattributed compilers a scope explains. */
  lemma {:induction false} UnattributedKeepOrder(unattributed: seq<UnattributedActivity>, key: ScopeKey,
                                                 shown: set<Incarnation>)
      returns (indices: seq<nat>)
    ensures var explained := ExplainedActivities(unattributed, key, shown);
            && AreAscending(indices, |unattributed|)
            && |explained| == |indices|
            && forall k :: 0 <= k < |explained| ==> explained[k] == unattributed[indices[k]]
  {
    indices := [];
    if unattributed != [] {
      var last := |unattributed| - 1;
      indices := UnattributedKeepOrder(unattributed[..last], key, shown);
      if ScopeExplains(unattributed[last], key, shown) {
        indices := indices + [last];
      }
    }
  }

  /** The row may be terminated: it is owned by the run whose token is current, or an external
      process with a capability and a resolved scope. */
  predicate IsSupported(row: SessionRow, completed: Completed) {
    match row.ownership
    case Owned(runId) => completed.support == SupportedRun(runId)
    case External => row.session.id in completed.capabilities && row.session.scope.Resolved?
  }

  /** The authority a row gets is its own run, or its own scope. */
  predicate IsAuthorityFor(authority: Authority, row: SessionRow) {
    match row.ownership
    case Owned(runId) => authority == OwnedBuild(runId)
    case External => authority == ExternalBuild(row.session.scope)
  }

  lemma RowAuthorityMeans(row: SessionRow, completed: Completed)
    ensures var authority := RowAuthority(row, completed.capabilities, completed.support);
            && (authority.Some? <==> IsSupported(row, completed))
            && (authority.Some? ==> IsAuthorityFor(authority.value, row))
  {
  }

  /** Outside a transaction a session is given authority exactly for a supported row, and what
      it is given is that row's. */
  lemma AuthorityMeans(before: MonitorState, completed: Completed, after: MonitorState, id: Incarnation)
    requires Recorded(before, completed, after) && !before.transactionActive
    ensures id in after.authorities <==>
              exists row <- after.snapshot.data.rows :: row.session.id == id && IsSupported(row, completed)
    ensures id in after.authorities ==>
              exists row <- after.snapshot.data.rows ::
                row.session.id == id && IsSupported(row, completed) && IsAuthorityFor(after.authorities[id], row)
  {
    var rows := after.snapshot.data.rows;
    AuthoritiesAre(rows, completed.capabilities, completed.support, id);
    forall row | row in rows
      ensures var authority := RowAuthority(row, completed.capabilities, completed.support);
              && (authority.Some? <==> IsSupported(row, completed))
              && (authority.Some? ==> IsAuthorityFor(authority.value, row))
    {
      RowAuthorityMeans(row, completed);
    }
  }

  // ---------------------------------------------------------------------------
  // Runs
  // ---------------------------------------------------------------------------

  datatype Event =
    | Record(completed: Completed)
    | Fail
    | ReplaceScope(scope: ScopeActionability)
    | SwitchOn
    | SwitchOff
    | Authorize(session: Incarnation)
    | AuthorizeBuildSet
    | StartTransaction
    | FinishTransaction

  ghost predicate Next(before: MonitorState, event: Event, after: MonitorState) {
    match event
    case Record(completed) => DistinctIds(completed.classification.sessions) && Recorded(before, completed, after)
    case Fail => after == AfterFailure(before)
    case ReplaceScope(scope) => after == AfterScope(before, scope)
    case SwitchOn => after == before.(snapshot := Pending, authorities := map[])
    case SwitchOff => after == before.(snapshot := Off, authorities := map[])
    case Authorize(session) => after == AfterAuthorization(before, session)
    case AuthorizeBuildSet => after == AfterBuildSetAuthorization(before)
    case StartTransaction => !before.transactionActive && after == before.(transactionActive := true)
    case FinishTransaction => before.transactionActive && after == before.(transactionActive := false)
  }

  ghost predicate IsRun(states: seq<MonitorState>, events: seq<Event>) {
    && |states| == |events| + 1
    && states[0] == INITIAL
    && forall i :: 0 <= i < |events| ==> Next(states[i], events[i], states[i + 1])
  }

  /** No classification is stored from one moment to another. */
  ghost predicate NothingStored(events: seq<Event>, first: nat, last: nat) {
    first <= last <= |events| && forall k :: first <= k < last ==> !events[k].Record?
  }

  predicate IsActionable(snapshot: Snapshot) {
    Actionability(snapshot).Some?
  }

  /** After a failed cycle rows drawn live are drawn aged, and aged ones are gone; a monitor that
      is off stays off. No authority is left. */
  lemma FailureMeans(before: MonitorState, after: MonitorState)
    requires Next(before, Fail, after)
    ensures after.authorities == map[]
    ensures DisplayOf(after.snapshot) ==
            match DisplayOf(before.snapshot)
            case SwitchedOff => SwitchedOff
            case AwaitingFirstCycle => NothingToShow
            case NothingToShow => NothingToShow
            case Rows(data, staleness) => if staleness == Live then Rows(data, Aged) else NothingToShow
  {
  }

  /** Rows classified under the same checkout and workspace roots. */
  predicate CoversSameRoots(snapshot: Snapshot, key: ScopeKey) {
    match DisplayOf(snapshot)
    case Rows(data, _) =>
      data.scopeKey.checkoutRoots == key.checkoutRoots && data.scopeKey.workspaceRoots == key.workspaceRoots
    case SwitchedOff => false
    case AwaitingFirstCycle => false
    case NothingToShow => false
  }

  /** Moving to a scope of the same roots keeps rows, staleness and authority; to any other, or
      to none, it leaves nothing of them. */
  lemma ScopeMeans(before: MonitorState, scope: ScopeActionability, after: MonitorState)
    requires Next(before, ReplaceScope(scope), after)
    ensures scope.ActionableScope? && CoversSameRoots(before.snapshot, scope.key) ==>
              DisplayOf(after.snapshot) == DisplayOf(before.snapshot) && after.authorities == before.authorities
    ensures !(scope.ActionableScope? && CoversSameRoots(before.snapshot, scope.key)) ==>
              DisplayOf(after.snapshot) == AwaitingFirstCycle && after.authorities == map[]
    ensures scope.ActionableScope? && IsActionable(after.snapshot) ==>
              Actionability(after.snapshot).value.0 == scope.key
  {
  }

  /** What a stored classification shows is drawn live, and acted on under its own scope. */
  lemma RecordedIsActionable(before: MonitorState, completed: Completed, after: MonitorState)
    requires Next(before, Record(completed), after)
    ensures IsActionable(after.snapshot) && Actionability(after.snapshot).value.0 == completed.key
    ensures DisplayOf(after.snapshot).Rows? && DisplayOf(after.snapshot).staleness == Live
  {
  }

  /** What may be acted on is exactly what is drawn as live. */
  lemma ActionableMeansDrawnLive(snapshot: Snapshot)
    ensures IsActionable(snapshot) <==> DisplayOf(snapshot).Rows? && DisplayOf(snapshot).staleness == Live
    ensures IsActionable(snapshot) ==> Actionability(snapshot).value.1 == RowsOf(snapshot)
  {
  }

  /** Retained rows were classified under the roots the current scope covers. */
  predicate RetainsSameRoots(snapshot: Snapshot) {
    snapshot.PendingWithRetained? || snapshot.StaleWithRetained? ==> SameRoots(snapshot.data.scopeKey, snapshot.current)
  }

  ghost predicate Guarded(s: MonitorState) {
    && (s.authorities != map[] ==> IsActionable(s.snapshot))
    && RetainsSameRoots(s.snapshot)
  }

  lemma StepGuarded(before: MonitorState, event: Event, after: MonitorState)
    requires Guarded(before) && Next(before, event, after)
    ensures Guarded(after)
  {
    if event.AuthorizeBuildSet? && CanAuthorizeAll(before) && after.authorities != map[] {
      assert before.authorities != map[];
    }
  }

  /** In every reachable state authority exists only beside an actionable snapshot, and
      retained rows were classified under the same roots. */
  lemma {:induction false} RunGuarded(states: seq<MonitorState>, events: seq<Event>, i: nat)
    requires IsRun(states, events) && i < |states|
    ensures states[i].authorities != map[] ==> IsActionable(states[i].snapshot)
    ensures RetainsSameRoots(states[i].snapshot)
  {
    if i > 0 {
      RunGuarded(states, events, i - 1);
      StepGuarded(states[i - 1], events[i - 1], states[i]);
    }
  }

  lemma StepStaysDisarmed(before: MonitorState, event: Event, after: MonitorState)
    requires Next(before, event, after) && !event.Record?
    ensures !IsActionable(before.snapshot) ==> !IsActionable(after.snapshot)
    ensures DisplayOf(before.snapshot).Rows? || !DisplayOf(after.snapshot).Rows?
  {
  }

  /** After a failed cycle nothing is actionable, and nothing authorized, until a
      classification is stored, however scopes and switches move. */
  lemma {:induction false} FailureDisarms(states: seq<MonitorState>, events: seq<Event>, failed: nat, later: nat)
    requires IsRun(states, events) && failed < |events| && events[failed].Fail?
    requires failed < later && NothingStored(events, failed, later)
    ensures !IsActionable(states[later].snapshot) && states[later].authorities == map[]
    decreases later
  {
    assert Next(states[later - 1], events[later - 1], states[later]);
    if later > failed + 1 {
      FailureDisarms(states, events, failed, later - 1);
      StepStaysDisarmed(states[later - 1], events[later - 1], states[later]);
    }
    RunGuarded(states, events, later);
  }

  /** Two failed cycles with nothing stored between them leave no rows, until a
      classification is stored. */
  lemma {:induction false} TwoFailuresClear(states: seq<MonitorState>, events: seq<Event>, first: nat, second: nat,
                                            later: nat)
    requires IsRun(states, events) && first < second < later && second < |events|
    requires events[first].Fail? && events[second].Fail? && NothingStored(events, first, later)
    ensures !DisplayOf(states[later].snapshot).Rows? && RowsOf(states[later].snapshot) == []
    decreases later
  {
    assert Next(states[later - 1], events[later - 1], states[later]);
    if later > second + 1 {
      TwoFailuresClear(states, events, first, second, later - 1);
      StepStaysDisarmed(states[later - 1], events[later - 1], states[later]);
    } else {
      FailureDisarms(states, events, first, second);
    }
  }

  /** One failure alone does leave rows, marked stale: two are needed. */
  lemma OneFailureKeepsRows(before: MonitorState, after: MonitorState)
    requires Next(before, Fail, after) && IsActionable(before.snapshot)
    ensures RowsOf(after.snapshot) == RowsOf(before.snapshot)
    ensures DisplayOf(after.snapshot).Rows? && DisplayOf(after.snapshot).staleness == Aged
  {
  }

  // ---------------------------------------------------------------------------
  // Authority keys and displayed rows
  // ---------------------------------------------------------------------------

  ghost predicate KeysShown(s: MonitorState) {
    s.authorities.Keys <= RowIds(RowsOf(s.snapshot))
  }

  /** A classified session of this identity is in scope or owned. */
  ghost predicate IsKeptId(completed: Completed, id: Incarnation) {
    exists session <- completed.classification.sessions ::
      session.id == id && IsKept(session, completed.key, completed.owned)
  }

  /** Storing a classification leaves authority for displayed rows only, exactly when no
      transaction is active or every key held from before names a classified session that
      the new scope covers or the run owns. */
  lemma RecordKeepsKeysShownIff(before: MonitorState, completed: Completed, after: MonitorState)
    requires Recorded(before, completed, after)
    ensures KeysShown(after) <==>
              || !before.transactionActive
              || forall id <- before.authorities :: IsKeptId(completed, id)
  {
    var rows := after.snapshot.data.rows;
    if !before.transactionActive {
      forall id | id in after.authorities ensures id in RowIds(rows) {
        AuthoritiesAre(rows, completed.capabilities, completed.support, id);
      }
    } else {
      forall id ensures id in RowIds(rows) <==> IsKeptId(completed, id) {
        KeptIsShown(completed, after.snapshot.data, id);
      }
    }
  }

  lemma KeptIsShown(completed: Completed, data: MonitorData, id: Incarnation)
    requires Stores(completed, data)
    ensures id in RowIds(data.rows) <==> IsKeptId(completed, id)
  {
    if id in RowIds(data.rows) {
      var row :| row in data.rows && row.session.id == id;
      StoredRowsAre(completed, data, row);
    }
    if IsKeptId(completed, id) {
      var session :| session in completed.classification.sessions && session.id == id
        && IsKept(session, completed.key, completed.owned);
      var contention := ContentionOf(completed.classification.sessions, completed.classification.activities, session);
      var row := SessionRow(session, AttributedActivities(id, completed.classification.activities), contention,
                            OwnershipOf(session.scope, completed.owned));
      StoredRowsAre(completed, data, row);
    }
  }

  /** A classification is stored only outside a transaction, or while every key held names a
      classified session that is kept. */
  ghost predicate StoresHeldKeys(before: MonitorState, event: Event) {
    event.Record? ==>
      !before.transactionActive || forall id <- before.authorities :: IsKeptId(event.completed, id)
  }

  lemma StepKeepsKeysShownIff(states: seq<MonitorState>, events: seq<Event>, k: nat)
    requires IsRun(states, events) && k < |events| && KeysShown(states[k])
    ensures KeysShown(states[k + 1]) <==> StoresHeldKeys(states[k], events[k])
  {
    RunGuarded(states, events, k);
    assert Next(states[k], events[k], states[k + 1]);
    if events[k].Record? {
      RecordKeepsKeysShownIff(states[k], events[k].completed, states[k + 1]);
    }
  }

  /** What holds at first, and is passed on exactly by the steps that keep it, holds throughout
      exactly when every step keeps it. */
  lemma {:induction false} HoldsThroughoutIff(holds: seq<bool>, keeps: seq<bool>)
    requires |holds| == |keeps| + 1 && holds[0]
    requires forall k :: 0 <= k < |keeps| && holds[k] ==> (holds[k + 1] <==> keeps[k])
    ensures false !in holds <==> false !in keeps
  {
    if keeps != [] {
      var last := |keeps| - 1;
      HoldsThroughoutIff(holds[..last + 1], keeps[..last]);
      assert keeps == keeps[..last] + [keeps[last]] && holds == holds[..last + 1] + [holds[last + 1]];
    }
  }

  /** Authority names displayed rows throughout a run exactly when every classification
      stored during a transaction still shows all the sessions authority is held for. */
  lemma RunKeysShownIff(states: seq<MonitorState>, events: seq<Event>, i: nat)
    requires IsRun(states, events) && i < |states|
    ensures (forall k :: 0 <= k <= i ==> KeysShown(states[k]))
       <==> (forall k :: 0 <= k < i ==> StoresHeldKeys(states[k], events[k]))
  {
    var holds := seq(i + 1, k requires 0 <= k <= i => KeysShown(states[k]));
    var keeps := seq(i, k requires 0 <= k < i => StoresHeldKeys(states[k], events[k]));
    forall k | 0 <= k < i && holds[k] ensures holds[k + 1] <==> keeps[k] {
      StepKeepsKeysShownIff(states, events, k);
    }
    HoldsThroughoutIff(holds, keeps);
    assert forall k :: 0 <= k <= i ==> holds[k] == KeysShown(states[k]);
    assert forall k :: 0 <= k < i ==> keeps[k] == StoresHeldKeys(states[k], events[k]);
  }

  /** In particular where no classification is stored during a transaction. */
  lemma RunKeysShown(states: seq<MonitorState>, events: seq<Event>, i: nat)
    requires IsRun(states, events) && i < |states|
    requires forall k :: 0 <= k < i && events[k].Record? ==> !states[k].transactionActive
    ensures KeysShown(states[i])
  {
    RunKeysShownIff(states, events, i);
  }

  /** Two sessions of one checkout, and the classification that shows both. */
  const LEFT := BuildSession(Incarnation(ProcessIdentity(1, 1), 0), Resolved(ManifestArgument, ["w"]), None,
                             BuildProfile(Dev, MetadataDefault), 0, 1)

  const RIGHT := BuildSession(Incarnation(ProcessIdentity(2, 1), 0), Resolved(ManifestArgument, ["w"]), None,
                              BuildProfile(Dev, MetadataDefault), 0, 1)

  const KEY := ScopeKey([["w"]], [["w"]], 0)

  function Showing(sessions: seq<BuildSession>): Completed {
    Completed(KEY, NoLiveRoot, Classification(sessions, [], [], [], [], [], [], [], 1, 0), {LEFT.id, RIGHT.id},
              NoSupport)
  }

  function Row(session: BuildSession): SessionRow {
    SessionRow(session, [], Undetermined, External)
  }

  function Data(rows: seq<SessionRow>): MonitorData {
    MonitorData(KEY, rows, [], 0)
  }

  lemma ShowingBoth()
    ensures Recorded(INITIAL, Showing([LEFT, RIGHT]),
                     MonitorState(Fresh(Data([Row(LEFT), Row(RIGHT)])),
                                  map[LEFT.id := ExternalBuild(LEFT.scope), RIGHT.id := ExternalBuild(RIGHT.scope)],
                                  false))
  {
    var sessions, rows := [LEFT, RIGHT], [Row(LEFT), Row(RIGHT)];
    assert sessions[..1] == [LEFT] && [LEFT][..0] == [];
    assert LEFT.scope.checkout in KEY.checkoutRoots by {
      assert KEY.checkoutRoots[0] == ["w"];
    }
    assert ScopedRows([LEFT], [], KEY, NoLiveRoot, map[]) == [Row(LEFT)];
    assert ScopedRows(sessions, [], KEY, NoLiveRoot, map[]) == rows;
    assert ScopedData(Showing(sessions).classification, KEY, NoLiveRoot, map[]) == Data(rows);
    assert forall session <- sessions :: ContentionIn(map[], session.id) == ContentionOf(sessions, [], session);
    assert Stores(Showing(sessions), Data(rows));
    assert rows[..1] == [Row(LEFT)] && [Row(LEFT)][..0] == [];
    assert CurrentAuthorities([Row(LEFT)], {LEFT.id, RIGHT.id}, NoSupport) == map[LEFT.id := ExternalBuild(LEFT.scope)];
  }

  lemma ShowingNone(before: MonitorState)
    requires before.transactionActive
    ensures Recorded(before, Showing([]), before.(snapshot := Fresh(Data([]))))
  {
    var none: map<Incarnation, LockContention> := map[];
    assert ScopedData(Showing([]).classification, KEY, NoLiveRoot, none) == Data([]);
    assert Stores(Showing([]), Data([]));
  }

  /** Otherwise it may not: one of two sessions is being terminated, the other ends
      meanwhile, and its authority outlives its row. */
  lemma AuthorityCanOutliveItsRow() returns (states: seq<MonitorState>, events: seq<Event>)
    ensures IsRun(states, events) && !KeysShown(states[|events|])
  {
    var both := map[LEFT.id := ExternalBuild(LEFT.scope), RIGHT.id := ExternalBuild(RIGHT.scope)];
    var shown := MonitorState(Fresh(Data([Row(LEFT), Row(RIGHT)])), both, false);
    var authorized := shown.(authorities := both - {RIGHT.id});
    var active := authorized.(transactionActive := true);
    var ended := active.(snapshot := Fresh(Data([])));
    states := [INITIAL, shown, authorized, active, ended];
    events := [Record(Showing([LEFT, RIGHT])), Authorize(RIGHT.id), StartTransaction, Record(Showing([]))];
    ShowingBoth();
    ShowingNone(active);
    assert Row(RIGHT) in Actionability(shown.snapshot).value.1 by {
      assert Actionability(shown.snapshot).value.1[1] == Row(RIGHT);
    }
    assert CanAuthorize(shown, RIGHT.id);
    assert Next(states[0], events[0], states[1]);
    assert Next(states[1], events[1], states[2]);
    assert Next(states[2], events[2], states[3]);
    assert Next(states[3], events[3], states[4]);
    assert LEFT.id in ended.authorities;
  }

  /** A key that is not displayed can still not be used: freezing authority needs the row. */
  lemma AuthorizationNeedsRow(states: seq<MonitorState>, events: seq<Event>, i: nat, session: Incarnation)
    requires IsRun(states, events) && i < |states|
    ensures CanAuthorize(states[i], session) <==>
              && session in states[i].authorities && session in RowIds(RowsOf(states[i].snapshot))
              && !states[i].transactionActive
  {
    RunGuarded(states, events, i);
    ActionableMeansDrawnLive(states[i].snapshot);
  }

  /** A whole build set can be authorized exactly when there are rows and each of them could be,
      and then none of them is left to authorize, and nothing else is touched. */
  lemma BuildSetMeans(states: seq<MonitorState>, events: seq<Event>, i: nat)
    requires IsRun(states, events) && i < |events| && events[i] == AuthorizeBuildSet
    ensures CanAuthorizeAll(states[i]) <==>
              && RowsOf(states[i].snapshot) != []
              && forall row <- RowsOf(states[i].snapshot) :: CanAuthorize(states[i], row.session.id)
    ensures forall id :: id in states[i + 1].authorities <==>
              && id in states[i].authorities
              && !(CanAuthorizeAll(states[i]) && id in RowIds(RowsOf(states[i].snapshot)))
    ensures forall id <- states[i + 1].authorities :: states[i + 1].authorities[id] == states[i].authorities[id]
  {
    assert Next(states[i], events[i], states[i + 1]);
    ActionableMeansDrawnLive(states[i].snapshot);
    var rows := RowsOf(states[i].snapshot);
    if rows != [] && forall row <- rows :: CanAuthorize(states[i], row.session.id) {
      assert CanAuthorize(states[i], rows[0].session.id);
    }
    forall row | row in rows ensures row.session.id in RowIds(rows) {
    }
  }

  /** A session authorized once is not authorized again until a classification is stored. */
  lemma {:induction false} AuthorizedOnce(states: seq<MonitorState>, events: seq<Event>, i: nat, later: nat,
                                          session: Incarnation)
    requires IsRun(states, events) && i < |events| && events[i] == Authorize(session)
    requires CanAuthorize(states[i], session)
    requires i < later && NothingStored(events, i, later)
    ensures session !in states[later].authorities && !CanAuthorize(states[later], session)
    decreases later
  {
    assert Next(states[later - 1], events[later - 1], states[later]);
    if later > i + 1 {
      AuthorizedOnce(states, events, i, later - 1, session);
    }
  }
}
