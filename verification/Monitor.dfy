/** What the compile monitor shows, and what it may act on (src/build_monitor/poll.rs,
    src/build_monitor/snapshot.rs, src/build_monitor/mod.rs). */
module Monitor {
  import opened Common
  import opened Processes
  import opened Attribution
  import opened Ordering
  import opened Classify
  import opened ClassifyFacts

  // ---------------------------------------------------------------------------
  // Values
  // ---------------------------------------------------------------------------

  /** The covered roots plus the revisions they were resolved against. */
  datatype ScopeKey = ScopeKey(checkoutRoots: seq<Path>, workspaceRoots: seq<Path>, revision: nat)

  datatype ScopeActionability = ActionableScope(key: ScopeKey) | NotActionableScope

  datatype OwnedRootEvidence = NoLiveRoot | LiveRoot(runId: nat)

  datatype Ownership = Owned(runId: nat) | External

  datatype LockContention = Holding | WaitingBehind(holderPid: nat) | Undetermined

  datatype SessionRow = SessionRow(
    session: BuildSession, activities: seq<CompileActivity>, contention: LockContention, ownership: Ownership)

  datatype MonitorData = MonitorData(
    scopeKey: ScopeKey, rows: seq<SessionRow>, unattributed: seq<UnattributedActivity>, observedAt: Instant)

  datatype Snapshot =
    | Off
    | Pending
    | PendingWithRetained(data: MonitorData, current: ScopeKey)
    | Fresh(data: MonitorData)
    | Stale(data: MonitorData)
    | StaleWithRetained(data: MonitorData, current: ScopeKey)
    | Unavailable

  datatype Staleness = Live | Aged

  datatype Display = SwitchedOff | AwaitingFirstCycle | Rows(data: MonitorData, staleness: Staleness) | NothingToShow

  // ---------------------------------------------------------------------------
  // Snapshots
  // ---------------------------------------------------------------------------

  /** The scope and rows a termination may act on. */
  function Actionability(snapshot: Snapshot): Option<(ScopeKey, seq<SessionRow>)> {
    match snapshot
    case Fresh(data) => Some((data.scopeKey, data.rows))
    case PendingWithRetained(data, current) => Some((current, data.rows))
    case Off => None
    case Pending => None
    case Stale(_) => None
    case StaleWithRetained(_, _) => None
    case Unavailable => None
  }

  function DisplayOf(snapshot: Snapshot): Display {
    match snapshot
    case Off => SwitchedOff
    case Pending => AwaitingFirstCycle
    case Fresh(data) => Rows(data, Live)
    case PendingWithRetained(data, _) => Rows(data, Live)
    case Stale(data) => Rows(data, Aged)
    case StaleWithRetained(data, _) => Rows(data, Aged)
    case Unavailable => NothingToShow
  }

  /** One step further from live, for a cycle that produced nothing. */
  function AgedSnapshot(snapshot: Snapshot): Snapshot {
    match snapshot
    case Fresh(data) => Stale(data)
    case PendingWithRetained(data, _) => Stale(data)
    case Pending => Unavailable
    case Stale(_) => Unavailable
    case StaleWithRetained(_, _) => Unavailable
    case Unavailable => Unavailable
    case Off => Off
  }

  predicate SameRoots(left: ScopeKey, right: ScopeKey) {
    left.checkoutRoots == right.checkoutRoots && left.workspaceRoots == right.workspaceRoots
  }

  /** Rows of the same roots stay, as live or as stale as they were; others go. */
  function SupersededByScope(snapshot: Snapshot, key: ScopeKey): Snapshot {
    match snapshot
    case Off => Pending
    case Pending => Pending
    case Unavailable => Pending
    case Fresh(data) => if SameRoots(data.scopeKey, key) then PendingWithRetained(data, key) else Pending
    case PendingWithRetained(data, _) => if SameRoots(data.scopeKey, key) then PendingWithRetained(data, key)
                                         else Pending
    case Stale(data) => if SameRoots(data.scopeKey, key) then StaleWithRetained(data, key) else Pending
    case StaleWithRetained(data, _) => if SameRoots(data.scopeKey, key) then StaleWithRetained(data, key) else Pending
  }

  function RowsOf(snapshot: Snapshot): seq<SessionRow> {
    if DisplayOf(snapshot).Rows? then DisplayOf(snapshot).data.rows else []
  }

  function RowSession(row: SessionRow): BuildSession {
    row.session
  }

  function RowIds(rows: seq<SessionRow>): set<Incarnation> {
    set row <- rows :: row.session.id
  }

  // ---------------------------------------------------------------------------
  // Lock contention
  // ---------------------------------------------------------------------------

  predicate NamesSession(activity: CompileActivity, session: Incarnation) {
    AttributedSession(activity.attribution) == Some(session)
  }

  predicate HasCompiler(activities: seq<CompileActivity>, session: Incarnation) {
    exists activity <- activities :: NamesSession(activity, session)
  }

  /** The sessions writing to one target directory. */
  function Sharing(sessions: seq<BuildSession>, directory: Path): seq<BuildSession> {
    if sessions == [] then []
    else
      var last := sessions[|sessions| - 1];
      Sharing(sessions[..|sessions| - 1], directory) + (if last.targetDirectory == Some(directory) then [last] else [])
  }

  function Compiling(sessions: seq<BuildSession>, activities: seq<CompileActivity>): seq<BuildSession> {
    if sessions == [] then []
    else
      var last := sessions[|sessions| - 1];
      Compiling(sessions[..|sessions| - 1], activities) + (if HasCompiler(activities, last.id) then [last] else [])
  }

  function PidOf(session: BuildSession): nat {
    session.id.identity.pid
  }

  /** Where a member of a group of sessions sharing a target directory stands. */
  function GroupContention(sharing: seq<BuildSession>, activities: seq<CompileActivity>,
                           session: BuildSession): LockContention
  {
    var compiling := Compiling(sharing, activities);
    if |sharing| < 2 || |compiling| != 1 then Undetermined
    else if session.id == compiling[0].id then Holding
    else WaitingBehind(PidOf(compiling[0]))
  }

  function ContentionOf(sessions: seq<BuildSession>, activities: seq<CompileActivity>,
                        session: BuildSession): LockContention
  {
    if session.targetDirectory.None? then Undetermined
    else GroupContention(Sharing(sessions, session.targetDirectory.value), activities, session)
  }

  function ContentionIn(contentions: map<Incarnation, LockContention>, session: Incarnation): LockContention {
    if session in contentions then contentions[session] else Undetermined
  }

  lemma {:induction false} SharingAre(sessions: seq<BuildSession>, directory: Path, session: BuildSession)
    ensures session in Sharing(sessions, directory)
       <==> session in sessions && session.targetDirectory == Some(directory)
  {
    if sessions != [] {
      SharingAre(sessions[..|sessions| - 1], directory, session);
      assert sessions == sessions[..|sessions| - 1] + [sessions[|sessions| - 1]];
    }
  }

  lemma {:induction false} CompilingAre(sessions: seq<BuildSession>, activities: seq<CompileActivity>,
                                        session: BuildSession)
    ensures session in Compiling(sessions, activities) <==> session in sessions && HasCompiler(activities, session.id)
  {
    if sessions != [] {
      CompilingAre(sessions[..|sessions| - 1], activities, session);
      assert sessions == sessions[..|sessions| - 1] + [sessions[|sessions| - 1]];
    }
  }

  lemma {:induction false} SharingDistinct(sessions: seq<BuildSession>, directory: Path)
    requires DistinctIds(sessions)
    ensures DistinctIds(Sharing(sessions, directory))
  {
    if sessions != [] {
      var fewer := sessions[..|sessions| - 1];
      SharingDistinct(fewer, directory);
      var before := Sharing(fewer, directory);
      forall k | 0 <= k < |before| ensures before[k].id != sessions[|sessions| - 1].id {
        SharingAre(fewer, directory, before[k]);
        var n :| 0 <= n < |fewer| && fewer[n] == before[k];
        assert sessions[n] == before[k];
      }
    }
  }

  lemma {:induction false} CompilingDistinct(sessions: seq<BuildSession>, activities: seq<CompileActivity>)
    requires DistinctIds(sessions)
    ensures DistinctIds(Compiling(sessions, activities))
  {
    if sessions != [] {
      var fewer := sessions[..|sessions| - 1];
      CompilingDistinct(fewer, activities);
      var before := Compiling(fewer, activities);
      forall k | 0 <= k < |before| ensures before[k].id != sessions[|sessions| - 1].id {
        CompilingAre(fewer, activities, before[k]);
        var n :| 0 <= n < |fewer| && fewer[n] == before[k];
        assert sessions[n] == before[k];
      }
    }
  }

  method CompilingSessions(sharing: seq<BuildSession>,
                           activities: seq<CompileActivity>)
      returns (compiling: seq<BuildSession>)
    ensures compiling == Compiling(sharing, activities)
  {
    compiling := [];
    for i := 0 to |sharing|
      invariant compiling == Compiling(sharing[..i], activities)
    {
      assert sharing[..i + 1][..i] == sharing[..i];
      if exists activity <- activities :: NamesSession(activity, sharing[i].id) {
        compiling := compiling + [sharing[i]];
      }
    }
    assert sharing[..|sharing|] == sharing;
  }

  /** Adds what one group of sessions establishes. */
  method AddGroup(contentions: map<Incarnation, LockContention>, sharing: seq<BuildSession>,
                  activities: seq<CompileActivity>)
    returns (extended: map<Incarnation, LockContention>)
    requires DistinctIds(sharing)
    requires forall session <- sharing :: session.id !in contentions
    ensures forall session <- sharing ::
              ContentionIn(extended, session.id) == GroupContention(sharing, activities, session)
    ensures forall id ::
              (forall session <- sharing :: session.id != id)
              ==> ContentionIn(extended, id) == ContentionIn(contentions, id)
    ensures forall id <- extended :: id in contentions || exists session <- sharing :: session.id == id
  {
    extended := contentions;
    if |sharing| < 2 {
      return;
    }
    var compiling := CompilingSessions(sharing, activities);
    if |compiling| != 1 {
      return;
    }
    var holder := compiling[0];
    for i := 0 to |sharing|
      invariant forall session <- sharing[..i] ::
                  ContentionIn(extended, session.id) == GroupContention(sharing, activities, session)
      invariant forall id :: (forall session <- sharing[..i] :: session.id != id)
                  ==> ContentionIn(extended, id) == ContentionIn(contentions, id)
      invariant forall id <- extended :: id in contentions || exists session <- sharing[..i] :: session.id == id
    {
      assert sharing[..i + 1] == sharing[..i] + [sharing[i]];
      var contention := if sharing[i].id == holder.id then Holding else WaitingBehind(PidOf(holder));
      extended := extended[sharing[i].id := contention];
    }
    assert sharing[..|sharing|] == sharing;
  }

  /** The sessions by the target directory they write to. */
  ghost predicate Grouped(groups: map<Path, seq<BuildSession>>, sessions: seq<BuildSession>) {
    && (forall directory <- groups :: groups[directory] == Sharing(sessions, directory))
    && (forall directory :: directory !in groups ==> Sharing(sessions, directory) == [])
  }

  lemma SharingOneMore(sessions: seq<BuildSession>, session: BuildSession, directory: Path)
    ensures Sharing(sessions + [session], directory)
         == Sharing(sessions, directory) + (if session.targetDirectory == Some(directory) then [session] else [])
  {
    var more := sessions + [session];
    assert more[..|more| - 1] == sessions;
  }

  /** One more session in its group, if its target directory is known. */
  function WithSession(groups: map<Path, seq<BuildSession>>, session: BuildSession): map<Path, seq<BuildSession>> {
    match session.targetDirectory
    case None => groups
    case Some(directory) => groups[directory := (if directory in groups then groups[directory] else []) + [session]]
  }

  lemma GroupedOneMore(groups: map<Path, seq<BuildSession>>, sessions: seq<BuildSession>, session: BuildSession)
    requires Grouped(groups, sessions)
    ensures Grouped(WithSession(groups, session), sessions + [session])
  {
    var more := WithSession(groups, session);
    forall directory
      ensures (if directory in more then more[directory] else []) == Sharing(sessions + [session], directory)
    {
      SharingOneMore(sessions, session, directory);
    }
  }

  method AddSession(groups: map<Path, seq<BuildSession>>, session: BuildSession)
    returns (more: map<Path, seq<BuildSession>>)
    ensures more == WithSession(groups, session)
  {
    more := groups;
    if session.targetDirectory.Some? {
      var directory := session.targetDirectory.value;
      var group := if directory in groups then groups[directory] else [];
      more := groups[directory := group + [session]];
    }
  }

  method GroupByTargetDirectory(sessions: seq<BuildSession>) returns (groups: map<Path, seq<BuildSession>>)
    ensures Grouped(groups, sessions)
  {
    groups := map[];
    for i := 0 to |sessions|
      invariant Grouped(groups, sessions[..i])
    {
      GroupedOneMore(groups, sessions[..i], sessions[i]);
      assert sessions[..i + 1] == sessions[..i] + [sessions[i]];
      groups := AddSession(groups, sessions[i]);
    }
    assert sessions[..|sessions|] == sessions;
  }

  /** Where every session sits in the queue for its build directory. */
  method BuildLockContention(sessions: seq<BuildSession>, activities: seq<CompileActivity>)
    returns (contentions: map<Incarnation, LockContention>)
    requires DistinctIds(sessions)
    ensures forall session <- sessions ::
              ContentionIn(contentions, session.id) == ContentionOf(sessions, activities, session)
  {
    var groups := GroupByTargetDirectory(sessions);
    contentions := map[];
    var left := groups.Keys;
    while left != {}
      invariant left <= groups.Keys
      invariant forall session <- sessions ::
                  ContentionIn(contentions, session.id)
                  == if session.targetDirectory.Some? && session.targetDirectory.value !in left
                     then ContentionOf(sessions, activities, session) else Undetermined
      invariant forall id <- contentions ::
                  exists session <- sessions ::
                    session.id == id && session.targetDirectory.Some? && session.targetDirectory.value !in left
      decreases left
    {
      var directory :| directory in left;
      GroupFacts(sessions, directory);
      contentions := AddGroup(contentions, groups[directory], activities);
      left := left - {directory};
    }
    forall session | session in sessions && session.targetDirectory.Some?
      ensures session.targetDirectory.value in groups
    {
      SharingAre(sessions, session.targetDirectory.value, session);
    }
  }

  lemma GroupFacts(sessions: seq<BuildSession>, directory: Path)
    requires DistinctIds(sessions)
    ensures DistinctIds(Sharing(sessions, directory))
    ensures forall session :: session in Sharing(sessions, directory) <==>
              session in sessions && session.targetDirectory == Some(directory)
    ensures forall left <- sessions, right <- sessions :: left.id == right.id ==> left == right
  {
    SharingDistinct(sessions, directory);
    forall session ensures session in Sharing(sessions, directory) <==>
        session in sessions && session.targetDirectory == Some(directory) {
      SharingAre(sessions, directory, session);
    }
  }

  // ---------------------------------------------------------------------------
  // Narrowing to a scope
  // ---------------------------------------------------------------------------

  function OwnershipOf(scope: SessionScope, owned: OwnedRootEvidence): Ownership {
    if owned.LiveRoot? && scope.Resolved? && scope.relation.OwnedRoot? then Owned(owned.runId) else External
  }

  predicate IsWithin(scope: SessionScope, checkoutRoots: seq<Path>) {
    scope.Resolved? && scope.checkout in checkoutRoots
  }

  function AttributedActivities(session: Incarnation, activities: seq<CompileActivity>): seq<CompileActivity> {
    if activities == [] then []
    else
      var last := activities[|activities| - 1];
      AttributedActivities(session, activities[..|activities| - 1])
      + (if NamesSession(last, session) then [last] else [])
  }

  predicate CoversWorkingDirectory(workingDirectory: Option<Path>, checkoutRoots: seq<Path>) {
    workingDirectory.None? || exists root <- checkoutRoots :: StartsWith(workingDirectory.value, root)
  }

  predicate ScopeExplains(activity: UnattributedActivity, key: ScopeKey, shown: set<Incarnation>) {
    match activity.attribution
    case Ambiguous(candidates) => exists session <- candidates :: session in shown
    case Unattributed => CoversWorkingDirectory(activity.workingDirectory, key.checkoutRoots)
    case Confirmed(_) => false
    case UniqueOutputMatch(_) => false
  }

  predicate IsKept(session: BuildSession, key: ScopeKey, owned: OwnedRootEvidence) {
    IsWithin(session.scope, key.checkoutRoots) || OwnershipOf(session.scope, owned).Owned?
  }

  function RowOf(session: BuildSession, activities: seq<CompileActivity>, owned: OwnedRootEvidence,
                 contentions: map<Incarnation, LockContention>): SessionRow
  {
    SessionRow(session, AttributedActivities(session.id, activities), ContentionIn(contentions, session.id),
               OwnershipOf(session.scope, owned))
  }

  function ScopedRows(sessions: seq<BuildSession>, activities: seq<CompileActivity>, key: ScopeKey,
                      owned: OwnedRootEvidence, contentions: map<Incarnation, LockContention>): seq<SessionRow>
  {
    if sessions == [] then []
    else
      var last := sessions[|sessions| - 1];
      ScopedRows(sessions[..|sessions| - 1], activities, key, owned, contentions)
      + (if IsKept(last, key, owned) then [RowOf(last, activities, owned, contentions)] else [])
  }

  function ExplainedActivities(unattributed: seq<UnattributedActivity>, key: ScopeKey,
                               shown: set<Incarnation>): seq<UnattributedActivity>
  {
    if unattributed == [] then []
    else
      var last := unattributed[|unattributed| - 1];
      ExplainedActivities(unattributed[..|unattributed| - 1], key, shown)
      + (if ScopeExplains(last, key, shown) then [last] else [])
  }

  function ScopedData(classification: Classification, key: ScopeKey, owned: OwnedRootEvidence,
                      contentions: map<Incarnation, LockContention>): MonitorData
  {
    var rows := ScopedRows(classification.sessions, classification.activities, key, owned, contentions);
    MonitorData(key, rows, ExplainedActivities(classification.unattributed, key, RowIds(rows)), classification.instant)
  }

  // ---------------------------------------------------------------------------
  // Authority
  // ---------------------------------------------------------------------------

  datatype OwnedSupport = SupportedRun(runId: nat) | NoSupport

  datatype Authority = OwnedBuild(runId: nat) | ExternalBuild(scope: SessionScope)

  /** What a row authorizes: its own run while that run's token is current, or an external
      process with a capability and a resolved scope. */
  function RowAuthority(row: SessionRow, capabilities: set<Incarnation>, support: OwnedSupport): Option<Authority> {
    match row.ownership
    case Owned(runId) => if support == SupportedRun(runId) then Some(OwnedBuild(runId)) else None
    case External =>
      if row.session.id in capabilities && row.session.scope.Resolved? then Some(ExternalBuild(row.session.scope))
      else None
  }

  function CurrentAuthorities(rows: seq<SessionRow>, capabilities: set<Incarnation>,
                              support: OwnedSupport): map<Incarnation, Authority>
  {
    if rows == [] then map[]
    else
      var last := rows[|rows| - 1];
      var authorities := CurrentAuthorities(rows[..|rows| - 1], capabilities, support);
      match RowAuthority(last, capabilities, support)
      case None => authorities
      case Some(authority) => authorities[last.session.id := authority]
  }

  // ---------------------------------------------------------------------------
  // The monitor
  // ---------------------------------------------------------------------------

  datatype MonitorState = MonitorState(snapshot: Snapshot, authorities: map<Incarnation, Authority>,
                                       transactionActive: bool)

  const INITIAL := MonitorState(Off, map[], false)

  /** What one completed classification carries. */
  datatype Completed = Completed(
    key: ScopeKey, owned: OwnedRootEvidence, classification: Classification,
    capabilities: set<Incarnation>, support: OwnedSupport)

  datatype AuthorizationConstruction =
    | Authorized(key: ScopeKey, session: Incarnation, authority: Authority)
    | Busy
    | SessionNotActionable
    | SnapshotNotActionable

  datatype BuildSetConstruction =
    | AuthorizedSet(key: ScopeKey, targets: seq<(Incarnation, Authority)>)
    | BuildSetBusy
    | BuildSetNotFullyActionable
    | BuildSetSnapshotNotActionable

  /** The data a completed classification stores, whatever order its groups are visited in. */
  ghost predicate Stores(completed: Completed, data: MonitorData) {
    exists contentions ::
      && (forall session <- completed.classification.sessions ::
            ContentionIn(contentions, session.id)
            == ContentionOf(completed.classification.sessions, completed.classification.activities, session))
      && data == ScopedData(completed.classification, completed.key, completed.owned, contentions)
  }

  ghost predicate Recorded(before: MonitorState, completed: Completed, after: MonitorState) {
    && after.snapshot.Fresh?
    && Stores(completed, after.snapshot.data)
    && after.authorities == (if before.transactionActive then before.authorities
                             else CurrentAuthorities(after.snapshot.data.rows, completed.capabilities,
                                                     completed.support))
    && after.transactionActive == before.transactionActive
  }

  function AfterFailure(before: MonitorState): MonitorState {
    before.(snapshot := AgedSnapshot(before.snapshot), authorities := map[])
  }

  function AfterScope(before: MonitorState, scope: ScopeActionability): MonitorState {
    var snapshot := if scope.ActionableScope? then SupersededByScope(before.snapshot, scope.key) else Pending;
    if snapshot.PendingWithRetained? || snapshot.StaleWithRetained? then before.(snapshot := snapshot)
    else before.(snapshot := snapshot, authorities := map[])
  }

  predicate CanAuthorize(state: MonitorState, session: Incarnation) {
    && Actionability(state.snapshot).Some?
    && session in RowIds(Actionability(state.snapshot).value.1)
    && !state.transactionActive
    && session in state.authorities
  }

  function AfterAuthorization(before: MonitorState, session: Incarnation): MonitorState {
    if CanAuthorize(before, session) then before.(authorities := before.authorities - {session}) else before
  }

  /** Whether every displayed row is actionable, which a whole build set needs. */
  predicate CanAuthorizeAll(state: MonitorState) {
    && Actionability(state.snapshot).Some?
    && Actionability(state.snapshot).value.1 != []
    && !state.transactionActive
    && forall row <- Actionability(state.snapshot).value.1 :: row.session.id in state.authorities
  }

  function AfterBuildSetAuthorization(before: MonitorState): MonitorState {
    if CanAuthorizeAll(before)
    then before.(authorities := before.authorities - RowIds(Actionability(before.snapshot).value.1))
    else before
  }

  lemma RowIdsOneMore(rows: seq<SessionRow>, i: nat)
    requires DistinctIds(Map(RowSession, rows)) && i < |rows|
    ensures rows[i] in rows && rows[i].session.id !in RowIds(rows[..i])
    ensures RowIds(rows[..i + 1]) == RowIds(rows[..i]) + {rows[i].session.id}
  {
    assert rows[..i + 1] == rows[..i] + [rows[i]];
    forall row | row in rows[..i] ensures row.session.id != rows[i].session.id {
      var k :| 0 <= k < i && rows[k] == row;
      assert Map(RowSession, rows)[k].id != Map(RowSession, rows)[i].id;
    }
  }

  class BuildMonitor {
    var snapshot: Snapshot
    var authorities: map<Incarnation, Authority>
    var transactionActive: bool

    ghost function State(): MonitorState
      reads this
    {
      MonitorState(snapshot, authorities, transactionActive)
    }

    constructor ()
      ensures State() == INITIAL
    {
      snapshot, authorities, transactionActive := Off, map[], false;
    }

    method RecordClassification(completed: Completed)
      requires DistinctIds(completed.classification.sessions)
      modifies this
      ensures Recorded(old(State()), completed, State())
    {
      var contentions := BuildLockContention(completed.classification.sessions, completed.classification.activities);
      var data := ScopedData(completed.classification, completed.key, completed.owned, contentions);
      assert Stores(completed, data);
      if !transactionActive {
        authorities := CurrentAuthorities(data.rows, completed.capabilities, completed.support);
      }
      snapshot := Fresh(data);
    }

    method RecordClassificationFailure()
      modifies this
      ensures State() == AfterFailure(old(State()))
    {
      snapshot := AgedSnapshot(snapshot);
      authorities := map[];
    }

    method ReplaceScope(scope: ScopeActionability)
      modifies this
      ensures State() == AfterScope(old(State()), scope)
    {
      match scope {
        case ActionableScope(key) => snapshot := SupersededByScope(snapshot, key);
        case NotActionableScope => snapshot := Pending;
      }
      if !snapshot.PendingWithRetained? && !snapshot.StaleWithRetained? {
        authorities := map[];
      }
    }

    method SwitchOff()
      modifies this
      ensures State() == old(State()).(snapshot := Off, authorities := map[])
    {
      snapshot, authorities := Off, map[];
    }

    method SwitchOn()
      modifies this
      ensures State() == old(State()).(snapshot := Pending, authorities := map[])
    {
      snapshot, authorities := Pending, map[];
    }

    /** Freezes the authority of one displayed session, taking it out of the current set. A
        session that is not displayed is refused before a transaction is found active. */
    method SelectedTerminationAuthorization(session: Incarnation) returns (construction: AuthorizationConstruction)
      modifies this
      ensures State() == AfterAuthorization(old(State()), session)
      ensures construction.Authorized? <==> CanAuthorize(old(State()), session)
      ensures construction.Authorized? ==>
                && construction.session == session
                && construction.authority == old(authorities)[session]
                && construction.key == Actionability(old(snapshot)).value.0
      ensures construction == SnapshotNotActionable <==>
                Actionability(old(snapshot)).None? && !old(transactionActive)
      ensures construction == Busy <==>
                && old(transactionActive)
                && (|| Actionability(old(snapshot)).None?
                    || exists row <- Actionability(old(snapshot)).value.1 :: row.session.id == session)
    {
      var actionable := Actionability(snapshot);
      if actionable.None? {
        return if transactionActive then Busy else SnapshotNotActionable;
      }
      if session !in RowIds(actionable.value.1) {
        return SessionNotActionable;
      }
      if transactionActive {
        return Busy;
      }
      if session !in authorities {
        return SessionNotActionable;
      }
      construction := Authorized(actionable.value.0, session, authorities[session]);
      authorities := authorities - {session};
    }

    /** Freezes the authorities of all displayed sessions, or of none. */
    method OutputBuildSetAuthorization() returns (construction: BuildSetConstruction)
      requires DistinctIds(Map(RowSession, RowsOf(snapshot)))
      modifies this
      ensures State() == AfterBuildSetAuthorization(old(State()))
      ensures construction.AuthorizedSet? <==> CanAuthorizeAll(old(State()))
      ensures construction.AuthorizedSet? ==>
                && construction.key == Actionability(old(snapshot)).value.0
                && |construction.targets| == |RowsOf(snapshot)|
                && forall i :: 0 <= i < |construction.targets| ==>
                     var id := RowsOf(snapshot)[i].session.id;
                     id in old(authorities) && construction.targets[i] == (id, old(authorities)[id])
      ensures construction == BuildSetBusy <==> old(transactionActive)
      ensures construction == BuildSetSnapshotNotActionable <==>
                Actionability(old(snapshot)).None? && !old(transactionActive)
    {
      var actionable := Actionability(snapshot);
      if transactionActive {
        return BuildSetBusy;
      }
      if actionable.None? {
        return BuildSetSnapshotNotActionable;
      }
      var rows := actionable.value.1;
      if rows == [] || exists row <- rows :: row.session.id !in authorities {
        return BuildSetNotFullyActionable;
      }
      var frozen: seq<(Incarnation, Authority)> := [];
      for i := 0 to |rows|
        invariant authorities == old(authorities) - RowIds(rows[..i])
        invariant |frozen| == i
        invariant forall k :: 0 <= k < i ==>
                    var id := rows[k].session.id; id in old(authorities) && frozen[k] == (id, old(authorities)[id])
        invariant snapshot == old(snapshot) && transactionActive == old(transactionActive)
      {
        var id := rows[i].session.id;
        RowIdsOneMore(rows, i);
        frozen := frozen + [(id, authorities[id])];
        authorities := authorities - {id};
      }
      assert rows[..|rows|] == rows;
      construction := AuthorizedSet(actionable.value.0, frozen);
    }
  }
}
