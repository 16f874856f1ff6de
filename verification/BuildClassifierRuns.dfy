/** What stays the same over whole runs of classification cycles. */
module BuildClassifierRuns {
  import opened Common
  import opened Processes
  import opened Attribution
  import opened Ordering
  import opened Classify
  import opened ClassifyFacts
  import opened BuildLedgers
  import opened BuildClassifier

  datatype Cycle = Cycle(observation: Observation, classification: Classification)

  ghost predicate IsRun(states: seq<ClassifierState>, cycles: seq<Cycle>) {
    && |states| == |cycles| + 1
    && states[0] == INITIAL
    && forall i: nat :: i < |cycles| ==> RunsCycle(states, cycles, i)
  }

  ghost predicate RunsCycle(states: seq<ClassifierState>, cycles: seq<Cycle>, i: nat)
    requires i < |cycles| && |states| == |cycles| + 1
  {
    && Ascending(cycles[i].observation.candidates)
    && CycleRuns(states[i], cycles[i].observation, cycles[i].classification, states[i + 1])
  }

  /** In every cycle of a stretch the incarnation is observed, and no more incarnations are
      observed than the first-seen ledger holds. */
  ghost predicate ObservedThroughout(cycles: seq<Cycle>, first: nat, last: nat, incarnation: Incarnation) {
    && first <= last < |cycles|
    && forall k :: first <= k <= last ==>
         && incarnation in cycles[k].classification.observed
         && |Members(cycles[k].classification.observed)| <= 8_192
  }

  // ---------------------------------------------------------------------------
  // First sightings
  // ---------------------------------------------------------------------------

  lemma PromotedAreObserved(input: CycleInput, session: Incarnation)
    requires session in ClassificationOf(input).promoted
    ensures session in ClassificationOf(input).observed
  {
    var roots, complete := RootsOf(input), IsComplete(input.processes, input.candidates);
    PromotedAre(input, roots, complete, CompilersOf(input), session);
    var compiler :| compiler in CompilersOf(input) && AttributedTo(input, roots, complete, compiler, session);
    AttributedSessionIsARoot(input, roots, complete, compiler);
    var root :| root in roots && root.incarnation == session;
    RootIsObserved(input, root);
  }

  lemma RootIsObserved(input: CycleInput, root: CargoRoot)
    requires root in RootsOf(input)
    ensures root.incarnation in ClassificationOf(input).observed
  {
    var collected := CollectedRoots(input, input.candidates);
    OuterRootsAre(input.processes, collected, collected, root);
    RootsAre(input, input.candidates, root);
    ObservedAre(input.processes, input.candidates, root.incarnation);
    var candidate :| candidate in input.candidates && candidate.CargoCandidate?
      && IsReadable(input.processes, candidate.root.incarnation) && root == UnderClassification(input, candidate.root);
    assert IncarnationOf(candidate) == root.incarnation;
  }

  /** While the cap holds, the ledger is exactly the observed incarnations, each with its
      earlier entry if it had one. */
  lemma SightingsAfter(before: map<Incarnation, FirstSeenEntry>, classification: Classification,
                       after: map<Incarnation, FirstSeenEntry>)
    requires SightingsStep(before, classification, after)
    requires |Members(classification.observed)| <= 8_192
    ensures after.Keys == Members(classification.observed)
    ensures forall incarnation <- after ::
              var known := if incarnation in before then before[incarnation]
                           else FirstSeenEntry(classification.cycle, classification.instant, false);
              after[incarnation] == known.(promoted := known.promoted || incarnation in classification.promoted)
  {
    var recorded :|
      && SightingsRecorded(before, classification.observed, classification.promoted, classification.cycle,
                           classification.instant, recorded)
      && SightingsPruned(recorded, classification.observed, after);
    var live := map incarnation <- recorded | incarnation in classification.observed :: recorded[incarnation];
    assert live.Keys == Members(classification.observed);
    assert SeenAges(live).Keys == live.Keys;
    assert |SeenAges(live)| == |SeenAges(live).Keys|;
    UntrimmedWithinCap(SeenAges(live), MAX_FIRST_SEEN_ENTRIES, OlderOrEqual, after.Keys);
  }

  lemma CycleOfRun(states: seq<ClassifierState>, cycles: seq<Cycle>, i: nat)
    requires IsRun(states, cycles) && i < |cycles|
    ensures Ascending(cycles[i].observation.candidates)
    ensures cycles[i].classification == ClassificationOf(CycleInputOf(states[i], cycles[i].observation))
    ensures states[i + 1].cycle == NextCycle(states[i].cycle)
  {
    assert RunsCycle(states, cycles, i);
  }

  /** The first sighting a ledger gives an incarnation, or else this cycle's. */
  function Sighting(ledger: map<Incarnation, FirstSeenEntry>, classification: Classification,
                    incarnation: Incarnation): (nat, Instant)
  {
    if incarnation in ledger then (ledger[incarnation].firstSeen, ledger[incarnation].firstObservedAt)
    else (classification.cycle, classification.instant)
  }

  /** While the cap holds, a cycle keeps the sightings of what it observed. */
  ghost predicate KeepsSightings(before: map<Incarnation, FirstSeenEntry>, classification: Classification,
                                 after: map<Incarnation, FirstSeenEntry>)
  {
    |Members(classification.observed)| <= MAX_FIRST_SEEN_ENTRIES ==>
      forall incarnation <- classification.observed ::
        && incarnation in after
        && (after[incarnation].firstSeen, after[incarnation].firstObservedAt)
             == Sighting(before, classification, incarnation)
        && (IsPromoted(after, incarnation) <==>
              IsPromoted(before, incarnation) || incarnation in classification.promoted)
  }

  lemma StepKeepsSightings(before: map<Incarnation, FirstSeenEntry>, classification: Classification,
                           after: map<Incarnation, FirstSeenEntry>)
    requires SightingsStep(before, classification, after)
    ensures KeepsSightings(before, classification, after)
  {
    if |Members(classification.observed)| <= MAX_FIRST_SEEN_ENTRIES {
      SightingsAfter(before, classification, after);
      assert forall incarnation <- classification.observed :: incarnation in Members(classification.observed);
    }
  }

  /** The successive contents of the first-seen ledger, with the cycle between each two. */
  ghost predicate SightingsRun(ledgers: seq<map<Incarnation, FirstSeenEntry>>, cycles: seq<Cycle>) {
    && |ledgers| == |cycles| + 1
    && forall i :: 0 <= i < |cycles| ==> KeepsSightings(ledgers[i], cycles[i].classification, ledgers[i + 1])
  }

  function LedgerOf(state: ClassifierState): map<Incarnation, FirstSeenEntry> {
    state.tables.firstSeen
  }

  lemma RunSightings(states: seq<ClassifierState>, cycles: seq<Cycle>)
    requires IsRun(states, cycles)
    ensures SightingsRun(Map(LedgerOf, states), cycles)
  {
    forall i | 0 <= i < |cycles|
      ensures KeepsSightings(states[i].tables.firstSeen, cycles[i].classification, states[i + 1].tables.firstSeen)
    {
      assert RunsCycle(states, cycles, i);
      StepKeepsSightings(states[i].tables.firstSeen, cycles[i].classification, states[i + 1].tables.firstSeen);
    }
  }

  lemma {:induction false} SightingIsKept(ledgers: seq<map<Incarnation, FirstSeenEntry>>, cycles: seq<Cycle>,
                                          first: nat, last: nat, incarnation: Incarnation)
    requires SightingsRun(ledgers, cycles) && ObservedThroughout(cycles, first, last, incarnation)
    ensures Sighting(ledgers[last], cycles[last].classification, incarnation)
         == Sighting(ledgers[first], cycles[first].classification, incarnation)
    ensures incarnation in ledgers[last + 1]
    ensures var entry := ledgers[last + 1][incarnation];
            (entry.firstSeen, entry.firstObservedAt)
                 == Sighting(ledgers[first], cycles[first].classification, incarnation)
    ensures incarnation in cycles[first].classification.promoted ==> IsPromoted(ledgers[last + 1], incarnation)
    decreases last - first
  {
    if first < last {
      SightingIsKept(ledgers, cycles, first, last - 1, incarnation);
    }
    assert KeepsSightings(ledgers[last], cycles[last].classification, ledgers[last + 1]);
  }

  /** An incarnation observed without a gap keeps its first sighting, cycle and instant. */
  lemma FirstSightingIsStable(states: seq<ClassifierState>, cycles: seq<Cycle>, first: nat, last: nat,
                              incarnation: Incarnation)
    requires IsRun(states, cycles) && ObservedThroughout(cycles, first, last, incarnation)
    ensures FirstSightingOf(CycleInputOf(states[last], cycles[last].observation), incarnation)
         == FirstSightingOf(CycleInputOf(states[first], cycles[first].observation), incarnation)
  {
    RunSightings(states, cycles);
    SightingIsKept(Map(LedgerOf, states), cycles, first, last, incarnation);
    CycleOfRun(states, cycles, first);
    CycleOfRun(states, cycles, last);
  }

  ghost predicate Precedes(sessions: seq<BuildSession>, left: Incarnation, right: Incarnation) {
    exists i, j :: 0 <= i < j < |sessions| && sessions[i].id == left && sessions[j].id == right
  }

  ghost predicate IsShown(sessions: seq<BuildSession>, id: Incarnation) {
    exists session <- sessions :: session.id == id
  }

  lemma ShownSighting(input: CycleInput, session: BuildSession)
    requires session in ClassificationOf(input).sessions
    ensures (session.firstSeen, session.firstObservedAt) == FirstSightingOf(input, session.id)
  {
    SessionsAre(input, session);
  }

  lemma PrecedesByOrder(sessions: seq<BuildSession>, left: BuildSession, right: BuildSession)
    requires DistinctIds(sessions) && IsSorted(sessions, SessionNotAfter)
    requires left in sessions && right in sessions && left.id != right.id
    ensures Precedes(sessions, left.id, right.id) <==> SessionNotAfter(left, right)
  {
    var i :| 0 <= i < |sessions| && sessions[i] == left;
    var j :| 0 <= j < |sessions| && sessions[j] == right;
    assert forall k :: 0 <= k < |sessions| ==>
             (sessions[k].id == left.id <==> k == i) && (sessions[k].id == right.id <==> k == j);
    assert Precedes(sessions, left.id, right.id) <==> i < j;
    if j < i {
      assert SessionNotAfter(right, left);
    }
  }

  /** Where two shown sessions stand depends on their first sightings and identities alone. */
  lemma PrecedesBySighting(input: CycleInput, sessions: seq<BuildSession>, left: Incarnation, right: Incarnation)
    requires Ascending(input.candidates) && left != right
    requires sessions == ClassificationOf(input).sessions
    requires IsShown(sessions, left) && IsShown(sessions, right)
    ensures Precedes(sessions, left, right)
       <==> SeenNotAfter(FirstSightingOf(input, left).0, left, FirstSightingOf(input, right).0, right)
  {
    SessionsAreOrdered(input);
    var before :| before in sessions && before.id == left;
    var after :| after in sessions && after.id == right;
    ShownSighting(input, before);
    ShownSighting(input, after);
    PrecedesByOrder(sessions, before, after);
  }

  /** Two sessions observed without a gap keep their relative order. */
  lemma SessionOrderIsStable(states: seq<ClassifierState>, cycles: seq<Cycle>, first: nat, last: nat,
                             left: Incarnation, right: Incarnation)
    requires IsRun(states, cycles) && left != right
    requires ObservedThroughout(cycles, first, last, left) && ObservedThroughout(cycles, first, last, right)
    requires IsShown(cycles[first].classification.sessions, left)
    requires IsShown(cycles[first].classification.sessions, right)
    requires IsShown(cycles[last].classification.sessions, left) && IsShown(cycles[last].classification.sessions, right)
    ensures Precedes(cycles[first].classification.sessions, left, right)
       <==> Precedes(cycles[last].classification.sessions, left, right)
  {
    FirstSightingIsStable(states, cycles, first, last, left);
    FirstSightingIsStable(states, cycles, first, last, right);
    CycleOfRun(states, cycles, first);
    CycleOfRun(states, cycles, last);
    var sessionsFirst, sessionsLast := cycles[first].classification.sessions, cycles[last].classification.sessions;
    PrecedesBySighting(CycleInputOf(states[first], cycles[first].observation), sessionsFirst, left, right);
    PrecedesBySighting(CycleInputOf(states[last], cycles[last].observation), sessionsLast, left, right);
  }

  ghost predicate SeenBy(ledger: map<Incarnation, FirstSeenEntry>, cycle: nat) {
    forall incarnation <- ledger :: ledger[incarnation].firstSeen <= cycle
  }

  lemma StepSeenBy(before: map<Incarnation, FirstSeenEntry>, cycle: nat, classification: Classification,
                   after: map<Incarnation, FirstSeenEntry>)
    requires SeenBy(before, cycle) && cycle <= classification.cycle
    requires SightingsStep(before, classification, after)
    ensures SeenBy(after, classification.cycle)
  {
  }

  lemma CycleSeenBy(states: seq<ClassifierState>, cycles: seq<Cycle>, i: nat)
    requires IsRun(states, cycles) && i < |cycles|
    requires states[i].cycle <= U64_MAX && SeenBy(states[i].tables.firstSeen, states[i].cycle)
    ensures states[i + 1].cycle <= U64_MAX && SeenBy(states[i + 1].tables.firstSeen, states[i + 1].cycle)
  {
    assert RunsCycle(states, cycles, i);
    StepSeenBy(states[i].tables.firstSeen, states[i].cycle, cycles[i].classification, states[i + 1].tables.firstSeen);
  }

  lemma {:induction false} RunSeenBy(states: seq<ClassifierState>, cycles: seq<Cycle>, i: nat)
    requires IsRun(states, cycles) && i < |states|
    ensures states[i].cycle <= U64_MAX && SeenBy(states[i].tables.firstSeen, states[i].cycle)
  {
    if i > 0 {
      RunSeenBy(states, cycles, i - 1);
      CycleSeenBy(states, cycles, i - 1);
    }
  }

  /** Cycles are numbered from one on, until the numbers run out. */
  lemma {:induction false} RunCountsCycles(states: seq<ClassifierState>, cycles: seq<Cycle>, i: nat)
    requires IsRun(states, cycles) && i < |states|
    ensures states[i].cycle == if i <= 0xFFFF_FFFF_FFFF_FFFF then i else 0xFFFF_FFFF_FFFF_FFFF
  {
    if i > 0 {
      RunCountsCycles(states, cycles, i - 1);
      CycleOfRun(states, cycles, i - 1);
    }
  }

  /** A classification carries the number and the instant of its cycle. */
  lemma ClassificationIsDated(states: seq<ClassifierState>, cycles: seq<Cycle>, i: nat)
    requires IsRun(states, cycles) && i < |cycles|
    ensures cycles[i].classification.instant == cycles[i].observation.instant
    ensures i < 0xFFFF_FFFF_FFFF_FFFF ==> cycles[i].classification.cycle == i + 1
  {
    RunCountsCycles(states, cycles, i);
    CycleOfRun(states, cycles, i);
  }

  /** A session the ledger does not know yet is first seen in this very cycle and instant. */
  lemma NewSessionIsSeenNow(states: seq<ClassifierState>, cycles: seq<Cycle>, i: nat, session: BuildSession)
    requires IsRun(states, cycles) && i < |cycles| && session in cycles[i].classification.sessions
    requires session.id !in states[i].tables.firstSeen
    ensures session.firstObservedAt == cycles[i].observation.instant
    ensures i < 0xFFFF_FFFF_FFFF_FFFF ==> session.firstSeen == i + 1
  {
    RunCountsCycles(states, cycles, i);
    CycleOfRun(states, cycles, i);
    ShownSighting(CycleInputOf(states[i], cycles[i].observation), session);
  }

  /** A session first observed in one cycle stands after every session observed before, in
      every cycle that shows both, whenever each is first shown; only once the cycle counter
      has saturated can a tie put it earlier. */
  lemma NewcomerStandsLast(states: seq<ClassifierState>, cycles: seq<Cycle>, first: nat, last: nat,
                           older: Incarnation, newcomer: Incarnation)
    requires IsRun(states, cycles)
    requires ObservedThroughout(cycles, first, last, older) && ObservedThroughout(cycles, first, last, newcomer)
    requires older in states[first].tables.firstSeen && newcomer !in states[first].tables.firstSeen
    requires IsShown(cycles[last].classification.sessions, older)
    requires IsShown(cycles[last].classification.sessions, newcomer)
    ensures Precedes(cycles[last].classification.sessions, older, newcomer)
       <==> states[first].tables.firstSeen[older].firstSeen < NextCycle(states[first].cycle) || Before(older, newcomer)
    ensures states[first].cycle < U64_MAX ==> Precedes(cycles[last].classification.sessions, older, newcomer)
  {
    RunSeenBy(states, cycles, first);
    FirstSightingIsStable(states, cycles, first, last, older);
    FirstSightingIsStable(states, cycles, first, last, newcomer);
    CycleOfRun(states, cycles, last);
    PrecedesBySighting(CycleInputOf(states[last], cycles[last].observation), cycles[last].classification.sessions,
                       older, newcomer);
  }

  /** What a cycle observed, and nothing else, is known when the next one starts. */
  lemma KnownAre(states: seq<ClassifierState>, cycles: seq<Cycle>, i: nat, incarnation: Incarnation)
    requires IsRun(states, cycles) && i < |cycles|
    requires |Members(cycles[i].classification.observed)| <= MAX_FIRST_SEEN_ENTRIES
    ensures incarnation in states[i + 1].tables.firstSeen <==> incarnation in cycles[i].classification.observed
  {
    assert RunsCycle(states, cycles, i);
    SightingsAfter(states[i].tables.firstSeen, cycles[i].classification, states[i + 1].tables.firstSeen);
  }

  lemma ObservedLater(cycles: seq<Cycle>, first: nat, last: nat, incarnation: Incarnation)
    requires first < last && ObservedThroughout(cycles, first, last, incarnation)
    ensures ObservedThroughout(cycles, first + 1, last, incarnation)
  {
  }

  /** The same over what the cycles observed alone: of two processes watched without a gap,
      the one that was there a cycle earlier is listed first ever after. */
  lemma EarlierObservedStandsFirst(states: seq<ClassifierState>, cycles: seq<Cycle>, first: nat, last: nat,
                                   older: Incarnation, newcomer: Incarnation)
    requires IsRun(states, cycles) && first < last
    requires ObservedThroughout(cycles, first, last, older) && ObservedThroughout(cycles, first + 1, last, newcomer)
    requires newcomer !in cycles[first].classification.observed && states[first + 1].cycle < U64_MAX
    requires IsShown(cycles[last].classification.sessions, older)
    requires IsShown(cycles[last].classification.sessions, newcomer)
    ensures Precedes(cycles[last].classification.sessions, older, newcomer)
  {
    KnownAre(states, cycles, first, older);
    KnownAre(states, cycles, first, newcomer);
    ObservedLater(cycles, first, last, older);
    NewcomerStandsLast(states, cycles, first + 1, last, older, newcomer);
  }

  // ---------------------------------------------------------------------------
  // Promotion
  // ---------------------------------------------------------------------------

  lemma PromotionIsKept(states: seq<ClassifierState>, cycles: seq<Cycle>, first: nat, last: nat, root: Incarnation)
    requires IsRun(states, cycles) && ObservedThroughout(cycles, first, last, root)
    requires root in cycles[first].classification.promoted
    ensures IsPromoted(states[last + 1].tables.firstSeen, root)
  {
    RunSightings(states, cycles);
    SightingIsKept(Map(LedgerOf, states), cycles, first, last, root);
  }

  /** The root's argv and executable can be read, and no outer root of its checkout absorbs it. */
  ghost predicate StandsAlone(input: CycleInput, root: CargoRoot) {
    && CargoCandidate(root) in input.candidates
    && IsReadable(input.processes, root.incarnation)
    && !IsNested(input.processes, CollectedRoots(input, input.candidates), UnderClassification(input, root))
  }

  /** A readable, unabsorbed root that compiles by its argv, or that the ledger holds as
      promoted, is a session. */
  lemma CompilingRootIsASession(input: CycleInput, sessions: seq<BuildSession>, root: CargoRoot)
    requires sessions == ClassificationOf(input).sessions
    requires root.compilesFromArgv || IsPromoted(input.tables.firstSeen, root.incarnation)
    requires StandsAlone(input, root)
    ensures IsShown(sessions, root.incarnation)
  {
    var collected := CollectedRoots(input, input.candidates);
    var classified := UnderClassification(input, root);
    RootsAre(input, input.candidates, classified);
    OuterRootsAre(input.processes, collected, collected, classified);
    var session := SessionOf(input, AttachedOf(input).buildDirectories, classified);
    SessionsAre(input, session);
    assert session in sessions && session.id == root.incarnation;
  }

  lemma PromotedRootIsShown(states: seq<ClassifierState>, cycles: seq<Cycle>, i: nat, root: CargoRoot)
    requires IsRun(states, cycles) && i < |cycles|
    requires IsPromoted(states[i].tables.firstSeen, root.incarnation)
    requires StandsAlone(CycleInputOf(states[i], cycles[i].observation), root)
    ensures IsShown(cycles[i].classification.sessions, root.incarnation)
  {
    CycleOfRun(states, cycles, i);
    CompilingRootIsASession(CycleInputOf(states[i], cycles[i].observation), cycles[i].classification.sessions, root);
  }

  /** A root promoted once and observed without a gap is a session in every later cycle in
      which it is readable and no outer root of its checkout absorbs it. */
  lemma PromotedRootStaysASession(states: seq<ClassifierState>, cycles: seq<Cycle>, first: nat, last: nat,
                                  root: CargoRoot)
    requires IsRun(states, cycles) && first < last
    requires ObservedThroughout(cycles, first, last, root.incarnation)
    requires root.incarnation in cycles[first].classification.promoted
    requires StandsAlone(CycleInputOf(states[last], cycles[last].observation), root)
    ensures IsShown(cycles[last].classification.sessions, root.incarnation)
  {
    PromotionIsKept(states, cycles, first, last - 1, root.incarnation);
    PromotedRootIsShown(states, cycles, last, root);
  }
}
