/** Runs of the build classifier that show where its promises end. */
module BuildRunExamples {
  import opened Common
  import opened Processes
  import opened Attribution
  import opened Ordering
  import opened Classify
  import opened ClassifyFacts
  import opened BuildLedgers
  import opened BuildClassifier
  import opened BuildClassifierRuns
  import opened BuildProfileRuns

  // ---------------------------------------------------------------------------
  // Cycles small enough that no table is trimmed
  // ---------------------------------------------------------------------------

  function EntryAfter(before: map<Incarnation, FirstSeenEntry>, classification: Classification,
                      incarnation: Incarnation)
      : FirstSeenEntry
  {
    var known := if incarnation in before then before[incarnation]
                 else FirstSeenEntry(classification.cycle, classification.instant, false);
    known.(promoted := known.promoted || incarnation in classification.promoted)
  }

  function FirstSeenAfter(before: map<Incarnation, FirstSeenEntry>,
                          classification: Classification): map<Incarnation, FirstSeenEntry>
  {
    map incarnation | incarnation in classification.observed :: EntryAfter(before, classification, incarnation)
  }

  function DirectoriesAfter(before: map<Incarnation, BuildDirectoryEntry>, classification: Classification)
      : map<Incarnation, BuildDirectoryEntry>
  {
    Touched(DirectoriesRecorded(before, classification.buildDirectories, classification.cycle), classification.sessions,
            classification.cycle)
  }

  /** The state a cycle leaves when no table outgrows its cap and no dependency is compiled. */
  function StateAfter(before: ClassifierState, observation: Observation): ClassifierState {
    var classification := ClassificationOf(CycleInputOf(before, observation));
    ClassifierState(
      Tables(FirstSeenAfter(before.tables.firstSeen, classification),
             DirectoriesAfter(before.tables.buildDirectories, classification), map[]),
      NextCycle(before.cycle))
  }

  ghost predicate IsSmall(before: ClassifierState, observation: Observation) {
    && |observation.candidates| <= 3
    && |before.tables.buildDirectories| <= 3 && before.tables.manifests == map[]
    && forall candidate <- observation.candidates ::
         candidate.CompilerCandidate? ==> !candidate.compiler.crate.DependencyRoot?
  }

  function CycleOf(before: ClassifierState, observation: Observation): Cycle {
    Cycle(observation, ClassificationOf(CycleInputOf(before, observation)))
  }

  lemma {:induction false} FewCollected(processes: ProcessTable, candidates: seq<Candidate>)
    ensures |ObservedIncarnations(processes, candidates)| <= |candidates|
    ensures |CollectedCompilers(processes, candidates)| <= |candidates|
  {
    if candidates != [] {
      FewCollected(processes, candidates[..|candidates| - 1]);
    }
  }

  lemma {:induction false} FewDirectories(input: CycleInput, roots: seq<CargoRoot>, complete: bool,
                                          compilers: seq<Compiler>)
    ensures |Attached(input, roots, complete, compilers).buildDirectories| <= |compilers|
  {
    if compilers != [] {
      var fewer := compilers[..|compilers| - 1];
      FewDirectories(input, roots, complete, fewer);
      WithCompilerAppends(input, roots, complete, Attached(input, roots, complete, fewer), compilers[|compilers| - 1]);
    }
  }

  lemma {:induction false} FewRecorded(entries: map<Incarnation, BuildDirectoryEntry>,
                                       directories: seq<SessionBuildDirectory>, cycle: nat)
    ensures |DirectoriesRecorded(entries, directories, cycle)| <= |entries| + |directories|
  {
    if directories != [] {
      var last := directories[|directories| - 1];
      var before := DirectoriesRecorded(entries, directories[..|directories| - 1], cycle);
      FewRecorded(entries, directories[..|directories| - 1], cycle);
      assert before[last.session := BuildDirectoryEntry(last.name, cycle)].Keys == before.Keys + {last.session};
    }
  }

  function RecordedAfter(before: map<Incarnation, FirstSeenEntry>,
                         classification: Classification): map<Incarnation, FirstSeenEntry>
  {
    map incarnation | incarnation in before.Keys + Members(classification.observed) + Members(classification.promoted)
      :: EntryAfter(before, classification, incarnation)
  }

  lemma PrunedWithinCap(recorded: map<Incarnation, FirstSeenEntry>, observed: seq<Incarnation>,
                        after: map<Incarnation, FirstSeenEntry>)
    requires |Members(observed)| <= MAX_FIRST_SEEN_ENTRIES && Members(observed) <= recorded.Keys
    requires after.Keys == Members(observed)
    requires forall incarnation <- after :: after[incarnation] == recorded[incarnation]
    ensures SightingsPruned(recorded, observed, after)
  {
    assert (map incarnation <- recorded | incarnation in observed :: recorded[incarnation]) == after;
    assert |SeenAges(after)| == |SeenAges(after).Keys| && SeenAges(after).Keys == after.Keys;
  }

  lemma SightingsWithinCap(before: map<Incarnation, FirstSeenEntry>, classification: Classification)
    requires |Members(classification.observed)| <= MAX_FIRST_SEEN_ENTRIES
    ensures SightingsStep(before, classification, FirstSeenAfter(before, classification))
  {
    var recorded := RecordedAfter(before, classification);
    PrunedWithinCap(recorded, classification.observed, FirstSeenAfter(before, classification));
    assert SightingsRecorded(before, classification.observed, classification.promoted, classification.cycle,
                             classification.instant, recorded);
  }

  lemma DirectoriesWithinCap(before: map<Incarnation, BuildDirectoryEntry>, classification: Classification)
    requires FitsCap(before, classification)
    ensures DirectoriesStep(before, classification, DirectoriesAfter(before, classification))
  {
    var recorded := DirectoriesRecorded(before, classification.buildDirectories, classification.cycle);
    TouchedAre(recorded, classification.sessions, classification.cycle);
    var ages := DirectoryAges(DirectoriesAfter(before, classification));
    assert ages.Keys == recorded.Keys && |ages| == |ages.Keys| && |recorded| == |recorded.Keys|;
  }

  lemma FewNamed(before: ClassifierState, observation: Observation)
    requires IsSmall(before, observation)
    ensures var classification := ClassificationOf(CycleInputOf(before, observation));
            |DirectoriesRecorded(before.tables.buildDirectories, classification.buildDirectories, classification.cycle)|
            <= |before.tables.buildDirectories| + 3
  {
    var input := CycleInputOf(before, observation);
    var classification := ClassificationOf(input);
    FewCollected(observation.processes, observation.candidates);
    FewDirectories(input, RootsOf(input), IsComplete(input.processes, input.candidates), CompilersOf(input));
    SortPermutes(AttachedOf(input).buildDirectories, DirectoryNotAfter);
    FewRecorded(before.tables.buildDirectories, classification.buildDirectories, classification.cycle);
  }

  lemma SmallTables(before: ClassifierState, observation: Observation)
    requires IsSmall(before, observation)
    ensures var classification := ClassificationOf(CycleInputOf(before, observation));
            && |Members(classification.observed)| <= MAX_FIRST_SEEN_ENTRIES
            && FitsCap(before.tables.buildDirectories, classification)
  {
    FewCollected(observation.processes, observation.candidates);
    MembersSize(ClassificationOf(CycleInputOf(before, observation)).observed);
    FewNamed(before, observation);
  }

  lemma SmallManifests(before: ClassifierState, observation: Observation)
    requires IsSmall(before, observation)
    ensures ManifestsStep(before.tables.manifests, ClassificationOf(CycleInputOf(before, observation)),
                          observation.disk, map[])
  {
    var input := CycleInputOf(before, observation);
    var classification := ClassificationOf(input);
    forall root ensures root !in classification.sourceRootsInUse && root !in classification.manifestRequests {
      ManifestRequestsAre(input, RootsOf(input), IsComplete(input.processes, input.candidates), CompilersOf(input),
                          root);
      forall compiler | compiler in CompilersOf(input) ensures compiler.crate != DependencyRoot(root) {
        CompilersAre(input.processes, input.candidates, compiler);
      }
    }
    var none: map<Path, ManifestEntry> := map[];
    assert ManifestsRevalidated(none, classification.sourceRootsInUse, observation.disk, classification.cycle, none);
    assert ManifestsRecorded(none, classification.manifestRequests, observation.disk, classification.cycle, none);
    assert ManifestAges(none) == map[];
    assert ManifestsTrimmed(none, none);
  }

  lemma SmallCycle(before: ClassifierState, observation: Observation)
    requires IsSmall(before, observation)
    ensures CycleRuns(before, observation, CycleOf(before, observation).classification, StateAfter(before, observation))
  {
    var classification := ClassificationOf(CycleInputOf(before, observation));
    SmallTables(before, observation);
    SightingsWithinCap(before.tables.firstSeen, classification);
    DirectoriesWithinCap(before.tables.buildDirectories, classification);
    SmallManifests(before, observation);
  }

  /** A small cycle without directories before it leaves few behind. */
  lemma SmallStay(before: ClassifierState, observation: Observation)
    requires IsSmall(before, observation) && before.tables.buildDirectories == map[]
    ensures |StateAfter(before, observation).tables.buildDirectories| <= 3
  {
    var classification := ClassificationOf(CycleInputOf(before, observation));
    FewNamed(before, observation);
    var recorded := DirectoriesRecorded(map[], classification.buildDirectories, classification.cycle);
    TouchedAre(recorded, classification.sessions, classification.cycle);
    var after := DirectoriesAfter(map[], classification);
    assert |after| == |after.Keys| == |recorded.Keys| == |recorded|;
  }

  /** A run goes on with one more small cycle. */
  lemma RunExtends(states: seq<ClassifierState>, cycles: seq<Cycle>, observation: Observation)
      returns (moreStates: seq<ClassifierState>, moreCycles: seq<Cycle>)
    requires IsRun(states, cycles) && Ascending(observation.candidates) && IsSmall(states[|cycles|], observation)
    ensures IsRun(moreStates, moreCycles)
    ensures moreStates == states + [StateAfter(states[|cycles|], observation)]
    ensures moreCycles == cycles + [CycleOf(states[|cycles|], observation)]
  {
    moreStates := states + [StateAfter(states[|cycles|], observation)];
    moreCycles := cycles + [CycleOf(states[|cycles|], observation)];
    SmallCycle(states[|cycles|], observation);
    forall i: nat | i < |moreCycles| ensures RunsCycle(moreStates, moreCycles, i) {
      if i < |cycles| {
        assert RunsCycle(states, cycles, i);
      }
    }
  }

  lemma TwoCycles(first: Observation, second: Observation) returns (states: seq<ClassifierState>, cycles: seq<Cycle>)
    requires Ascending(first.candidates) && Ascending(second.candidates)
    requires IsSmall(INITIAL, first) && IsSmall(StateAfter(INITIAL, first), second)
    ensures IsRun(states, cycles) && |cycles| == 2
    ensures states[0] == INITIAL && cycles[0] == CycleOf(INITIAL, first)
    ensures states[1] == StateAfter(INITIAL, first) && cycles[1] == CycleOf(states[1], second)
  {
    states, cycles := [INITIAL], [];
    states, cycles := RunExtends(states, cycles, first);
    states, cycles := RunExtends(states, cycles, second);
  }

  // ---------------------------------------------------------------------------
  // Two names in one cycle
  // ---------------------------------------------------------------------------

  /** A root of the host with two compilers as its children, all observed in full. */
  ghost predicate IsBuild(input: CycleInput, root: CargoRoot, first: Compiler, second: Compiler) {
    && input.candidates == [CargoCandidate(root), CompilerCandidate(first), CompilerCandidate(second)]
    && IsReadable(input.processes, root.incarnation)
    && IsReadable(input.processes, first.incarnation) && IsReadable(input.processes, second.incarnation)
    && ValidatedParent(input.processes, root.incarnation.identity) == None
    && ValidatedParent(input.processes, first.incarnation.identity) == Some(root.incarnation.identity)
    && ValidatedParent(input.processes, second.incarnation.identity) == Some(root.incarnation.identity)
    && root.incarnation !in input.tables.buildDirectories
  }

  lemma BuildCandidates(input: CycleInput, root: CargoRoot, first: Compiler, second: Compiler)
    requires IsBuild(input, root, first, second)
    ensures RootsOf(input) == [root] && CompilersOf(input) == [first, second]
  {
    RootAlone(input, root);
    TwoCompilers(input, [CargoCandidate(root)], [root], first, second);
    assert [CargoCandidate(root)] + [CompilerCandidate(first)] + [CompilerCandidate(second)] == input.candidates;
    OnlyRoot(input.processes, root);
  }

  lemma TwoCompilers(input: CycleInput, before: seq<Candidate>, roots: seq<CargoRoot>, first: Compiler,
                     second: Compiler)
    requires CollectedRoots(input, before) == roots && CollectedCompilers(input.processes, before) == []
    requires IsReadable(input.processes, first.incarnation) && IsReadable(input.processes, second.incarnation)
    ensures var all := before + [CompilerCandidate(first)] + [CompilerCandidate(second)];
            CollectedRoots(input, all) == roots && CollectedCompilers(input.processes, all) == [first, second]
  {
    CompilerOneMore(input, before, first, roots, []);
    CompilerOneMore(input, before + [CompilerCandidate(first)], second, roots, [first]);
  }

  lemma RootAlone(input: CycleInput, root: CargoRoot)
    requires IsReadable(input.processes, root.incarnation) && root.incarnation !in input.tables.buildDirectories
    ensures CollectedRoots(input, [CargoCandidate(root)]) == [root]
    ensures CollectedCompilers(input.processes, [CargoCandidate(root)]) == []
  {
    CollectedOneMore(input, [], CargoCandidate(root));
    assert [] + [CargoCandidate(root)] == [CargoCandidate(root)] && UnderClassification(input, root) == root;
  }

  lemma CompilerOneMore(input: CycleInput, before: seq<Candidate>, compiler: Compiler, roots: seq<CargoRoot>,
                        compilers: seq<Compiler>)
    requires CollectedRoots(input, before) == roots && CollectedCompilers(input.processes, before) == compilers
    requires IsReadable(input.processes, compiler.incarnation)
    ensures CollectedRoots(input, before + [CompilerCandidate(compiler)]) == roots
    ensures CollectedCompilers(input.processes, before + [CompilerCandidate(compiler)]) == compilers + [compiler]
  {
    CollectedOneMore(input, before, CompilerCandidate(compiler));
    assert IncarnationOf(CompilerCandidate(compiler)) == compiler.incarnation;
  }

  lemma OnlyRoot(processes: ProcessTable, root: CargoRoot)
    ensures DropNestedRoots(processes, [root]) == [root]
  {
    assert !IsNested(processes, [root], root);
    assert [root][..|[root]| - 1] == [] && OuterRoots(processes, [root], []) == [];
    assert OuterRoots(processes, [root], [root]) == [] + [root];
  }

  /** A child of the only root writes, for that root's session, where its output is. */
  lemma ChildWrites(input: CycleInput, root: CargoRoot, compiler: Compiler, target: Path, name: string, other: string)
    requires RootsOf(input) == [root] && root.targetDirectory == Some(target)
    requires ValidatedParent(input.processes, compiler.incarnation.identity) == Some(root.incarnation.identity)
    requires ValidatedParent(input.processes, root.incarnation.identity) == None
    requires compiler.triple == None && compiler.outputDirectory == Some(target + [name])
    ensures Writes(input, compiler, root.incarnation, other) <==> other == name
  {
    var roots, complete := RootsOf(input), IsComplete(input.processes, input.candidates);
    assert Ancestors(input.processes, root.incarnation.identity, MAX_DESCENDANT_WALK_DEPTH - 1) == [];
    assert Ancestors(input.processes, compiler.incarnation.identity, MAX_DESCENDANT_WALK_DEPTH)
         == [root.incarnation.identity];
    assert Matches(AncestorsOf(input.processes, compiler), root);
    assert Above(input.processes, [root], compiler) == {root.incarnation};
    ConfirmedMeans(input.processes, roots, compiler, complete, root.incarnation);
    assert ObservedBuildDirectory(compiler, root) == Some(name);
  }

  /** Of two compilers, the first is the first to write and the greater name is the greatest. */
  lemma FirstOfTwo(input: CycleInput, first: Compiler, second: Compiler, session: Incarnation, low: string)
    requires CompilersOf(input) == [first, second] && Writes(input, first, session, low)
    ensures WritesFirst(input, session, low)
  {
    var compilers := CompilersOf(input);
    assert compilers[0] == first;
    assert IsFirstWriter(input, RootsOf(input), IsComplete(input.processes, input.candidates), compilers, 0, session,
                         low);
  }

  lemma GreatestOfTwo(input: CycleInput, first: Compiler, second: Compiler, session: Incarnation, low: string,
                      high: string)
    requires CompilersOf(input) == [first, second] && NameNotAfter(low, high)
    requires forall name :: Writes(input, first, session, name) <==> name == low
    requires forall name :: Writes(input, second, session, name) <==> name == high
    ensures WritesGreatest(input, session, high)
  {
    assert CompilersOf(input)[1] == second && Writes(input, second, session, high);
    NamesTotal(high, high);
  }

  lemma BuildNames(input: CycleInput, root: CargoRoot, first: Compiler, second: Compiler, target: Path, low: string,
                   high: string)
    requires IsBuild(input, root, first, second) && root.targetDirectory == Some(target)
    requires first.triple == None && first.outputDirectory == Some(target + [low])
    requires second.triple == None && second.outputDirectory == Some(target + [high])
    requires NameNotAfter(low, high)
    ensures WritesFirst(input, root.incarnation, low) && WritesGreatest(input, root.incarnation, high)
  {
    BuildCandidates(input, root, first, second);
    forall name ensures (Writes(input, first, root.incarnation, name) <==> name == low)
                     && (Writes(input, second, root.incarnation, name) <==> name == high) {
      ChildWrites(input, root, first, target, low, name);
      ChildWrites(input, root, second, target, high, name);
    }
    FirstOfTwo(input, first, second, root.incarnation, low);
    GreatestOfTwo(input, first, second, root.incarnation, low, high);
  }

  /** A session without compilers of its own is quiet. */
  lemma NoCompilersIsQuiet(input: CycleInput, session: Incarnation)
    requires forall candidate <- input.candidates :: candidate.CargoCandidate?
    ensures IsQuiet(input, session)
  {
    forall compiler ensures compiler !in CompilersOf(input) {
      CompilersAre(input.processes, input.candidates, compiler);
    }
  }

  /** A root of the host with nothing else to be seen. */
  ghost predicate IsAlone(observation: Observation, root: CargoRoot) {
    && observation.candidates == [CargoCandidate(root)]
    && IsReadable(observation.processes, root.incarnation)
    && ValidatedParent(observation.processes, root.incarnation.identity) == None
  }

  /** A root of the host that compiles by its argv is a session. */
  lemma OrphanIsShown(input: CycleInput, root: CargoRoot) returns (session: BuildSession)
    requires CargoCandidate(root) in input.candidates && IsReadable(input.processes, root.incarnation)
    requires ValidatedParent(input.processes, root.incarnation.identity) == None && root.compilesFromArgv
    ensures session in ClassificationOf(input).sessions && session.id == root.incarnation
    ensures root.incarnation in ClassificationOf(input).observed
  {
    assert Ancestors(input.processes, root.incarnation.identity, MAX_DESCENDANT_WALK_DEPTH) == [];
    assert StandsAlone(input, root);
    CompilingRootIsASession(input, ClassificationOf(input).sessions, root);
    session :| session in ClassificationOf(input).sessions && session.id == root.incarnation;
    ObservedAre(input.processes, input.candidates, root.incarnation);
    assert IncarnationOf(CargoCandidate(root)) == root.incarnation;
  }

  lemma BuildIsSmall(before: ClassifierState, building: Observation, root: CargoRoot, first: Compiler, second: Compiler)
    requires before.tables.buildDirectories == map[] && before.tables.manifests == map[]
    requires building.candidates == [CargoCandidate(root), CompilerCandidate(first), CompilerCandidate(second)]
    requires !first.crate.DependencyRoot? && !second.crate.DependencyRoot?
    ensures IsSmall(before, building)
  {
  }

  lemma IdleIsSmall(before: ClassifierState, idle: Observation, root: CargoRoot)
    requires |before.tables.buildDirectories| <= 3 && before.tables.manifests == map[]
    requires idle.candidates == [CargoCandidate(root)]
    ensures IsSmall(before, idle)
  {
  }

  lemma BusyThenQuietRun(building: Observation, idle: Observation, root: CargoRoot, first: Compiler, second: Compiler)
      returns (states: seq<ClassifierState>, cycles: seq<Cycle>)
    requires Ascending(building.candidates) && Ascending(idle.candidates)
    requires building.candidates == [CargoCandidate(root), CompilerCandidate(first), CompilerCandidate(second)]
    requires idle.candidates == [CargoCandidate(root)]
    requires !first.crate.DependencyRoot? && !second.crate.DependencyRoot?
    ensures IsRun(states, cycles) && |cycles| == 2
    ensures states[0] == INITIAL && cycles[0] == CycleOf(INITIAL, building) && cycles[1] == CycleOf(states[1], idle)
    ensures FitsCap(INITIAL.tables.buildDirectories, cycles[0].classification)
  {
    BuildIsSmall(INITIAL, building, root, first, second);
    SmallStay(INITIAL, building);
    IdleIsSmall(StateAfter(INITIAL, building), idle, root);
    SmallTables(INITIAL, building);
    states, cycles := TwoCycles(building, idle);
  }

  lemma BusyCycle(input: CycleInput, root: CargoRoot, first: Compiler, second: Compiler, target: Path, low: string,
                  high: string)
      returns (busy: BuildSession)
    requires IsBuild(input, root, first, second)
    requires root.compilesFromArgv && !root.profile.evidence.Argument? && root.targetDirectory == Some(target)
    requires first.triple == None && first.outputDirectory == Some(target + [low])
    requires second.triple == None && second.outputDirectory == Some(target + [high])
    requires NameNotAfter(low, high)
    ensures busy in ClassificationOf(input).sessions && busy.id == root.incarnation
    ensures NamesNoProfile(input.candidates, root.incarnation)
    ensures WritesFirst(input, root.incarnation, low) && WritesGreatest(input, root.incarnation, high)
    ensures busy.profile.named == LabelOfBuildDirectory(low)
  {
    assert CargoCandidate(root) == input.candidates[0];
    busy := OrphanIsShown(input, root);
    BuildNames(input, root, first, second, target, low, high);
    BusyCycleShowsFirstName(input, busy, low);
  }

  lemma QuietCycle(states: seq<ClassifierState>, cycles: seq<Cycle>, root: CargoRoot, name: string)
      returns (quiet: BuildSession)
    requires IsRun(states, cycles) && |cycles| == 2 && IsAlone(cycles[1].observation, root)
    requires FitsCap(states[0].tables.buildDirectories, cycles[0].classification)
    requires root.compilesFromArgv && !root.profile.evidence.Argument?
    requires WritesGreatest(InputAt(states, cycles, 0), root.incarnation, name)
    ensures quiet in cycles[1].classification.sessions && quiet.id == root.incarnation
    ensures NamesNoProfile(cycles[1].observation.candidates, quiet.id) && IsQuiet(InputAt(states, cycles, 1), quiet.id)
    ensures quiet.profile.named == LabelOfBuildDirectory(name)
  {
    CycleOfRun(states, cycles, 1);
    quiet := OrphanIsShown(InputAt(states, cycles, 1), root);
    NoCompilersIsQuiet(InputAt(states, cycles, 1), root.incarnation);
    QuietCyclesShowNewestBusyCycle(states, cycles, 0, 1, quiet, name);
  }

  function RecordAt(pid: nat, parent: ReportedParent): ProcessRecord {
    ProcessRecord(Monotonic(pid), parent, Some(0), true, true, true)
  }

  /** A Cargo root that compiles by its argv, names no profile and writes under `t`. */
  function RootAt(pid: nat): CargoRoot {
    CargoRoot(Incarnation(ProcessIdentity(pid, pid), 0), true, Unresolved, Some(["t"]),
              BuildProfile(Dev, MetadataDefault))
  }

  /** A compiler that writes under one build directory of `t`. */
  function CompilerAt(pid: nat, name: string): Compiler {
    Compiler(Incarnation(ProcessIdentity(pid, pid), 0), None, Some(["t"] + [name]), None, None, NameOnly)
  }

  /** A root and two compilers, then the root alone. */
  lemma BuildExample(root: CargoRoot, first: Compiler, second: Compiler)
      returns (building: Observation, idle: Observation)
    requires root == RootAt(1) && first == CompilerAt(2, "debug") && second == CompilerAt(3, "release")
    ensures Ascending(building.candidates) && Ascending(idle.candidates)
    ensures IsBuild(CycleInputOf(INITIAL, building), root, first, second) && IsAlone(idle, root)
  {
    var top, left, right := root.incarnation.identity, first.incarnation.identity, second.incarnation.identity;
    var processes := map[top := RecordAt(1, SystemRoot), left := RecordAt(2, Identified(top)),
                         right := RecordAt(3, Identified(top))];
    building := Observation(processes, [CargoCandidate(root), CompilerCandidate(first), CompilerCandidate(second)], 0,
                            map[]);
    idle := Observation(processes, [CargoCandidate(root)], 0, map[]);
  }

  /** A cycle whose compilers write under two build directories shows the first, in compiler
      order, and the quiet cycle after it the greatest. */
  lemma TwoNamesDisagree()
      returns (states: seq<ClassifierState>, cycles: seq<Cycle>, busy: BuildSession, quiet: BuildSession)
    ensures IsRun(states, cycles) && |cycles| == 2 && busy.id == quiet.id
    ensures busy in cycles[0].classification.sessions && quiet in cycles[1].classification.sessions
    ensures NamesNoProfile(cycles[0].observation.candidates, busy.id)
    ensures NamesNoProfile(cycles[1].observation.candidates, quiet.id)
    ensures WritesFirst(InputAt(states, cycles, 0), busy.id, "debug")
    ensures WritesGreatest(InputAt(states, cycles, 0), busy.id, "release")
    ensures IsQuiet(InputAt(states, cycles, 1), quiet.id)
    ensures busy.profile.named == Dev && quiet.profile.named == Release
  {
    var root, first, second := RootAt(1), CompilerAt(2, "debug"), CompilerAt(3, "release");
    var building, idle := BuildExample(root, first, second);
    states, cycles := BusyThenQuietRun(building, idle, root, first, second);
    busy := BusyCycle(InputAt(states, cycles, 0), root, first, second, ["t"], "debug", "release");
    quiet := QuietCycle(states, cycles, root, "release");
  }

  // ---------------------------------------------------------------------------
  // A saturated cycle counter
  // ---------------------------------------------------------------------------

  const NOTHING_RUNS := Observation(map[], [], 0, map[])

  function IdleState(cycle: nat): ClassifierState {
    ClassifierState(Tables(map[], map[], map[]), cycle)
  }

  lemma IdleCycle(cycle: nat)
    requires cycle < U64_MAX
    ensures IsSmall(IdleState(cycle), NOTHING_RUNS)
    ensures StateAfter(IdleState(cycle), NOTHING_RUNS) == IdleState(cycle + 1)
  {
    var input := CycleInputOf(IdleState(cycle), NOTHING_RUNS);
    var classification := ClassificationOf(input);
    FewCollected(map[], []);
    FewDirectories(input, RootsOf(input), IsComplete(input.processes, input.candidates), CompilersOf(input));
    SortPermutes(AttachedOf(input).buildDirectories, DirectoryNotAfter);
    TouchedAre(map[], classification.sessions, classification.cycle);
    assert classification.observed == [] && classification.buildDirectories == [];
  }

  /** Any number of cycles can pass with nothing to observe. */
  lemma {:induction false} IdleRun(count: nat) returns (states: seq<ClassifierState>, cycles: seq<Cycle>)
    requires count <= U64_MAX
    ensures IsRun(states, cycles) && |cycles| == count && states[count] == IdleState(count)
    decreases count
  {
    if count == 0 {
      return [INITIAL], [];
    }
    states, cycles := IdleRun(count - 1);
    IdleCycle(count - 1);
    states, cycles := RunExtends(states, cycles, NOTHING_RUNS);
  }

  /** Two roots of the host, the newcomer of the smaller identity. */
  ghost predicate IsPair(observation: Observation, newcomer: CargoRoot, older: CargoRoot) {
    && observation.candidates == [CargoCandidate(newcomer), CargoCandidate(older)]
    && Before(newcomer.incarnation, older.incarnation)
    && IsReadable(observation.processes, newcomer.incarnation) && IsReadable(observation.processes, older.incarnation)
    && ValidatedParent(observation.processes, newcomer.incarnation.identity) == None
    && ValidatedParent(observation.processes, older.incarnation.identity) == None
  }

  /** After a cycle that saw one root alone, the ledger holds that root, first seen then. */
  lemma AloneIsRecorded(before: ClassifierState, observation: Observation, root: CargoRoot, other: Incarnation)
    requires IsAlone(observation, root) && root.compilesFromArgv && other != root.incarnation
    ensures var ledger := StateAfter(before, observation).tables.firstSeen;
            && root.incarnation in ledger && other !in ledger
            && (root.incarnation !in before.tables.firstSeen ==>
                  ledger[root.incarnation].firstSeen == NextCycle(before.cycle))
  {
    var input := CycleInputOf(before, observation);
    var session := OrphanIsShown(input, root);
    ObservedAre(input.processes, input.candidates, other);
  }

  lemma PairIsShown(input: CycleInput, newcomer: CargoRoot, older: CargoRoot)
    requires IsPair(Observation(input.processes, input.candidates, input.instant, map[]), newcomer, older)
    requires newcomer.compilesFromArgv && older.compilesFromArgv
    ensures forall root <- {newcomer, older} ::
              && IsShown(ClassificationOf(input).sessions, root.incarnation)
              && root.incarnation in ClassificationOf(input).observed
  {
    assert CargoCandidate(newcomer) == input.candidates[0] && CargoCandidate(older) == input.candidates[1];
    var left := OrphanIsShown(input, newcomer);
    var right := OrphanIsShown(input, older);
  }

  lemma PairTies(states: seq<ClassifierState>, cycles: seq<Cycle>, last: nat, newcomer: CargoRoot, older: CargoRoot)
    requires IsRun(states, cycles) && last < |cycles| && states[last].cycle == U64_MAX
    requires IsPair(cycles[last].observation, newcomer, older) && IsSmall(states[last], cycles[last].observation)
    requires newcomer.compilesFromArgv && older.compilesFromArgv
    requires newcomer.incarnation !in states[last].tables.firstSeen
    requires older.incarnation in states[last].tables.firstSeen
    requires states[last].tables.firstSeen[older.incarnation].firstSeen == U64_MAX
    ensures IsShown(cycles[last].classification.sessions, newcomer.incarnation)
    ensures IsShown(cycles[last].classification.sessions, older.incarnation)
    ensures !Precedes(cycles[last].classification.sessions, older.incarnation, newcomer.incarnation)
  {
    CycleOfRun(states, cycles, last);
    SmallTables(states[last], cycles[last].observation);
    PairIsShown(InputAt(states, cycles, last), newcomer, older);
    NewcomerStandsLast(states, cycles, last, last, older.incarnation, newcomer.incarnation);
  }

  /** The older root, then both, once every cycle number has been used. */
  lemma SaturatedRun(alone: Observation, pair: Observation, newcomer: CargoRoot, older: CargoRoot)
      returns (states: seq<ClassifierState>, cycles: seq<Cycle>, last: nat)
    requires Ascending(alone.candidates) && IsAlone(alone, older) && older.compilesFromArgv
    requires Ascending(pair.candidates) && IsPair(pair, newcomer, older)
    ensures IsRun(states, cycles) && |cycles| == last + 1 && cycles[last].observation == pair
    ensures states[last] == StateAfter(IdleState(U64_MAX), alone) && IsSmall(states[last], pair)
  {
    last := U64_MAX + 1;
    IdleIsSmall(IdleState(U64_MAX), alone, older);
    SmallStay(IdleState(U64_MAX), alone);
    PairIsSmall(StateAfter(IdleState(U64_MAX), alone), pair, newcomer, older);
    states, cycles := IdleRun(U64_MAX);
    states, cycles := RunExtends(states, cycles, alone);
    states, cycles := RunExtends(states, cycles, pair);
  }

  lemma PairIsSmall(before: ClassifierState, pair: Observation, newcomer: CargoRoot, older: CargoRoot)
    requires |before.tables.buildDirectories| <= 3 && before.tables.manifests == map[] && IsPair(pair, newcomer, older)
    ensures IsSmall(before, pair)
  {
  }

  lemma PairExample(newcomer: CargoRoot, older: CargoRoot) returns (alone: Observation, pair: Observation)
    requires newcomer == RootAt(1) && older == RootAt(2)
    ensures Ascending(alone.candidates) && IsAlone(alone, older)
    ensures Ascending(pair.candidates) && IsPair(pair, newcomer, older)
  {
    var low, high := newcomer.incarnation.identity, older.incarnation.identity;
    var processes := map[low := RecordAt(1, SystemRoot), high := RecordAt(2, SystemRoot)];
    alone := Observation(processes, [CargoCandidate(older)], 0, map[]);
    pair := Observation(processes, [CargoCandidate(newcomer), CargoCandidate(older)], 0, map[]);
  }

  /** Once the cycle counter has saturated, a session first observed later can stand before an
      older one. */
  lemma SaturatedCounterReorders()
    returns (states: seq<ClassifierState>, cycles: seq<Cycle>, last: nat, older: Incarnation, newcomer: Incarnation)
    ensures IsRun(states, cycles) && |cycles| == last + 1
    ensures older in states[last].tables.firstSeen && newcomer !in states[last].tables.firstSeen
    ensures IsShown(cycles[last].classification.sessions, older)
    ensures IsShown(cycles[last].classification.sessions, newcomer)
    ensures !Precedes(cycles[last].classification.sessions, older, newcomer)
  {
    var first, second := RootAt(1), RootAt(2);
    newcomer, older := first.incarnation, second.incarnation;
    var alone, pair := PairExample(first, second);
    AloneIsRecorded(IdleState(U64_MAX), alone, second, newcomer);
    states, cycles, last := SaturatedRun(alone, pair, first, second);
    PairTies(states, cycles, last, first, second);
  }
}
