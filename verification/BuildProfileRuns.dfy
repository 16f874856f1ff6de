/** Which profile a session shows over whole runs, and how rarely a manifest is read. */
module BuildProfileRuns {
  import opened Common
  import opened Processes
  import opened Attribution
  import opened Ordering
  import opened Classify
  import opened ClassifyFacts
  import opened BuildLedgers
  import opened BuildClassifier
  import opened BuildClassifierRuns

  // ---------------------------------------------------------------------------
  // Names recorded in one cycle
  // ---------------------------------------------------------------------------

  /** The build directories a cycle observed one session's compilers writing under. */
  function NamesOf(directories: seq<SessionBuildDirectory>, session: Incarnation): set<string> {
    set directory <- directories | directory.session == session :: directory.name
  }

  ghost predicate IsGreatestName(names: set<string>, name: string) {
    name in names && forall other <- names :: NameNotAfter(other, name)
  }

  lemma {:induction false} FirstDirectoryIsNamed(directories: seq<SessionBuildDirectory>, session: Incarnation)
    ensures FirstDirectory(directories, session).None? <==> NamesOf(directories, session) == {}
    ensures FirstDirectory(directories, session).Some? ==>
              FirstDirectory(directories, session).value in NamesOf(directories, session)
  {
    if directories != [] {
      FirstDirectoryIsNamed(directories[1..], session);
      assert directories == [directories[0]] + directories[1..];
      if directories[0].session == session {
        assert directories[0] in directories;
        assert directories[0].name in NamesOf(directories, session);
      } else {
        assert NamesOf(directories, session) == NamesOf(directories[1..], session);
      }
    }
  }

  lemma GreatestIsUnique(names: set<string>, left: string, right: string)
    requires IsGreatestName(names, left) && IsGreatestName(names, right)
    ensures left == right
  {
    NamesTotal(left, right);
  }

  lemma LastNameIsGreatest(directories: seq<SessionBuildDirectory>, session: Incarnation)
    requires IsSorted(directories, DirectoryNotAfter) && directories != []
    requires directories[|directories| - 1].session == session
    ensures IsGreatestName(NamesOf(directories, session), directories[|directories| - 1].name)
  {
    var last := directories[|directories| - 1];
    NamesTotal(last.name, last.name);
    assert last in directories;
    forall other | other in NamesOf(directories, session) ensures NameNotAfter(other, last.name) {
      var directory :| directory in directories && directory.session == session && directory.name == other;
      var k :| 0 <= k < |directories| && directories[k] == directory;
      if k < |directories| - 1 {
        assert DirectoryNotAfter(directories[k], last);
      }
    }
  }

  lemma NamesOneMore(directories: seq<SessionBuildDirectory>, last: SessionBuildDirectory, session: Incarnation)
    ensures NamesOf(directories + [last], session)
         == NamesOf(directories, session) + (if last.session == session then {last.name} else {})
  {
    assert forall other :: other in directories + [last] <==> other in directories || other == last;
  }

  /** What recording these names makes of a session's entry: untouched without a name of its
      own, and else the greatest of them. */
  ghost predicate TakesGreatest(entries: map<Incarnation, BuildDirectoryEntry>, names: set<string>, cycle: nat,
                                recorded: map<Incarnation, BuildDirectoryEntry>, session: Incarnation)
  {
    if names == {} then (session in recorded <==> session in entries)
                        && (session in recorded ==> recorded[session] == entries[session])
    else session in recorded && IsGreatestName(names, recorded[session].name) && recorded[session].lastUsed == cycle
  }

  /** Recording a sorted list leaves each named session with its greatest name. */
  lemma {:induction false} RecordedNames(entries: map<Incarnation, BuildDirectoryEntry>,
                                         directories: seq<SessionBuildDirectory>, cycle: nat, session: Incarnation)
    requires IsSorted(directories, DirectoryNotAfter)
    ensures TakesGreatest(entries, NamesOf(directories, session), cycle,
                          DirectoriesRecorded(entries, directories, cycle), session)
  {
    if directories != [] {
      var last := directories[|directories| - 1];
      var fewer := directories[..|directories| - 1];
      RecordedNames(entries, fewer, cycle, session);
      assert directories == fewer + [last];
      NamesOneMore(fewer, last, session);
      if last.session == session {
        LastNameIsGreatest(directories, session);
      }
    }
  }

  lemma DirectoryOrderIsTotal()
    ensures TotalOrder(DirectoryNotAfter)
  {
    forall x, y ensures DirectoryNotAfter(x, y) || DirectoryNotAfter(y, x) {
      NamesTotal(x.name, y.name);
    }
    forall x, y, z | DirectoryNotAfter(x, y) && DirectoryNotAfter(y, z) ensures DirectoryNotAfter(x, z) {
      if x.session == y.session == z.session {
        NamesTransitive(x.name, y.name, z.name);
      }
    }
  }

  // ---------------------------------------------------------------------------
  // Which compiler names which directory
  // ---------------------------------------------------------------------------

  /** The k-th compiler writes under this build directory of the session, and no compiler
      before it writes under any. */
  ghost predicate IsFirstWriter(input: CycleInput, roots: seq<CargoRoot>, complete: bool, compilers: seq<Compiler>,
                                k: nat, session: Incarnation, name: string)
  {
    && k < |compilers|
    && WritesUnder(input, roots, complete, compilers[k], SessionBuildDirectory(session, name))
    && forall j, other ::
         0 <= j < k ==> !WritesUnder(input, roots, complete, compilers[j], SessionBuildDirectory(session, other))
  }

  lemma {:induction false} FirstDirectoryAppends(left: seq<SessionBuildDirectory>, right: seq<SessionBuildDirectory>,
                                                 session: Incarnation)
    ensures FirstDirectory(left + right, session)
         == if FirstDirectory(left, session).Some? then FirstDirectory(left, session)
            else FirstDirectory(right, session)
  {
    if left == [] {
      assert left + right == right;
    } else {
      assert (left + right)[1..] == left[1..] + right;
      FirstDirectoryAppends(left[1..], right, session);
    }
  }

  lemma NobodyWrites(input: CycleInput, roots: seq<CargoRoot>, complete: bool, compilers: seq<Compiler>,
                     session: Incarnation, compiler: Compiler, name: string)
    requires FirstDirectory(Attached(input, roots, complete, compilers).buildDirectories, session).None?
    requires compiler in compilers
    ensures !WritesUnder(input, roots, complete, compiler, SessionBuildDirectory(session, name))
  {
    var directories := Attached(input, roots, complete, compilers).buildDirectories;
    FirstDirectoryIsNamed(directories, session);
    BuildDirectoriesAre(input, roots, complete, compilers, SessionBuildDirectory(session, name));
    assert SessionBuildDirectory(session, name) in directories ==> name in NamesOf(directories, session);
  }

  lemma FirstWriterExtends(input: CycleInput, roots: seq<CargoRoot>, complete: bool, compilers: seq<Compiler>,
                           last: Compiler, k: nat, session: Incarnation, name: string)
    requires IsFirstWriter(input, roots, complete, compilers, k, session, name)
    ensures IsFirstWriter(input, roots, complete, compilers + [last], k, session, name)
  {
    assert forall j :: 0 <= j < |compilers| ==> (compilers + [last])[j] == compilers[j];
  }

  lemma LastIsFirstWriter(input: CycleInput, roots: seq<CargoRoot>, complete: bool, compilers: seq<Compiler>,
                          last: Compiler, session: Incarnation)
    requires FirstDirectory(Attached(input, roots, complete, compilers).buildDirectories, session).None?
    requires FirstDirectory(AddedDirectories(input, roots, complete, last), session).Some?
    ensures IsFirstWriter(input, roots, complete, compilers + [last], |compilers|, session,
                          FirstDirectory(AddedDirectories(input, roots, complete, last), session).value)
  {
    var name := FirstDirectory(AddedDirectories(input, roots, complete, last), session).value;
    assert AddedDirectories(input, roots, complete, last) == [SessionBuildDirectory(session, name)];
    AddedDirectoriesAre(input, roots, complete, last, SessionBuildDirectory(session, name));
    forall j, other | 0 <= j < |compilers|
      ensures !WritesUnder(input, roots, complete, (compilers + [last])[j], SessionBuildDirectory(session, other))
    {
      NobodyWrites(input, roots, complete, compilers, session, compilers[j], other);
    }
  }

  lemma {:induction false} FirstWriter(input: CycleInput, roots: seq<CargoRoot>, complete: bool,
                                       compilers: seq<Compiler>, session: Incarnation)
    returns (k: nat)
    requires FirstDirectory(Attached(input, roots, complete, compilers).buildDirectories, session).Some?
    ensures IsFirstWriter(input, roots, complete, compilers, k, session,
                          FirstDirectory(Attached(input, roots, complete, compilers).buildDirectories, session).value)
  {
    var fewer, last := compilers[..|compilers| - 1], compilers[|compilers| - 1];
    var before := Attached(input, roots, complete, fewer);
    WithCompilerAppends(input, roots, complete, before, last);
    FirstDirectoryAppends(before.buildDirectories, AddedDirectories(input, roots, complete, last), session);
    assert compilers == fewer + [last];
    var noted := FirstDirectory(before.buildDirectories, session);
    if noted.Some? {
      k := FirstWriter(input, roots, complete, fewer, session);
      FirstWriterExtends(input, roots, complete, fewer, last, k, session, noted.value);
    } else {
      k := |fewer|;
      LastIsFirstWriter(input, roots, complete, fewer, last, session);
    }
  }

  /** The first name noted for a session is the one its first writing compiler wrote under,
      in compiler order. */
  lemma FirstDirectoryMeans(input: CycleInput, roots: seq<CargoRoot>, complete: bool, compilers: seq<Compiler>,
                            session: Incarnation, name: string)
    ensures FirstDirectory(Attached(input, roots, complete, compilers).buildDirectories, session) == Some(name) <==>
              exists k: nat :: IsFirstWriter(input, roots, complete, compilers, k, session, name)
  {
    var noted := FirstDirectory(Attached(input, roots, complete, compilers).buildDirectories, session);
    if noted.Some? {
      var k := FirstWriter(input, roots, complete, compilers, session);
    }
    if k: nat :| IsFirstWriter(input, roots, complete, compilers, k, session, name) {
      if noted.None? {
        NobodyWrites(input, roots, complete, compilers, session, compilers[k], name);
      } else {
        var other := FirstWriter(input, roots, complete, compilers, session);
        assert other == k;
      }
    }
  }

  /** What the compilers of a cycle write under, as the cycle attributes them. */
  ghost predicate Writes(input: CycleInput, compiler: Compiler, session: Incarnation, name: string) {
    WritesUnder(input, RootsOf(input), IsComplete(input.processes, input.candidates), compiler,
                SessionBuildDirectory(session, name))
  }

  ghost predicate SomeoneWrites(input: CycleInput, session: Incarnation, name: string) {
    exists compiler <- CompilersOf(input) :: Writes(input, compiler, session, name)
  }

  /** The name the first compiler to write for the session writes under. */
  ghost predicate WritesFirst(input: CycleInput, session: Incarnation, name: string) {
    exists k: nat ::
      IsFirstWriter(input, RootsOf(input), IsComplete(input.processes, input.candidates), CompilersOf(input), k,
                    session, name)
  }

  /** The greatest of the names the session's compilers write under. */
  ghost predicate WritesGreatest(input: CycleInput, session: Incarnation, name: string) {
    && SomeoneWrites(input, session, name)
    && forall other :: SomeoneWrites(input, session, other) ==> NameNotAfter(other, name)
  }

  ghost predicate IsQuiet(input: CycleInput, session: Incarnation) {
    forall name :: !SomeoneWrites(input, session, name)
  }

  lemma NamesAreWritten(input: CycleInput, session: Incarnation, name: string)
    ensures name in NamesOf(ClassificationOf(input).buildDirectories, session) <==> SomeoneWrites(input, session, name)
    ensures FirstDirectory(AttachedOf(input).buildDirectories, session) == Some(name)
       <==> WritesFirst(input, session, name)
  {
    var roots, complete := RootsOf(input), IsComplete(input.processes, input.candidates);
    var directory := SessionBuildDirectory(session, name);
    SortPermutes(AttachedOf(input).buildDirectories, DirectoryNotAfter);
    BuildDirectoriesAre(input, roots, complete, CompilersOf(input), directory);
    FirstDirectoryMeans(input, roots, complete, CompilersOf(input), session, name);
    assert directory in ClassificationOf(input).buildDirectories <==> SomeoneWrites(input, session, name);
    assert directory in ClassificationOf(input).buildDirectories
       ==> name in NamesOf(ClassificationOf(input).buildDirectories, session);
  }

  /** Quiet cycles note no name for the session, and a greatest name written is the greatest noted. */
  lemma NotedNames(input: CycleInput, session: Incarnation)
    ensures IsQuiet(input, session) <==> NamesOf(ClassificationOf(input).buildDirectories, session) == {}
    ensures forall name :: WritesGreatest(input, session, name)
                      <==> IsGreatestName(NamesOf(ClassificationOf(input).buildDirectories, session), name)
  {
    forall name
      ensures name in NamesOf(ClassificationOf(input).buildDirectories, session)
         <==> SomeoneWrites(input, session, name)
    {
      NamesAreWritten(input, session, name);
    }
  }

  // ---------------------------------------------------------------------------
  // One cycle of the ledger
  // ---------------------------------------------------------------------------

  ghost predicate UsedBy(ledger: map<Incarnation, BuildDirectoryEntry>, cycle: nat) {
    forall session <- ledger :: ledger[session].lastUsed <= cycle
  }

  /** A session that a compiler of this cycle wrote for is shown in this cycle. */
  lemma DirectoriesAreShown(input: CycleInput, directory: SessionBuildDirectory)
    requires directory in ClassificationOf(input).buildDirectories
    ensures IsShown(ClassificationOf(input).sessions, directory.session)
  {
    var roots, complete := RootsOf(input), IsComplete(input.processes, input.candidates);
    SortPermutes(AttachedOf(input).buildDirectories, DirectoryNotAfter);
    BuildDirectoriesAre(input, roots, complete, CompilersOf(input), directory);
    PromotedAre(input, roots, complete, CompilersOf(input), directory.session);
    var root := FindRoot(roots, directory.session).value;
    var session := SessionOf(input, AttachedOf(input).buildDirectories, root);
    SessionsAre(input, session);
    assert session in ClassificationOf(input).sessions && session.id == directory.session;
  }

  lemma {:induction false} RecordedUsedBy(entries: map<Incarnation, BuildDirectoryEntry>,
                                          directories: seq<SessionBuildDirectory>, cycle: nat, session: Incarnation)
    ensures var recorded := DirectoriesRecorded(entries, directories, cycle);
            session in recorded ==>
              || (&& recorded[session].lastUsed == cycle
                  && exists directory <- directories :: directory.session == session)
              || (session in entries && recorded[session] == entries[session])
  {
    if directories != [] {
      RecordedUsedBy(entries, directories[..|directories| - 1], cycle, session);
      assert directories == directories[..|directories| - 1] + [directories[|directories| - 1]];
    }
  }

  /** What a cycle makes of a shown session's entry: the greatest name its compilers wrote
      under, or the name it had. */
  ghost predicate KeepsDirectory(before: map<Incarnation, BuildDirectoryEntry>, classification: Classification,
                                 after: map<Incarnation, BuildDirectoryEntry>, session: Incarnation)
  {
    var names := NamesOf(classification.buildDirectories, session);
    if names == {} then session in before ==> session in after && after[session].name == before[session].name
    else session in after && IsGreatestName(names, after[session].name)
  }

  lemma ShownIds(sessions: seq<BuildSession>, ids: set<Incarnation>)
    requires forall id <- ids :: IsShown(sessions, id)
    ensures |ids| <= |sessions|
  {
    var shown := Members(Map(SessionId, sessions));
    forall id | id in ids ensures id in shown {
      var session :| session in sessions && session.id == id;
      var k :| 0 <= k < |sessions| && sessions[k] == session;
      assert Map(SessionId, sessions)[k] == id;
    }
    SubsetSize(ids, shown);
    MembersSize(Map(SessionId, sessions));
  }

  lemma {:induction false} MembersSize<T>(items: seq<T>)
    ensures |Members(items)| <= |items|
  {
    if items != [] {
      MembersSize(items[1..]);
      assert items == [items[0]] + items[1..];
      assert Members(items) == {items[0]} + Members(items[1..]);
    }
  }

  /** With no more sessions than the ledger holds, a shown session's entry is not evicted. */
  lemma ShownEntrySurvives(recorded: map<Incarnation, BuildDirectoryEntry>, sessions: seq<BuildSession>, cycle: nat,
                           after: map<Incarnation, BuildDirectoryEntry>, session: Incarnation)
    requires DirectoriesRetained(recorded, sessions, cycle, after)
    requires |sessions| <= MAX_BUILD_DIRECTORY_ENTRIES
    requires forall id <- recorded ::
               recorded[id].lastUsed < cycle || (recorded[id].lastUsed == cycle && IsShown(sessions, id))
    requires session in recorded && IsShown(sessions, session)
    ensures session in after && after[session].name == recorded[session].name
  {
    var touched := Touched(recorded, sessions, cycle);
    TouchedAre(recorded, sessions, cycle);
    var ages := DirectoryAges(touched);
    var newest := set id <- touched | IsShown(sessions, id);
    ShownIds(sessions, newest);
    assert ages[session] == cycle;
    assert forall id <- ages :: ages[id] <= cycle && (id in newest <==> ages[id] == cycle);
    NewestSurvive(ages, MAX_BUILD_DIRECTORY_ENTRIES, OlderOrSmaller, after.Keys, newest, session);
  }

  lemma StepKeepsDirectory(before: map<Incarnation, BuildDirectoryEntry>, cycle: nat, classification: Classification,
                           after: map<Incarnation, BuildDirectoryEntry>, session: Incarnation)
    requires DirectoriesStep(before, classification, after)
    requires UsedBy(before, cycle) && cycle < classification.cycle
    requires IsSorted(classification.buildDirectories, DirectoryNotAfter)
    requires forall directory <- classification.buildDirectories :: IsShown(classification.sessions, directory.session)
    requires |classification.sessions| <= MAX_BUILD_DIRECTORY_ENTRIES && IsShown(classification.sessions, session)
    ensures KeepsDirectory(before, classification, after, session)
  {
    var recorded := DirectoriesRecorded(before, classification.buildDirectories, classification.cycle);
    RecordedNames(before, classification.buildDirectories, classification.cycle, session);
    forall id | id in recorded
      ensures recorded[id].lastUsed < classification.cycle
           || (recorded[id].lastUsed == classification.cycle && IsShown(classification.sessions, id))
    {
      RecordedUsedBy(before, classification.buildDirectories, classification.cycle, id);
    }
    if session in recorded {
      ShownEntrySurvives(recorded, classification.sessions, classification.cycle, after, session);
    }
  }

  lemma StepUsedBy(before: map<Incarnation, BuildDirectoryEntry>, cycle: nat, classification: Classification,
                   after: map<Incarnation, BuildDirectoryEntry>)
    requires DirectoriesStep(before, classification, after) && UsedBy(before, cycle) && cycle <= classification.cycle
    ensures UsedBy(after, classification.cycle)
  {
    var recorded := DirectoriesRecorded(before, classification.buildDirectories, classification.cycle);
    TouchedAre(recorded, classification.sessions, classification.cycle);
    forall id | id in after ensures after[id].lastUsed <= classification.cycle {
      RecordedUsedBy(before, classification.buildDirectories, classification.cycle, id);
    }
  }

  lemma CycleUsedBy(states: seq<ClassifierState>, cycles: seq<Cycle>, i: nat)
    requires IsRun(states, cycles) && i < |cycles|
    requires states[i].cycle <= U64_MAX && UsedBy(states[i].tables.buildDirectories, states[i].cycle)
    ensures states[i + 1].cycle <= U64_MAX && UsedBy(states[i + 1].tables.buildDirectories, states[i + 1].cycle)
  {
    assert RunsCycle(states, cycles, i);
    StepUsedBy(states[i].tables.buildDirectories, states[i].cycle, cycles[i].classification,
               states[i + 1].tables.buildDirectories);
  }

  lemma {:induction false} RunUsedBy(states: seq<ClassifierState>, cycles: seq<Cycle>, i: nat)
    requires IsRun(states, cycles) && i < |states|
    ensures states[i].cycle <= U64_MAX && UsedBy(states[i].tables.buildDirectories, states[i].cycle)
  {
    if i > 0 {
      RunUsedBy(states, cycles, i - 1);
      CycleUsedBy(states, cycles, i - 1);
    }
  }

  lemma ClassifiedDirectories(input: CycleInput, classification: Classification)
    requires classification == ClassificationOf(input)
    ensures IsSorted(classification.buildDirectories, DirectoryNotAfter)
    ensures forall directory <- classification.buildDirectories :: IsShown(classification.sessions, directory.session)
    ensures forall session ::
              NamesOf(classification.buildDirectories, session) == NamesOf(AttachedOf(input).buildDirectories, session)
  {
    DirectoryOrderIsTotal();
    SortSorts(AttachedOf(input).buildDirectories, DirectoryNotAfter);
    SortPermutes(AttachedOf(input).buildDirectories, DirectoryNotAfter);
    forall directory | directory in classification.buildDirectories
      ensures IsShown(classification.sessions, directory.session)
    {
      DirectoriesAreShown(input, directory);
    }
  }

  /** A table that stays within its cap loses no entry, of a shown session or not. */
  lemma StepWithinCap(before: map<Incarnation, BuildDirectoryEntry>, classification: Classification,
                      after: map<Incarnation, BuildDirectoryEntry>, session: Incarnation)
    requires DirectoriesStep(before, classification, after)
    requires IsSorted(classification.buildDirectories, DirectoryNotAfter)
    requires FitsCap(before, classification)
    ensures KeepsDirectory(before, classification, after, session)
  {
    var recorded := DirectoriesRecorded(before, classification.buildDirectories, classification.cycle);
    RecordedNames(before, classification.buildDirectories, classification.cycle, session);
    TouchedAre(recorded, classification.sessions, classification.cycle);
    var ages := DirectoryAges(Touched(recorded, classification.sessions, classification.cycle));
    assert ages.Keys == recorded.Keys && |ages.Keys| == |ages| && |recorded.Keys| == |recorded|;
    UntrimmedWithinCap(ages, MAX_BUILD_DIRECTORY_ENTRIES, OlderOrSmaller, after.Keys);
  }

  /** With this cycle's names recorded the table is no larger than its cap. */
  ghost predicate FitsCap(before: map<Incarnation, BuildDirectoryEntry>, classification: Classification) {
    |DirectoriesRecorded(before, classification.buildDirectories, classification.cycle)| <= 1_024
  }

  /** No eviction can reach the session's entry: the table stays within its cap, or the session
      is shown beside no more sessions than that, before the cycle counter saturates. */
  ghost predicate IsSafe(state: ClassifierState, classification: Classification, session: Incarnation) {
    || FitsCap(state.tables.buildDirectories, classification)
    || (&& state.cycle < U64_MAX
        && |classification.sessions| <= 1_024 && IsShown(classification.sessions, session))
  }

  lemma CycleKeepsDirectory(states: seq<ClassifierState>, cycles: seq<Cycle>, i: nat, session: Incarnation)
    requires IsRun(states, cycles) && i < |cycles| && IsSafe(states[i], cycles[i].classification, session)
    ensures KeepsDirectory(states[i].tables.buildDirectories, cycles[i].classification,
                           states[i + 1].tables.buildDirectories, session)
  {
    RunUsedBy(states, cycles, i);
    CycleOfRun(states, cycles, i);
    ClassifiedDirectories(CycleInputOf(states[i], cycles[i].observation), cycles[i].classification);
    assert RunsCycle(states, cycles, i);
    if FitsCap(states[i].tables.buildDirectories, cycles[i].classification) {
      StepWithinCap(states[i].tables.buildDirectories, cycles[i].classification, states[i + 1].tables.buildDirectories,
                    session);
    } else {
      StepKeepsDirectory(states[i].tables.buildDirectories, states[i].cycle, cycles[i].classification,
                         states[i + 1].tables.buildDirectories, session);
    }
  }

  // ---------------------------------------------------------------------------
  // What one cycle shows
  // ---------------------------------------------------------------------------

  /** The root a shown session stands for, as collected from its candidate. */
  ghost predicate IsSessionOf(input: CycleInput, session: BuildSession, root: CargoRoot) {
    && CargoCandidate(root) in input.candidates
    && session == SessionOf(input, AttachedOf(input).buildDirectories, UnderClassification(input, root))
  }

  lemma SessionHasRoot(input: CycleInput, session: BuildSession) returns (root: CargoRoot)
    requires session in ClassificationOf(input).sessions
    ensures IsSessionOf(input, session, root)
  {
    SessionsAre(input, session);
    var classified :| classified in RootsOf(input)
      && session == SessionOf(input, AttachedOf(input).buildDirectories, classified);
    var collected := CollectedRoots(input, input.candidates);
    OuterRootsAre(input.processes, collected, collected, classified);
    RootsAre(input, input.candidates, classified);
    var candidate :| candidate in input.candidates && candidate.CargoCandidate?
      && IsReadable(input.processes, candidate.root.incarnation)
      && classified == UnderClassification(input, candidate.root);
    root := candidate.root;
  }

  /** A profile argv named is always what the session shows. */
  lemma ArgumentProfileWins(input: CycleInput, session: BuildSession, root: CargoRoot)
    requires Ascending(input.candidates) && session in ClassificationOf(input).sessions
    requires CargoCandidate(root) in input.candidates && root.incarnation == session.id
    requires root.profile.evidence.Argument?
    ensures session.profile == root.profile
  {
    var own := SessionHasRoot(input, session);
    var i :| 0 <= i < |input.candidates| && input.candidates[i] == CargoCandidate(root);
    var j :| 0 <= j < |input.candidates| && input.candidates[j] == CargoCandidate(own);
    assert IncarnationOf(input.candidates[i]) == IncarnationOf(input.candidates[j]);
    assert i == j;
  }

  /** The argv of the session's root names no profile. */
  predicate NamesNoProfile(candidates: seq<Candidate>, session: Incarnation) {
    forall candidate <- candidates ::
      candidate.CargoCandidate? && candidate.root.incarnation == session ==> !candidate.root.profile.evidence.Argument?
  }

  /** In a busy cycle a session without a profile argument shows the name its first writing
      compiler wrote under, in compiler order. */
  lemma BusyCycleShowsFirstName(input: CycleInput, session: BuildSession, name: string)
    requires session in ClassificationOf(input).sessions && NamesNoProfile(input.candidates, session.id)
    requires WritesFirst(input, session.id, name)
    ensures session.profile == BuildProfile(LabelOfBuildDirectory(name), OutputDirectory)
  {
    var root := SessionHasRoot(input, session);
    NamesAreWritten(input, session.id, name);
  }

  /** In a quiet one it shows the name the ledger holds for it. */
  lemma QuietCycleShowsLedgerName(input: CycleInput, session: BuildSession)
    requires session in ClassificationOf(input).sessions && NamesNoProfile(input.candidates, session.id)
    requires IsQuiet(input, session.id) && session.id in input.tables.buildDirectories
    ensures session.profile
         == BuildProfile(LabelOfBuildDirectory(input.tables.buildDirectories[session.id].name), OutputDirectory)
  {
    var root := SessionHasRoot(input, session);
    NotedNames(input, session.id);
    ClassifiedDirectories(input, ClassificationOf(input));
    FirstDirectoryIsNamed(AttachedOf(input).buildDirectories, session.id);
  }

  /** Without a name in the ledger either, it shows what its root was found with. */
  lemma UnnamedSessionShowsDefault(input: CycleInput, session: BuildSession) returns (root: CargoRoot)
    requires session in ClassificationOf(input).sessions
    requires IsQuiet(input, session.id) && session.id !in input.tables.buildDirectories
    ensures CargoCandidate(root) in input.candidates && root.incarnation == session.id
    ensures session.profile == root.profile
  {
    root := SessionHasRoot(input, session);
    NotedNames(input, session.id);
    ClassifiedDirectories(input, ClassificationOf(input));
    FirstDirectoryIsNamed(AttachedOf(input).buildDirectories, session.id);
  }

  // ---------------------------------------------------------------------------
  // Labels over runs
  // ---------------------------------------------------------------------------

  function InputAt(states: seq<ClassifierState>, cycles: seq<Cycle>, i: nat): CycleInput
    requires i < |states| && i < |cycles|
  {
    CycleInputOf(states[i], cycles[i].observation)
  }

  /** From one cycle up to, but not in, another nothing evicts the session's entry. */
  ghost predicate SafeThroughout(states: seq<ClassifierState>, cycles: seq<Cycle>, first: nat, last: nat,
                                 session: Incarnation)
  {
    && first <= last <= |cycles| && |states| == |cycles| + 1
    && forall k :: first <= k < last ==> IsSafe(states[k], cycles[k].classification, session)
  }

  /** No compiler of the session wrote in the cycles between two. */
  ghost predicate QuietAfter(states: seq<ClassifierState>, cycles: seq<Cycle>, first: nat, last: nat,
                             session: Incarnation)
  {
    && first < last <= |cycles| && |states| == |cycles| + 1
    && forall k :: first < k < last ==> IsQuiet(InputAt(states, cycles, k), session)
  }

  predicate HoldsName(state: ClassifierState, session: Incarnation, name: string) {
    session in state.tables.buildDirectories && state.tables.buildDirectories[session].name == name
  }

  /** A safe session's entry keeps its name through a quiet cycle, and takes the greatest name
      of a busy one. */
  lemma CycleKeepsName(states: seq<ClassifierState>, cycles: seq<Cycle>, i: nat, session: Incarnation, name: string)
    requires IsRun(states, cycles) && i < |cycles|
    ensures IsSafe(states[i], cycles[i].classification, session)
            && WritesGreatest(InputAt(states, cycles, i), session, name)
      ==> HoldsName(states[i + 1], session, name)
    ensures IsSafe(states[i], cycles[i].classification, session) && IsQuiet(InputAt(states, cycles, i), session)
            && HoldsName(states[i], session, name)
      ==> HoldsName(states[i + 1], session, name)
  {
    if IsSafe(states[i], cycles[i].classification, session) {
      CycleKeepsDirectory(states, cycles, i, session);
      CycleOfRun(states, cycles, i);
      NotedNames(InputAt(states, cycles, i), session);
      if WritesGreatest(InputAt(states, cycles, i), session, name) {
        GreatestIsUnique(NamesOf(cycles[i].classification.buildDirectories, session), name,
                         states[i + 1].tables.buildDirectories[session].name);
      }
    }
  }

  /** The first cycle of a stretch is busy, the others are quiet, and all are safe. */
  ghost predicate IsStretch(states: seq<ClassifierState>, cycles: seq<Cycle>, first: nat, last: nat,
                            session: Incarnation, name: string)
  {
    && SafeThroughout(states, cycles, first, last, session) && QuietAfter(states, cycles, first, last, session)
    && WritesGreatest(InputAt(states, cycles, first), session, name)
  }

  /** The name is held after a cycle of a stretch if it is held before it, and after the first
      in any case. */
  predicate PassesName(states: seq<ClassifierState>, first: nat, i: nat, session: Incarnation, name: string)
    requires i + 1 < |states|
  {
    i == first || HoldsName(states[i], session, name) ==> HoldsName(states[i + 1], session, name)
  }

  lemma StretchPassesName(states: seq<ClassifierState>, cycles: seq<Cycle>, first: nat, last: nat, i: nat,
                          session: Incarnation, name: string)
    requires IsRun(states, cycles) && first <= i < last <= |cycles|
    ensures IsStretch(states, cycles, first, last, session, name) ==> PassesName(states, first, i, session, name)
  {
    if IsStretch(states, cycles, first, last, session, name) {
      assert IsSafe(states[i], cycles[i].classification, session);
      assert i > first ==> IsQuiet(InputAt(states, cycles, i), session);
      CycleKeepsName(states, cycles, i, session, name);
    }
  }

  lemma {:induction false} NameIsHeld(states: seq<ClassifierState>, first: nat, last: nat, session: Incarnation,
                                      name: string)
    requires first < last < |states|
    requires forall i: nat :: first <= i < last ==> PassesName(states, first, i, session, name)
    ensures HoldsName(states[last], session, name)
    decreases last
  {
    assert PassesName(states, first, last - 1, session, name);
    if first < last - 1 {
      NameIsHeld(states, first, last - 1, session, name);
    }
  }

  /** After a busy cycle the ledger holds its greatest name for as long as nothing evicts it
      and the session is quiet, whether it is shown or not. */
  lemma LedgerKeepsGreatestName(states: seq<ClassifierState>, cycles: seq<Cycle>, first: nat, last: nat,
                                session: Incarnation, name: string)
    requires IsRun(states, cycles) && first < last <= |cycles|
    ensures IsStretch(states, cycles, first, last, session, name) ==> HoldsName(states[last], session, name)
  {
    forall i: nat | first <= i < last
      ensures IsStretch(states, cycles, first, last, session, name) ==> PassesName(states, first, i, session, name)
    {
      StretchPassesName(states, cycles, first, last, i, session, name);
    }
    if IsStretch(states, cycles, first, last, session, name) {
      NameIsHeld(states, first, last, session, name);
    }
  }

  /** In the quiet cycles after a busy one, a session without a profile argument shows the
      greatest name of that newest busy cycle, even if it was not shown in between. */
  lemma QuietCyclesShowNewestBusyCycle(states: seq<ClassifierState>, cycles: seq<Cycle>, first: nat, last: nat,
                                       quiet: BuildSession, name: string)
    requires IsRun(states, cycles) && first < last < |cycles| && quiet in cycles[last].classification.sessions
    requires SafeThroughout(states, cycles, first, last, quiet.id)
    requires QuietAfter(states, cycles, first, last + 1, quiet.id)
    requires NamesNoProfile(cycles[last].observation.candidates, quiet.id)
    requires WritesGreatest(InputAt(states, cycles, first), quiet.id, name)
    ensures quiet.profile == BuildProfile(LabelOfBuildDirectory(name), OutputDirectory)
  {
    LedgerKeepsGreatestName(states, cycles, first, last, quiet.id, name);
    CycleOfRun(states, cycles, last);
    QuietCycleShowsLedgerName(InputAt(states, cycles, last), quiet);
  }

  lemma SomeoneWritesFirst(input: CycleInput, session: Incarnation, name: string) returns (first: string)
    requires SomeoneWrites(input, session, name)
    ensures WritesFirst(input, session, first) && SomeoneWrites(input, session, first)
  {
    NamesAreWritten(input, session, name);
    NotedNames(input, session);
    ClassifiedDirectories(input, ClassificationOf(input));
    FirstDirectoryIsNamed(AttachedOf(input).buildDirectories, session);
    first := FirstDirectory(AttachedOf(input).buildDirectories, session).value;
    NamesAreWritten(input, session, first);
  }

  /** The label of the busy cycle carries over to the quiet ones exactly when the first
      compiler to write wrote under the greatest name; one name always is both. */
  lemma LabelCarriesOverIff(states: seq<ClassifierState>, cycles: seq<Cycle>, first: nat, last: nat,
                            busy: BuildSession, quiet: BuildSession, name: string)
    requires IsRun(states, cycles) && first < last < |cycles| && busy.id == quiet.id
    requires busy in cycles[first].classification.sessions && quiet in cycles[last].classification.sessions
    requires SafeThroughout(states, cycles, first, last, quiet.id)
    requires QuietAfter(states, cycles, first, last + 1, quiet.id)
    requires NamesNoProfile(cycles[first].observation.candidates, busy.id)
    requires NamesNoProfile(cycles[last].observation.candidates, quiet.id)
    requires WritesGreatest(InputAt(states, cycles, first), quiet.id, name)
    ensures busy.profile == quiet.profile <==> WritesFirst(InputAt(states, cycles, first), busy.id, name)
    ensures (forall other :: SomeoneWrites(InputAt(states, cycles, first), busy.id, other) ==> other == name)
              ==> busy.profile == quiet.profile
  {
    QuietCyclesShowNewestBusyCycle(states, cycles, first, last, quiet, name);
    CycleOfRun(states, cycles, first);
    var shown := SomeoneWritesFirst(InputAt(states, cycles, first), busy.id, name);
    BusyCycleShowsFirstName(InputAt(states, cycles, first), busy, shown);
    NamesAreWritten(InputAt(states, cycles, first), busy.id, name);
    NamesAreWritten(InputAt(states, cycles, first), busy.id, shown);
  }

  // ---------------------------------------------------------------------------
  // Manifests
  // ---------------------------------------------------------------------------

  ghost predicate ManifestsUsedBy(ledger: map<Path, ManifestEntry>, cycle: nat) {
    forall root <- ledger :: ledger[root].lastUsed <= cycle
  }

  lemma StepManifestsUsedBy(before: map<Path, ManifestEntry>, cycle: nat, classification: Classification, disk: Disk,
                            after: map<Path, ManifestEntry>)
    requires ManifestsStep(before, classification, disk, after)
    requires ManifestsUsedBy(before, cycle) && cycle <= classification.cycle
    ensures ManifestsUsedBy(after, classification.cycle)
  {
  }

  lemma {:induction false} RunManifestsUsedBy(states: seq<ClassifierState>, cycles: seq<Cycle>, i: nat)
    requires IsRun(states, cycles) && i < |states|
    ensures ManifestsUsedBy(states[i].tables.manifests, states[i].cycle)
  {
    if i > 0 {
      RunManifestsUsedBy(states, cycles, i - 1);
      assert RunsCycle(states, cycles, i - 1);
      RunUsedBy(states, cycles, i - 1);
      StepManifestsUsedBy(states[i - 1].tables.manifests, states[i - 1].cycle, cycles[i - 1].classification,
                          cycles[i - 1].observation.disk, states[i].tables.manifests);
    }
  }

  /** A source root in use stays in the table unless its manifest was found changed. */
  lemma StepKeepsManifest(before: map<Path, ManifestEntry>, cycle: nat, classification: Classification, disk: Disk,
                          after: map<Path, ManifestEntry>, root: Path)
    requires ManifestsStep(before, classification, disk, after)
    requires ManifestsUsedBy(before, cycle) && cycle < classification.cycle
    requires forall other :: other in classification.manifestRequests <==>
               other in classification.sourceRootsInUse && other !in before
    requires |Members(classification.sourceRootsInUse)| <= MAX_DEPENDENCY_MANIFEST_ENTRIES
    requires root in classification.sourceRootsInUse
    ensures root in after <==> root !in before || IsFresh(disk, before[root])
  {
    var revalidated, recorded :|
      && ManifestsRevalidated(before, classification.sourceRootsInUse, disk, classification.cycle, revalidated)
      && ManifestsRecorded(revalidated, classification.manifestRequests, disk, classification.cycle, recorded)
      && ManifestsTrimmed(recorded, after);
    if root !in before || IsFresh(disk, before[root]) {
      assert root in recorded;
      RecordedManifestSurvives(before, cycle, classification, disk, revalidated, recorded, after, root);
    }
  }

  /** A recorded entry is as old as its last use: this cycle exactly for roots in use. */
  lemma RecordedAge(before: map<Path, ManifestEntry>, cycle: nat, classification: Classification, disk: Disk,
                    revalidated: map<Path, ManifestEntry>, recorded: map<Path, ManifestEntry>, root: Path)
    requires ManifestsRevalidated(before, classification.sourceRootsInUse, disk, classification.cycle, revalidated)
    requires ManifestsRecorded(revalidated, classification.manifestRequests, disk, classification.cycle, recorded)
    requires ManifestsUsedBy(before, cycle) && cycle < classification.cycle
    requires forall other :: other in classification.manifestRequests ==> other in classification.sourceRootsInUse
    requires root in recorded
    ensures recorded[root].lastUsed <= classification.cycle
    ensures recorded[root].lastUsed == classification.cycle <==> root in classification.sourceRootsInUse
  {
  }

  lemma RecordedManifestSurvives(before: map<Path, ManifestEntry>, cycle: nat, classification: Classification,
                                 disk: Disk, revalidated: map<Path, ManifestEntry>, recorded: map<Path, ManifestEntry>,
                                 after: map<Path, ManifestEntry>, root: Path)
    requires ManifestsRevalidated(before, classification.sourceRootsInUse, disk, classification.cycle, revalidated)
    requires ManifestsRecorded(revalidated, classification.manifestRequests, disk, classification.cycle, recorded)
    requires ManifestsTrimmed(recorded, after)
    requires ManifestsUsedBy(before, cycle) && cycle < classification.cycle
    requires forall other :: other in classification.manifestRequests ==> other in classification.sourceRootsInUse
    requires |Members(classification.sourceRootsInUse)| <= MAX_DEPENDENCY_MANIFEST_ENTRIES
    requires root in recorded && root in classification.sourceRootsInUse
    ensures root in after
  {
    var ages := ManifestAges(recorded);
    var newest := set other <- recorded | other in classification.sourceRootsInUse;
    SubsetSize(newest, Members(classification.sourceRootsInUse));
    forall other | other in recorded
      ensures ages[other] <= classification.cycle && (other in newest <==> ages[other] == classification.cycle)
    {
      RecordedAge(before, cycle, classification, disk, revalidated, recorded, other);
    }
    assert ages[root] == classification.cycle;
    NewestSurvive(ages, MAX_DEPENDENCY_MANIFEST_ENTRIES, OlderOrEqual, after.Keys, newest, root);
  }

  /** A dependency source root in use in two successive cycles is asked for again in the
      second exactly when the first found the manifest it knew changed. */
  lemma ManifestRequestedAgainIff(states: seq<ClassifierState>, cycles: seq<Cycle>, i: nat, root: Path)
    requires IsRun(states, cycles) && i + 1 < |cycles| && states[i].cycle < U64_MAX
    requires |Members(cycles[i].classification.sourceRootsInUse)| <= 4_096
    requires root in cycles[i].classification.sourceRootsInUse && root in cycles[i + 1].classification.sourceRootsInUse
    ensures root in cycles[i + 1].classification.manifestRequests <==>
              && root in states[i].tables.manifests
              && !IsFresh(cycles[i].observation.disk, states[i].tables.manifests[root])
  {
    RunManifestsUsedBy(states, cycles, i);
    CycleOfRun(states, cycles, i);
    CycleOfRun(states, cycles, i + 1);
    ClassifiedRequests(CycleInputOf(states[i], cycles[i].observation), cycles[i].classification);
    ClassifiedRequests(CycleInputOf(states[i + 1], cycles[i + 1].observation), cycles[i + 1].classification);
    assert RunsCycle(states, cycles, i);
    StepKeepsManifest(states[i].tables.manifests, states[i].cycle, cycles[i].classification, cycles[i].observation.disk,
                      states[i + 1].tables.manifests, root);
  }

  lemma ClassifiedRequests(input: CycleInput, classification: Classification)
    requires classification == ClassificationOf(input)
    ensures classification.cycle == input.cycle
    ensures forall root :: root in classification.manifestRequests <==>
              root in classification.sourceRootsInUse && root !in input.tables.manifests
  {
    forall root
      ensures root in classification.manifestRequests <==>
                root in classification.sourceRootsInUse && root !in input.tables.manifests
    {
      ManifestRequestsAre(input, RootsOf(input), IsComplete(input.processes, input.candidates), CompilersOf(input),
                          root);
    }
  }
}
