/** What a cycle's results say about the records, paths and parents it read, without the
    intermediate steps of the classification. */
module ClassifyResults {
  import opened Common
  import opened Processes
  import opened Attribution
  import opened Ordering
  import opened Classify
  import opened ClassifyFacts

  // ---------------------------------------------------------------------------
  // What could be read
  // ---------------------------------------------------------------------------

  /** The record the snapshot holds of this very incarnation. */
  function RecordOf(processes: ProcessTable, incarnation: Incarnation): Option<ProcessRecord> {
    if incarnation.identity !in processes then None
    else if processes[incarnation.identity].fingerprint != Some(incarnation.fingerprint) then None
    else Some(processes[incarnation.identity])
  }

  /** The candidate is still there, with an argv and an executable that could be read. */
  predicate IsRecognized(processes: ProcessTable, incarnation: Incarnation) {
    match RecordOf(processes, incarnation)
    case None => false
    case Some(record) => record.argvReadable && record.executableReadable
  }

  /** Of every candidate still there, argv, executable and working directory could be read. */
  ghost predicate SawEverything(input: CycleInput) {
    forall candidate <- input.candidates ::
      match RecordOf(input.processes, IncarnationOf(candidate))
      case None => true
      case Some(record) => record.argvReadable && record.executableReadable && record.workingDirectoryReadable
  }

  lemma RecognizedMeansReadable(processes: ProcessTable, incarnation: Incarnation)
    ensures IsRecognized(processes, incarnation) <==> IsReadable(processes, incarnation)
  {
  }

  /** A cycle is complete exactly when it saw everything. */
  lemma CompleteMeans(input: CycleInput)
    ensures IsComplete(input.processes, input.candidates) <==> SawEverything(input)
  {
    forall candidate | candidate in input.candidates
      ensures !IsBlind(input.processes, IncarnationOf(candidate)) <==>
              match RecordOf(input.processes, IncarnationOf(candidate))
              case None => true
              case Some(record) => record.argvReadable && record.executableReadable && record.workingDirectoryReadable
    {
    }
  }

  // ---------------------------------------------------------------------------
  // What relates a compiler to a root
  // ---------------------------------------------------------------------------

  /** The root is within eight validated edges above the compiler. */
  ghost predicate IsAbove(processes: ProcessTable, root: CargoRoot, compiler: Compiler) {
    exists n: nat :: 1 <= n <= 8
      && NthParent(processes, compiler.incarnation.identity, n) == Some(root.incarnation.identity)
  }

  /** The compiler writes in the root's target directory, below the triple it compiles for, in
      the directory Cargo uses for the root's profile. */
  predicate WritesInto(root: CargoRoot, compiler: Compiler) {
    && root.targetDirectory.Some? && compiler.outputDirectory.Some?
    && var triple := match compiler.triple case None => [] case Some(name) => [name];
       var directory := match root.profile.named
         case Dev => "debug"
         case Release => "release"
         case Custom(name) => name;
       root.targetDirectory.value + triple + [directory] <= compiler.outputDirectory.value
  }

  /** The compiler's primary input is in the checkout the root resolves to. */
  predicate CompilesFrom(root: CargoRoot, compiler: Compiler) {
    root.scope.Resolved? && compiler.primaryInput.Some? && root.scope.checkout <= compiler.primaryInput.value
  }

  ghost function SessionsAbove(input: CycleInput, compiler: Compiler): set<Incarnation> {
    set root <- RootsOf(input) | IsAbove(input.processes, root, compiler) :: root.incarnation
  }

  function SessionsWritten(input: CycleInput, compiler: Compiler): set<Incarnation> {
    set root <- RootsOf(input) | WritesInto(root, compiler) :: root.incarnation
  }

  function SessionsCompiled(input: CycleInput, compiler: Compiler): set<Incarnation> {
    set root <- RootsOf(input) | CompilesFrom(root, compiler) :: root.incarnation
  }

  /** One session by output directory, or failing that one by primary input. */
  predicate IsUniqueMatch(written: set<Incarnation>, compiled: set<Incarnation>, session: Incarnation) {
    written == {session} || (|written| != 1 && compiled == {session})
  }

  /** The build directory a compiler is observed writing under is the component of its output
      right below the root's target directory and the triple. */
  lemma BuildDirectoryMeans(root: CargoRoot, compiler: Compiler, name: string)
    ensures ObservedBuildDirectory(compiler, root) == Some(name) <==>
              && root.targetDirectory.Some? && compiler.outputDirectory.Some?
              && var triple := match compiler.triple case None => [] case Some(name) => [name];
                 root.targetDirectory.value + triple + [name] <= compiler.outputDirectory.value
  {
    if root.targetDirectory.Some? && compiler.outputDirectory.Some? {
      var base, output := OutputRoot(root.targetDirectory.value, compiler.triple), compiler.outputDirectory.value;
      assert root.targetDirectory.value + [] == root.targetDirectory.value;
      if base <= output && |output| > |base| {
        assert output[..|base| + 1] == base + [output[|base|]];
        assert base + [name] <= output <==> output[|base|] == name;
      }
    }
  }

  lemma AboveMeans(processes: ProcessTable, root: CargoRoot, compiler: Compiler)
    ensures Matches(AncestorsOf(processes, compiler), root) <==> IsAbove(processes, root, compiler)
  {
    AncestorsAre(processes, compiler.incarnation.identity, 8, root.incarnation.identity);
  }

  lemma OutputMeans(root: CargoRoot, compiler: Compiler)
    ensures Matches(OutputOf(compiler), root) <==> WritesInto(root, compiler)
    ensures Matches(InputOf(compiler), root) <==> CompilesFrom(root, compiler)
  {
    if root.targetDirectory.Some? {
      var target := root.targetDirectory.value;
      assert compiler.triple.None? ==> target + [] == target;
    }
  }

  lemma EvidenceMeans(input: CycleInput, compiler: Compiler)
    ensures Above(input.processes, RootsOf(input), compiler) == SessionsAbove(input, compiler)
    ensures Written(RootsOf(input), compiler) == SessionsWritten(input, compiler)
    ensures Read(RootsOf(input), compiler) == SessionsCompiled(input, compiler)
  {
    forall root | root in RootsOf(input)
      ensures Matches(AncestorsOf(input.processes, compiler), root) <==> IsAbove(input.processes, root, compiler)
      ensures Matches(OutputOf(compiler), root) <==> WritesInto(root, compiler)
      ensures Matches(InputOf(compiler), root) <==> CompilesFrom(root, compiler)
    {
      AboveMeans(input.processes, root, compiler);
      OutputMeans(root, compiler);
    }
  }

  // ---------------------------------------------------------------------------
  // Activities
  // ---------------------------------------------------------------------------

  /** The compiler is listed among the attributed ones, in this way. */
  ghost predicate IsAttributed(input: CycleInput, id: Incarnation, attribution: CompilerAttribution) {
    exists activity <- ClassificationOf(input).activities :: activity.id == id && activity.attribution == attribution
  }

  ghost predicate IsUnattributed(input: CycleInput, id: Incarnation, attribution: CompilerAttribution) {
    exists activity <- ClassificationOf(input).unattributed :: activity.id == id && activity.attribution == attribution
  }

  function AttributionOf(input: CycleInput, compiler: Compiler): CompilerAttribution {
    Attribute(input.processes, RootsOf(input), compiler, IsComplete(input.processes, input.candidates))
  }

  lemma OneCompiler(input: CycleInput, left: Compiler, right: Compiler)
    requires Ascending(input.candidates) && left in CompilersOf(input) && right in CompilersOf(input)
    requires left.incarnation == right.incarnation
    ensures left == right
  {
    CollectedCompilersAscend(input.processes, input.candidates);
    var compilers := CompilersOf(input);
    var i :| 0 <= i < |compilers| && compilers[i] == left;
    var j :| 0 <= j < |compilers| && compilers[j] == right;
    var ids := Map(CompilerId, compilers);
    assert ids[i] == ids[j];
  }

  lemma AttributedAs(input: CycleInput, compiler: Compiler, attribution: CompilerAttribution)
    requires Ascending(input.candidates) && CompilerCandidate(compiler) in input.candidates
    ensures IsAttributed(input, compiler.incarnation, attribution) <==>
              && IsRecognized(input.processes, compiler.incarnation)
              && AttributionOf(input, compiler) == attribution && AttributedSession(attribution).Some?
  {
    var roots, complete := RootsOf(input), IsComplete(input.processes, input.candidates);
    RecognizedMeansReadable(input.processes, compiler.incarnation);
    CompilersAre(input.processes, input.candidates, compiler);
    SortPermutes(AttachedOf(input).activities, ActivityNotAfter);
    if IsAttributed(input, compiler.incarnation, attribution) {
      var activity :| activity in ClassificationOf(input).activities
        && activity.id == compiler.incarnation && activity.attribution == attribution;
      ActivitiesAre(input, roots, complete, CompilersOf(input), activity);
      var other :| other in CompilersOf(input) && IsActivityOf(input, roots, complete, other, activity);
      AttributedIsRecognized(input, compiler, other);
    }
    if compiler in CompilersOf(input) && AttributedSession(AttributionOf(input, compiler)).Some? {
      var activity := ActivityOf(input, compiler, AttributionOf(input, compiler));
      ActivitiesAre(input, roots, complete, CompilersOf(input), activity);
      assert IsActivityOf(input, roots, complete, compiler, activity);
      assert activity in ClassificationOf(input).activities;
    }
  }

  /** A collected compiler of the same incarnation is the candidate itself. */
  lemma AttributedIsRecognized(input: CycleInput, compiler: Compiler, other: Compiler)
    requires Ascending(input.candidates) && CompilerCandidate(compiler) in input.candidates
    requires other in CompilersOf(input) && other.incarnation == compiler.incarnation
    ensures compiler == other && IsRecognized(input.processes, compiler.incarnation)
  {
    CompilersAre(input.processes, input.candidates, other);
    RecognizedMeansReadable(input.processes, compiler.incarnation);
    CompilersAre(input.processes, input.candidates, compiler);
    OneCompiler(input, compiler, other);
  }

  lemma UnattributedAs(input: CycleInput, compiler: Compiler, attribution: CompilerAttribution)
    requires Ascending(input.candidates) && CompilerCandidate(compiler) in input.candidates
    ensures IsUnattributed(input, compiler.incarnation, attribution) <==>
              && IsRecognized(input.processes, compiler.incarnation)
              && AttributionOf(input, compiler) == attribution && AttributedSession(attribution).None?
  {
    var roots, complete := RootsOf(input), IsComplete(input.processes, input.candidates);
    RecognizedMeansReadable(input.processes, compiler.incarnation);
    CompilersAre(input.processes, input.candidates, compiler);
    SortPermutes(AttachedOf(input).unattributed, UnattributedNotAfter);
    if IsUnattributed(input, compiler.incarnation, attribution) {
      var activity :| activity in ClassificationOf(input).unattributed
        && activity.id == compiler.incarnation && activity.attribution == attribution;
      UnattributedAre(input, roots, complete, CompilersOf(input), activity);
      var other :| other in CompilersOf(input) && IsUnattributedOf(input, roots, complete, other, activity);
      AttributedIsRecognized(input, compiler, other);
    }
    if compiler in CompilersOf(input) && AttributedSession(AttributionOf(input, compiler)).None? {
      var activity := UnattributedOf(input, compiler, AttributionOf(input, compiler));
      UnattributedAre(input, roots, complete, CompilersOf(input), activity);
      assert IsUnattributedOf(input, roots, complete, compiler, activity);
      assert activity in ClassificationOf(input).unattributed;
    }
  }

  /** A recognized compiler is confirmed for the one session above it. With none above it, it
      is matched to the one session it writes into or else compiles from, but only in a cycle
      that saw everything. */
  lemma AttributedMeans(input: CycleInput, compiler: Compiler, session: Incarnation)
    requires Ascending(input.candidates) && CompilerCandidate(compiler) in input.candidates
    ensures IsAttributed(input, compiler.incarnation, Confirmed(session)) <==>
              IsRecognized(input.processes, compiler.incarnation) && SessionsAbove(input, compiler) == {session}
    ensures IsAttributed(input, compiler.incarnation, UniqueOutputMatch(session)) <==>
              && IsRecognized(input.processes, compiler.incarnation)
              && SawEverything(input) && SessionsAbove(input, compiler) == {}
              && IsUniqueMatch(SessionsWritten(input, compiler), SessionsCompiled(input, compiler), session)
  {
    var roots, complete := RootsOf(input), IsComplete(input.processes, input.candidates);
    AttributedAs(input, compiler, Confirmed(session));
    AttributedAs(input, compiler, UniqueOutputMatch(session));
    ConfirmedMeans(input.processes, roots, compiler, complete, session);
    UniqueOutputMatchMeans(input.processes, roots, compiler, complete, session);
    EvidenceMeans(input, compiler);
    CompleteMeans(input);
  }

  /** It is listed as unattributed when nothing relates it to a session, and else as ambiguous
      unless it is attributed; in a cycle that saw everything only between several sessions. */
  lemma UnattributedMeansNothingFound(input: CycleInput, compiler: Compiler)
    requires Ascending(input.candidates) && CompilerCandidate(compiler) in input.candidates
    ensures IsUnattributed(input, compiler.incarnation, CompilerAttribution.Unattributed) <==>
              && IsRecognized(input.processes, compiler.incarnation)
              && SessionsAbove(input, compiler) == {}
              && SessionsWritten(input, compiler) == {} && SessionsCompiled(input, compiler) == {}
  {
    var roots, complete := RootsOf(input), IsComplete(input.processes, input.candidates);
    UnattributedAs(input, compiler, CompilerAttribution.Unattributed);
    UnattributedMeans(input.processes, roots, compiler, complete);
    EvidenceMeans(input, compiler);
  }

  lemma AmbiguousNamesCandidates(input: CycleInput, compiler: Compiler, candidates: seq<Incarnation>)
    requires Ascending(input.candidates) && CompilerCandidate(compiler) in input.candidates
    requires IsUnattributed(input, compiler.incarnation, Ambiguous(candidates))
    ensures var above, written := SessionsAbove(input, compiler), SessionsWritten(input, compiler);
            var compiled := SessionsCompiled(input, compiler);
            Members(candidates) == if above != {} then above
                                   else if |written| == 1 then written
                                   else if |compiled| == 1 then compiled
                                   else written + compiled
    ensures SawEverything(input) ==> |Members(candidates)| >= 2
    ensures candidates != []
  {
    var roots, complete := RootsOf(input), IsComplete(input.processes, input.candidates);
    UnattributedAs(input, compiler, Ambiguous(candidates));
    AmbiguousMeans(input.processes, roots, compiler, complete);
    EvidenceMeans(input, compiler);
    CompleteMeans(input);
  }

  /** What a crate is called: by the workspace index, by the manifest read for its source root,
      or not at all. */
  ghost predicate NamesCrate(manifests: map<Path, ManifestEntry>, evidence: CrateEvidence, crate: CrateIdentity) {
    && (forall package :: crate == WorkspacePackage(package) <==> evidence == IndexedPackage(package))
    && (forall package :: crate == DependencyPackage(package) <==>
          && evidence.DependencyRoot? && evidence.root in manifests
          && manifests[evidence.root].package == Some(package))
  }

  lemma CrateIsNamed(manifests: map<Path, ManifestEntry>, compiler: Compiler)
    ensures NamesCrate(manifests, compiler.crate, CrateOf(manifests, compiler))
  {
  }

  /** The cycle and instant an incarnation was first seen: what the ledger says, or now. */
  ghost predicate IsFirstSeen(input: CycleInput, id: Incarnation, cycle: nat, instant: Instant) {
    && (id in input.tables.firstSeen ==>
          cycle == input.tables.firstSeen[id].firstSeen && instant == input.tables.firstSeen[id].firstObservedAt)
    && (id !in input.tables.firstSeen ==> cycle == input.cycle && instant == input.instant)
  }

  /** Each activity carries its compiler's crate and first sighting. */
  lemma ActivityFields(input: CycleInput, activity: CompileActivity) returns (compiler: Compiler)
    requires activity in ClassificationOf(input).activities
    ensures CompilerCandidate(compiler) in input.candidates && compiler.incarnation == activity.id
    ensures NamesCrate(input.tables.manifests, compiler.crate, activity.crate)
    ensures exists instant :: IsFirstSeen(input, activity.id, activity.firstSeen, instant)
  {
    var roots, complete := RootsOf(input), IsComplete(input.processes, input.candidates);
    SortPermutes(AttachedOf(input).activities, ActivityNotAfter);
    ActivitiesAre(input, roots, complete, CompilersOf(input), activity);
    compiler :| compiler in CompilersOf(input) && IsActivityOf(input, roots, complete, compiler, activity);
    CompilersAre(input.processes, input.candidates, compiler);
    CrateIsNamed(input.tables.manifests, compiler);
    assert IsFirstSeen(input, activity.id, activity.firstSeen, FirstSightingOf(input, activity.id).1);
  }

  lemma UnattributedFields(input: CycleInput, activity: UnattributedActivity) returns (compiler: Compiler)
    requires activity in ClassificationOf(input).unattributed
    ensures CompilerCandidate(compiler) in input.candidates && compiler.incarnation == activity.id
    ensures NamesCrate(input.tables.manifests, compiler.crate, activity.crate)
    ensures activity.workingDirectory == compiler.workingDirectory
  {
    var roots, complete := RootsOf(input), IsComplete(input.processes, input.candidates);
    SortPermutes(AttachedOf(input).unattributed, UnattributedNotAfter);
    UnattributedAre(input, roots, complete, CompilersOf(input), activity);
    compiler :| compiler in CompilersOf(input) && IsUnattributedOf(input, roots, complete, compiler, activity);
    CompilersAre(input.processes, input.candidates, compiler);
    CrateIsNamed(input.tables.manifests, compiler);
  }

  /** Oldest first, and those first seen together by process, token and fingerprint. */
  predicate StandsBefore(leftSeen: nat, left: Incarnation, rightSeen: nat, right: Incarnation) {
    || leftSeen < rightSeen
    || (leftSeen == rightSeen
        && (|| left.identity.pid < right.identity.pid
            || (left.identity.pid == right.identity.pid
                && (|| left.identity.creationToken < right.identity.creationToken
                    || (left.identity == right.identity && left.fingerprint <= right.fingerprint)))))
  }

  lemma SeenOrderMeans(leftSeen: nat, left: Incarnation, rightSeen: nat, right: Incarnation)
    ensures SeenNotAfter(leftSeen, left, rightSeen, right) <==> StandsBefore(leftSeen, left, rightSeen, right)
    ensures !Before(right, left) <==> StandsBefore(0, left, 0, right)
  {
  }

  /** Sessions, attributed and unattributed activities are listed in that order. */
  lemma ListsAreOrdered(input: CycleInput)
    requires Ascending(input.candidates)
    ensures var sessions := ClassificationOf(input).sessions;
            forall i, j :: 0 <= i < j < |sessions| ==>
              StandsBefore(sessions[i].firstSeen, sessions[i].id, sessions[j].firstSeen, sessions[j].id)
    ensures var activities := ClassificationOf(input).activities;
            forall i, j :: 0 <= i < j < |activities| ==>
              StandsBefore(activities[i].firstSeen, activities[i].id, activities[j].firstSeen, activities[j].id)
    ensures var unattributed := ClassificationOf(input).unattributed;
            forall i, j :: 0 <= i < j < |unattributed| ==> StandsBefore(0, unattributed[i].id, 0, unattributed[j].id)
  {
    SessionsAreOrdered(input);
    SortSorts(AttachedOf(input).activities, ActivityNotAfter);
    SortSorts(AttachedOf(input).unattributed, UnattributedNotAfter);
    var sessions := ClassificationOf(input).sessions;
    forall i, j | 0 <= i < j < |sessions|
      ensures StandsBefore(sessions[i].firstSeen, sessions[i].id, sessions[j].firstSeen, sessions[j].id)
    {
      SeenOrderMeans(sessions[i].firstSeen, sessions[i].id, sessions[j].firstSeen, sessions[j].id);
    }
    var activities := ClassificationOf(input).activities;
    forall i, j | 0 <= i < j < |activities|
      ensures StandsBefore(activities[i].firstSeen, activities[i].id, activities[j].firstSeen, activities[j].id)
    {
      SeenOrderMeans(activities[i].firstSeen, activities[i].id, activities[j].firstSeen, activities[j].id);
    }
    var unattributed := ClassificationOf(input).unattributed;
    forall i, j | 0 <= i < j < |unattributed| ensures StandsBefore(0, unattributed[i].id, 0, unattributed[j].id) {
      SeenOrderMeans(0, unattributed[i].id, 0, unattributed[j].id);
    }
  }

  // ---------------------------------------------------------------------------
  // Sessions
  // ---------------------------------------------------------------------------

  /** A recognized Cargo root. */
  predicate IsRoot(input: CycleInput, root: CargoRoot) {
    CargoCandidate(root) in input.candidates && IsRecognized(input.processes, root.incarnation)
  }

  /** The other root is of the same checkout and within eight validated edges above. */
  ghost predicate Absorbs(processes: ProcessTable, outer: CargoRoot, root: CargoRoot) {
    && outer.incarnation.identity != root.incarnation.identity
    && outer.scope.Resolved? && root.scope.Resolved? && outer.scope.checkout == root.scope.checkout
    && exists n: nat :: 1 <= n <= 8
         && NthParent(processes, root.incarnation.identity, n) == Some(outer.incarnation.identity)
  }

  ghost predicate IsAbsorbed(input: CycleInput, root: CargoRoot) {
    exists outer :: IsRoot(input, outer) && Absorbs(input.processes, outer, root)
  }

  lemma NestedMeans(processes: ProcessTable, outer: CargoRoot, root: CargoRoot)
    ensures IsNestedIn(processes, outer, root) <==> Absorbs(processes, outer, root)
  {
    AncestorsAre(processes, root.incarnation.identity, 8, outer.incarnation.identity);
  }

  /** It compiles by its argv, was promoted in an earlier cycle, or has a compiler in this one. */
  ghost predicate Compiles(input: CycleInput, root: CargoRoot) {
    || root.compilesFromArgv
    || (root.incarnation in input.tables.firstSeen && input.tables.firstSeen[root.incarnation].promoted)
    || exists activity <- ClassificationOf(input).activities :: IsFor(activity, root.incarnation)
  }

  predicate IsFor(activity: CompileActivity, session: Incarnation) {
    activity.attribution == Confirmed(session) || activity.attribution == UniqueOutputMatch(session)
  }

  /** A recognized root that compiles and that no other of its checkout absorbs. */
  ghost predicate StandsForSession(input: CycleInput, root: CargoRoot, id: Incarnation) {
    root.incarnation == id && IsRoot(input, root) && !IsAbsorbed(input, root) && Compiles(input, root)
  }

  lemma CollectedMeans(input: CycleInput, root: CargoRoot)
    ensures UnderClassification(input, root) in CollectedRoots(input, input.candidates)
            && CargoCandidate(root) in input.candidates
         <==> IsRoot(input, root)
  {
    RootsAre(input, input.candidates, UnderClassification(input, root));
    RecognizedMeansReadable(input.processes, root.incarnation);
    if IsRoot(input, root) {
      assert IsReadable(input.processes, CargoCandidate(root).root.incarnation);
    }
  }

  lemma CollectedFrom(input: CycleInput, classified: CargoRoot) returns (root: CargoRoot)
    requires classified in CollectedRoots(input, input.candidates)
    ensures IsRoot(input, root) && classified == UnderClassification(input, root)
  {
    RootsAre(input, input.candidates, classified);
    var candidate :| candidate in input.candidates && candidate.CargoCandidate?
      && IsReadable(input.processes, candidate.root.incarnation)
      && classified == UnderClassification(input, candidate.root);
    root := candidate.root;
    RecognizedMeansReadable(input.processes, root.incarnation);
  }

  lemma AbsorbedMeans(input: CycleInput, root: CargoRoot)
    ensures IsNested(input.processes, CollectedRoots(input, input.candidates), UnderClassification(input, root))
       <==> IsAbsorbed(input, root)
  {
    var collected, classified := CollectedRoots(input, input.candidates), UnderClassification(input, root);
    if outer :| outer in collected && IsNestedIn(input.processes, outer, classified) {
      NestedMeans(input.processes, outer, classified);
      var candidate := CollectedFrom(input, outer);
      assert Absorbs(input.processes, candidate, root);
    }
    if outer :| IsRoot(input, outer) && Absorbs(input.processes, outer, root) {
      CollectedMeans(input, outer);
      NestedMeans(input.processes, UnderClassification(input, outer), classified);
    }
  }

  /** The roots left are the recognized ones that no other of their checkout absorbs. */
  lemma RootsMean(input: CycleInput, root: CargoRoot)
    requires IsRoot(input, root)
    ensures UnderClassification(input, root) in RootsOf(input) <==> !IsAbsorbed(input, root)
  {
    var collected, classified := CollectedRoots(input, input.candidates), UnderClassification(input, root);
    CollectedMeans(input, root);
    OuterRootsAre(input.processes, collected, collected, classified);
    AbsorbedMeans(input, root);
  }

  lemma PromotedHasActivity(input: CycleInput, session: Incarnation)
    requires session in ClassificationOf(input).promoted
    ensures exists activity <- ClassificationOf(input).activities :: IsFor(activity, session)
  {
    var roots, complete := RootsOf(input), IsComplete(input.processes, input.candidates);
    PromotedAre(input, roots, complete, CompilersOf(input), session);
    var compiler :| compiler in CompilersOf(input) && AttributedTo(input, roots, complete, compiler, session);
    var activity := ActivityOf(input, compiler, AttributionOf(input, compiler));
    SortPermutes(AttachedOf(input).activities, ActivityNotAfter);
    ActivitiesAre(input, roots, complete, CompilersOf(input), activity);
    assert IsActivityOf(input, roots, complete, compiler, activity);
    assert activity in ClassificationOf(input).activities;
  }

  lemma ActivityPromotes(input: CycleInput, activity: CompileActivity, session: Incarnation)
    requires activity in ClassificationOf(input).activities && IsFor(activity, session)
    ensures session in ClassificationOf(input).promoted
  {
    var compiler := ActivityHasCompiler(input, activity);
    var complete := IsComplete(input.processes, input.candidates);
    PromotedAre(input, RootsOf(input), complete, CompilersOf(input), session);
  }

  lemma CompilesMeans(input: CycleInput, root: CargoRoot)
    ensures IsCompiling(input, ClassificationOf(input).promoted, root) <==> Compiles(input, root)
  {
    if root.incarnation in ClassificationOf(input).promoted {
      PromotedHasActivity(input, root.incarnation);
    }
    if activity :| activity in ClassificationOf(input).activities && IsFor(activity, root.incarnation) {
      ActivityPromotes(input, activity, root.incarnation);
    }
  }

  /** A session is shown exactly for the recognized roots that compile and that no other of
      their checkout absorbs. */
  lemma SessionsMean(input: CycleInput, id: Incarnation)
    ensures (exists session <- ClassificationOf(input).sessions :: session.id == id) <==>
              exists root :: StandsForSession(input, root, id)
  {
    if session :| session in ClassificationOf(input).sessions && session.id == id {
      var root := SessionFields(input, session);
    }
    if root :| StandsForSession(input, root, id) {
      var classified := UnderClassification(input, root);
      RootsMean(input, root);
      CompilesMeans(input, root);
      var session := SessionOf(input, AttachedOf(input).buildDirectories, classified);
      SessionsAre(input, session);
      assert session in ClassificationOf(input).sessions && session.id == id;
    }
  }

  /** It carries what its root was related to, and when it was first seen. */
  lemma SessionFields(input: CycleInput, session: BuildSession) returns (root: CargoRoot)
    requires session in ClassificationOf(input).sessions
    ensures StandsForSession(input, root, session.id)
    ensures session.scope == root.scope && session.targetDirectory == root.targetDirectory
    ensures IsFirstSeen(input, session.id, session.firstSeen, session.firstObservedAt)
  {
    SessionsAre(input, session);
    var directories := AttachedOf(input).buildDirectories;
    var classified :| classified in RootsOf(input) && session == SessionOf(input, directories, classified)
      && IsCompiling(input, ClassificationOf(input).promoted, classified);
    var collected := CollectedRoots(input, input.candidates);
    OuterRootsAre(input.processes, collected, collected, classified);
    root := CollectedFrom(input, classified);
    RootsMean(input, root);
    CompilesMeans(input, root);
    CompilesMeans(input, classified);
  }

  /** What is observed is every candidate still there, whether or not it could be read. */
  lemma ObservedMeans(input: CycleInput, incarnation: Incarnation)
    ensures incarnation in ClassificationOf(input).observed <==>
              && RecordOf(input.processes, incarnation).Some?
              && exists candidate <- input.candidates :: IncarnationOf(candidate) == incarnation
  {
    ObservedAre(input.processes, input.candidates, incarnation);
  }
}
