/** One classification cycle: from an immutable process snapshot and the ledgers to build
    sessions and compile activities (src/build_monitor/classify.rs). */
module Classify {
  import opened Common
  import opened Processes
  import opened Attribution
  import opened Ordering

  // ---------------------------------------------------------------------------
  // What a cycle reads
  // ---------------------------------------------------------------------------

  type Instant = int

  datatype FirstSeenEntry = FirstSeenEntry(firstSeen: nat, firstObservedAt: Instant, promoted: bool)

  datatype BuildDirectoryEntry = BuildDirectoryEntry(name: string, lastUsed: nat)

  datatype ManifestStamp = Present(modified: int, length: nat) | Missing

  /** `package` is absent when the search for a manifest found none. */
  datatype ManifestEntry = ManifestEntry(manifestPath: Path, stamp: ManifestStamp, package: Option<string>,
                                         lastUsed: nat)

  datatype Tables = Tables(
    firstSeen: map<Incarnation, FirstSeenEntry>,
    buildDirectories: map<Incarnation, BuildDirectoryEntry>,
    manifests: map<Path, ManifestEntry>)

  /** A candidate with what its argv, working directory and the workspace index say about
      it; a Cargo root's profile is the one argv names. */
  datatype Candidate = CargoCandidate(root: CargoRoot) | CompilerCandidate(compiler: Compiler)

  datatype CycleInput = CycleInput(
    processes: ProcessTable,
    candidates: seq<Candidate>,
    tables: Tables,
    cycle: nat,
    instant: Instant)

  function IncarnationOf(candidate: Candidate): Incarnation {
    match candidate
    case CargoCandidate(root) => root.incarnation
    case CompilerCandidate(compiler) => compiler.incarnation
  }

  /** The snapshot lists candidates by ascending incarnation, each once. */
  ghost predicate Ascending(candidates: seq<Candidate>) {
    forall i, j :: 0 <= i < j < |candidates| ==> Before(IncarnationOf(candidates[i]), IncarnationOf(candidates[j]))
  }

  // ---------------------------------------------------------------------------
  // What a cycle produces
  // ---------------------------------------------------------------------------

  datatype BuildSession = BuildSession(
    id: Incarnation,
    scope: SessionScope,
    targetDirectory: Option<Path>,
    profile: BuildProfile,
    firstObservedAt: Instant,
    firstSeen: nat)

  datatype CrateIdentity = WorkspacePackage(package: string) | DependencyPackage(package: string) | CrateNameOnly

  datatype CompileActivity = CompileActivity(
    id: Incarnation, attribution: CompilerAttribution, crate: CrateIdentity, firstSeen: nat)

  datatype UnattributedActivity = UnattributedActivity(
    id: Incarnation, attribution: CompilerAttribution, crate: CrateIdentity, workingDirectory: Option<Path>)

  /** The build directory one of a session's own compilers was observed writing under. */
  datatype SessionBuildDirectory = SessionBuildDirectory(session: Incarnation, name: string)

  datatype Classification = Classification(
    sessions: seq<BuildSession>,
    activities: seq<CompileActivity>,
    unattributed: seq<UnattributedActivity>,
    manifestRequests: seq<Path>,
    observed: seq<Incarnation>,
    promoted: seq<Incarnation>,
    buildDirectories: seq<SessionBuildDirectory>,
    sourceRootsInUse: seq<Path>,
    cycle: nat,
    instant: Instant)

  // ---------------------------------------------------------------------------
  // Pass one: candidates
  // ---------------------------------------------------------------------------

  /** The snapshot still holds this very incarnation. */
  predicate IsCurrent(processes: ProcessTable, incarnation: Incarnation) {
    && incarnation.identity in processes
    && processes[incarnation.identity].fingerprint == Some(incarnation.fingerprint)
  }

  predicate IsReadable(processes: ProcessTable, incarnation: Incarnation) {
    && IsCurrent(processes, incarnation)
    && processes[incarnation.identity].argvReadable && processes[incarnation.identity].executableReadable
  }

  /** A candidate the uniqueness tests cannot fully see. */
  predicate IsBlind(processes: ProcessTable, incarnation: Incarnation) {
    && IsCurrent(processes, incarnation)
    && (!IsReadable(processes, incarnation) || !processes[incarnation.identity].workingDirectoryReadable)
  }

  function StickyProfile(profile: BuildProfile, session: Incarnation,
                         ledger: map<Incarnation, BuildDirectoryEntry>): BuildProfile
  {
    if profile.evidence.Argument? || session !in ledger then profile
    else BuildProfile(LabelOfBuildDirectory(ledger[session].name), OutputDirectory)
  }

  function UnderClassification(input: CycleInput, root: CargoRoot): CargoRoot {
    root.(profile := StickyProfile(root.profile, root.incarnation, input.tables.buildDirectories))
  }

  function ObservedIncarnations(processes: ProcessTable, candidates: seq<Candidate>): seq<Incarnation> {
    if candidates == [] then []
    else
      var last := IncarnationOf(candidates[|candidates| - 1]);
      ObservedIncarnations(processes, candidates[..|candidates| - 1])
      + (if IsCurrent(processes, last) then [last] else [])
  }

  function CollectedRoots(input: CycleInput, candidates: seq<Candidate>): seq<CargoRoot> {
    if candidates == [] then []
    else
      var last := candidates[|candidates| - 1];
      CollectedRoots(input, candidates[..|candidates| - 1])
      + (if last.CargoCandidate? && IsReadable(input.processes, last.root.incarnation)
         then [UnderClassification(input, last.root)] else [])
  }

  function CollectedCompilers(processes: ProcessTable, candidates: seq<Candidate>): seq<Compiler> {
    if candidates == [] then []
    else
      var last := candidates[|candidates| - 1];
      CollectedCompilers(processes, candidates[..|candidates| - 1])
      + (if last.CompilerCandidate? && IsReadable(processes, last.compiler.incarnation) then [last.compiler] else [])
  }

  predicate IsComplete(processes: ProcessTable, candidates: seq<Candidate>) {
    forall candidate <- candidates :: !IsBlind(processes, IncarnationOf(candidate))
  }

  /** What pass one has established so far. */
  datatype CollectedCandidates = CollectedCandidates(
    observed: seq<Incarnation>, complete: bool, roots: seq<CargoRoot>, compilers: seq<Compiler>)

  const NOTHING_COLLECTED := CollectedCandidates([], true, [], [])

  function Collected(input: CycleInput, candidates: seq<Candidate>): CollectedCandidates {
    CollectedCandidates(ObservedIncarnations(input.processes, candidates), IsComplete(input.processes, candidates),
                        CollectedRoots(input, candidates), CollectedCompilers(input.processes, candidates))
  }

  /** What one more candidate adds to each part. */
  lemma CollectedOneMore(input: CycleInput, before: seq<Candidate>, candidate: Candidate)
    ensures var incarnation := IncarnationOf(candidate);
            Collected(input, before + [candidate])
            == CollectedCandidates(
                 ObservedIncarnations(input.processes, before)
                 + (if IsCurrent(input.processes, incarnation) then [incarnation] else []),
                 IsComplete(input.processes, before) && !IsBlind(input.processes, incarnation),
                 CollectedRoots(input, before)
                 + (if candidate.CargoCandidate? && IsReadable(input.processes, incarnation)
                    then [UnderClassification(input, candidate.root)] else []),
                 CollectedCompilers(input.processes, before)
                 + (if candidate.CompilerCandidate? && IsReadable(input.processes, incarnation)
                    then [candidate.compiler] else []))
  {
    var candidates := before + [candidate];
    assert candidates[..|candidates| - 1] == before && candidates[|candidates| - 1] == candidate;
    assert forall other :: other in candidates <==> other in before || other == candidate;
  }

  method CollectCandidate(input: CycleInput, before: seq<Candidate>, candidate: Candidate,
                          collected: CollectedCandidates)
    returns (extended: CollectedCandidates)
    requires collected == Collected(input, before)
    ensures extended == Collected(input, before + [candidate])
  {
    CollectedOneMore(input, before, candidate);
    extended := collected;
    var incarnation := IncarnationOf(candidate);
    if !IsCurrent(input.processes, incarnation) {
      return;
    }
    extended := extended.(observed := extended.observed + [incarnation]);
    var record := input.processes[incarnation.identity];
    if !record.argvReadable || !record.executableReadable {
      extended := extended.(complete := false);
      return;
    }
    if !record.workingDirectoryReadable {
      extended := extended.(complete := false);
    }
    match candidate {
      case CargoCandidate(root) =>
        var profile := StickyProfile(root.profile, root.incarnation, input.tables.buildDirectories);
        extended := extended.(roots := extended.roots + [root.(profile := profile)]);
      case CompilerCandidate(compiler) =>
        extended := extended.(compilers := extended.compilers + [compiler]);
    }
  }

  method CollectCandidates(input: CycleInput) returns (collected: CollectedCandidates)
    ensures collected == Collected(input, input.candidates)
  {
    collected := NOTHING_COLLECTED;
    var candidates := input.candidates;
    for i := 0 to |candidates|
      invariant collected == Collected(input, candidates[..i])
    {
      assert candidates[..i + 1] == candidates[..i] + [candidates[i]];
      collected := CollectCandidate(input, candidates[..i], candidates[i], collected);
    }
    assert candidates[..|candidates|] == candidates;
  }

  // ---------------------------------------------------------------------------
  // Nested roots
  // ---------------------------------------------------------------------------

  /** Another root of the same checkout is among this root's ancestors. */
  predicate IsNestedIn(processes: ProcessTable, outer: CargoRoot, root: CargoRoot) {
    && outer.incarnation.identity != root.incarnation.identity
    && outer.incarnation.identity in Ancestors(processes, root.incarnation.identity, MAX_DESCENDANT_WALK_DEPTH)
    && SharesResolvedRoot(outer.scope, root.scope)
  }

  predicate IsNested(processes: ProcessTable, roots: seq<CargoRoot>, root: CargoRoot) {
    exists outer <- roots :: IsNestedIn(processes, outer, root)
  }

  function OuterRoots(processes: ProcessTable, roots: seq<CargoRoot>, among: seq<CargoRoot>): seq<CargoRoot> {
    if among == [] then []
    else
      var last := among[|among| - 1];
      OuterRoots(processes, roots, among[..|among| - 1]) + (if IsNested(processes, roots, last) then [] else [last])
  }

  function DropNestedRoots(processes: ProcessTable, roots: seq<CargoRoot>): seq<CargoRoot> {
    OuterRoots(processes, roots, roots)
  }

  // ---------------------------------------------------------------------------
  // Pass two: compilers
  // ---------------------------------------------------------------------------

  datatype AttachedCompilers = AttachedCompilers(
    promoted: seq<Incarnation>,
    activities: seq<CompileActivity>,
    unattributed: seq<UnattributedActivity>,
    manifestRequests: seq<Path>,
    sourceRootsInUse: seq<Path>,
    buildDirectories: seq<SessionBuildDirectory>)

  const NOTHING_ATTACHED := AttachedCompilers([], [], [], [], [], [])

  function CrateOf(manifests: map<Path, ManifestEntry>, compiler: Compiler): CrateIdentity {
    match compiler.crate
    case IndexedPackage(package) => WorkspacePackage(package)
    case NameOnly => CrateNameOnly
    case DependencyRoot(root) =>
      if root in manifests && manifests[root].package.Some? then DependencyPackage(manifests[root].package.value)
      else CrateNameOnly
  }

  function FirstSightingOf(input: CycleInput, incarnation: Incarnation): (nat, Instant) {
    if incarnation in input.tables.firstSeen
    then (input.tables.firstSeen[incarnation].firstSeen, input.tables.firstSeen[incarnation].firstObservedAt)
    else (input.cycle, input.instant)
  }

  /** The build directory a compiler's output sits in, inside the session's target directory. */
  function ObservedBuildDirectory(compiler: Compiler, root: CargoRoot): Option<string> {
    if root.targetDirectory.None? || compiler.outputDirectory.None? then None
    else
      var base := OutputRoot(root.targetDirectory.value, compiler.triple);
      var output := compiler.outputDirectory.value;
      if StartsWith(output, base) && |output| > |base| then Some(output[|base|]) else None
  }

  function FindRoot(roots: seq<CargoRoot>, session: Incarnation): (found: Option<CargoRoot>)
    ensures found.Some? ==> found.value in roots && found.value.incarnation == session
    ensures found.None? ==> forall root <- roots :: root.incarnation != session
  {
    if roots == [] then None
    else if roots[0].incarnation == session then Some(roots[0])
    else FindRoot(roots[1..], session)
  }

  function ActivityOf(input: CycleInput, compiler: Compiler, attribution: CompilerAttribution): CompileActivity {
    CompileActivity(compiler.incarnation, attribution, CrateOf(input.tables.manifests, compiler),
                    FirstSightingOf(input, compiler.incarnation).0)
  }

  function UnattributedOf(input: CycleInput, compiler: Compiler,
                          attribution: CompilerAttribution): UnattributedActivity
  {
    UnattributedActivity(compiler.incarnation, attribution, CrateOf(input.tables.manifests, compiler),
                         compiler.workingDirectory)
  }

  function BuildDirectoriesOf(compiler: Compiler, root: CargoRoot): seq<SessionBuildDirectory> {
    match ObservedBuildDirectory(compiler, root)
    case None => []
    case Some(name) => [SessionBuildDirectory(root.incarnation, name)]
  }

  function WithCrate(input: CycleInput, compiler: Compiler, attached: AttachedCompilers): AttachedCompilers {
    match compiler.crate
    case IndexedPackage(_) => attached
    case NameOnly => attached
    case DependencyRoot(root) =>
      attached.(
        sourceRootsInUse := attached.sourceRootsInUse + [root],
        manifestRequests := attached.manifestRequests + (if root in input.tables.manifests then [] else [root]))
  }

  /** One more compiler attached. */
  function WithCompiler(input: CycleInput, roots: seq<CargoRoot>, complete: bool, attached: AttachedCompilers,
                        compiler: Compiler): AttachedCompilers
  {
    var attribution := Attribute(input.processes, roots, compiler, complete);
    var crated := WithCrate(input, compiler, attached);
    match AttributedSession(attribution)
    case None => crated.(unattributed := crated.unattributed + [UnattributedOf(input, compiler, attribution)])
    case Some(session) =>
      var rooted :=
        match FindRoot(roots, session)
        case None => crated
        case Some(root) =>
          crated.(promoted := crated.promoted + [root.incarnation],
                  buildDirectories := crated.buildDirectories + BuildDirectoriesOf(compiler, root));
      rooted.(activities := rooted.activities + [ActivityOf(input, compiler, attribution)])
  }

  function Attached(input: CycleInput, roots: seq<CargoRoot>, complete: bool,
                    compilers: seq<Compiler>): AttachedCompilers
  {
    if compilers == [] then NOTHING_ATTACHED
    else
      WithCompiler(input, roots, complete, Attached(input, roots, complete, compilers[..|compilers| - 1]),
                   compilers[|compilers| - 1])
  }

  method AttachCompiler(input: CycleInput, roots: seq<CargoRoot>, complete: bool, attached: AttachedCompilers,
                        compiler: Compiler)
    returns (extended: AttachedCompilers)
    ensures extended == WithCompiler(input, roots, complete, attached, compiler)
  {
    var attribution := AttributeCompiler(input.processes, roots, compiler, complete);
    extended := attached;
    if compiler.crate.DependencyRoot? {
      var root := compiler.crate.root;
      extended := extended.(sourceRootsInUse := extended.sourceRootsInUse + [root]);
      if root !in input.tables.manifests {
        extended := extended.(manifestRequests := extended.manifestRequests + [root]);
      }
    }
    match AttributedSession(attribution) {
      case Some(session) =>
        var owner := FindRoot(roots, session);
        if owner.Some? {
          extended := extended.(promoted := extended.promoted + [owner.value.incarnation]);
          var name := ObservedBuildDirectory(compiler, owner.value);
          if name.Some? {
            var directory := SessionBuildDirectory(session, name.value);
            extended := extended.(buildDirectories := extended.buildDirectories + [directory]);
          }
        }
        extended := extended.(activities := extended.activities + [ActivityOf(input, compiler, attribution)]);
      case None =>
        extended := extended.(unattributed := extended.unattributed + [UnattributedOf(input, compiler, attribution)]);
    }
  }

  method AttachCompilers(input: CycleInput, roots: seq<CargoRoot>, complete: bool, compilers: seq<Compiler>)
    returns (attached: AttachedCompilers)
    ensures attached == Attached(input, roots, complete, compilers)
  {
    attached := NOTHING_ATTACHED;
    for i := 0 to |compilers|
      invariant attached == Attached(input, roots, complete, compilers[..i])
    {
      assert compilers[..i + 1][..i] == compilers[..i];
      attached := AttachCompiler(input, roots, complete, attached, compilers[i]);
    }
    assert compilers[..|compilers|] == compilers;
  }

  // ---------------------------------------------------------------------------
  // Sessions
  // ---------------------------------------------------------------------------

  /** The first build directory this cycle's compilers named for a session. */
  function FirstDirectory(directories: seq<SessionBuildDirectory>, session: Incarnation): Option<string> {
    if directories == [] then None
    else if directories[0].session == session then Some(directories[0].name)
    else FirstDirectory(directories[1..], session)
  }

  /** This cycle's own compiler output replaces a sticky profile, but never an argument. */
  function ResolveProfile(sticky: BuildProfile, session: Incarnation,
                          directories: seq<SessionBuildDirectory>): BuildProfile
  {
    if sticky.evidence.Argument? then sticky
    else
      match FirstDirectory(directories, session)
      case None => sticky
      case Some(name) => BuildProfile(LabelOfBuildDirectory(name), OutputDirectory)
  }

  predicate IsPromoted(ledger: map<Incarnation, FirstSeenEntry>, root: Incarnation) {
    root in ledger && ledger[root].promoted
  }

  predicate IsCompiling(input: CycleInput, promoted: seq<Incarnation>, root: CargoRoot) {
    || root.compilesFromArgv
    || root.incarnation in promoted
    || IsPromoted(input.tables.firstSeen, root.incarnation)
  }

  function SessionOf(input: CycleInput, directories: seq<SessionBuildDirectory>, root: CargoRoot): BuildSession {
    var sighting := FirstSightingOf(input, root.incarnation);
    BuildSession(root.incarnation, root.scope, root.targetDirectory,
                 ResolveProfile(root.profile, root.incarnation, directories), sighting.1, sighting.0)
  }

  function SessionsFor(input: CycleInput, roots: seq<CargoRoot>, promoted: seq<Incarnation>,
                       directories: seq<SessionBuildDirectory>): seq<BuildSession>
  {
    if roots == [] then []
    else
      var last := roots[|roots| - 1];
      SessionsFor(input, roots[..|roots| - 1], promoted, directories)
      + (if IsCompiling(input, promoted, last) then [SessionOf(input, directories, last)] else [])
  }

  // ---------------------------------------------------------------------------
  // The whole cycle
  // ---------------------------------------------------------------------------

  predicate SeenNotAfter(leftSeen: nat, left: Incarnation, rightSeen: nat, right: Incarnation) {
    leftSeen < rightSeen || (leftSeen == rightSeen && !Before(right, left))
  }

  predicate SessionNotAfter(left: BuildSession, right: BuildSession) {
    SeenNotAfter(left.firstSeen, left.id, right.firstSeen, right.id)
  }

  predicate ActivityNotAfter(left: CompileActivity, right: CompileActivity) {
    SeenNotAfter(left.firstSeen, left.id, right.firstSeen, right.id)
  }

  predicate UnattributedNotAfter(left: UnattributedActivity, right: UnattributedActivity) {
    !Before(right.id, left.id)
  }

  predicate DirectoryNotAfter(left: SessionBuildDirectory, right: SessionBuildDirectory) {
    Before(left.session, right.session) || (left.session == right.session && NameNotAfter(left.name, right.name))
  }

  function RootsOf(input: CycleInput): seq<CargoRoot> {
    DropNestedRoots(input.processes, CollectedRoots(input, input.candidates))
  }

  function CompilersOf(input: CycleInput): seq<Compiler> {
    CollectedCompilers(input.processes, input.candidates)
  }

  function AttachedOf(input: CycleInput): AttachedCompilers {
    Attached(input, RootsOf(input), IsComplete(input.processes, input.candidates), CompilersOf(input))
  }

  function ClassificationOf(input: CycleInput): Classification {
    var attached := AttachedOf(input);
    Classification(
      SortBy(SessionsFor(input, RootsOf(input), attached.promoted, attached.buildDirectories), SessionNotAfter),
      SortBy(attached.activities, ActivityNotAfter),
      SortBy(attached.unattributed, UnattributedNotAfter),
      attached.manifestRequests,
      ObservedIncarnations(input.processes, input.candidates),
      attached.promoted,
      SortBy(attached.buildDirectories, DirectoryNotAfter),
      attached.sourceRootsInUse,
      input.cycle,
      input.instant)
  }

  method Classify(input: CycleInput) returns (classification: Classification)
    ensures classification == ClassificationOf(input)
  {
    var collected := CollectCandidates(input);
    var roots := DropNestedRoots(input.processes, collected.roots);
    var attached := AttachCompilers(input, roots, collected.complete, collected.compilers);
    var sessions := SessionsFor(input, roots, attached.promoted, attached.buildDirectories);
    classification := Classification(
      SortBy(sessions, SessionNotAfter),
      SortBy(attached.activities, ActivityNotAfter),
      SortBy(attached.unattributed, UnattributedNotAfter),
      attached.manifestRequests, collected.observed, attached.promoted,
      SortBy(attached.buildDirectories, DirectoryNotAfter),
      attached.sourceRootsInUse, input.cycle, input.instant);
  }
}
