/** Which build session a compiler belongs to (src/build_monitor/activity.rs and the
    attribution half of src/build_monitor/classify.rs). */
module Attribution {
  import opened Common
  import opened Ordering
  import opened Processes

  // ---------------------------------------------------------------------------
  // Paths and profiles
  // ---------------------------------------------------------------------------

  /** A canonical path, one component at a time. */
  type Path = seq<string>

  predicate StartsWith(path: Path, base: Path) {
    base <= path
  }

  datatype ProfileLabel = Dev | Release | Custom(name: string)

  datatype ProfileEvidence = Argument | OutputDirectory | MetadataDefault

  datatype BuildProfile = BuildProfile(named: ProfileLabel, evidence: ProfileEvidence)

  /** Where Cargo writes under a profile; only `dev` differs from its label. */
  function BuildDirectoryName(named: ProfileLabel): string {
    match named
    case Dev => "debug"
    case Release => "release"
    case Custom(name) => name
  }

  function LabelOfBuildDirectory(name: string): (named: ProfileLabel)
    ensures BuildDirectoryName(named) == name
  {
    if name == "debug" then Dev else if name == "release" then Release else Custom(name)
  }

  // ---------------------------------------------------------------------------
  // Roots and compilers
  // ---------------------------------------------------------------------------

  /** Which method related a session to its checkout. */
  datatype ScopeMethod = OwnedRoot | ManifestArgument | WorkingDirectoryManifest | UniqueOutputDirectory

  /** The checkout a session was related to, when some method related it to one. */
  datatype SessionScope = Resolved(relation: ScopeMethod, checkout: Path) | Unresolved

  predicate SharesResolvedRoot(left: SessionScope, right: SessionScope) {
    left.Resolved? && right.Resolved? && left.checkout == right.checkout
  }

  /** A Cargo root under classification; a session is named by its root's incarnation. */
  datatype CargoRoot = CargoRoot(
    incarnation: Incarnation,
    compilesFromArgv: bool,
    scope: SessionScope,
    targetDirectory: Option<Path>,
    profile: BuildProfile)

  datatype CrateEvidence = IndexedPackage(package: string) | DependencyRoot(root: Path) | NameOnly

  datatype Compiler = Compiler(
    incarnation: Incarnation,
    triple: Option<string>,
    outputDirectory: Option<Path>,
    primaryInput: Option<Path>,
    workingDirectory: Option<Path>,
    crate: CrateEvidence)

  datatype CompilerAttribution =
    | Confirmed(session: Incarnation)
    | UniqueOutputMatch(session: Incarnation)
    | Ambiguous(candidates: seq<Incarnation>)
    | Unattributed

  datatype ResolvedBy = ValidatedParentChain | OutputDirectoryMatch | PrimaryInputMatch

  function AttributedSession(attribution: CompilerAttribution): Option<Incarnation> {
    match attribution
    case Confirmed(session) => Some(session)
    case UniqueOutputMatch(session) => Some(session)
    case Ambiguous(_) => None
    case Unattributed => None
  }

  const MAX_DESCENDANT_WALK_DEPTH: nat := 8

  /** The target directory a compiler's output is looked for under. */
  function OutputRoot(targetDirectory: Path, triple: Option<string>): Path {
    if triple.Some? then targetDirectory + [triple.value] else targetDirectory
  }

  function ExpectedOutputRoot(targetDirectory: Path, profile: BuildProfile, triple: Option<string>): Path {
    OutputRoot(targetDirectory, triple) + [BuildDirectoryName(profile.named)]
  }

  // ---------------------------------------------------------------------------
  // Candidates
  // ---------------------------------------------------------------------------

  /** The three kinds of evidence that relate a compiler to Cargo roots. */
  datatype Evidence =
    | ParentChain(ancestors: seq<ProcessIdentity>)
    | UnderOutputDirectory(output: Option<Path>, triple: Option<string>)
    | UnderCheckout(input: Option<Path>)

  predicate Matches(evidence: Evidence, root: CargoRoot) {
    match evidence
    case ParentChain(ancestors) => root.incarnation.identity in ancestors
    case UnderOutputDirectory(output, triple) =>
      && output.Some? && root.targetDirectory.Some?
      && StartsWith(output.value, ExpectedOutputRoot(root.targetDirectory.value, root.profile, triple))
    case UnderCheckout(input) =>
      input.Some? && root.scope.Resolved? && StartsWith(input.value, root.scope.checkout)
  }

  function Including(sessions: seq<Incarnation>, session: Incarnation): seq<Incarnation> {
    if session in sessions then sessions else sessions + [session]
  }

  function IncludingAll(sessions: seq<Incarnation>, more: seq<Incarnation>): seq<Incarnation> {
    if more == [] then sessions
    else Including(IncludingAll(sessions, more[..|more| - 1]), more[|more| - 1])
  }

  function Candidates(roots: seq<CargoRoot>, evidence: Evidence): seq<Incarnation> {
    if roots == [] then []
    else
      var last := roots[|roots| - 1];
      var sessions := Candidates(roots[..|roots| - 1], evidence);
      if Matches(evidence, last) then Including(sessions, last.incarnation) else sessions
  }

  /** The sessions some evidence selects. */
  function Selected(roots: seq<CargoRoot>, evidence: Evidence): set<Incarnation> {
    set root <- roots | Matches(evidence, root) :: root.incarnation
  }

  function Members<T>(items: seq<T>): set<T> {
    set item <- items
  }

  lemma SelectedOneMore(roots: seq<CargoRoot>, root: CargoRoot, evidence: Evidence)
    ensures Selected(roots + [root], evidence)
         == Selected(roots, evidence) + (if Matches(evidence, root) then {root.incarnation} else {})
  {
    assert forall other :: other in roots + [root] <==> other in roots || other == root;
  }

  lemma {:induction false} CandidatesAreSelected(roots: seq<CargoRoot>, evidence: Evidence)
    ensures Distinct(Candidates(roots, evidence))
    ensures Members(Candidates(roots, evidence)) == Selected(roots, evidence)
    ensures |Candidates(roots, evidence)| == |Selected(roots, evidence)|
  {
    if roots != [] {
      var last := roots[|roots| - 1];
      var fewer := roots[..|roots| - 1];
      CandidatesAreSelected(fewer, evidence);
      assert roots == fewer + [last];
      SelectedOneMore(fewer, last, evidence);
      IncludingUnites(Candidates(fewer, evidence), last.incarnation);
    }
    DistinctSize(Candidates(roots, evidence));
  }

  lemma {:induction false} DistinctSize<T(!new)>(items: seq<T>)
    requires Distinct(items)
    ensures |Members(items)| == |items|
  {
    if items != [] {
      var last := items[|items| - 1];
      DistinctSize(items[..|items| - 1]);
      assert items == items[..|items| - 1] + [last];
      assert Members(items) == Members(items[..|items| - 1]) + {last};
      assert last !in items[..|items| - 1];
    }
  }

  lemma IncludingUnites(sessions: seq<Incarnation>, session: Incarnation)
    requires Distinct(sessions)
    ensures Distinct(Including(sessions, session))
    ensures Members(Including(sessions, session)) == Members(sessions) + {session}
  {
    assert session !in sessions ==> Including(sessions, session)[|sessions|] == session;
  }

  lemma {:induction false} IncludingAllUnites(sessions: seq<Incarnation>, more: seq<Incarnation>)
    requires Distinct(sessions)
    ensures Distinct(IncludingAll(sessions, more))
    ensures Members(IncludingAll(sessions, more)) == Members(sessions) + Members(more)
  {
    if more != [] {
      IncludingAllUnites(sessions, more[..|more| - 1]);
      assert more == more[..|more| - 1] + [more[|more| - 1]];
      assert Members(more) == Members(more[..|more| - 1]) + {more[|more| - 1]};
      IncludingUnites(IncludingAll(sessions, more[..|more| - 1]), more[|more| - 1]);
    }
  }

  // ---------------------------------------------------------------------------
  // Attribution
  // ---------------------------------------------------------------------------

  function Resolve(sessions: seq<Incarnation>, resolvedBy: ResolvedBy): CompilerAttribution {
    if sessions == [] then Unattributed
    else if |sessions| == 1 then
      if resolvedBy.ValidatedParentChain? then Confirmed(sessions[0]) else UniqueOutputMatch(sessions[0])
    else Ambiguous(sessions)
  }

  function Degrade(sessions: seq<Incarnation>): CompilerAttribution {
    if sessions == [] then Unattributed else Ambiguous(sessions)
  }

  function AncestorsOf(processes: ProcessTable, compiler: Compiler): Evidence {
    ParentChain(Ancestors(processes, compiler.incarnation.identity, MAX_DESCENDANT_WALK_DEPTH))
  }

  function OutputOf(compiler: Compiler): Evidence {
    UnderOutputDirectory(compiler.outputDirectory, compiler.triple)
  }

  function InputOf(compiler: Compiler): Evidence {
    UnderCheckout(compiler.primaryInput)
  }

  /** The attribution of one compiler: by ancestry if it has any root among its ancestors,
      else by output directory, else by primary input. */
  function Attribute(processes: ProcessTable, roots: seq<CargoRoot>, compiler: Compiler,
                     complete: bool): CompilerAttribution
  {
    var parents := Candidates(roots, AncestorsOf(processes, compiler));
    var outputs := Candidates(roots, OutputOf(compiler));
    var inputs := Candidates(roots, InputOf(compiler));
    if parents != [] then Resolve(parents, ValidatedParentChain)
    else if |outputs| == 1 then
      if complete then Resolve(outputs, OutputDirectoryMatch) else Degrade(outputs)
    else if |inputs| == 1 then
      if complete then Resolve(inputs, PrimaryInputMatch) else Degrade(inputs)
    else Degrade(IncludingAll(outputs, inputs))
  }

  /** The sessions with a root among the compiler's ancestors, those whose build directory
      holds its output, and those whose checkout holds its input. */
  function Above(processes: ProcessTable, roots: seq<CargoRoot>, compiler: Compiler): set<Incarnation> {
    Selected(roots, AncestorsOf(processes, compiler))
  }

  function Written(roots: seq<CargoRoot>, compiler: Compiler): set<Incarnation> {
    Selected(roots, OutputOf(compiler))
  }

  function Read(roots: seq<CargoRoot>, compiler: Compiler): set<Incarnation> {
    Selected(roots, InputOf(compiler))
  }

  /** A compiler is confirmed for exactly the one session among its ancestors. */
  lemma ConfirmedMeans(processes: ProcessTable, roots: seq<CargoRoot>, compiler: Compiler, complete: bool,
                       session: Incarnation)
    ensures Attribute(processes, roots, compiler, complete) == Confirmed(session)
       <==> Above(processes, roots, compiler) == {session}
  {
    CandidatesView(roots, AncestorsOf(processes, compiler), session);
  }

  /** Output evidence decides only where ancestry says nothing and the cycle saw every
      candidate; the primary input decides only where the output directory is not unique. */
  lemma UniqueOutputMatchMeans(processes: ProcessTable, roots: seq<CargoRoot>, compiler: Compiler, complete: bool,
                               session: Incarnation)
    ensures Attribute(processes, roots, compiler, complete) == UniqueOutputMatch(session) <==>
              && complete
              && Above(processes, roots, compiler) == {}
              && (Written(roots, compiler) == {session}
                  || (|Written(roots, compiler)| != 1 && Read(roots, compiler) == {session}))
  {
    CandidatesView(roots, AncestorsOf(processes, compiler), session);
    CandidatesView(roots, OutputOf(compiler), session);
    CandidatesView(roots, InputOf(compiler), session);
  }

  lemma UnattributedMeans(processes: ProcessTable, roots: seq<CargoRoot>, compiler: Compiler, complete: bool)
    ensures Attribute(processes, roots, compiler, complete) == CompilerAttribution.Unattributed <==>
              && Above(processes, roots, compiler) == {}
              && Written(roots, compiler) == {} && Read(roots, compiler) == {}
  {
    var session := compiler.incarnation;
    CandidatesView(roots, AncestorsOf(processes, compiler), session);
    CandidatesView(roots, OutputOf(compiler), session);
    CandidatesView(roots, InputOf(compiler), session);
    BothView(roots, compiler);
  }

  /** The candidates an ambiguous attribution names; two at least in a complete cycle. */
  lemma AmbiguousMeans(processes: ProcessTable, roots: seq<CargoRoot>, compiler: Compiler, complete: bool)
    requires Attribute(processes, roots, compiler, complete).Ambiguous?
    ensures var candidates := Attribute(processes, roots, compiler, complete).candidates;
            && Distinct(candidates) && |candidates| == |Members(candidates)|
            && Members(candidates)
               == (if Above(processes, roots, compiler) != {} then Above(processes, roots, compiler)
                   else if |Written(roots, compiler)| == 1 then Written(roots, compiler)
                   else if |Read(roots, compiler)| == 1 then Read(roots, compiler)
                   else Written(roots, compiler) + Read(roots, compiler))
            && (complete ==> |candidates| >= 2)
            && (!complete ==> |candidates| >= 1)
  {
    var session := compiler.incarnation;
    CandidatesView(roots, AncestorsOf(processes, compiler), session);
    CandidatesView(roots, OutputOf(compiler), session);
    CandidatesView(roots, InputOf(compiler), session);
    BothView(roots, compiler);
  }

  lemma CandidatesView(roots: seq<CargoRoot>, evidence: Evidence, session: Incarnation)
    ensures var sessions := Candidates(roots, evidence);
            && Distinct(sessions) && Members(sessions) == Selected(roots, evidence)
            && |sessions| == |Selected(roots, evidence)|
            && (sessions == [] <==> Selected(roots, evidence) == {})
            && (sessions == [session] <==> Selected(roots, evidence) == {session})
  {
    var sessions := Candidates(roots, evidence);
    CandidatesAreSelected(roots, evidence);
    if |sessions| == 1 {
      assert sessions[0] in Members(sessions);
    }
  }

  lemma BothView(roots: seq<CargoRoot>, compiler: Compiler)
    ensures var both := IncludingAll(Candidates(roots, OutputOf(compiler)), Candidates(roots, InputOf(compiler)));
            && Distinct(both) && |both| == |Members(both)|
            && Members(both) == Written(roots, compiler) + Read(roots, compiler)
            && (both == [] <==> Written(roots, compiler) == {} && Read(roots, compiler) == {})
            && |both| >= |Written(roots, compiler)| && |both| >= |Read(roots, compiler)|
  {
    var outputs, inputs := Candidates(roots, OutputOf(compiler)), Candidates(roots, InputOf(compiler));
    CandidatesAreSelected(roots, OutputOf(compiler));
    CandidatesAreSelected(roots, InputOf(compiler));
    IncludingAllUnites(outputs, inputs);
    var both := IncludingAll(outputs, inputs);
    DistinctSize(both);
    Smaller(Written(roots, compiler), Members(both));
    Smaller(Read(roots, compiler), Members(both));
    assert both == [] <==> Members(both) == {};
  }

  lemma Smaller<T>(small: set<T>, large: set<T>)
    requires small <= large
    ensures |small| <= |large|
  {
    assert large == small + (large - small);
  }

  // ---------------------------------------------------------------------------
  // The imperative pass
  // ---------------------------------------------------------------------------

  /** The compatible sessions found so far. */
  class CompilerSessionCandidates {
    var sessions: seq<Incarnation>

    constructor ()
      ensures sessions == []
    {
      sessions := [];
    }

    method Include(session: Incarnation)
      modifies this
      ensures sessions == Including(old(sessions), session)
    {
      if session !in sessions {
        sessions := sessions + [session];
      }
    }
  }

  method CollectCandidates(roots: seq<CargoRoot>, evidence: Evidence) returns (candidates: CompilerSessionCandidates)
    ensures fresh(candidates) && candidates.sessions == Candidates(roots, evidence)
  {
    candidates := new CompilerSessionCandidates();
    for i := 0 to |roots|
      invariant fresh(candidates) && candidates.sessions == Candidates(roots[..i], evidence)
    {
      assert roots[..i + 1][..i] == roots[..i];
      if Matches(evidence, roots[i]) {
        candidates.Include(roots[i].incarnation);
      }
    }
    assert roots[..|roots|] == roots;
  }

  method AttributeCompiler(processes: ProcessTable, roots: seq<CargoRoot>, compiler: Compiler, complete: bool)
    returns (attribution: CompilerAttribution)
    ensures attribution == Attribute(processes, roots, compiler, complete)
  {
    var ancestors := ValidatedAncestry(processes, compiler.incarnation.identity, MAX_DESCENDANT_WALK_DEPTH);
    var parents := CollectCandidates(roots, ParentChain(ancestors));
    if parents.sessions != [] {
      return Resolve(parents.sessions, ValidatedParentChain);
    }
    var outputs := CollectCandidates(roots, OutputOf(compiler));
    if |outputs.sessions| == 1 {
      return if complete then Resolve(outputs.sessions, OutputDirectoryMatch) else Degrade(outputs.sessions);
    }
    var inputs := CollectCandidates(roots, InputOf(compiler));
    if |inputs.sessions| == 1 {
      return if complete then Resolve(inputs.sessions, PrimaryInputMatch) else Degrade(inputs.sessions);
    }
    var read := inputs.sessions;
    for i := 0 to |read|
      invariant outputs.sessions == IncludingAll(Candidates(roots, OutputOf(compiler)), read[..i])
    {
      assert read[..i + 1][..i] == read[..i];
      outputs.Include(read[i]);
    }
    assert read[..|read|] == read;
    attribution := Degrade(outputs.sessions);
  }
}
