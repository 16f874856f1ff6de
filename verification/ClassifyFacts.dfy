/** What every classification cycle guarantees. */
module ClassifyFacts {
  import opened Common
  import opened Processes
  import opened Attribution
  import opened Ordering
  import opened Classify

  function ActivityId(activity: CompileActivity): Incarnation {
    activity.id
  }

  function UnattributedId(activity: UnattributedActivity): Incarnation {
    activity.id
  }

  function CompilerId(compiler: Compiler): Incarnation {
    compiler.incarnation
  }

  function SessionId(session: BuildSession): Incarnation {
    session.id
  }

  ghost predicate DistinctIds(sessions: seq<BuildSession>) {
    forall i, j :: 0 <= i < j < |sessions| ==> sessions[i].id != sessions[j].id
  }

  ghost predicate AscendingIds(ids: seq<Incarnation>) {
    forall i, j :: 0 <= i < j < |ids| ==> Before(ids[i], ids[j])
  }

  // ---------------------------------------------------------------------------
  // Candidates
  // ---------------------------------------------------------------------------

  lemma {:induction false} RootsAre(input: CycleInput, candidates: seq<Candidate>, root: CargoRoot)
    ensures root in CollectedRoots(input, candidates) <==>
              exists candidate <- candidates :: candidate.CargoCandidate?
                && IsReadable(input.processes, candidate.root.incarnation)
                && root == UnderClassification(input, candidate.root)
  {
    if candidates != [] {
      RootsAre(input, candidates[..|candidates| - 1], root);
      assert candidates == candidates[..|candidates| - 1] + [candidates[|candidates| - 1]];
    }
  }

  lemma {:induction false} CompilersAre(processes: ProcessTable, candidates: seq<Candidate>, compiler: Compiler)
    ensures compiler in CollectedCompilers(processes, candidates)
       <==> CompilerCandidate(compiler) in candidates && IsReadable(processes, compiler.incarnation)
  {
    if candidates != [] {
      CompilersAre(processes, candidates[..|candidates| - 1], compiler);
      assert candidates == candidates[..|candidates| - 1] + [candidates[|candidates| - 1]];
    }
  }

  lemma {:induction false} ObservedAre(processes: ProcessTable, candidates: seq<Candidate>, incarnation: Incarnation)
    ensures incarnation in ObservedIncarnations(processes, candidates) <==>
              && IsCurrent(processes, incarnation)
              && exists candidate <- candidates :: IncarnationOf(candidate) == incarnation
  {
    if candidates != [] {
      ObservedAre(processes, candidates[..|candidates| - 1], incarnation);
      assert candidates == candidates[..|candidates| - 1] + [candidates[|candidates| - 1]];
    }
  }

  lemma LastIsAfter(candidates: seq<Candidate>, incarnation: Incarnation)
    requires Ascending(candidates) && candidates != []
    requires exists candidate <- candidates[..|candidates| - 1] :: IncarnationOf(candidate) == incarnation
    ensures Before(incarnation, IncarnationOf(candidates[|candidates| - 1]))
  {
    var fewer := candidates[..|candidates| - 1];
    var candidate :| candidate in fewer && IncarnationOf(candidate) == incarnation;
    var k :| 0 <= k < |fewer| && fewer[k] == candidate;
    assert candidates[k] == candidate;
  }

  ghost predicate RootsAscend(processes: ProcessTable, roots: seq<CargoRoot>) {
    && (forall root <- roots :: IsReadable(processes, root.incarnation))
    && forall i, j :: 0 <= i < j < |roots| ==> Before(roots[i].incarnation, roots[j].incarnation)
  }

  lemma {:induction false} CollectedRootsAscend(input: CycleInput, candidates: seq<Candidate>)
    requires Ascending(candidates)
    ensures RootsAscend(input.processes, CollectedRoots(input, candidates))
  {
    if candidates != [] {
      var fewer := candidates[..|candidates| - 1];
      CollectedRootsAscend(input, fewer);
      forall root | root in CollectedRoots(input, fewer)
        ensures Before(root.incarnation, IncarnationOf(candidates[|candidates| - 1]))
      {
        RootsAre(input, fewer, root);
        LastIsAfter(candidates, root.incarnation);
      }
    }
  }

  lemma {:induction false} CollectedCompilersAscend(processes: ProcessTable, candidates: seq<Candidate>)
    requires Ascending(candidates)
    ensures AscendingIds(Map(CompilerId, CollectedCompilers(processes, candidates)))
  {
    if candidates != [] {
      var fewer := candidates[..|candidates| - 1];
      CollectedCompilersAscend(processes, fewer);
      var before := CollectedCompilers(processes, fewer);
      forall k | 0 <= k < |before| ensures Before(before[k].incarnation, IncarnationOf(candidates[|candidates| - 1])) {
        var compiler := before[k];
        CompilersAre(processes, fewer, compiler);
        assert IncarnationOf(CompilerCandidate(compiler)) == compiler.incarnation;
        LastIsAfter(candidates, compiler.incarnation);
      }
    }
  }

  // ---------------------------------------------------------------------------
  // Nested roots
  // ---------------------------------------------------------------------------

  lemma {:induction false} OuterRootsAre(processes: ProcessTable, roots: seq<CargoRoot>, among: seq<CargoRoot>,
                                         root: CargoRoot)
    ensures root in OuterRoots(processes, roots, among) <==> root in among && !IsNested(processes, roots, root)
  {
    if among != [] {
      OuterRootsAre(processes, roots, among[..|among| - 1], root);
      assert among == among[..|among| - 1] + [among[|among| - 1]];
    }
  }

  lemma {:induction false} OuterRootsAscend(processes: ProcessTable, roots: seq<CargoRoot>, among: seq<CargoRoot>)
    requires RootsAscend(processes, among)
    ensures RootsAscend(processes, OuterRoots(processes, roots, among))
  {
    if among != [] {
      var fewer := among[..|among| - 1];
      OuterRootsAscend(processes, roots, fewer);
      forall root | root in OuterRoots(processes, roots, fewer)
        ensures root in fewer && Before(root.incarnation, among[|among| - 1].incarnation)
      {
        OuterRootsAre(processes, roots, fewer, root);
      }
    }
  }

  /** No surviving root has another survivor of its checkout among its ancestors. */
  lemma SurvivorsAreNotNested(processes: ProcessTable, roots: seq<CargoRoot>)
    ensures forall root <- DropNestedRoots(processes, roots), outer <- DropNestedRoots(processes, roots) ::
              !IsNestedIn(processes, outer, root)
  {
    forall root, outer | root in DropNestedRoots(processes, roots) && outer in DropNestedRoots(processes, roots)
      ensures !IsNestedIn(processes, outer, root)
    {
      OuterRootsAre(processes, roots, roots, root);
      OuterRootsAre(processes, roots, roots, outer);
    }
  }

  /** Every dropped root descends from a survivor of its own checkout, even when the outer
      roots between them were dropped too. */
  lemma {:induction false} DroppedRootReachesSurvivor(processes: ProcessTable, roots: seq<CargoRoot>, root: CargoRoot)
    returns (survivor: CargoRoot)
    requires root in roots && root !in DropNestedRoots(processes, roots)
    ensures survivor in DropNestedRoots(processes, roots)
    ensures DescendsFrom(processes, root.incarnation.identity, survivor.incarnation.identity)
    ensures SharesResolvedRoot(survivor.scope, root.scope)
    decreases Created(processes, root.incarnation.identity)
  {
    OuterRootsAre(processes, roots, roots, root);
    var outer :| outer in roots && IsNestedIn(processes, outer, root);
    var low, middle := root.incarnation.identity, outer.incarnation.identity;
    AncestorDescends(processes, low, MAX_DESCENDANT_WALK_DEPTH, middle);
    DescentIsStrictOrder(processes, low, middle, middle);
    if outer in DropNestedRoots(processes, roots) {
      survivor := outer;
    } else {
      survivor := DroppedRootReachesSurvivor(processes, roots, outer);
      DescentIsStrictOrder(processes, low, middle, survivor.incarnation.identity);
    }
  }

  /** A root is dropped exactly when another collected root of its checkout is within eight
      validated edges above it. */
  lemma DroppedMeans(processes: ProcessTable, roots: seq<CargoRoot>, root: CargoRoot)
    requires root in roots
    ensures root !in DropNestedRoots(processes, roots) <==>
              exists outer <- roots, n: nat :: 1 <= n <= 8
                && outer.incarnation.identity != root.incarnation.identity
                && NthParent(processes, root.incarnation.identity, n) == Some(outer.incarnation.identity)
                && SharesResolvedRoot(outer.scope, root.scope)
  {
    OuterRootsAre(processes, roots, roots, root);
    if root !in DropNestedRoots(processes, roots) {
      var outer :| outer in roots && IsNestedIn(processes, outer, root);
      var n := AncestorIsNthParent(processes, root.incarnation.identity, 8, outer.incarnation.identity);
    }
    if outer, n: nat :|
      && outer in roots && 1 <= n <= 8
      && outer.incarnation.identity != root.incarnation.identity
      && NthParent(processes, root.incarnation.identity, n) == Some(outer.incarnation.identity)
      && SharesResolvedRoot(outer.scope, root.scope)
    {
      NthParentIsAncestor(processes, root.incarnation.identity, 8, n);
      assert IsNestedIn(processes, outer, root);
    }
  }

  // ---------------------------------------------------------------------------
  // Compilers
  // ---------------------------------------------------------------------------

  /** Whether a compiler was attributed to a session. */
  predicate AttributedTo(input: CycleInput, roots: seq<CargoRoot>, complete: bool, compiler: Compiler,
                         session: Incarnation)
  {
    AttributedSession(Attribute(input.processes, roots, compiler, complete)) == Some(session)
  }

  lemma AttributedSessionIsARoot(input: CycleInput, roots: seq<CargoRoot>, complete: bool, compiler: Compiler)
    requires AttributedSession(Attribute(input.processes, roots, compiler, complete)).Some?
    ensures var session := AttributedSession(Attribute(input.processes, roots, compiler, complete)).value;
            FindRoot(roots, session).Some? && exists root <- roots :: root.incarnation == session
  {
    var attribution := Attribute(input.processes, roots, compiler, complete);
    var session := AttributedSession(attribution).value;
    ConfirmedMeans(input.processes, roots, compiler, complete, session);
    UniqueOutputMatchMeans(input.processes, roots, compiler, complete, session);
    assert session in Above(input.processes, roots, compiler) || session in Written(roots, compiler)
        || session in Read(roots, compiler);
  }

  /** What attaching one compiler appends. */
  lemma WithCompilerAppends(input: CycleInput, roots: seq<CargoRoot>, complete: bool, attached: AttachedCompilers,
                            compiler: Compiler)
    ensures var attribution := Attribute(input.processes, roots, compiler, complete);
            var session := AttributedSession(attribution);
            var extended := WithCompiler(input, roots, complete, attached, compiler);
            && extended.activities
               == attached.activities + (if session.Some? then [ActivityOf(input, compiler, attribution)] else [])
            && extended.unattributed
               == attached.unattributed + (if session.Some? then [] else [UnattributedOf(input, compiler, attribution)])
            && extended.promoted == attached.promoted + (if session.Some? then [session.value] else [])
            && extended.buildDirectories
                 == attached.buildDirectories + AddedDirectories(input, roots, complete, compiler)
  {
    if AttributedSession(Attribute(input.processes, roots, compiler, complete)).Some? {
      AttributedSessionIsARoot(input, roots, complete, compiler);
    }
  }

  function AddedDirectories(input: CycleInput, roots: seq<CargoRoot>, complete: bool,
                            compiler: Compiler): seq<SessionBuildDirectory>
  {
    match AttributedSession(Attribute(input.processes, roots, compiler, complete))
    case None => []
    case Some(session) =>
      match FindRoot(roots, session)
      case None => []
      case Some(root) => BuildDirectoriesOf(compiler, root)
  }

  lemma PartitionStep(activities: seq<CompileActivity>, activity: seq<CompileActivity>,
                      unattributed: seq<UnattributedActivity>, other: seq<UnattributedActivity>,
                      compilers: seq<Compiler>, compiler: Compiler)
    requires multiset(Map(ActivityId, activities)) + multiset(Map(UnattributedId, unattributed))
          == multiset(Map(CompilerId, compilers))
    requires (|activity| == 1 && activity[0].id == compiler.incarnation && other == [])
          || (|other| == 1 && other[0].id == compiler.incarnation && activity == [])
    ensures multiset(Map(ActivityId, activities + activity)) + multiset(Map(UnattributedId, unattributed + other))
         == multiset(Map(CompilerId, compilers + [compiler]))
  {
    MapAppends(ActivityId, activities, activity);
    MapAppends(UnattributedId, unattributed, other);
    MapAppends(CompilerId, compilers, [compiler]);
    assert Map(CompilerId, [compiler]) == [compiler.incarnation];
    assert Map(ActivityId, activity) + Map(UnattributedId, other) == [compiler.incarnation];
  }

  /** Each compiler is in exactly one of the two lists, once. */
  lemma {:induction false} AttachedPartition(input: CycleInput, roots: seq<CargoRoot>, complete: bool,
                                             compilers: seq<Compiler>)
    ensures var attached := Attached(input, roots, complete, compilers);
            multiset(Map(ActivityId, attached.activities)) + multiset(Map(UnattributedId, attached.unattributed))
            == multiset(Map(CompilerId, compilers))
  {
    if compilers != [] {
      var last := compilers[|compilers| - 1];
      var fewer := compilers[..|compilers| - 1];
      AttachedPartition(input, roots, complete, fewer);
      var before := Attached(input, roots, complete, fewer);
      WithCompilerAppends(input, roots, complete, before, last);
      var attribution := Attribute(input.processes, roots, last, complete);
      var attributed := AttributedSession(attribution).Some?;
      PartitionStep(before.activities, if attributed then [ActivityOf(input, last, attribution)] else [],
                    before.unattributed, if attributed then [] else [UnattributedOf(input, last, attribution)],
                    fewer, last);
      assert compilers == fewer + [last];
    }
  }

  /** The activity an attributed compiler is shown as. */
  predicate IsActivityOf(input: CycleInput, roots: seq<CargoRoot>, complete: bool, compiler: Compiler,
                         activity: CompileActivity)
  {
    var attribution := Attribute(input.processes, roots, compiler, complete);
    AttributedSession(attribution).Some? && activity == ActivityOf(input, compiler, attribution)
  }

  lemma AddedActivity(input: CycleInput, roots: seq<CargoRoot>, complete: bool, attached: AttachedCompilers,
                      compiler: Compiler, activity: CompileActivity)
    ensures activity in WithCompiler(input, roots, complete, attached, compiler).activities <==>
              activity in attached.activities || IsActivityOf(input, roots, complete, compiler, activity)
  {
    WithCompilerAppends(input, roots, complete, attached, compiler);
  }

  lemma {:induction false} ActivitiesAre(input: CycleInput, roots: seq<CargoRoot>, complete: bool,
                                         compilers: seq<Compiler>, activity: CompileActivity)
    ensures activity in Attached(input, roots, complete, compilers).activities <==>
              exists compiler <- compilers :: IsActivityOf(input, roots, complete, compiler, activity)
  {
    if compilers != [] {
      var fewer, last := compilers[..|compilers| - 1], compilers[|compilers| - 1];
      ActivitiesAre(input, roots, complete, fewer, activity);
      AddedActivity(input, roots, complete, Attached(input, roots, complete, fewer), last, activity);
      assert compilers == fewer + [last];
    }
  }

  /** The activity an unattributed compiler is shown as. */
  predicate IsUnattributedOf(input: CycleInput, roots: seq<CargoRoot>, complete: bool, compiler: Compiler,
                             activity: UnattributedActivity)
  {
    var attribution := Attribute(input.processes, roots, compiler, complete);
    AttributedSession(attribution).None? && activity == UnattributedOf(input, compiler, attribution)
  }

  lemma AddedUnattributed(input: CycleInput, roots: seq<CargoRoot>, complete: bool, attached: AttachedCompilers,
                          compiler: Compiler, activity: UnattributedActivity)
    ensures activity in WithCompiler(input, roots, complete, attached, compiler).unattributed <==>
              activity in attached.unattributed || IsUnattributedOf(input, roots, complete, compiler, activity)
  {
    WithCompilerAppends(input, roots, complete, attached, compiler);
  }

  lemma {:induction false} UnattributedAre(input: CycleInput, roots: seq<CargoRoot>, complete: bool,
                                           compilers: seq<Compiler>, activity: UnattributedActivity)
    ensures activity in Attached(input, roots, complete, compilers).unattributed <==>
              exists compiler <- compilers :: IsUnattributedOf(input, roots, complete, compiler, activity)
  {
    if compilers != [] {
      var fewer, last := compilers[..|compilers| - 1], compilers[|compilers| - 1];
      UnattributedAre(input, roots, complete, fewer, activity);
      AddedUnattributed(input, roots, complete, Attached(input, roots, complete, fewer), last, activity);
      assert compilers == fewer + [last];
    }
  }

  lemma {:induction false} PromotedAre(input: CycleInput, roots: seq<CargoRoot>, complete: bool,
                                       compilers: seq<Compiler>, session: Incarnation)
    ensures session in Attached(input, roots, complete, compilers).promoted <==>
              exists compiler <- compilers :: AttributedTo(input, roots, complete, compiler, session)
  {
    if compilers != [] {
      var last := compilers[|compilers| - 1];
      PromotedAre(input, roots, complete, compilers[..|compilers| - 1], session);
      assert compilers == compilers[..|compilers| - 1] + [last];
      var before := Attached(input, roots, complete, compilers[..|compilers| - 1]);
      WithCompilerAppends(input, roots, complete, before, last);
      var attributed := AttributedSession(Attribute(input.processes, roots, last, complete));
      assert Attached(input, roots, complete, compilers).promoted
          == before.promoted + (if attributed.Some? then [attributed.value] else []);
      assert AttributedTo(input, roots, complete, last, session) <==> attributed == Some(session);
    }
  }

  /** A compiler attributed to a surviving root writes under a build directory of its session. */
  ghost predicate WritesUnder(input: CycleInput, roots: seq<CargoRoot>, complete: bool, compiler: Compiler,
                              directory: SessionBuildDirectory)
  {
    && AttributedTo(input, roots, complete, compiler, directory.session)
    && FindRoot(roots, directory.session).Some?
    && ObservedBuildDirectory(compiler, FindRoot(roots, directory.session).value) == Some(directory.name)
  }

  lemma AddedDirectoriesAre(input: CycleInput, roots: seq<CargoRoot>, complete: bool, compiler: Compiler,
                            directory: SessionBuildDirectory)
    ensures directory in AddedDirectories(input, roots, complete, compiler) <==>
              WritesUnder(input, roots, complete, compiler, directory)
  {
  }

  lemma AddedDirectory(input: CycleInput, roots: seq<CargoRoot>, complete: bool, attached: AttachedCompilers,
                       compiler: Compiler, directory: SessionBuildDirectory)
    ensures directory in WithCompiler(input, roots, complete, attached, compiler).buildDirectories <==>
              directory in attached.buildDirectories || WritesUnder(input, roots, complete, compiler, directory)
  {
    WithCompilerAppends(input, roots, complete, attached, compiler);
    AddedDirectoriesAre(input, roots, complete, compiler, directory);
  }

  lemma {:induction false} BuildDirectoriesAre(input: CycleInput, roots: seq<CargoRoot>, complete: bool,
                                               compilers: seq<Compiler>, directory: SessionBuildDirectory)
    ensures directory in Attached(input, roots, complete, compilers).buildDirectories <==>
              exists compiler <- compilers :: WritesUnder(input, roots, complete, compiler, directory)
  {
    if compilers != [] {
      var fewer, last := compilers[..|compilers| - 1], compilers[|compilers| - 1];
      BuildDirectoriesAre(input, roots, complete, fewer, directory);
      AddedDirectory(input, roots, complete, Attached(input, roots, complete, fewer), last, directory);
      assert compilers == fewer + [last];
    }
  }

  lemma WithCompilerRequests(input: CycleInput, roots: seq<CargoRoot>, complete: bool, attached: AttachedCompilers,
                             compiler: Compiler)
    ensures var extended := WithCompiler(input, roots, complete, attached, compiler);
            var used := if compiler.crate.DependencyRoot? then [compiler.crate.root] else [];
            && extended.sourceRootsInUse == attached.sourceRootsInUse + used
            && extended.manifestRequests
               == attached.manifestRequests + (if used != [] && used[0] in input.tables.manifests then [] else used)
  {
  }

  /** The source roots in use, and those no manifest read has been tried for. */
  lemma {:induction false} ManifestRequestsAre(input: CycleInput, roots: seq<CargoRoot>, complete: bool,
                                               compilers: seq<Compiler>, root: Path)
    ensures var attached := Attached(input, roots, complete, compilers);
            && (root in attached.sourceRootsInUse <==>
                  exists compiler <- compilers :: compiler.crate == DependencyRoot(root))
            && (root in attached.manifestRequests <==>
                  root in attached.sourceRootsInUse && root !in input.tables.manifests)
  {
    if compilers != [] {
      var fewer, last := compilers[..|compilers| - 1], compilers[|compilers| - 1];
      ManifestRequestsAre(input, roots, complete, fewer, root);
      WithCompilerRequests(input, roots, complete, Attached(input, roots, complete, fewer), last);
      assert compilers == fewer + [last];
    }
  }

  // ---------------------------------------------------------------------------
  // Sessions
  // ---------------------------------------------------------------------------

  lemma {:induction false} SessionsForAre(input: CycleInput, roots: seq<CargoRoot>, promoted: seq<Incarnation>,
                                          directories: seq<SessionBuildDirectory>, session: BuildSession)
    ensures session in SessionsFor(input, roots, promoted, directories) <==>
              exists root <- roots ::
                IsCompiling(input, promoted, root) && session == SessionOf(input, directories, root)
  {
    if roots != [] {
      SessionsForAre(input, roots[..|roots| - 1], promoted, directories, session);
      assert roots == roots[..|roots| - 1] + [roots[|roots| - 1]];
    }
  }

  lemma {:induction false} SessionsForAscend(input: CycleInput, roots: seq<CargoRoot>, promoted: seq<Incarnation>,
                                             directories: seq<SessionBuildDirectory>)
    requires RootsAscend(input.processes, roots)
    ensures AscendingIds(Map(SessionId, SessionsFor(input, roots, promoted, directories)))
  {
    if roots != [] {
      var fewer := roots[..|roots| - 1];
      SessionsForAscend(input, fewer, promoted, directories);
      var before := SessionsFor(input, fewer, promoted, directories);
      forall k | 0 <= k < |before| ensures Before(before[k].id, roots[|roots| - 1].incarnation) {
        SessionsForAre(input, fewer, promoted, directories, before[k]);
      }
    }
  }

  /** A session is shown for exactly the surviving roots that compile: by their argv, by a
      compiler of this cycle, or by promotion in an earlier one. */
  lemma SessionsAre(input: CycleInput, session: BuildSession)
    ensures session in ClassificationOf(input).sessions <==>
              exists root <- RootsOf(input) ::
                && IsCompiling(input, ClassificationOf(input).promoted, root)
                && session == SessionOf(input, AttachedOf(input).buildDirectories, root)
  {
    var attached := AttachedOf(input);
    SessionsForAre(input, RootsOf(input), attached.promoted, attached.buildDirectories, session);
    SortPermutes(SessionsFor(input, RootsOf(input), attached.promoted, attached.buildDirectories), SessionNotAfter);
  }

  lemma RootsOfAscend(input: CycleInput)
    requires Ascending(input.candidates)
    ensures RootsAscend(input.processes, RootsOf(input))
  {
    CollectedRootsAscend(input, input.candidates);
    OuterRootsAscend(input.processes, CollectedRoots(input, input.candidates), CollectedRoots(input, input.candidates));
  }

  lemma SortedSessions(collected: seq<BuildSession>)
    requires AscendingIds(Map(SessionId, collected))
    ensures var sorted := SortBy(collected, SessionNotAfter);
            DistinctIds(sorted) && IsSorted(sorted, SessionNotAfter)
  {
    SortSorts(collected, SessionNotAfter);
    SortPermutes(collected, SessionNotAfter);
    var sorted := SortBy(collected, SessionNotAfter);
    MapPermutes(SessionId, sorted, collected);
    var ids := Map(SessionId, sorted);
    DistinctPermutes(ids, Map(SessionId, collected));
    assert forall i, j :: 0 <= i < j < |sorted| ==> ids[i] != ids[j];
  }

  /** Sessions have distinct identities and stand by first sighting, ties by identity. */
  lemma SessionsAreOrdered(input: CycleInput)
    requires Ascending(input.candidates)
    ensures DistinctIds(ClassificationOf(input).sessions)
    ensures IsSorted(ClassificationOf(input).sessions, SessionNotAfter)
  {
    var attached := AttachedOf(input);
    RootsOfAscend(input);
    SessionsForAscend(input, RootsOf(input), attached.promoted, attached.buildDirectories);
    SortedSessions(SessionsFor(input, RootsOf(input), attached.promoted, attached.buildDirectories));
  }

  // ---------------------------------------------------------------------------
  // The whole cycle
  // ---------------------------------------------------------------------------

  /** A session some compiler of the cycle was attributed to is shown. */
  lemma AttributedSessionIsShown(input: CycleInput, compiler: Compiler, id: Incarnation)
    requires compiler in CompilersOf(input)
    requires AttributedTo(input, RootsOf(input), IsComplete(input.processes, input.candidates), compiler, id)
    ensures exists session <- ClassificationOf(input).sessions :: session.id == id
  {
    var roots, complete := RootsOf(input), IsComplete(input.processes, input.candidates);
    AttributedSessionIsARoot(input, roots, complete, compiler);
    var root :| root in roots && root.incarnation == id;
    PromotedAre(input, roots, complete, CompilersOf(input), id);
    var session := SessionOf(input, AttachedOf(input).buildDirectories, root);
    SessionsAre(input, session);
    assert session in ClassificationOf(input).sessions && session.id == id;
  }

  /** The compiler an attributed activity stands for. */
  lemma ActivityHasCompiler(input: CycleInput, activity: CompileActivity) returns (compiler: Compiler)
    requires activity in ClassificationOf(input).activities
    ensures compiler in CompilersOf(input) && AttributedSession(activity.attribution).Some?
    ensures AttributedTo(input, RootsOf(input), IsComplete(input.processes, input.candidates), compiler,
                         AttributedSession(activity.attribution).value)
  {
    var roots, complete := RootsOf(input), IsComplete(input.processes, input.candidates);
    SortPermutes(AttachedOf(input).activities, ActivityNotAfter);
    ActivitiesAre(input, roots, complete, CompilersOf(input), activity);
    compiler :| compiler in CompilersOf(input) && IsActivityOf(input, roots, complete, compiler, activity);
  }

  /** Every attributed activity names exactly one session, and that session is in the same
      cycle's list. */
  lemma ActivityNamesShownSession(input: CycleInput, activity: CompileActivity)
    requires activity in ClassificationOf(input).activities
    ensures AttributedSession(activity.attribution).Some?
    ensures exists session <- ClassificationOf(input).sessions ::
              session.id == AttributedSession(activity.attribution).value
  {
    var compiler := ActivityHasCompiler(input, activity);
    AttributedSessionIsShown(input, compiler, AttributedSession(activity.attribution).value);
  }

  lemma SortedActivities(attached: AttachedCompilers, compilers: seq<Compiler>)
    requires multiset(Map(ActivityId, attached.activities)) + multiset(Map(UnattributedId, attached.unattributed))
          == multiset(Map(CompilerId, compilers))
    ensures multiset(Map(ActivityId, SortBy(attached.activities, ActivityNotAfter)))
            + multiset(Map(UnattributedId, SortBy(attached.unattributed, UnattributedNotAfter)))
         == multiset(Map(CompilerId, compilers))
  {
    SortPermutes(attached.activities, ActivityNotAfter);
    SortPermutes(attached.unattributed, UnattributedNotAfter);
    MapPermutes(ActivityId, SortBy(attached.activities, ActivityNotAfter), attached.activities);
    MapPermutes(UnattributedId, SortBy(attached.unattributed, UnattributedNotAfter), attached.unattributed);
  }

  /** The recognized compilers, each of a different incarnation, are split between the
      attributed and the unattributed list. */
  lemma CompilersArePartitioned(input: CycleInput)
    requires Ascending(input.candidates)
    ensures Distinct(Map(CompilerId, CompilersOf(input)))
    ensures multiset(Map(ActivityId, ClassificationOf(input).activities))
            + multiset(Map(UnattributedId, ClassificationOf(input).unattributed))
         == multiset(Map(CompilerId, CompilersOf(input)))
  {
    AttachedPartition(input, RootsOf(input), IsComplete(input.processes, input.candidates), CompilersOf(input));
    SortedActivities(AttachedOf(input), CompilersOf(input));
    CollectedCompilersAscend(input.processes, input.candidates);
  }
}
