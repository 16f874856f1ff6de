/** What the three tables of a build classifier keep, and which manifest is read
    (src/build_monitor/build_classifier.rs). */
module LedgerFacts {
  import opened Common
  import opened Processes
  import opened Attribution
  import opened Ordering
  import opened Classify
  import opened BuildLedgers
  import opened BuildClassifier
  import opened BuildClassifierRuns

  // ---------------------------------------------------------------------------
  // Which entries are kept
  // ---------------------------------------------------------------------------

  /** The keys of newer entries than this one's; of one age, those of greater identity. */
  function NewerThan(ages: map<Incarnation, nat>, key: Incarnation): set<Incarnation>
    requires key in ages
  {
    set other <- ages | ages[key] < ages[other] || (ages[key] == ages[other] && Before(key, other))
  }

  /** Eviction of the oldest keeps exactly the entries fewer than the cap are newer than. */
  lemma TrimmedMeans(ages: map<Incarnation, nat>, cap: nat, kept: set<Incarnation>, key: Incarnation)
    requires IsTrimmed(ages, cap, OlderOrSmaller, kept) && key in ages
    ensures key in kept <==> |NewerThan(ages, key)| < cap
  {
    var newer := NewerThan(ages, key);
    if key in kept {
      forall other | other in newer ensures other in kept {
        assert other !in kept ==> OlderOrSmaller(Rank(ages, other), Rank(ages, key));
      }
      assert key !in newer;
      SubsetSize(newer + {key}, kept);
    } else {
      forall other | other in kept ensures other in newer {
        assert OlderOrSmaller(Rank(ages, key), Rank(ages, other));
        DistinctIncarnations(key, other);
      }
      SubsetSize(kept, newer);
      if |ages| <= cap {
        UntrimmedWithinCap(ages, cap, OlderOrSmaller, kept);
      }
    }
  }

  lemma DistinctIncarnations(left: Incarnation, right: Incarnation)
    requires left != right
    ensures Before(left, right) <==> !Before(right, left)
  {
  }

  /** When a session's build directory was last used: now, if the session is shown. */
  function UsedAt(entries: map<Incarnation, BuildDirectoryEntry>, sessions: seq<BuildSession>, cycle: nat,
                  session: Incarnation): nat
    requires session in entries
  {
    if exists shown <- sessions :: shown.id == session then cycle else entries[session].lastUsed
  }

  /** A build directory is kept exactly when fewer than 1024 others were used later, counting
      this cycle's shown sessions as used now and ties by identity. */
  lemma RetainedMeans(before: map<Incarnation, BuildDirectoryEntry>, sessions: seq<BuildSession>, cycle: nat,
                      after: map<Incarnation, BuildDirectoryEntry>, session: Incarnation)
    requires DirectoriesRetained(before, sessions, cycle, after) && session in before
    ensures var ages := map other <- before :: UsedAt(before, sessions, cycle, other);
            && (session in after <==> |NewerThan(ages, session)| < 1_024)
            && (session in after ==>
                  after[session].name == before[session].name && after[session].lastUsed == ages[session])
  {
    TouchedAre(before, sessions, cycle);
    var touched := Touched(before, sessions, cycle);
    assert DirectoryAges(touched) == map other <- before :: UsedAt(before, sessions, cycle, other);
    TrimmedMeans(DirectoryAges(touched), 1_024, after.Keys, session);
  }

  // ---------------------------------------------------------------------------
  // Which manifest is read
  // ---------------------------------------------------------------------------

  /** The manifest a number of directories above a source root. */
  function ManifestPath(root: Path, above: nat): Path
    requires above <= |root|
  {
    root[..|root| - above] + ["Cargo.toml"]
  }

  predicate IsManifestAt(disk: Disk, root: Path, above: nat) {
    above <= |root| && ManifestPath(root, above) in disk && disk[ManifestPath(root, above)].readable
  }

  lemma OneHigher(disk: Disk, root: Path, above: nat)
    requires root != []
    ensures IsManifestAt(disk, root, above + 1) <==> IsManifestAt(disk, root[..|root| - 1], above)
    ensures above + 1 <= |root| ==> ManifestPath(root, above + 1) == ManifestPath(root[..|root| - 1], above)
  {
    if above + 1 <= |root| {
      assert root[..|root| - (above + 1)] == root[..|root| - 1][..|root| - 1 - above];
    }
  }

  /** The manifest found is the nearest readable one, from the root itself on upwards. */
  lemma {:induction false} NearestMeans(disk: Disk, root: Path, steps: nat) returns (above: Option<nat>)
    ensures above.None? ==>
              && NearestManifest(disk, root, steps).None?
              && forall k: nat :: k < steps ==> !IsManifestAt(disk, root, k)
    ensures above.Some? ==>
              && above.value < steps && IsManifestAt(disk, root, above.value)
              && NearestManifest(disk, root, steps) == Some(ManifestPath(root, above.value))
              && forall k: nat :: k < above.value ==> !IsManifestAt(disk, root, k)
    decreases steps
  {
    if steps == 0 {
      return None;
    }
    assert root[..|root| - 0] == root;
    if IsManifestAt(disk, root, 0) {
      return Some(0);
    }
    if root == [] {
      return None;
    }
    var higher := NearestMeans(disk, root[..|root| - 1], steps - 1);
    forall k: nat | 0 < k < steps ensures IsManifestAt(disk, root, k)
       <==> IsManifestAt(disk, root[..|root| - 1], k - 1) {
      OneHigher(disk, root, k - 1);
    }
    if higher.Some? {
      OneHigher(disk, root, higher.value);
      above := Some(higher.value + 1);
    } else {
      above := None;
    }
  }

  /** An entry is what the nearest manifest within six directories said when it was read; where
      there is none, it names no package and waits for one beside the root itself. */
  lemma ManifestReadMeans(disk: Disk, root: Path, cycle: nat) returns (above: Option<nat>)
    ensures var entry := ManifestRead(disk, root, cycle);
            && (above.Some? ==>
                  && above.value < 6 && IsManifestAt(disk, root, above.value)
                  && (forall k: nat :: k < above.value ==> !IsManifestAt(disk, root, k))
                  && entry.manifestPath == ManifestPath(root, above.value)
                  && entry.package == disk[entry.manifestPath].package)
            && (above.None? ==>
                  && (forall k: nat :: k < 6 ==> !IsManifestAt(disk, root, k))
                  && entry.manifestPath == ManifestPath(root, 0) && entry.package.None?)
            && IsFresh(disk, entry) && entry.lastUsed == cycle
  {
    above := NearestMeans(disk, root, 6);
    assert root[..|root| - 0] == root;
  }

  /** An entry is fresh while the file it was read from is as it was, or as absent. */
  lemma FreshMeans(disk: Disk, entry: ManifestEntry)
    ensures IsFresh(disk, entry) <==>
              match entry.stamp
              case Missing => entry.manifestPath !in disk
              case Present(modified, length) =>
                && entry.manifestPath in disk
                && disk[entry.manifestPath].modified == modified && disk[entry.manifestPath].length == length
  {
  }

  // ---------------------------------------------------------------------------
  // How large the tables get
  // ---------------------------------------------------------------------------

  ghost predicate IsCapped(tables: Tables) {
    |tables.firstSeen| <= 8_192 && |tables.buildDirectories| <= 1_024 && |tables.manifests| <= 4_096
  }

  lemma SightingsCapped(before: map<Incarnation, FirstSeenEntry>, classification: Classification,
                        after: map<Incarnation, FirstSeenEntry>)
    requires SightingsStep(before, classification, after)
    ensures |after| <= 8_192
  {
    assert |after| == |after.Keys|;
  }

  lemma DirectoriesCapped(before: map<Incarnation, BuildDirectoryEntry>, classification: Classification,
                          after: map<Incarnation, BuildDirectoryEntry>)
    requires DirectoriesStep(before, classification, after)
    ensures |after| <= 1_024
  {
    assert |after| == |after.Keys|;
  }

  lemma ManifestsCapped(before: map<Path, ManifestEntry>, classification: Classification, disk: Disk,
                        after: map<Path, ManifestEntry>)
    requires ManifestsStep(before, classification, disk, after)
    ensures |after| <= 4_096
  {
    assert |after| == |after.Keys|;
  }

  /** No table ever outgrows its cap. */
  lemma RunStaysCapped(states: seq<ClassifierState>, cycles: seq<Cycle>, i: nat)
    requires IsRun(states, cycles) && i < |states|
    ensures IsCapped(states[i].tables)
  {
    if i > 0 {
      assert RunsCycle(states, cycles, i - 1);
      var before, classification, after := states[i - 1].tables, cycles[i - 1].classification, states[i].tables;
      SightingsCapped(before.firstSeen, classification, after.firstSeen);
      DirectoriesCapped(before.buildDirectories, classification, after.buildDirectories);
      ManifestsCapped(before.manifests, classification, cycles[i - 1].observation.disk, after.manifests);
    }
  }
}
