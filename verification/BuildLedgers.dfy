/** The three bounded tables a build classifier keeps between cycles
    (src/build_monitor/build_classifier.rs). */
module BuildLedgers {
  import opened Common
  import opened Processes
  import opened Attribution
  import opened Ordering
  import opened Classify

  const MAX_FIRST_SEEN_ENTRIES: nat := 8_192
  const MAX_BUILD_DIRECTORY_ENTRIES: nat := 1_024
  const MAX_DEPENDENCY_MANIFEST_ENTRIES: nat := 4_096
  const MAX_MANIFEST_SEARCH_DEPTH: nat := 6
  const MANIFEST_FILE_NAME := "Cargo.toml"

  // ---------------------------------------------------------------------------
  // Eviction
  // ---------------------------------------------------------------------------

  datatype Ranked<K> = Ranked(age: nat, key: K)

  function Rank<K>(ages: map<K, nat>, key: K): Ranked<K>
    requires key in ages
  {
    Ranked(ages[key], key)
  }

  /** `kept` is what is left of a table after its oldest entries beyond the cap are dropped. */
  ghost predicate IsTrimmed<K(!new)>(ages: map<K, nat>, cap: nat, notAfter: (Ranked<K>, Ranked<K>) -> bool,
                                     kept: set<K>)
  {
    && kept <= ages.Keys
    && |kept| == (if |ages| <= cap then |ages| else cap)
    && forall gone <- ages.Keys - kept, stays <- kept :: notAfter(Rank(ages, gone), Rank(ages, stays))
  }

  lemma OldestExists<K(!new)>(ages: map<K, nat>, keys: set<K>,
                              notAfter: (Ranked<K>, Ranked<K>) -> bool)
      returns (oldest: K)
    requires keys != {} && keys <= ages.Keys && TotalOrder(notAfter)
    ensures oldest in keys && forall key <- keys :: notAfter(Rank(ages, oldest), Rank(ages, key))
    decreases keys
  {
    var key :| key in keys;
    oldest := key;
    if keys != {key} {
      var other := OldestExists(ages, keys - {key}, notAfter);
      if !notAfter(Rank(ages, key), Rank(ages, other)) {
        oldest := other;
      }
    }
  }

  /** Drops the oldest entries until no more than `cap` are left. */
  method Trim<K(==, !new)>(ages: map<K, nat>, cap: nat, notAfter: (Ranked<K>, Ranked<K>) -> bool) returns (kept: set<K>)
    requires TotalOrder(notAfter)
    ensures IsTrimmed(ages, cap, notAfter, kept)
  {
    kept := ages.Keys;
    assert |kept| == |ages|;
    while |kept| > cap
      invariant kept <= ages.Keys
      invariant |kept| <= |ages| && (|ages| <= cap ==> |kept| == |ages|) && (|ages| > cap ==> |kept| >= cap)
      invariant forall gone <- ages.Keys - kept, stays <- kept :: notAfter(Rank(ages, gone), Rank(ages, stays))
      decreases |kept|
    {
      ghost var someOldest := OldestExists(ages, kept, notAfter);
      var oldest :| oldest in kept && forall key <- kept :: notAfter(Rank(ages, oldest), Rank(ages, key));
      kept := kept - {oldest};
    }
  }

  /** Oldest first; entries of one age in any order. */
  predicate OlderOrEqual<K>(left: Ranked<K>, right: Ranked<K>) {
    left.age <= right.age
  }

  /** Oldest first; entries of one age by identity. */
  predicate OlderOrSmaller(left: Ranked<Incarnation>, right: Ranked<Incarnation>) {
    left.age < right.age || (left.age == right.age && !Before(right.key, left.key))
  }

  /** A table with no more entries than its cap loses none. */
  lemma UntrimmedWithinCap<K(!new)>(ages: map<K, nat>, cap: nat, notAfter: (Ranked<K>, Ranked<K>) -> bool, kept: set<K>)
    requires IsTrimmed(ages, cap, notAfter, kept) && |ages| <= cap
    ensures kept == ages.Keys
  {
    SubsetSize(kept, ages.Keys);
  }

  lemma SubsetSize<K>(small: set<K>, large: set<K>)
    requires small <= large
    ensures |small| <= |large|
    ensures |small| == |large| ==> small == large
  {
    assert large == small + (large - small);
  }

  /** Entries of the newest age survive when no more than `cap` entries have it. */
  lemma NewestSurvive<K(!new)>(ages: map<K, nat>, cap: nat, notAfter: (Ranked<K>, Ranked<K>) -> bool, kept: set<K>,
                               newest: set<K>, key: K)
    requires IsTrimmed(ages, cap, notAfter, kept)
    requires forall left, right :: notAfter(left, right) ==> left.age <= right.age
    requires newest <= ages.Keys && |newest| <= cap
    requires forall k <- ages :: k in newest <==> forall other <- ages :: ages[other] <= ages[k]
    requires key in newest
    ensures key in kept
  {
    if key !in kept {
      forall stays | stays in kept ensures stays in newest {
        assert notAfter(Rank(ages, key), Rank(ages, stays));
      }
      SubsetSize(kept, newest - {key});
      if |ages| <= cap {
        UntrimmedWithinCap(ages, cap, notAfter, kept);
      }
    }
  }

  // ---------------------------------------------------------------------------
  // First sightings and promotions
  // ---------------------------------------------------------------------------

  function SeenAges(entries: map<Incarnation, FirstSeenEntry>): map<Incarnation, nat> {
    map incarnation <- entries :: entries[incarnation].firstSeen
  }

  /** The ledger after a cycle's sightings and promotions are recorded, before pruning. */
  ghost predicate SightingsRecorded(before: map<Incarnation, FirstSeenEntry>, observed: seq<Incarnation>,
                                    promoted: seq<Incarnation>, cycle: nat, instant: Instant,
                                    after: map<Incarnation, FirstSeenEntry>)
  {
    && (forall incarnation ::
          incarnation in after <==> incarnation in before || incarnation in observed || incarnation in promoted)
    && forall incarnation <- after ::
         var known := if incarnation in before then before[incarnation] else FirstSeenEntry(cycle, instant, false);
         after[incarnation] == known.(promoted := known.promoted || incarnation in promoted)
  }

  /** Only observed incarnations stay, and of those the latest first seen. */
  ghost predicate SightingsPruned(before: map<Incarnation, FirstSeenEntry>, observed: seq<Incarnation>,
                                  after: map<Incarnation, FirstSeenEntry>)
  {
    var live := map incarnation <- before | incarnation in observed :: before[incarnation];
    && after.Keys <= live.Keys
    && (forall incarnation <- after :: after[incarnation] == live[incarnation])
    && IsTrimmed(SeenAges(live), MAX_FIRST_SEEN_ENTRIES, OlderOrEqual, after.Keys)
  }

  class FirstSeenLedger {
    var entries: map<Incarnation, FirstSeenEntry>

    constructor ()
      ensures entries == map[]
    {
      entries := map[];
    }

    method RecordObserved(observed: seq<Incarnation>, cycle: nat, instant: Instant)
      modifies this
      ensures SightingsRecorded(old(entries), observed, [], cycle, instant, entries)
    {
      for i := 0 to |observed|
        invariant SightingsRecorded(old(entries), observed[..i], [], cycle, instant, entries)
      {
        assert observed[..i + 1] == observed[..i] + [observed[i]];
        if observed[i] !in entries {
          entries := entries[observed[i] := FirstSeenEntry(cycle, instant, false)];
        }
      }
      assert observed[..|observed|] == observed;
    }

    method RecordPromotions(promoted: seq<Incarnation>, cycle: nat, instant: Instant)
      modifies this
      ensures SightingsRecorded(old(entries), [], promoted, cycle, instant, entries)
    {
      for i := 0 to |promoted|
        invariant SightingsRecorded(old(entries), [], promoted[..i], cycle, instant, entries)
      {
        assert promoted[..i + 1] == promoted[..i] + [promoted[i]];
        var entry := if promoted[i] in entries then entries[promoted[i]] else FirstSeenEntry(cycle, instant, false);
        entries := entries[promoted[i] := entry.(promoted := true)];
      }
      assert promoted[..|promoted|] == promoted;
    }

    method Prune(observed: seq<Incarnation>)
      modifies this
      ensures SightingsPruned(old(entries), observed, entries)
    {
      entries := map incarnation <- entries | incarnation in observed :: entries[incarnation];
      ghost var live := entries;
      var kept := Trim(SeenAges(entries), MAX_FIRST_SEEN_ENTRIES, OlderOrEqual);
      entries := map incarnation <- entries | incarnation in kept :: entries[incarnation];
      assert entries.Keys == kept;
    }
  }

  // ---------------------------------------------------------------------------
  // Build directories
  // ---------------------------------------------------------------------------

  function DirectoryAges(entries: map<Incarnation, BuildDirectoryEntry>): map<Incarnation, nat> {
    map session <- entries :: entries[session].lastUsed
  }

  /** Each session's entry names its last directory in the list. */
  function DirectoriesRecorded(entries: map<Incarnation, BuildDirectoryEntry>, directories: seq<SessionBuildDirectory>,
                               cycle: nat): map<Incarnation, BuildDirectoryEntry>
  {
    if directories == [] then entries
    else
      var last := directories[|directories| - 1];
      var recorded := DirectoriesRecorded(entries, directories[..|directories| - 1], cycle);
      recorded[last.session := BuildDirectoryEntry(last.name, cycle)]
  }

  /** Shown sessions become the most recently used. */
  function Touched(entries: map<Incarnation, BuildDirectoryEntry>, sessions: seq<BuildSession>,
                   cycle: nat): map<Incarnation, BuildDirectoryEntry>
  {
    if sessions == [] then entries
    else
      var touched := Touched(entries, sessions[..|sessions| - 1], cycle);
      var id := sessions[|sessions| - 1].id;
      if id in touched then touched[id := touched[id].(lastUsed := cycle)] else touched
  }

  lemma {:induction false} TouchedAre(entries: map<Incarnation, BuildDirectoryEntry>, sessions: seq<BuildSession>,
                                      cycle: nat)
    ensures var touched := Touched(entries, sessions, cycle);
            && touched.Keys == entries.Keys
            && forall id <- touched ::
                 touched[id]
                 == if exists shown <- sessions :: shown.id == id then entries[id].(lastUsed := cycle) else entries[id]
  {
    if sessions != [] {
      TouchedAre(entries, sessions[..|sessions| - 1], cycle);
      assert sessions == sessions[..|sessions| - 1] + [sessions[|sessions| - 1]];
    }
  }

  /** Beyond the cap the least recently used entries go. */
  ghost predicate DirectoriesRetained(before: map<Incarnation, BuildDirectoryEntry>, sessions: seq<BuildSession>,
                                      cycle: nat, after: map<Incarnation, BuildDirectoryEntry>)
  {
    var touched := Touched(before, sessions, cycle);
    && after.Keys <= touched.Keys
    && (forall session <- after :: after[session] == touched[session])
    && IsTrimmed(DirectoryAges(touched), MAX_BUILD_DIRECTORY_ENTRIES, OlderOrSmaller, after.Keys)
  }

  class BuildDirectoryLedger {
    var entries: map<Incarnation, BuildDirectoryEntry>

    constructor ()
      ensures entries == map[]
    {
      entries := map[];
    }

    method Record(directories: seq<SessionBuildDirectory>, cycle: nat)
      modifies this
      ensures entries == DirectoriesRecorded(old(entries), directories, cycle)
    {
      for i := 0 to |directories|
        invariant entries == DirectoriesRecorded(old(entries), directories[..i], cycle)
      {
        assert directories[..i + 1][..i] == directories[..i];
        entries := entries[directories[i].session := BuildDirectoryEntry(directories[i].name, cycle)];
      }
      assert directories[..|directories|] == directories;
    }

    method RetainLive(sessions: seq<BuildSession>, cycle: nat)
      modifies this
      ensures DirectoriesRetained(old(entries), sessions, cycle, entries)
    {
      for i := 0 to |sessions|
        invariant entries == Touched(old(entries), sessions[..i], cycle)
      {
        assert sessions[..i + 1][..i] == sessions[..i];
        var id := sessions[i].id;
        if id in entries {
          entries := entries[id := entries[id].(lastUsed := cycle)];
        }
      }
      assert sessions[..|sessions|] == sessions;
      var kept := Trim(DirectoryAges(entries), MAX_BUILD_DIRECTORY_ENTRIES, OlderOrSmaller);
      entries := map session <- entries | session in kept :: entries[session];
      assert entries.Keys == kept;
    }
  }

  // ---------------------------------------------------------------------------
  // Dependency manifests
  // ---------------------------------------------------------------------------

  /** A file can be there and still not be readable as text. */
  datatype ManifestFile = ManifestFile(modified: int, length: nat, readable: bool, package: Option<string>)

  /** The manifests on disk, by path. */
  type Disk = map<Path, ManifestFile>

  function StampOf(disk: Disk, path: Path): ManifestStamp {
    if path in disk then Present(disk[path].modified, disk[path].length) else Missing
  }

  predicate IsReadableManifest(disk: Disk, path: Path) {
    path in disk && disk[path].readable
  }

  /** The nearest readable manifest at or above a directory, within a number of steps. */
  function NearestManifest(disk: Disk, directory: Path, steps: nat): Option<Path>
    decreases steps
  {
    if steps == 0 then None
    else if IsReadableManifest(disk, directory + [MANIFEST_FILE_NAME]) then Some(directory + [MANIFEST_FILE_NAME])
    else if directory == [] then None
    else NearestManifest(disk, directory[..|directory| - 1], steps - 1)
  }

  function ManifestRead(disk: Disk, root: Path, cycle: nat): ManifestEntry {
    match NearestManifest(disk, root, MAX_MANIFEST_SEARCH_DEPTH)
    case Some(path) =>
      ManifestEntry(path, StampOf(disk, path), if path in disk then disk[path].package else None, cycle)
    case None =>
      var path := root + [MANIFEST_FILE_NAME];
      ManifestEntry(path, StampOf(disk, path), None, cycle)
  }

  /** The manifest an entry was read from is as it was. */
  predicate IsFresh(disk: Disk, entry: ManifestEntry) {
    StampOf(disk, entry.manifestPath) == entry.stamp
  }

  function ManifestAges(entries: map<Path, ManifestEntry>): map<Path, nat> {
    map root <- entries :: entries[root].lastUsed
  }

  ghost predicate ManifestsRevalidated(before: map<Path, ManifestEntry>, inUse: seq<Path>, disk: Disk, cycle: nat,
                                       after: map<Path, ManifestEntry>)
  {
    && (forall root :: root in after <==> root in before && (root in inUse ==> IsFresh(disk, before[root])))
    && forall root <- after :: after[root] == if root in inUse then before[root].(lastUsed := cycle) else before[root]
  }

  ghost predicate ManifestsRecorded(before: map<Path, ManifestEntry>, requests: seq<Path>, disk: Disk, cycle: nat,
                                    after: map<Path, ManifestEntry>)
  {
    && (forall root :: root in after <==> root in before || root in requests)
    && forall root <- after :: after[root] == if root in requests then ManifestRead(disk, root, cycle) else before[root]
  }

  ghost predicate ManifestsTrimmed(before: map<Path, ManifestEntry>, after: map<Path, ManifestEntry>) {
    && after.Keys <= before.Keys
    && (forall root <- after :: after[root] == before[root])
    && IsTrimmed(ManifestAges(before), MAX_DEPENDENCY_MANIFEST_ENTRIES, OlderOrEqual, after.Keys)
  }

  class DependencyManifestSnapshot {
    var entries: map<Path, ManifestEntry>

    constructor ()
      ensures entries == map[]
    {
      entries := map[];
    }

    method ReadNearestManifest(disk: Disk, root: Path) returns (path: Path, package: Option<string>)
      ensures var read := ManifestRead(disk, root, 0); path == read.manifestPath && package == read.package
    {
      var directory := root;
      var steps := MAX_MANIFEST_SEARCH_DEPTH;
      while steps > 0
        invariant NearestManifest(disk, directory, steps) == NearestManifest(disk, root, MAX_MANIFEST_SEARCH_DEPTH)
      {
        path := directory + [MANIFEST_FILE_NAME];
        if IsReadableManifest(disk, path) {
          return path, disk[path].package;
        }
        if directory == [] {
          break;
        }
        directory := directory[..|directory| - 1];
        steps := steps - 1;
      }
      path, package := root + [MANIFEST_FILE_NAME], None;
    }

    method Record(requests: seq<Path>, disk: Disk, cycle: nat)
      modifies this
      ensures ManifestsRecorded(old(entries), requests, disk, cycle, entries)
    {
      for i := 0 to |requests|
        invariant ManifestsRecorded(old(entries), requests[..i], disk, cycle, entries)
      {
        assert requests[..i + 1] == requests[..i] + [requests[i]];
        var path, package := ReadNearestManifest(disk, requests[i]);
        entries := entries[requests[i] := ManifestEntry(path, StampOf(disk, path), package, cycle)];
      }
      assert requests[..|requests|] == requests;
    }

    method Revalidate(inUse: seq<Path>, disk: Disk, cycle: nat)
      modifies this
      ensures ManifestsRevalidated(old(entries), inUse, disk, cycle, entries)
    {
      var stale: set<Path> := {};
      for i := 0 to |inUse|
        invariant entries.Keys == old(entries).Keys
        invariant forall root <- entries :: root in stale <==> root in inUse[..i] && !IsFresh(disk, old(entries)[root])
        invariant forall root <- entries ::
                    var was := old(entries)[root];
                    entries[root] == if root in inUse[..i] && root !in stale then was.(lastUsed := cycle) else was
      {
        assert inUse[..i + 1] == inUse[..i] + [inUse[i]];
        var root := inUse[i];
        if root in entries {
          if IsFresh(disk, entries[root]) {
            entries := entries[root := entries[root].(lastUsed := cycle)];
          } else {
            stale := stale + {root};
          }
        }
      }
      assert inUse[..|inUse|] == inUse;
      entries := entries - stale;
    }

    method EvictLeastRecentlyUsed()
      modifies this
      ensures ManifestsTrimmed(old(entries), entries)
    {
      var kept := Trim(ManifestAges(entries), MAX_DEPENDENCY_MANIFEST_ENTRIES, OlderOrEqual);
      entries := map root <- entries | root in kept :: entries[root];
      assert entries.Keys == kept;
    }
  }
}
