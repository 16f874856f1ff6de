/** The stateful side of build classification: one cycle at a time
    (src/build_monitor/build_classifier.rs). */
module BuildClassifier {
  import opened Common
  import opened Processes
  import opened Attribution
  import opened Classify
  import opened BuildLedgers

  /** What one refresh cycle observed, with the manifests on disk at that moment. */
  datatype Observation = Observation(processes: ProcessTable, candidates: seq<Candidate>, instant: Instant, disk: Disk)

  datatype ClassifierState = ClassifierState(tables: Tables, cycle: nat)

  const INITIAL := ClassifierState(Tables(map[], map[], map[]), 0)

  function NextCycle(cycle: nat): nat {
    SaturatingAdd(cycle, 1)
  }

  function CycleInputOf(state: ClassifierState, observation: Observation): CycleInput {
    CycleInput(observation.processes, observation.candidates, state.tables, NextCycle(state.cycle), observation.instant)
  }

  ghost predicate SightingsStep(before: map<Incarnation, FirstSeenEntry>, classification: Classification,
                                after: map<Incarnation, FirstSeenEntry>)
  {
    exists recorded ::
      && SightingsRecorded(before, classification.observed, classification.promoted, classification.cycle,
                           classification.instant, recorded)
      && SightingsPruned(recorded, classification.observed, after)
  }

  ghost predicate DirectoriesStep(before: map<Incarnation, BuildDirectoryEntry>, classification: Classification,
                                  after: map<Incarnation, BuildDirectoryEntry>)
  {
    DirectoriesRetained(DirectoriesRecorded(before, classification.buildDirectories, classification.cycle),
                        classification.sessions, classification.cycle, after)
  }

  ghost predicate ManifestsStep(before: map<Path, ManifestEntry>, classification: Classification, disk: Disk,
                                after: map<Path, ManifestEntry>)
  {
    exists revalidated, recorded ::
      && ManifestsRevalidated(before, classification.sourceRootsInUse, disk, classification.cycle, revalidated)
      && ManifestsRecorded(revalidated, classification.manifestRequests, disk, classification.cycle, recorded)
      && ManifestsTrimmed(recorded, after)
  }

  /** One cycle: classify against the tables as they stand, then apply what it asked for. */
  ghost predicate CycleRuns(before: ClassifierState, observation: Observation, classification: Classification,
                            after: ClassifierState)
  {
    && classification == ClassificationOf(CycleInputOf(before, observation))
    && after.cycle == NextCycle(before.cycle)
    && SightingsStep(before.tables.firstSeen, classification, after.tables.firstSeen)
    && DirectoriesStep(before.tables.buildDirectories, classification, after.tables.buildDirectories)
    && ManifestsStep(before.tables.manifests, classification, observation.disk, after.tables.manifests)
  }

  lemma RecordedTogether(before: map<Incarnation, FirstSeenEntry>, observed: seq<Incarnation>,
                         promoted: seq<Incarnation>,
                         cycle: nat, instant: Instant, middle: map<Incarnation, FirstSeenEntry>,
                         after: map<Incarnation, FirstSeenEntry>)
    requires SightingsRecorded(before, observed, [], cycle, instant, middle)
    requires SightingsRecorded(middle, [], promoted, cycle, instant, after)
    ensures SightingsRecorded(before, observed, promoted, cycle, instant, after)
  {
  }

  class Classifier {
    const manifests: DependencyManifestSnapshot
    const firstSeen: FirstSeenLedger
    const buildDirectories: BuildDirectoryLedger
    var cycle: nat

    ghost function State(): ClassifierState
      reads this, manifests, firstSeen, buildDirectories
    {
      ClassifierState(Tables(firstSeen.entries, buildDirectories.entries, manifests.entries), cycle)
    }

    constructor ()
      ensures State() == INITIAL
      ensures fresh(manifests) && fresh(firstSeen) && fresh(buildDirectories)
    {
      manifests := new DependencyManifestSnapshot();
      firstSeen := new FirstSeenLedger();
      buildDirectories := new BuildDirectoryLedger();
      cycle := 0;
    }

    method UpdateSightings(classification: Classification)
      modifies firstSeen
      ensures SightingsStep(old(firstSeen.entries), classification, firstSeen.entries)
    {
      firstSeen.RecordObserved(classification.observed, classification.cycle, classification.instant);
      ghost var middle := firstSeen.entries;
      firstSeen.RecordPromotions(classification.promoted, classification.cycle, classification.instant);
      RecordedTogether(old(firstSeen.entries), classification.observed, classification.promoted, classification.cycle,
                       classification.instant, middle, firstSeen.entries);
      firstSeen.Prune(classification.observed);
    }

    method UpdateManifests(classification: Classification, disk: Disk)
      modifies manifests
      ensures ManifestsStep(old(manifests.entries), classification, disk, manifests.entries)
    {
      manifests.Revalidate(classification.sourceRootsInUse, disk, classification.cycle);
      manifests.Record(classification.manifestRequests, disk, classification.cycle);
      manifests.EvictLeastRecentlyUsed();
    }

    method ClassifyCycle(observation: Observation) returns (classification: Classification)
      modifies this, manifests, firstSeen, buildDirectories
      ensures CycleRuns(old(State()), observation, classification, State())
    {
      cycle := SaturatingAdd(cycle, 1);
      var tables := Tables(firstSeen.entries, buildDirectories.entries, manifests.entries);
      classification := Classify.Classify(CycleInput(observation.processes, observation.candidates, tables, cycle,
                                                     observation.instant));
      buildDirectories.Record(classification.buildDirectories, classification.cycle);
      buildDirectories.RetainLive(classification.sessions, classification.cycle);
      UpdateSightings(classification);
      UpdateManifests(classification, observation.disk);
    }
  }
}
