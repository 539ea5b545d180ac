/** One approved repair from drift check to verdict: what it may touch, what each
    outcome says about the files, and what it takes to be called RESOLVED. */
module RemediationLifecycle {
  import opened Ordering
  import opened RepairPlan
  import opened DurableBaseline
  import opened RepairLog
  import opened RemediationTools
  import Authorization
  import TargetRediscovery
  import TokenReplacement

  datatype Outcome =
    | Blocked | ValidationFailed | RolledBack | RollbackFailed
    | Inconclusive | Regressed | StillPresent | Resolved

  // ---- What the house answers ------------------------------------------------

  datatype Known = Known(
    rootCause: string, materialDigest: string, priority: string, evidenceStatus: string,
    subjects: seq<string>, findings: set<string>)

  /** A protected invariant; `holds` is absent when it could not be evaluated. */
  datatype Invariant = Invariant(id: string, holds: Option<bool>)

  datatype Row = Row(incidentId: string, lifecycle: string, priority: string, findings: set<string>)

  datatype Scan = Scan(id: string, state: string)

  datatype World = World(
    incidentOf: string -> Option<Known>, stateOf: string -> Option<string>,
    active: seq<string>, unreadable: set<string>, off: string -> set<string>,
    registry: seq<Authorization.Dependency>, intentSevers: bool, createdAt: string,
    persistence: bool, rollbackOnRegression: bool,
    configValid: bool, invariants: seq<Invariant>, scanId: string, rows: seq<Row>,
    post: Aftermath)

  datatype Aftermath = Aftermath(
    configValid: bool, reloads: seq<bool>, replacementResolvable: bool, newlyUnavailable: bool,
    attributableErrors: bool, worsened: bool, invariants: seq<Invariant>,
    scan: Option<Scan>, rows: Option<seq<Row>>, active: seq<string>, unreadable: set<string>, rowsAfter: seq<Row>,
    rollbackConfigValid: bool, rollbackReloads: seq<bool>)

  const ActiveLifecycles: set<string> := {"new", "investigating", "confirmed", "recurring", "regressed"}

  const CommittedScanStates: set<string> := {"complete", "completed", "partial"}

  // ---- Checkpoints -------------------------------------------------------------

  const RequiredCheckpoints: set<Stage> := {PreStateConfirmed, BackupCreated, WriteBegan, RollbackBegan}

  function FileStatesOf(cs: seq<LocationChange>): seq<FileState> {
    if cs == [] then []
    else
      (if cs[0].preHash.Some? && cs[0].postHash.Some?
       then [FileState(cs[0].path, cs[0].preHash.value, cs[0].postHash.value)] else [])
      + FileStatesOf(cs[1..])
  }

  function Record(plan: Plan, stage: Stage, cs: seq<LocationChange>, at: nat): Baseline
    reads cs
  {
    Baseline(PlanIdentity(plan), plan.incident.incidentId, at, stage, false, plan.protection, FileStatesOf(cs),
             BackupsOf(cs), false, false, false, false, false, false, false, false)
  }

  lemma {:induction false} FileStatesMatch(cs: seq<LocationChange>, ts: seq<Target>)
    requires |cs| == |ts| && forall i :: 0 <= i < |cs| ==> Planned(cs[i], ts[i]) && cs[i].preHash.Some?
    ensures FileStatesOf(cs) == FileStates(ts)
  {
    if cs != [] {
      FileStatesMatch(cs[1..], ts[1..]);
      assert FileStates(ts) == [FileState(ts[0].path, Digest(ts[0].pre), Digest(ts[0].post))] + FileStates(ts[1..]);
    }
  }

  /** Saving the record of a boundary. Returns whether the run must stop here
      because a record that has to exist could not be confirmed. */
  method Checkpoint(host: Host, persistence: bool, cs: seq<LocationChange>, b: Baseline) returns (stop: bool)
    requires host.Valid() && Plans(host.repair, cs) && Allowed(host.repair, host.log, Saved(b))
    modifies host`store, host`log, host`faults
    ensures host.Valid()
    ensures host.faults >= old(host.faults) && (host.faults == old(host.faults) ==> (persistence ==> !stop && LastRecord(host.log) == Some(b)))
    ensures host.log == old(host.log) + [Saved(b)] || host.log == old(host.log)
    ensures b.stage in RequiredCheckpoints && !stop ==> host.log == old(host.log) + [Saved(b)]
    ensures stop ==> b.stage in RequiredCheckpoints
    ensures Began(host.log) ==> old(Began(host.log)) || b.writeBegan
    ensures RollingBack(host.log) ==> old(RollingBack(host.log)) || b.rollbackBegan
    ensures old(Began(host.log)) ==> Began(host.log)
    ensures LastRecord(host.log) in {old(LastRecord(host.log)), Some(b)}
    ensures Torn(host.log) == old(Torn(host.log))
    ensures old(AllAttempted(host, cs, 0, |cs|)) ==> AllAttempted(host, cs, 0, |cs|)
    ensures old(NoneAttempted(host, cs, 0)) ==> NoneAttempted(host, cs, 0)
  {
    if !persistence { return b.stage in RequiredCheckpoints; }
    var confirmed := host.SaveBaseline(b);
    Stepped(host.repair, host.initial, old(host.log), Saved(b));
    assert old(AllAttempted(host, cs, 0, |cs|)) ==> AllAttempted(host, cs, 0, |cs|) by {
      forall j | 0 <= j < |cs| && old(Attempted(cs[j], host.repair.targets[j], host.files, host.log))
        ensures Attempted(cs[j], host.repair.targets[j], host.files, host.log) {}
    }
    assert old(NoneAttempted(host, cs, 0)) ==> NoneAttempted(host, cs, 0) by {
      forall j | 0 <= j < |cs| && old(Unattempted(cs[j], host.repair.targets[j], host.files, host.log))
        ensures Unattempted(cs[j], host.repair.targets[j], host.files, host.log) {}
    }
    stop := !confirmed && b.stage in RequiredCheckpoints;
  }

  function BackupsOf(cs: seq<LocationChange>): set<string>
    reads cs
  {
    set c | c in cs && c.backupTaken :: c.path
  }

  /** A record of an attempt may be saved once every file is backed up. */
  lemma MayRecordAttempt(r: Repair, log: seq<Event>, cs: seq<LocationChange>, b: Baseline)
    requires Plans(r, cs) && BackedUpAll(r, log) && forall c :: c in cs ==> c.preHash.Some? && c.backupTaken
    requires b.For(if b.rollbackBegan then r.approved else r.identity, r.incidentId) && b.protection == b.identity.protection
    requires b.files == FileStatesOf(cs) && b.backups == BackupsOf(cs) && Says(b) && b.writeBegan
    requires b.stage == WriteBegan ==> Noted(log, PreStateConfirmed) && BackupNoted(log)
    requires b.stage == RollbackComplete ==> Noted(log, RollbackBegan)
    requires b.rollbackBegan ==> Began(log)
    requires RollingBack(log) ==> b.rollbackBegan
    ensures Allowed(r, log, Saved(b))
  {
    assert forall i :: 0 <= i < |cs| ==> cs[i] in cs;
    FileStatesMatch(cs, r.targets);
    BackupsAreTargets(r, cs);
  }

  lemma BackupsAreTargets(r: Repair, cs: seq<LocationChange>)
    requires Plans(r, cs) && forall c :: c in cs ==> c.backupTaken
    ensures BackupsOf(cs) == set t | t in r.targets :: t.path
  {
    forall p ensures p in BackupsOf(cs) <==> p in (set t | t in r.targets :: t.path) {
      if c :| c in cs && c.path == p {
        var i :| 0 <= i < |cs| && cs[i] == c;
        assert Planned(cs[i], r.targets[i]) && r.targets[i] in r.targets;
      }
      if t :| t in r.targets && t.path == p {
        var i :| 0 <= i < |r.targets| && r.targets[i] == t;
        assert Planned(cs[i], r.targets[i]) && cs[i] in cs;
      }
    }
  }

  /** ... and so may every later one. */
  lemma MayRecordAgain(host: Host, cs: seq<LocationChange>, b: Baseline)
    requires host.Valid() && Plans(host.repair, cs) && Began(host.log)
    requires forall c :: c in cs ==> c.preHash.Some? && c.backupTaken
    requires b.For(if b.rollbackBegan then host.repair.approved else host.repair.identity, host.repair.incidentId)
    requires b.protection == b.identity.protection && b.files == FileStatesOf(cs) && b.backups == BackupsOf(cs)
    requires Says(b) && b.writeBegan && b.stage != WriteBegan
    requires RollingBack(host.log) ==> b.rollbackBegan
    requires b.stage == RollbackComplete ==> RollingBack(host.log)
    ensures Allowed(host.repair, host.log, Saved(b))
  {
    host.Explained();
    BackupsFrozen(host.repair, host.log);
    if RollingBack(host.log) { RollbackIsNoted(host.repair, host.log); }
    MayRecordAttempt(host.repair, host.log, cs, b);
  }

  lemma QuietBeforeAttempt(r: Repair, log: seq<Event>)
    requires Legal(r, log) && !Began(log)
    ensures Torn(log) == map[] && forall p :: !Touched(log, p)
  {
    ForwardNeedsBegan(r, log);
    TornIsWhatRaisedLeft(r, log);
  }

  // ---- Phases 2 to 4 -------------------------------------------------------------

  function FactsOf(w: World, files: Files): TargetRediscovery.Facts {
    TargetRediscovery.Facts(w.stateOf, TargetRediscovery.Successors(w.stateOf), files, w.active, w.unreadable)
  }

  function Paths(found: seq<TargetRediscovery.Found>): seq<string> {
    seq(|found|, i requires 0 <= i < |found| => found[i].path)
  }

  function PlanPaths(p: Plan): seq<string> {
    seq(|p.locations|, i requires 0 <= i < |p.locations| => p.locations[i].path)
  }

  /** The plan says what the files and the live state say, and nothing else does. */
  ghost predicate Derived(w: World, files: Files, incidentId: string, p: Plan) {
    w.incidentOf(incidentId).Some? && p.staleEntity != []
    && var known := w.incidentOf(incidentId).value;
       var found := TargetRediscovery.Rediscovered(FactsOf(w, files), known.subjects, TargetRediscovery.NoHint);
       p.incident == Incident(incidentId, known.rootCause, known.materialDigest, known.priority, known.evidenceStatus)
       && found.Usable() && found.stale == Some(p.staleEntity) && found.replacement == Some(p.newEntity)
       && PlanPaths(p) == SortedDistinct(Paths(found.locations))
       && forall l :: l in p.locations ==>
            l.path in files && l.preHash == Digest(files[l.path])
            && l.occurrences == TokenReplacement.Count(files[l.path], p.staleEntity)
  }

  function LocationsOf(cs: seq<LocationChange>): seq<PlannedLocation>
    requires forall c :: c in cs ==> c.preHash.Some?
  {
    seq(|cs|, i requires 0 <= i < |cs| => PlannedLocation(cs[i].path, cs[i].occurrences, cs[i].preHash.value))
  }

  /** The entities the whole repair would newly be able to switch off. */
  function Gained(files: Files, paths: seq<string>, stale: string, next: string, off: string -> set<string>): set<string>
    requires stale != []
  {
    set p, e | p in paths && p in files && e in off(TokenReplacement.Replace(files[p], stale, next)) && e !in off(files[p]) :: e
  }

  function PlannedAt(files: Files, paths: seq<string>, stale: string): seq<PlannedLocation>
    requires stale != [] && forall p :: p in paths ==> p in files
  {
    seq(|paths|, i requires 0 <= i < |paths| =>
      PlannedLocation(paths[i], TokenReplacement.Count(files[paths[i]], stale), Digest(files[paths[i]])))
  }

  function PlanFor(w: World, files: Files, incidentId: string, known: Known, stale: string, next: string, paths: seq<string>): Plan
    requires stale != [] && forall p :: p in paths ==> p in files
  {
    var auth := Authorization.Authorize(w.registry, Authorization.ReplaceReference, {stale, next},
                                        Gained(files, paths, stale, next, w.off), w.intentSevers, false, "");
    BuildPlan(Incident(incidentId, known.rootCause, known.materialDigest, known.priority, known.evidenceStatus),
              "replace_stale_entity_reference", stale, next, PlannedAt(files, paths, stale),
              TargetRediscovery.RiskName(auth.risk), TargetRediscovery.VerdictName(auth.verdict), w.createdAt)
  }

  /** The plan the files and the live state call for, when everything can be read. */
  function DerivedPlan(w: World, files: Files, incidentId: string): Option<Plan> {
    if w.incidentOf(incidentId).None? then None
    else
      var known := w.incidentOf(incidentId).value;
      var found := TargetRediscovery.Rediscovered(FactsOf(w, files), known.subjects, TargetRediscovery.NoHint);
      if !found.Usable() then None
      else
        FoundAreFiles(w, files, incidentId);
        Some(PlanFor(w, files, incidentId, known, found.stale.value, found.replacement.value,
                     SortedDistinct(Paths(found.locations))))
  }

  method Derive(host: Host, w: World, incidentId: string) returns (current: Option<Plan>)
    modifies host`faults
    ensures current.Some? ==> current == DerivedPlan(w, host.files, incidentId)
    ensures host.faults >= old(host.faults) && (host.faults == old(host.faults) ==> current == DerivedPlan(w, host.files, incidentId))
  {
    if w.incidentOf(incidentId).None? { return None; }
    var known := w.incidentOf(incidentId).value;
    var found := TargetRediscovery.Rediscover(FactsOf(w, host.files), known.subjects, TargetRediscovery.NoHint);
    if !found.Usable() { return None; }
    FoundAreFiles(w, host.files, incidentId);
    current := DeriveFrom(host, w, incidentId, known, found.stale.value, found.replacement.value, Paths(found.locations));
  }

  /** Measuring what was found. With every file readable there is always an
      occurrence left to repair. */
  method DeriveFrom(host: Host, w: World, incidentId: string, known: Known, stale: string, next: string, found: seq<string>)
    returns (current: Option<Plan>)
    requires stale != [] && SortedDistinct(found) != []
    requires forall p :: p in SortedDistinct(found) ==> p in host.files && TokenReplacement.Count(host.files[p], stale) > 0
    modifies host`faults
    ensures current.Some? ==> current.value == PlanFor(w, host.files, incidentId, known, stale, next, SortedDistinct(found))
    ensures host.faults >= old(host.faults) && (host.faults == old(host.faults) ==> current.Some?)
  {
    var cs, added := PlanLocations(host, found, stale, next, w.off);
    assert forall i :: 0 <= i < |cs| ==> cs[i] in cs;
    if exists c :: c in cs && c.preHash.None? {
      assert forall c :: c in cs ==> c.path in SortedDistinct(found);
      return None;
    }
    assert forall c :: c in cs ==> c.preHash.Some?;
    MeasuredLocations(host.files, cs, SortedDistinct(found), stale, next, w.off, added);
    if forall c :: c in cs ==> c.occurrences == 0 {
      assert cs[0] in cs && cs[0].path in SortedDistinct(found);
      return None;
    }
    var auth := Authorization.Authorize(w.registry, Authorization.ReplaceReference, {stale, next}, added,
                                        w.intentSevers, false, "");
    var incident := Incident(incidentId, known.rootCause, known.materialDigest, known.priority, known.evidenceStatus);
    current := Some(BuildPlan(incident, "replace_stale_entity_reference", stale, next, LocationsOf(cs),
                              TargetRediscovery.RiskName(auth.risk), TargetRediscovery.VerdictName(auth.verdict), w.createdAt));
  }

  /** What rediscovery found are files in which the reference occurs. */
  lemma FoundAreFiles(w: World, files: Files, incidentId: string)
    requires w.incidentOf(incidentId).Some?
    requires TargetRediscovery.Rediscovered(FactsOf(w, files), w.incidentOf(incidentId).value.subjects, TargetRediscovery.NoHint).Usable()
    ensures var found := TargetRediscovery.Rediscovered(FactsOf(w, files), w.incidentOf(incidentId).value.subjects, TargetRediscovery.NoHint);
      found.stale.value != [] && SortedDistinct(Paths(found.locations)) != []
      && forall p :: p in SortedDistinct(Paths(found.locations)) ==>
           p in files && TokenReplacement.Count(files[p], found.stale.value) > 0
  {
    var subjects := w.incidentOf(incidentId).value.subjects;
    var found := TargetRediscovery.Rediscovered(FactsOf(w, files), subjects, TargetRediscovery.NoHint);
    TargetRediscovery.NeutralTargetIsForced(FactsOf(w, files), subjects);
    SortedDistinctIs(Paths(found.locations));
    assert Paths(found.locations)[0] in Paths(found.locations);
    forall p | p in Paths(found.locations)
      ensures p in files && TokenReplacement.Count(files[p], found.stale.value) > 0
    {
      var i :| 0 <= i < |Paths(found.locations)| && Paths(found.locations)[i] == p;
      assert found.locations[i] in found.locations;
    }
  }

  lemma MeasuredLocations(files: Files, cs: seq<LocationChange>, paths: seq<string>, stale: string, next: string,
                          off: string -> set<string>, added: set<string>)
    requires stale != [] && |cs| == |paths| && (forall i :: 0 <= i < |cs| ==> cs[i].path == paths[i])
    requires forall c :: c in cs ==> c.preHash.Some? && Measured(c, files, stale, next)
    requires forall e :: e in added <==> exists c :: c in cs && c.preHash.Some? && Gains(files, c.path, stale, next, off, e)
    ensures forall p :: p in paths ==> p in files
    ensures LocationsOf(cs) == PlannedAt(files, paths, stale) && added == Gained(files, paths, stale, next, off)
  {
    assert forall i :: 0 <= i < |cs| ==> cs[i] in cs;
    forall p | p in paths ensures p in files {
      var i :| 0 <= i < |paths| && paths[i] == p;
    }
    forall e ensures e in added <==> e in Gained(files, paths, stale, next, off) {
      if e in Gained(files, paths, stale, next, off) {
        var p :| p in paths && Gains(files, p, stale, next, off, e);
        var i :| 0 <= i < |paths| && paths[i] == p;
        assert cs[i] in cs;
      }
    }
  }

  lemma PlannedInOrder(files: Files, found: seq<string>, stale: string)
    requires stale != [] && forall p :: p in SortedDistinct(found) ==> p in files
    ensures SortBy(PlannedAt(files, SortedDistinct(found), stale), PathOf) == PlannedAt(files, SortedDistinct(found), stale)
  {
    SortedDistinctIs(found);
    var ls := PlannedAt(files, SortedDistinct(found), stale);
    forall i, j | 0 <= i < j < |ls| ensures Leq(PathOf(ls[i]), PathOf(ls[j])) {
      assert Leq(Itself(SortedDistinct(found)[i]), Itself(SortedDistinct(found)[j]));
    }
    SortOfSorted(ls, PathOf);
  }

  lemma PlanForFacts(w: World, files: Files, incidentId: string, known: Known, stale: string, next: string, found: seq<string>)
    requires stale != [] && forall p :: p in SortedDistinct(found) ==> p in files
    ensures var plan := PlanFor(w, files, incidentId, known, stale, next, SortedDistinct(found));
      PlanPaths(plan) == SortedDistinct(found)
      && forall l :: l in plan.locations ==>
           l.path in files && l.preHash == Digest(files[l.path])
           && l.occurrences == TokenReplacement.Count(files[l.path], stale)
  {
    var paths := SortedDistinct(found);
    PlannedInOrder(files, found, stale);
    PlannedAtFacts(files, paths, stale);
    assert PlanPaths(PlanFor(w, files, incidentId, known, stale, next, paths)) == paths;
  }

  /** The plan's target is the forced one and what it says of each file is true. */
  lemma DerivedPlanIsDerived(w: World, files: Files, incidentId: string)
    requires DerivedPlan(w, files, incidentId).Some?
    ensures Derived(w, files, incidentId, DerivedPlan(w, files, incidentId).value)
  {
    var known := w.incidentOf(incidentId).value;
    var found := TargetRediscovery.Rediscovered(FactsOf(w, files), known.subjects, TargetRediscovery.NoHint);
    FoundAreFiles(w, files, incidentId);
    PlanForFacts(w, files, incidentId, known, found.stale.value, found.replacement.value, Paths(found.locations));
  }

  lemma PlannedAtFacts(files: Files, paths: seq<string>, stale: string)
    requires stale != [] && forall p :: p in paths ==> p in files
    ensures forall l :: l in PlannedAt(files, paths, stale) ==>
      l.path in files && l.preHash == Digest(files[l.path])
      && l.occurrences == TokenReplacement.Count(files[l.path], stale)
  {}

  ghost predicate AllMeasured(cs: seq<LocationChange>, files: Files) {
    forall c :: c in cs ==> HasBackup(c, files)
  }

  method ProveBackups(host: Host, persistence: bool, plan: Plan, cs: seq<LocationChange>) returns (backed: bool)
    requires host.Valid() && host.log == [] && Plans(host.repair, cs) && forall c :: c in cs ==> Pristine(c)
    requires host.repair.identity == PlanIdentity(plan) && host.repair.incidentId == plan.incident.incidentId
    modifies host`backups, host`store, host`log, host`faults, cs`backupTaken, cs`backupVerified
    ensures host.faults >= old(host.faults) && (host.faults == old(host.faults) ==> (persistence && AllMeasured(cs, host.files) ==> backed))
    ensures host.Valid() && !Began(host.log) && !RollingBack(host.log)
    ensures backed ==> forall c :: c in cs ==> Restorable(c, host.backups)
    ensures backed ==>
      LastRecord(host.log).Some? && LastRecord(host.log).value.stage == BackupCreated && LastRecord(host.log).value.backupComplete
  {
    var stop := RecordPreState(host, persistence, plan, cs);
    if stop { return false; }
    backed := BackupLocations(host, cs);
    stop := RecordBackups(host, persistence, plan, cs, backed);
    backed := backed && !stop;
  }

  method RecordPreState(host: Host, persistence: bool, plan: Plan, cs: seq<LocationChange>) returns (stop: bool)
    requires host.Valid() && host.log == [] && Plans(host.repair, cs) && forall c :: c in cs ==> Pristine(c)
    requires host.repair.identity == PlanIdentity(plan) && host.repair.incidentId == plan.incident.incidentId
    modifies host`store, host`log, host`faults
    ensures host.faults >= old(host.faults) && (host.faults == old(host.faults) ==> (persistence ==> !stop))
    ensures host.Valid() && !Began(host.log) && !RollingBack(host.log)
    ensures !stop ==> LastRecord(host.log).Some? && LastRecord(host.log).value.stage == PreStateConfirmed
  {
    var at: nat := *;
    var b := Record(plan, PreStateConfirmed, cs, at);
    MayRecordFirst(host.repair, b);
    stop := Checkpoint(host, persistence, cs, b);
  }

  lemma MayRecordFirst(r: Repair, b: Baseline)
    requires b.For(r.identity, r.incidentId) && b.protection == b.identity.protection
    requires b.stage == PreStateConfirmed && Says(b)
    ensures Allowed(r, [], Saved(b)) && LastRecord([] + [Saved(b)]) == Some(b)
  {}

  method RecordBackups(host: Host, persistence: bool, plan: Plan, cs: seq<LocationChange>, backed: bool) returns (stop: bool)
    requires host.Valid() && Plans(host.repair, cs) && !Began(host.log) && !RollingBack(host.log)
    requires host.repair.identity == PlanIdentity(plan) && host.repair.incidentId == plan.incident.incidentId
    requires LastRecord(host.log).Some? && LastRecord(host.log).value.stage == PreStateConfirmed
    requires backed ==> forall c :: c in cs ==> HasBackup(c, host.backups)
    modifies host`store, host`log, host`faults
    ensures host.faults >= old(host.faults) && (host.faults == old(host.faults) ==> (persistence ==> !stop))
    ensures host.Valid() && !Began(host.log) && !RollingBack(host.log)
    ensures !stop ==>
      LastRecord(host.log).Some? && LastRecord(host.log).value.stage == BackupCreated
      && LastRecord(host.log).value.backupComplete == backed
  {
    var at: nat := *;
    var b := Record(plan, BackupCreated, cs, at).(backupComplete := backed);
    host.Explained();
    LastRecordIsSaved(host.repair, host.log);
    if backed { VerifiedBackupsAreComplete(host.repair, host.log, cs); }
    Stepped(host.repair, host.initial, host.log, Saved(b));
    stop := Checkpoint(host, persistence, cs, b);
  }

  /** Everything that has to be durable before a byte changes. */
  method SecureBackups(host: Host, persistence: bool, plan: Plan, cs: seq<LocationChange>) returns (ready: bool)
    requires host.Valid() && host.log == [] && Plans(host.repair, cs)
    requires host.repair.identity == PlanIdentity(plan) && host.repair.incidentId == plan.incident.incidentId
    requires host.files == host.initial && forall c :: c in cs ==> Pristine(c)
    modifies host`backups, host`store, host`log, host`faults, cs`backupTaken, cs`backupVerified
    ensures host.faults >= old(host.faults) && (host.faults == old(host.faults) ==> (persistence && AllMeasured(cs, host.files) ==> ready))
    ensures ready ==> forall c :: c in cs ==> Restorable(c, host.backups)
    ensures host.Valid() && !RollingBack(host.log) && Torn(host.log) == map[]
    ensures ready ==> Began(host.log) && NoneAttempted(host, cs, 0)
    ensures ready ==> LastRecord(host.log).Some? && !LastRecord(host.log).value.complete
    ensures ready ==> forall c :: c in cs ==> c.backupVerified && c.preHash.Some?
  {
    var backed := ProveBackups(host, persistence, plan, cs);
    host.Explained();
    QuietBeforeAttempt(host.repair, host.log);
    if !backed { return false; }
    StartsUnattempted(host, cs);
    var at: nat := *;
    var b := Record(plan, WriteBegan, cs, at).(backupComplete := true, writeBegan := true);
    MayDeclareAttempt(host, cs, b);
    ready := DeclareAttempt(host, persistence, cs, b);
  }

  lemma MayDeclareAttempt(host: Host, cs: seq<LocationChange>, b: Baseline)
    requires host.Valid() && Plans(host.repair, cs) && !Began(host.log) && !RollingBack(host.log)
    requires LastRecord(host.log).Some? && LastRecord(host.log).value.stage == BackupCreated
    requires LastRecord(host.log).value.backupComplete
    requires forall c :: c in cs ==> Restorable(c, host.backups)
    requires b.For(host.repair.identity, host.repair.incidentId) && b.protection == b.identity.protection
    requires b.files == FileStatesOf(cs) && b.backups == BackupsOf(cs) && b.stage == WriteBegan && Says(b)
    ensures Allowed(host.repair, host.log, Saved(b))
  {
    host.Explained();
    VerifiedBackupsAreComplete(host.repair, host.log, cs);
    LastRecordIsSaved(host.repair, host.log);
    MayRecordAttempt(host.repair, host.log, cs, b);
  }

  method DeclareAttempt(host: Host, persistence: bool, cs: seq<LocationChange>, b: Baseline) returns (ready: bool)
    requires host.Valid() && Plans(host.repair, cs) && Allowed(host.repair, host.log, Saved(b))
    requires b.stage == WriteBegan && b.writeBegan && !b.rollbackBegan && !b.complete
    requires !RollingBack(host.log) && NoneAttempted(host, cs, 0)
    modifies host`store, host`log, host`faults
    ensures host.faults >= old(host.faults) && (host.faults == old(host.faults) ==> (persistence ==> ready))
    ensures host.Valid() && !RollingBack(host.log) && Torn(host.log) == old(Torn(host.log))
    ensures ready ==> Began(host.log) && NoneAttempted(host, cs, 0)
    ensures ready ==> LastRecord(host.log).Some? && !LastRecord(host.log).value.complete
  {
    ghost var before := host.log;
    var stop := Checkpoint(host, persistence, cs, b);
    Stepped(host.repair, host.initial, before, Saved(b));
    ready := !stop;
  }

  lemma StartsUnattempted(host: Host, cs: seq<LocationChange>)
    requires host.Valid() && Plans(host.repair, cs) && host.files == host.initial && !Began(host.log)
    requires forall c :: c in cs ==> !c.written && !c.writeVerified
    ensures NoneAttempted(host, cs, 0)
  {
    host.Explained();
    QuietBeforeAttempt(host.repair, host.log);
    forall j | 0 <= j < |cs| ensures Unattempted(cs[j], host.repair.targets[j], host.files, host.log) {
      assert cs[j] in cs && Planned(cs[j], host.repair.targets[j]) && host.repair.targets[j] in host.repair.targets;
    }
  }

  // ---- Rollback ---------------------------------------------------------------------

  ghost predicate InFlight(host: Host, cs: seq<LocationChange>)
    reads host, cs
  {
    host.Valid() && Plans(host.repair, cs) && Began(host.log) && AllAttempted(host, cs, 0, |cs|)
    && forall c :: c in cs ==> c.preHash.Some? && c.backupTaken
  }

  predicate AllHold(answers: seq<bool>) {
    forall i :: 0 <= i < |answers| ==> answers[i]
  }

  /** After the rollback the configuration is valid again and no reload failed. */
  ghost predicate RollbackHolds(w: World) {
    w.post.rollbackConfigValid && false !in w.post.rollbackReloads
  }

  ghost predicate SomethingToRestore(cs: seq<LocationChange>, backups: Files)
    reads cs
  {
    (exists c :: c in cs && c.written) && AllRestorable(cs, backups)
  }

  method Rollback(host: Host, w: World, approved: Plan, cs: seq<LocationChange>) returns (outcome: Outcome)
    requires InFlight(host, cs) && !RollingBack(host.log)
    requires host.repair.approved == PlanIdentity(approved) && host.repair.incidentId == approved.incident.incidentId
    modifies host`files, host`store, host`log, host`faults, cs`restored
    ensures host.faults >= old(host.faults)
    ensures host.faults == old(host.faults) && w.persistence && old(SomethingToRestore(cs, host.backups)) ==>
      (outcome == Outcome.RolledBack <==> RollbackHolds(w))
    ensures host.Valid() && outcome in {ValidationFailed, Outcome.RolledBack, RollbackFailed}
    ensures Torn(host.log) == old(Torn(host.log))
    ensures outcome in {ValidationFailed, Outcome.RolledBack} ==> host.files == host.initial + Torn(host.log)
    ensures outcome == ValidationFailed <==> forall c :: c in cs ==> !c.written
    ensures outcome == ValidationFailed ==> host.log == old(host.log)
    ensures outcome == Outcome.RolledBack ==> RollbackHolds(w)
    ensures host.faults == old(host.faults) && w.persistence && outcome != ValidationFailed ==> Closes(host, outcome)
  {
    if forall c :: c in cs ==> !c.written {
      NothingWritten(host, cs);
      return ValidationFailed;
    }
    var declared := DeclareRollback(host, w.persistence, approved, cs);
    if !declared { return RollbackFailed; }
    var proven := RestoreAndRecord(host, w, approved, cs);
    outcome := if proven then Outcome.RolledBack else RollbackFailed;
  }

  /** The last record says that the repair is over, and how it ended. */
  ghost predicate Closes(host: Host, o: Outcome)
    reads host
  {
    LastRecord(host.log).Some?
    && var b := LastRecord(host.log).value;
       b.complete
       && if o in {Outcome.RolledBack, RollbackFailed}
          then b.stage == RollbackComplete && b.rollbackComplete && (b.rollbackVerified <==> o == Outcome.RolledBack)
          else b.stage == LifecycleComplete
  }

  /** Under a durable declaration: restore, prove it, and close the record. */
  method RestoreAndRecord(host: Host, w: World, approved: Plan, cs: seq<LocationChange>) returns (proven: bool)
    requires InFlight(host, cs) && RollingBack(host.log)
    requires host.repair.approved == PlanIdentity(approved) && host.repair.incidentId == approved.incident.incidentId
    modifies host`files, host`store, host`log, host`faults, cs`restored
    ensures host.Valid() && host.faults >= old(host.faults) && Torn(host.log) == old(Torn(host.log))
    ensures proven ==> RollbackHolds(w) && host.files == host.initial + Torn(host.log)
    ensures host.faults == old(host.faults) && old(AllRestorable(cs, host.backups)) && RollbackHolds(w) ==> proven
    ensures host.faults == old(host.faults) && w.persistence ==> Closes(host, if proven then Outcome.RolledBack else RollbackFailed)
  {
    var restored := RestoreLocations(host, cs);
    proven := restored && w.post.rollbackConfigValid && AllHold(w.post.rollbackReloads);
    RecordRollback(host, w.persistence, approved, cs, proven);
  }

  lemma NothingWritten(host: Host, cs: seq<LocationChange>)
    requires InFlight(host, cs) && forall c :: c in cs ==> !c.written
    ensures host.files == host.initial + Torn(host.log)
  {
    host.Explained();
    forall t | t in host.repair.targets ensures Original(t, host.files, Torn(host.log)) {
      var j :| 0 <= j < |host.repair.targets| && host.repair.targets[j] == t;
      assert Attempted(cs[j], t, host.files, host.log) && Planned(cs[j], t) && cs[j] in cs;
    }
    OriginalEverywhere(host.repair, host.initial, host.log);
  }

  method DeclareRollback(host: Host, persistence: bool, approved: Plan, cs: seq<LocationChange>) returns (declared: bool)
    requires InFlight(host, cs)
    requires host.repair.approved == PlanIdentity(approved) && host.repair.incidentId == approved.incident.incidentId
    modifies host`store, host`log, host`faults
    ensures host.faults >= old(host.faults) && (host.faults == old(host.faults) ==> (persistence ==> declared))
    ensures InFlight(host, cs) && Torn(host.log) == old(Torn(host.log))
    ensures declared ==> RollingBack(host.log)
  {
    var at: nat := *;
    var b := Record(approved, RollbackBegan, cs, at)
      .(backupComplete := true, writeBegan := true, writeComplete := true, rollbackBegan := true);
    MayRecordAgain(host, cs, b);
    ghost var before := host.log;
    var stop := Checkpoint(host, persistence, cs, b);
    Stepped(host.repair, host.initial, before, Saved(b));
    declared := !stop;
  }

  method RecordRollback(host: Host, persistence: bool, approved: Plan, cs: seq<LocationChange>, proven: bool)
    requires host.Valid() && Plans(host.repair, cs) && Began(host.log) && RollingBack(host.log)
    requires forall c :: c in cs ==> c.preHash.Some? && c.backupTaken
    requires host.repair.approved == PlanIdentity(approved) && host.repair.incidentId == approved.incident.incidentId
    modifies host`store, host`log, host`faults
    ensures host.faults >= old(host.faults)
    ensures host.Valid() && Torn(host.log) == old(Torn(host.log))
    ensures host.faults == old(host.faults) && persistence ==> Closes(host, if proven then Outcome.RolledBack else RollbackFailed)
  {
    var at: nat := *;
    var b := Record(approved, RollbackComplete, cs, at)
      .(backupComplete := true, writeBegan := true, writeComplete := true, rollbackBegan := true,
        rollbackComplete := true, rollbackVerified := proven, complete := true);
    MayRecordAgain(host, cs, b);
    var _ := Checkpoint(host, persistence, cs, b);
  }

  // ---- Proof ------------------------------------------------------------------------

  datatype Verdict =
    | OriginalFindingRemains | SameRootCauseRegenerated | EquivalentReferenceRemains | Eliminated | Indeterminate

  predicate Fresh(before: string, scan: Option<Scan>) {
    before != "" && scan.Some? && scan.value.id != "" && scan.value.id != before
    && scan.value.state in CommittedScanStates
  }

  /** What `Fresh` is meant to establish: the scan is known to be another one than the
      last before the repair, and it was committed. */
  ghost predicate NewScan(w: World) {
    w.scanId != "" && w.post.scan.Some? && w.post.scan.value.id != "" && w.post.scan.value.id != w.scanId
    && (w.post.scan.value.state == "complete" || w.post.scan.value.state == "completed" || w.post.scan.value.state == "partial")
  }

  lemma FreshIff(w: World)
    ensures Fresh(w.scanId, w.post.scan) <==> NewScan(w)
  {}

  ghost predicate IsActive(r: Row) {
    r.lifecycle == "new" || r.lifecycle == "investigating" || r.lifecycle == "confirmed"
    || r.lifecycle == "recurring" || r.lifecycle == "regressed"
  }

  ghost predicate LastRow(rows: seq<Row>, incidentId: string, k: int) {
    0 <= k < |rows| && rows[k].incidentId == incidentId && forall j :: k < j < |rows| ==> rows[j].incidentId != incidentId
  }

  /** The incident is there and active, where of several rows the last one counts. */
  ghost predicate StillActive(rows: seq<Row>, incidentId: string) {
    exists k :: LastRow(rows, incidentId, k) && IsActive(rows[k])
  }

  /** The row a dict keyed by incident id keeps: the last one. */
  function RowOf(rows: seq<Row>, incidentId: string): Option<Row> {
    if rows == [] then None
    else if rows[|rows| - 1].incidentId == incidentId then Some(rows[|rows| - 1])
    else RowOf(rows[..|rows| - 1], incidentId)
  }

  lemma {:induction false} RowOfIsLast(rows: seq<Row>, incidentId: string)
    ensures forall k :: LastRow(rows, incidentId, k) ==> RowOf(rows, incidentId) == Some(rows[k])
    ensures RowOf(rows, incidentId).Some? ==> exists k :: LastRow(rows, incidentId, k)
  {
    if rows != [] {
      var n := |rows| - 1;
      if rows[n].incidentId == incidentId {
        assert LastRow(rows, incidentId, n);
      } else {
        RowOfIsLast(rows[..n], incidentId);
        assert forall k :: LastRow(rows, incidentId, k) <==> LastRow(rows[..n], incidentId, k);
        assert forall k :: LastRow(rows, incidentId, k) ==> rows[..n][k] == rows[k];
      }
    }
  }

  lemma ActiveRowIff(rows: seq<Row>, incidentId: string)
    ensures StillActive(rows, incidentId) <==>
      RowOf(rows, incidentId).Some? && RowOf(rows, incidentId).value.lifecycle in ActiveLifecycles
  {
    RowOfIsLast(rows, incidentId);
    if RowOf(rows, incidentId).Some? {
      var k :| LastRow(rows, incidentId, k);
    }
  }

  function Total(found: seq<TargetRediscovery.Found>): nat {
    if found == [] then 0 else found[0].occurrences + Total(found[1..])
  }

  function Reconcile(w: World, files: Files, incidentId: string, stale: string, originals: set<string>): Verdict
    requires stale != []
  {
    VerdictOn(w, incidentId, originals, Total(TargetRediscovery.Search(FactsAfter(w, files), w.post.active, stale)) != 0)
  }

  /** `remaining`: the stale reference was found in active configuration. */
  function VerdictOn(w: World, incidentId: string, originals: set<string>, remaining: bool): Verdict {
    if w.post.rows.None? then Indeterminate
    else
      var row := RowOf(w.post.rows.value, incidentId);
      var active := row.Some? && row.value.lifecycle in ActiveLifecycles;
      if active && originals * row.value.findings != {} then OriginalFindingRemains
      else if active then SameRootCauseRegenerated
      else if remaining then EquivalentReferenceRemains
      else Eliminated
  }

  function FactsAfter(w: World, files: Files): TargetRediscovery.Facts {
    TargetRediscovery.Facts(w.stateOf, TargetRediscovery.Successors(w.stateOf), files, w.post.active, w.post.unreadable)
  }

  lemma {:induction false} TotalZeroIff(found: seq<TargetRediscovery.Found>)
    requires forall x :: x in found ==> x.occurrences > 0
    ensures Total(found) == 0 <==> found == []
  {
    if found != [] { assert found[0] in found; }
  }

  /** The stale reference is gone from every active file that can be read. */
  ghost predicate NoneLeft(w: World, files: Files, stale: string)
    requires stale != []
  {
    forall p :: p in w.post.active && p in files && p !in w.post.unreadable ==>
      TokenReplacement.Count(files[p], stale) == 0
  }

  lemma ReferenceGoneIff(w: World, files: Files, stale: string)
    requires stale != []
    ensures Total(TargetRediscovery.Search(FactsAfter(w, files), w.post.active, stale)) == 0 <==> NoneLeft(w, files, stale)
  {
    var found := TargetRediscovery.Search(FactsAfter(w, files), w.post.active, stale);
    assert forall p :: p in w.post.active && TargetRediscovery.Mentions(FactsAfter(w, files), p, stale) ==>
      exists x :: x in found && x.path == p;
    TotalZeroIff(found);
    assert found != [] ==> found[0] in found;
  }

  /** The incident is done with exactly when incidents could be read, this one is not
      active any more, and its reference is gone from every active file. */
  lemma EliminatedIff(w: World, files: Files, incidentId: string, stale: string, originals: set<string>)
    requires stale != []
    ensures Reconcile(w, files, incidentId, stale, originals) == Eliminated <==>
      w.post.rows.Some? && !StillActive(w.post.rows.value, incidentId) && NoneLeft(w, files, stale)
  {
    ReferenceGoneIff(w, files, stale);
    if w.post.rows.Some? { ActiveRowIff(w.post.rows.value, incidentId); }
  }

  /** What each other verdict says. */
  lemma OtherVerdictsIff(w: World, files: Files, incidentId: string, stale: string, originals: set<string>)
    requires stale != []
    ensures var verdict := Reconcile(w, files, incidentId, stale, originals);
      if w.post.rows.None? then verdict == Indeterminate
      else
        var rows := w.post.rows.value;
        (verdict == OriginalFindingRemains <==>
           exists k, f :: LastRow(rows, incidentId, k) && IsActive(rows[k]) && f in originals && f in rows[k].findings)
        && (verdict in {OriginalFindingRemains, SameRootCauseRegenerated} <==> StillActive(rows, incidentId))
        && (verdict == EquivalentReferenceRemains <==> !StillActive(rows, incidentId) && !NoneLeft(w, files, stale))
  {
    ReferenceGoneIff(w, files, stale);
    if w.post.rows.Some? {
      var rows := w.post.rows.value;
      ActiveRowIff(rows, incidentId);
      RowOfIsLast(rows, incidentId);
      if k, f :| LastRow(rows, incidentId, k) && IsActive(rows[k]) && f in originals && f in rows[k].findings {
        assert f in originals * rows[k].findings;
      }
    }
  }

  lemma {:induction false} TotalAdds(xs: seq<TargetRediscovery.Found>, ys: seq<TargetRediscovery.Found>)
    ensures Total(xs + ys) == Total(xs) + Total(ys)
  {
    if xs == [] {
      assert xs + ys == ys;
    } else {
      assert (xs + ys)[1..] == xs[1..] + ys;
      TotalAdds(xs[1..], ys);
    }
  }

  /** Violated now, and not before. */
  lemma {:induction false} NewlyViolatedIff(pre: seq<Invariant>, post: seq<Invariant>, id: string)
    ensures id in NewlyViolated(pre, post) <==>
      (exists i :: i in post && i.id == id && i.holds == Some(false)) && !exists o :: o in pre && o.id == id && o.holds == Some(false)
  {
    if post != [] {
      NewlyViolatedIff(pre, post[1..], id);
      assert forall i :: i in post <==> i == post[0] || i in post[1..];
    }
  }

  function NewlyViolated(pre: seq<Invariant>, post: seq<Invariant>): seq<string> {
    if post == [] then []
    else
      (if post[0].holds == Some(false) && !exists o :: o in pre && o.id == post[0].id && o.holds == Some(false)
       then [post[0].id] else [])
      + NewlyViolated(pre, post[1..])
  }

  ghost predicate NoneViolated(invariants: seq<Invariant>) {
    forall i :: i in invariants ==> i.holds != Some(false)
  }

  lemma {:induction false} NothingNewMeansNothingAtAll(pre: seq<Invariant>, post: seq<Invariant>)
    requires NoneViolated(pre)
    ensures NewlyViolated(pre, post) == [] <==> NoneViolated(post)
  {
    if post != [] {
      NothingNewMeansNothingAtAll(pre, post[1..]);
      assert post[0] in post && forall i :: i in post[1..] ==> i in post;
      assert forall i :: i in post ==> i == post[0] || i in post[1..];
    }
  }

  predicate RuntimeSound(w: World) {
    AllHold(w.post.reloads) && w.post.replacementResolvable && !w.post.newlyUnavailable
    && !w.post.attributableErrors && !w.post.worsened && NewlyViolated(w.invariants, w.post.invariants) == []
  }

  function ActiveIds(rows: seq<Row>): set<string> {
    set r | r in rows && r.lifecycle in ActiveLifecycles :: r.incidentId
  }

  /** The active incidents of the first two priorities that were not known. */
  function Critical(rows: seq<Row>, known: set<string>): set<string> {
    set r | r in rows && r.lifecycle in ActiveLifecycles && r.incidentId !in known && r.priority in {"p0", "p1"} :: r.incidentId
  }

  ghost predicate IsCritical(r: Row) {
    IsActive(r) && (r.priority == "p0" || r.priority == "p1")
  }

  /** A critical incident that was not active before the repair. */
  ghost predicate NewCritical(w: World) {
    exists r :: r in w.post.rowsAfter && IsCritical(r)
      && forall o :: o in w.rows && IsActive(o) ==> o.incidentId != r.incidentId
  }

  lemma ActiveIdsAre(rows: seq<Row>, id: string)
    ensures id in ActiveIds(rows) <==> exists o :: o in rows && IsActive(o) && o.incidentId == id
  {}

  lemma CriticalIff(rows: seq<Row>, known: set<string>)
    ensures Critical(rows, known) != {} <==> exists r :: r in rows && IsCritical(r) && r.incidentId !in known
  {
    if r :| r in rows && IsCritical(r) && r.incidentId !in known {
      assert r.incidentId in Critical(rows, known);
    }
    if id :| id in Critical(rows, known) {
      var r :| r in rows && r.lifecycle in ActiveLifecycles && r.incidentId == id && id !in known && r.priority in {"p0", "p1"};
      assert IsCritical(r);
    }
  }

  lemma NewCriticalIff(w: World)
    ensures Critical(w.post.rowsAfter, ActiveIds(w.rows)) != {} <==> NewCritical(w)
  {
    CriticalIff(w.post.rowsAfter, ActiveIds(w.rows));
    forall r | r in w.post.rowsAfter
      ensures r.incidentId !in ActiveIds(w.rows) <==> forall o :: o in w.rows && IsActive(o) ==> o.incidentId != r.incidentId
    {
      ActiveIdsAre(w.rows, r.incidentId);
    }
  }

  /** The house stands after the change: no protected invariant is violated, not
      merely none that was not violated before. */
  ghost predicate Sound(w: World) {
    w.post.configValid && false !in w.post.reloads && w.post.replacementResolvable
    && !w.post.newlyUnavailable && !w.post.attributableErrors && !w.post.worsened
    && NoneViolated(w.post.invariants)
  }

  /** What it takes to be called resolved, in terms of the house rather than of
      the checks. */
  ghost predicate Proven(w: World, files: Files, incidentId: string, stale: string)
    requires stale != []
  {
    Sound(w) && NewScan(w) && !NewCritical(w)
    && w.post.rows.Some? && !StillActive(w.post.rows.value, incidentId) && NoneLeft(w, files, stale)
  }

  /** The closing record. */
  method Conclude(host: Host, w: World, plan: Plan, cs: seq<LocationChange>, outcome: Outcome)
    requires outcome != ValidationFailed
    requires InFlight(host, cs) && !RollingBack(host.log)
    requires host.repair.identity == PlanIdentity(plan) && host.repair.incidentId == plan.incident.incidentId
    modifies host`store, host`log, host`faults
    ensures host.faults >= old(host.faults)
    ensures host.Valid() && Torn(host.log) == old(Torn(host.log))
    ensures host.asked == old(|host.log|) ==> ScannedOver(host)
    ensures host.faults == old(host.faults) && w.persistence && outcome !in {Outcome.RolledBack, RollbackFailed} ==> Closes(host, outcome)
  {
    var at: nat := *;
    var b := Record(plan, LifecycleComplete, cs, at)
      .(backupComplete := true, writeBegan := true, writeComplete := true, validationComplete := true,
        validationPassed := outcome != ValidationFailed, complete := true);
    MayRecordAgain(host, cs, b);
    var _ := Checkpoint(host, w.persistence, cs, b);
  }

  /** The last durable word on this repair is that its configuration was fine. */
  ghost predicate LooksValidated(log: seq<Event>) {
    LastRecord(log).Some?
    && var b := LastRecord(log).value;
       !b.complete && b.writeBegan && b.validationComplete && b.validationPassed && !b.rollbackBegan
  }

  /** A record of progress that nothing waits for. */
  method Note(host: Host, w: World, plan: Plan, cs: seq<LocationChange>, stage: Stage, applied: bool, validated: bool, passed: bool)
    requires InFlight(host, cs) && !RollingBack(host.log)
    requires stage == WriteApplied ==> !validated && !passed
    requires stage in {WriteApplied, ValidationComplete} && (stage == ValidationComplete ==> applied && validated)
    requires host.repair.identity == PlanIdentity(plan) && host.repair.incidentId == plan.incident.incidentId
    requires LastRecord(host.log).Some? && !LastRecord(host.log).value.complete
    modifies host`store, host`log, host`faults
    ensures host.faults >= old(host.faults) && (host.faults == old(host.faults) ==> (w.persistence && validated && passed ==> LooksValidated(host.log)))
    ensures InFlight(host, cs) && !RollingBack(host.log) && Torn(host.log) == old(Torn(host.log))
    ensures LastRecord(host.log).Some? && !LastRecord(host.log).value.complete
  {
    var at: nat := *;
    var b := Record(plan, stage, cs, at)
      .(backupComplete := true, writeBegan := true, writeComplete := applied,
        validationComplete := validated, validationPassed := passed);
    MayRecordAgain(host, cs, b);
    var _ := Checkpoint(host, w.persistence, cs, b);
  }

  predicate Kept(o: Outcome) {
    o in {Resolved, StillPresent, Inconclusive, Regressed}
  }

  /** Every verdict on a change that landed, from the house and the files alone. */
  ghost predicate Judged(w: World, files: Files, plan: Plan, o: Outcome)
    requires plan.staleEntity != []
  {
    (Kept(o) <==> Sound(w) && !(NewScan(w) && NewCritical(w) && w.rollbackOnRegression))
    && (o == Regressed <==> Sound(w) && NewScan(w) && NewCritical(w) && !w.rollbackOnRegression)
    && (o == Inconclusive <==> Sound(w) && (!NewScan(w) || (!NewCritical(w) && w.post.rows.None?)))
    && (o == Resolved <==> Proven(w, files, plan.incident.incidentId, plan.staleEntity))
  }

  /** The outcome when nothing goes wrong: decided by the house alone. */
  ghost predicate Deserved(w: World, files: Files, plan: Plan, o: Outcome)
    requires plan.staleEntity != []
  {
    o != Blocked && Judged(w, files, plan, o) && (!Kept(o) ==> (o == Outcome.RolledBack <==> RollbackHolds(w)))
  }

  /** These endings never write a record that says the repair is over: it stays on
      file as in flight, exempt from pruning, and every restart finds it again. */
  ghost predicate LeftOpen(w: World, o: Outcome) {
    o == Regressed || (o == Inconclusive && !NewScan(w))
  }

  /** The scan was asked for after the last write. */
  ghost predicate ScannedOver(host: Host)
    reads host
  {
    host.asked <= |host.log| && Quiet(host.log[host.asked..])
  }

  ghost predicate StaysOpen(host: Host, w: World, faultless: bool)
    reads host
  {
    LastRecord(host.log).Some? && !LastRecord(host.log).value.complete
    && (faultless && w.persistence ==> LooksValidated(host.log))
  }

  /** How an ending stands on record: open, or closed when nothing goes wrong. (With
      nothing written there is nothing to close.) */
  ghost predicate Ends(host: Host, w: World, o: Outcome, faultless: bool)
    reads host
  {
    (LeftOpen(w, o) ==> StaysOpen(host, w, faultless))
    && (faultless && w.persistence && !LeftOpen(w, o) && o != Blocked && o != ValidationFailed ==> Closes(host, o))
  }

  /** Phases 5 to 9 up to the verdict; nothing means the change must go. */
  method Assess(host: Host, w: World, plan: Plan, cs: seq<LocationChange>, originals: set<string>)
    returns (kept: Option<Outcome>, settled: bool)
    requires InFlight(host, cs) && !RollingBack(host.log) && plan.staleEntity != [] && NoneViolated(w.invariants)
    requires host.repair.identity == PlanIdentity(plan) && host.repair.incidentId == plan.incident.incidentId
    requires LastRecord(host.log).Some? && !LastRecord(host.log).value.complete
    modifies host`store, host`log, host`faults, host`asked
    ensures InFlight(host, cs) && !RollingBack(host.log) && Torn(host.log) == old(Torn(host.log))
    ensures host.faults >= old(host.faults)
    ensures kept.None? <==> !Sound(w) || (NewScan(w) && NewCritical(w) && w.rollbackOnRegression)
    ensures kept.Some? ==> (settled <==> !LeftOpen(w, kept.value))
    ensures kept.Some? ==> host.asked == |host.log|
    ensures kept.Some? ==>
      Kept(kept.value) && Judged(w, host.files, plan, kept.value) && StaysOpen(host, w, host.faults == old(host.faults))
  {
    Note(host, w, plan, cs, ValidationComplete, true, true, w.post.configValid);
    if !w.post.configValid { return None, false; }
    NothingNewMeansNothingAtAll(w.invariants, w.post.invariants);
    if !RuntimeSound(w) { return None, false; }
    host.asked := |host.log|;
    FreshIff(w);
    if !Fresh(w.scanId, w.post.scan) { return Some(Inconclusive), false; }
    kept, settled := Judge(w, host.files, plan, originals);
  }

  /** The verdict over a fresh scan. */
  method Judge(w: World, files: Files, plan: Plan, originals: set<string>) returns (kept: Option<Outcome>, settled: bool)
    requires plan.staleEntity != [] && Sound(w) && NewScan(w)
    ensures kept.None? <==> NewCritical(w) && w.rollbackOnRegression
    ensures kept.Some? ==> Kept(kept.value) && Judged(w, files, plan, kept.value) && (settled <==> !LeftOpen(w, kept.value))
  {
    var verdict := Reconcile(w, files, plan.incident.incidentId, plan.staleEntity, originals);
    EliminatedIff(w, files, plan.incident.incidentId, plan.staleEntity, originals);
    OtherVerdictsIff(w, files, plan.incident.incidentId, plan.staleEntity, originals);
    NewCriticalIff(w);
    if Critical(w.post.rowsAfter, ActiveIds(w.rows)) != {} {
      return if w.rollbackOnRegression then None else Some(Regressed), false;
    }
    settled := true;
    kept := match verdict
      case Eliminated => Some(Resolved)
      case Indeterminate => Some(Inconclusive)
      case _ => Some(StillPresent);
  }

  /** Keep the change with its verdict, or take it back. Only a verdict that was
      reached closes the record. */
  method ValidateAndProve(host: Host, w: World, plan: Plan, approved: Plan, cs: seq<LocationChange>, originals: set<string>)
    returns (outcome: Outcome)
    requires InFlight(host, cs) && !RollingBack(host.log) && plan.staleEntity != [] && NoneViolated(w.invariants)
    requires Keyed(host.repair, plan, approved)
    requires LastRecord(host.log).Some? && !LastRecord(host.log).value.complete
    modifies host`files, host`store, host`log, host`faults, host`asked, cs`restored
    ensures host.faults >= old(host.faults)
    ensures host.Valid() && Torn(host.log) == old(Torn(host.log)) && outcome != Blocked
    ensures outcome in {ValidationFailed, Outcome.RolledBack} ==> host.files == host.initial + Torn(host.log)
    ensures Judged(w, old(host.files), plan, outcome)
    ensures Kept(outcome) ==> host.files == old(host.files)
    ensures outcome == Outcome.RolledBack ==> RollbackHolds(w)
    ensures host.faults == old(host.faults) && w.persistence && old(SomethingToRestore(cs, host.backups)) && !Kept(outcome) ==>
      (outcome == Outcome.RolledBack <==> RollbackHolds(w))
    ensures Kept(outcome) ==> ScannedOver(host)
    ensures Ends(host, w, outcome, host.faults == old(host.faults))
  {
    var kept, settled := Assess(host, w, plan, cs, originals);
    match kept
    case None =>
      outcome := Rollback(host, w, approved, cs);
    case Some(verdict) =>
      outcome := verdict;
      if settled { Conclude(host, w, plan, cs, verdict); }
  }

  ghost predicate Keyed(r: Repair, plan: Plan, approved: Plan) {
    r.identity == PlanIdentity(plan) && r.approved == PlanIdentity(approved)
    && r.incidentId == plan.incident.incidentId == approved.incident.incidentId
  }

  // ---- Proof on its own ---------------------------------------------------------------

  /** Against a recorded baseline only; without one no regression is ever claimed. */
  ghost predicate NewCriticalAgainst(w: World, baseline: set<string>) {
    baseline != {} && exists r :: r in w.post.rowsAfter && IsCritical(r) && r.incidentId !in baseline
  }

  /** Looking for the empty string finds it in every text. */
  ghost predicate GoneEverywhere(w: World, files: Files, stale: string) {
    if stale == [] then forall p :: p in w.post.active && p in files ==> p in w.post.unreadable
    else NoneLeft(w, files, stale)
  }

  ghost predicate ProvenLater(w: World, files: Files, incidentId: string, stale: string, baseline: set<string>) {
    NewScan(w) && !NewCriticalAgainst(w, baseline)
    && w.post.rows.Some? && !StillActive(w.post.rows.value, incidentId) && GoneEverywhere(w, files, stale)
  }

  /** `async_reconcile`: the verdict for a repair whose writing is over. It changes
      nothing, and it does not ask whether anything was ever written. */
  method ReconcileLater(host: Host, w: World, incidentId: string, submitted: RawPlan, submittedIdentity: Identity,
                        baseline: set<string>, originals: set<string>)
    returns (outcome: Outcome)
    ensures outcome == Blocked <==> PlanIdentity(FromDict(submitted)) != submittedIdentity
    ensures outcome == Resolved <==>
      outcome != Blocked && ProvenLater(w, host.files, incidentId, FromDict(submitted).staleEntity, baseline)
    ensures outcome == Regressed <==> outcome != Blocked && NewScan(w) && NewCriticalAgainst(w, baseline)
    ensures outcome == Inconclusive <==>
      outcome != Blocked && (!NewScan(w) || (!NewCriticalAgainst(w, baseline) && w.post.rows.None?))
    ensures outcome in {Blocked, Inconclusive, Regressed, StillPresent, Resolved}
  {
    var approved := FromDict(submitted);
    if PlanIdentity(approved) != submittedIdentity { return Blocked; }
    FreshIff(w);
    if !Fresh(w.scanId, w.post.scan) { return Inconclusive; }
    var verdict;
    if w.post.rows.Some? { ActiveRowIff(w.post.rows.value, incidentId); }
    if approved.staleEntity == [] {
      verdict := VerdictOn(w, incidentId, originals, exists p :: p in w.post.active && p in host.files && p !in w.post.unreadable);
    } else {
      verdict := Reconcile(w, host.files, incidentId, approved.staleEntity, originals);
      EliminatedIff(w, host.files, incidentId, approved.staleEntity, originals);
      OtherVerdictsIff(w, host.files, incidentId, approved.staleEntity, originals);
    }
    CriticalIff(w.post.rowsAfter, baseline);
    if baseline != {} && Critical(w.post.rowsAfter, baseline) != {} { return Regressed; }
    outcome := match verdict
      case Eliminated => Resolved
      case Indeterminate => Inconclusive
      case _ => StillPresent;
  }

  /** Against a baseline of the incidents that were active before, the later proof
      lacks exactly the soundness of the house: configuration, runtime and invariants
      are not looked at again. */
  lemma LaterProofLacksSoundness(w: World, files: Files, incidentId: string, stale: string, baseline: set<string>)
    requires stale != [] && baseline != {}
    requires forall id :: id in baseline <==> exists o :: o in w.rows && IsActive(o) && o.incidentId == id
    ensures Proven(w, files, incidentId, stale) <==> Sound(w) && ProvenLater(w, files, incidentId, stale, baseline)
  {
    assert NewCritical(w) <==> NewCriticalAgainst(w, baseline);
  }

  // ---- The whole run --------------------------------------------------------------------

  /** Everything that must hold before the first byte changes. */
  ghost predicate Cleared(w: World, files: Files, incidentId: string, approved: Plan, submittedIdentity: Identity,
                          approvedBy: string, plan: Plan)
  {
    PlanIdentity(approved) == submittedIdentity && approved.incident.incidentId == incidentId
    && DerivedPlan(w, files, incidentId) == Some(plan) && plan.staleEntity != []
    && !BlockingDrift(approved, plan) && approvedBy != ""
    && (forall d :: d in w.registry && d.critical ==> d.protects !! {plan.staleEntity, plan.newEntity})
    && (forall p, e :: p in PlanPaths(plan) ==> !Gains(files, p, plan.staleEntity, plan.newEntity, w.off, e))
    && w.configValid && NoneViolated(w.invariants)
  }

  /** The run on this host is about this plan: its targets are the planned files as
      they were when it began. */
  ghost predicate About(host: Host, plan: Plan)
    reads host
  {
    plan.staleEntity != [] && PlanPaths(plan) != [] && (forall p :: p in PlanPaths(plan) ==> p in host.initial)
    && host.repair.targets == TargetsOf(host.initial, PlanPaths(plan), plan.staleEntity, plan.newEntity)
  }

  /** From here on the log is about this repair: its files are those the plan
      names, as they are now. */
  ghost method Adopt(host: Host, plan: Plan, approved: Plan, cs: seq<LocationChange>)
    requires host.Valid() && host.log == [] && host.files == host.initial
    requires plan.staleEntity != [] && PlanPaths(plan) != [] && plan.incident.incidentId == approved.incident.incidentId
    requires DistinctBy(PlanPaths(plan), Itself) && forall p :: p in PlanPaths(plan) ==> p in host.files
    requires |cs| == |PlanPaths(plan)| && forall i :: 0 <= i < |cs| ==> cs[i].path == PlanPaths(plan)[i]
    requires forall c :: c in cs ==> Measured(c, host.files, plan.staleEntity, plan.newEntity)
    requires forall i, j :: 0 <= i < j < |cs| ==> cs[i] != cs[j]
    modifies host`repair
    ensures host.Valid() && Plans(host.repair, cs) && Keyed(host.repair, plan, approved) && About(host, plan)
  {
    host.repair := Repair(TargetsOf(host.files, PlanPaths(plan), plan.staleEntity, plan.newEntity),
                          PlanIdentity(plan), PlanIdentity(approved), plan.incident.incidentId);
    TargetsStart(host.repair, host.files, PlanPaths(plan), plan.staleEntity, plan.newEntity);
    MeasuredArePlanned(host.repair, host.files, PlanPaths(plan), plan.staleEntity, plan.newEntity, cs);
  }

  /** The phases that touch the machine. */
  method Carry(host: Host, w: World, plan: Plan, approved: Plan, cs: seq<LocationChange>, added: set<string>, approvedBy: string)
    returns (outcome: Outcome)
    requires host.Valid() && host.log == [] && host.files == host.initial
    requires Plans(host.repair, cs) && Keyed(host.repair, plan, approved) && NoneViolated(w.invariants)
    requires w.incidentOf(plan.incident.incidentId).Some?
    requires About(host, plan) && forall c :: c in cs ==> Pristine(c)
    modifies host`files, host`backups, host`store, host`log, host`faults, host`asked, cs
    ensures host.Valid() && host.faults >= old(host.faults)
    ensures host.faults == old(host.faults) && w.persistence && MayApply(w, plan, added, approvedBy) && AllMeasured(cs, old(host.files)) ==>
      Deserved(w, AfterRepair(old(host.files), plan), plan, outcome)
    ensures outcome == Outcome.RolledBack ==> RollbackHolds(w)
    ensures outcome != Blocked ==> forall c :: c in cs ==> c.preHash.Some?
    ensures outcome == Blocked ==> host.files == old(host.files)
    ensures outcome in {ValidationFailed, Outcome.RolledBack} ==> host.files == old(host.files) + Torn(host.log)
    ensures Kept(outcome) ==> host.files == AfterRepair(old(host.files), plan) && Judged(w, host.files, plan, outcome)
    ensures Kept(outcome) ==> ScannedOver(host)
    ensures Ends(host, w, outcome, host.faults == old(host.faults))
  {
    var ready := SecureBackups(host, w.persistence, plan, cs);
    if !ready { return Blocked; }
    outcome := WriteAll(host, w, plan, approved, cs, added, approvedBy);
  }

  /** Everything from the first write on. */
  method WriteAll(host: Host, w: World, plan: Plan, approved: Plan, cs: seq<LocationChange>, added: set<string>, approvedBy: string)
    returns (outcome: Outcome)
    requires host.Valid() && Began(host.log) && !RollingBack(host.log) && host.files == host.initial && Torn(host.log) == map[]
    requires Plans(host.repair, cs) && Keyed(host.repair, plan, approved) && NoneViolated(w.invariants)
    requires w.incidentOf(plan.incident.incidentId).Some? && About(host, plan)
    requires NoneAttempted(host, cs, 0) && LastRecord(host.log).Some? && !LastRecord(host.log).value.complete
    requires forall c :: c in cs ==> c.preHash.Some? && Restorable(c, host.backups)
    modifies host`files, host`store, host`log, host`faults, host`asked, cs
    ensures host.Valid() && host.faults >= old(host.faults)
    ensures host.faults == old(host.faults) && w.persistence && MayApply(w, plan, added, approvedBy) ==>
      Deserved(w, AfterRepair(host.initial, plan), plan, outcome)
    ensures outcome == Outcome.RolledBack ==> RollbackHolds(w)
    ensures outcome == Blocked ==> host.files == host.initial
    ensures outcome in {ValidationFailed, Outcome.RolledBack} ==> host.files == host.initial + Torn(host.log)
    ensures Kept(outcome) ==> host.files == AfterRepair(host.initial, plan) && Judged(w, host.files, plan, outcome)
    ensures Kept(outcome) ==> ScannedOver(host)
    ensures Ends(host, w, outcome, host.faults == old(host.faults))
  {
    var applied := WriteFiles(host, w, plan, cs, added, approvedBy);
    if applied == Refused { return Blocked; }
    var originals := w.incidentOf(plan.incident.incidentId).value.findings;
    outcome := FollowUp(host, w, plan, approved, cs, originals, applied == Applied);
  }

  method WriteFiles(host: Host, w: World, plan: Plan, cs: seq<LocationChange>, added: set<string>, approvedBy: string)
    returns (applied: Application)
    requires host.Valid() && Began(host.log) && !RollingBack(host.log) && Plans(host.repair, cs) && About(host, plan)
    requires NoneAttempted(host, cs, 0) && LastRecord(host.log).Some? && !LastRecord(host.log).value.complete
    requires forall c :: c in cs ==> c.preHash.Some? && Restorable(c, host.backups)
    modifies host`files, host`log, host`faults, cs`written, cs`writeVerified
    ensures host.Valid() && host.faults >= old(host.faults)
    ensures LastRecord(host.log) == old(LastRecord(host.log))
    ensures applied == Refused ==> host.files == old(host.files) && !MayApply(w, plan, added, approvedBy)
    ensures applied != Refused ==> InFlight(host, cs) && !RollingBack(host.log)
    ensures applied == Applied ==> host.files == AfterRepair(host.initial, plan) && SomethingToRestore(cs, host.backups)
    ensures host.faults == old(host.faults) ==> applied != NotApplied
  {
    TargetsStart(host.repair, host.initial, PlanPaths(plan), plan.staleEntity, plan.newEntity);
    applied := ApplyLocations(host, cs, plan.staleEntity, plan.newEntity, w.registry, added, w.intentSevers, approvedBy);
    if applied == Applied {
      WrittenIsSomething(host, cs, plan);
      AllLanded(host, cs, plan);
    }
  }

  function AfterRepair(files: Files, plan: Plan): Files
    requires plan.staleEntity != []
  {
    Edited(files, PlanPaths(plan), plan.staleEntity, plan.newEntity)
  }

  method FollowUp(host: Host, w: World, plan: Plan, approved: Plan, cs: seq<LocationChange>, originals: set<string>, applied: bool)
    returns (outcome: Outcome)
    requires InFlight(host, cs) && !RollingBack(host.log) && Keyed(host.repair, plan, approved) && NoneViolated(w.invariants)
    requires LastRecord(host.log).Some? && !LastRecord(host.log).value.complete && plan.staleEntity != []
    modifies host`files, host`store, host`log, host`faults, host`asked, cs`restored
    ensures host.Valid() && host.faults >= old(host.faults) && outcome != Blocked
    ensures if applied then Judged(w, old(host.files), plan, outcome) else !Kept(outcome)
    ensures outcome == Outcome.RolledBack ==> RollbackHolds(w)
    ensures host.faults == old(host.faults) && w.persistence && old(SomethingToRestore(cs, host.backups)) && !Kept(outcome) ==>
      (outcome == Outcome.RolledBack <==> RollbackHolds(w))
    ensures outcome in {ValidationFailed, Outcome.RolledBack} ==> host.files == host.initial + Torn(host.log)
    ensures Kept(outcome) ==> host.files == old(host.files)
    ensures Kept(outcome) ==> ScannedOver(host)
    ensures Ends(host, w, outcome, host.faults == old(host.faults))
  {
    Note(host, w, plan, cs, WriteApplied, applied, false, false);
    if applied {
      outcome := ValidateAndProve(host, w, plan, approved, cs, originals);
    } else {
      outcome := Rollback(host, w, approved, cs);
    }
  }

  lemma WrittenIsSomething(host: Host, cs: seq<LocationChange>, plan: Plan)
    requires InFlight(host, cs) && About(host, plan) && forall j :: 0 <= j < |cs| ==> cs[j].writeVerified
    requires forall c :: c in cs ==> Restorable(c, host.backups)
    ensures SomethingToRestore(cs, host.backups)
  {
    assert |host.repair.targets| == |PlanPaths(plan)|;
    assert Attempted(cs[0], host.repair.targets[0], host.files, host.log) && cs[0] in cs;
  }

  lemma AllLanded(host: Host, cs: seq<LocationChange>, plan: Plan)
    requires InFlight(host, cs) && About(host, plan)
    requires forall j :: 0 <= j < |cs| ==> cs[j].writeVerified
    ensures host.files == Edited(host.initial, PlanPaths(plan), plan.staleEntity, plan.newEntity)
  {
    host.Explained();
    forall t | t in host.repair.targets ensures t.path in host.files && host.files[t.path] == t.post {
      var j :| 0 <= j < |host.repair.targets| && host.repair.targets[j] == t;
      assert Attempted(cs[j], t, host.files, host.log) && Planned(cs[j], t);
    }
    EditedEverywhere(host.repair, host.initial, host.log, PlanPaths(plan), plan.staleEntity, plan.newEntity);
  }

  /** Is what was approved still what would be done? */
  method Confirm(host: Host, w: World, incidentId: string, approved: Plan, submittedIdentity: Identity)
    returns (current: Option<Plan>)
    modifies host`faults
    ensures current.Some? ==> IdentityHolds(w, host.files, incidentId, approved, submittedIdentity, current.value)
    ensures host.faults >= old(host.faults)
    ensures host.faults == old(host.faults) && current.None? ==> forall p :: !IdentityHolds(w, host.files, incidentId, approved, submittedIdentity, p)
  {
    if PlanIdentity(approved) != submittedIdentity { return None; }
    if approved.incident.incidentId != incidentId { return None; }
    current := Derive(host, w, incidentId);
    if current.None? { return; }
    DerivedPlanIsDerived(w, host.files, incidentId);
    var drift := ComparePlans(approved, current.value);
    if exists d :: d in drift && Blocking(d) { return None; }
  }

  /** The phases that only look: drift, authorization, the state beforehand. */
  method Clear(host: Host, w: World, incidentId: string, approved: Plan, submittedIdentity: Identity, approvedBy: string)
    returns (plan: Option<Plan>, cs: seq<LocationChange>, added: set<string>)
    modifies host`faults
    ensures host.faults >= old(host.faults)
    ensures host.faults == old(host.faults) && plan.None? ==>
      forall p :: !Cleared(w, host.files, incidentId, approved, submittedIdentity, approvedBy, p)
    ensures host.faults == old(host.faults) && plan.Some? ==> AllMeasured(cs, host.files)
    ensures plan.Some? ==>
      IdentityHolds(w, host.files, incidentId, approved, submittedIdentity, plan.value)
      && MayApply(w, plan.value, added, approvedBy)
      && PlannedAgain(host.files, w.off, plan.value, cs, added)
      && w.configValid && NoneViolated(w.invariants)
    ensures fresh(cs) && forall c :: c in cs ==> Pristine(c)
  {
    plan, cs, added := None, [], {};
    var confirmed := Confirm(host, w, incidentId, approved, submittedIdentity);
    if confirmed.None? {
      forall p | !IdentityHolds(w, host.files, incidentId, approved, submittedIdentity, p)
        ensures !Cleared(w, host.files, incidentId, approved, submittedIdentity, approvedBy, p)
      {}
      return;
    }
    var current := confirmed.value;
    DerivedPlanIsDerived(w, host.files, incidentId);
    SamePathsAgain(w, host.files, incidentId, current);
    cs, added := PlanLocations(host, PlanPaths(current), current.staleEntity, current.newEntity, w.off);
    AllReadable(host.files, cs, current, w.off, added);
    var permitted := Permit(w, current, added, approvedBy);
    if permitted {
      plan := Some(current);
    } else if host.faults == old(host.faults) {
      NotPermitted(w, host.files, incidentId, approved, submittedIdentity, approvedBy, current, added);
    }
  }

  lemma NotPermitted(w: World, files: Files, incidentId: string, approved: Plan, submittedIdentity: Identity, approvedBy: string,
                     current: Plan, added: set<string>)
    requires IdentityHolds(w, files, incidentId, approved, submittedIdentity, current)
    requires added == {} <==>
      forall p, e :: p in PlanPaths(current) ==> !Gains(files, p, current.staleEntity, current.newEntity, w.off, e)
    requires !(MayApply(w, current, added, approvedBy) && w.configValid && NoneViolated(w.invariants))
    ensures forall p :: !Cleared(w, files, incidentId, approved, submittedIdentity, approvedBy, p)
  {
    forall p ensures !Cleared(w, files, incidentId, approved, submittedIdentity, approvedBy, p) {
      if DerivedPlan(w, files, incidentId) == Some(p) { assert p == current; }
    }
  }

  method Permit(w: World, plan: Plan, added: set<string>, approvedBy: string) returns (permitted: bool)
    ensures permitted <==> MayApply(w, plan, added, approvedBy) && w.configValid && NoneViolated(w.invariants)
  {
    var targets := {plan.staleEntity, plan.newEntity};
    var auth := Authorization.Authorize(w.registry, Authorization.ReplaceReference, targets, added, w.intentSevers, false, approvedBy);
    Authorization.ReplacementRunsIff(w.registry, targets, added, w.intentSevers, false, approvedBy);
    if auth.decision != Authorization.Automatic { return false; }
    if !w.configValid { return false; }
    if exists i :: i in w.invariants && i.holds == Some(false) { return false; }
    permitted := true;
  }

  /** When every file could be read again, the second measurement gained what the
      whole plan gains. */
  lemma AllReadable(files: Files, cs: seq<LocationChange>, plan: Plan, off: string -> set<string>, added: set<string>)
    requires PlannedAgain(files, off, plan, cs, added)
    ensures (forall c :: c in cs && c.path in files ==> c.preHash.Some?) ==>
      AllMeasured(cs, files)
      && (added == {} <==> forall p, e :: p in PlanPaths(plan) ==> !Gains(files, p, plan.staleEntity, plan.newEntity, off, e))
  {
    if forall c :: c in cs && c.path in files ==> c.preHash.Some? {
      assert forall i :: 0 <= i < |cs| ==> cs[i] in cs;
      forall c | c in cs ensures HasBackup(c, files) {
        assert c.path in PlanPaths(plan);
      }
      if added == {} {
        NothingGained(files, off, plan, cs, added);
      } else {
        var e :| e in added;
        var c :| c in cs && Gains(files, c.path, plan.staleEntity, plan.newEntity, off, e);
        assert c.path in PlanPaths(plan);
      }
    }
  }

  ghost predicate IdentityHolds(w: World, files: Files, incidentId: string, approved: Plan, submittedIdentity: Identity, plan: Plan) {
    PlanIdentity(approved) == submittedIdentity && approved.incident.incidentId == incidentId
    && DerivedPlan(w, files, incidentId) == Some(plan) && plan.staleEntity != [] && !BlockingDrift(approved, plan)
  }

  ghost predicate MayApply(w: World, plan: Plan, added: set<string>, approvedBy: string) {
    approvedBy != "" && added == {}
    && forall d :: d in w.registry && d.critical ==> d.protects !! {plan.staleEntity, plan.newEntity}
  }

  ghost predicate PlannedAgain(files: Files, off: string -> set<string>, plan: Plan, cs: seq<LocationChange>, added: set<string>) {
    plan.staleEntity != [] && |cs| == |PlanPaths(plan)| > 0 && (forall i :: 0 <= i < |cs| ==> cs[i].path == PlanPaths(plan)[i])
    && DistinctBy(PlanPaths(plan), Itself) && (forall p :: p in PlanPaths(plan) ==> p in files)
    && (forall c :: c in cs ==> Measured(c, files, plan.staleEntity, plan.newEntity))
    && (forall i, j :: 0 <= i < j < |cs| ==> cs[i] != cs[j])
    && forall e :: e in added <==>
         exists c :: c in cs && c.preHash.Some? && Gains(files, c.path, plan.staleEntity, plan.newEntity, off, e)
  }

  lemma SamePathsAgain(w: World, files: Files, incidentId: string, plan: Plan)
    requires Derived(w, files, incidentId, plan)
    ensures SortedDistinct(PlanPaths(plan)) == PlanPaths(plan) && DistinctBy(PlanPaths(plan), Itself)
    ensures PlanPaths(plan) != [] && forall p :: p in PlanPaths(plan) ==> p in files
  {
    var found := TargetRediscovery.Rediscovered(FactsOf(w, files), w.incidentOf(incidentId).value.subjects,
                                                TargetRediscovery.NoHint);
    SortedDistinctAgain(Paths(found.locations));
    SortedDistinctIs(Paths(found.locations));
    assert Paths(found.locations)[0] in Paths(found.locations);
    forall p | p in PlanPaths(plan) ensures p in files {
      var i :| 0 <= i < |plan.locations| && plan.locations[i].path == p;
      assert plan.locations[i] in plan.locations;
    }
  }

  /** Nothing gained anywhere, once every file could be read. */
  lemma NothingGained(files: Files, off: string -> set<string>, plan: Plan, cs: seq<LocationChange>, added: set<string>)
    requires PlannedAgain(files, off, plan, cs, added) && added == {} && forall c :: c in cs ==> c.preHash.Some?
    ensures forall p, e :: p in PlanPaths(plan) ==> !Gains(files, p, plan.staleEntity, plan.newEntity, off, e)
  {
    forall p, e | p in PlanPaths(plan) ensures !Gains(files, p, plan.staleEntity, plan.newEntity, off, e) {
      var i :| 0 <= i < |PlanPaths(plan)| && PlanPaths(plan)[i] == p;
      assert cs[i] in cs && cs[i].path == p;
      assert e !in added;
    }
  }

  method Execute(host: Host, w: World, incidentId: string, submitted: RawPlan, submittedIdentity: Identity, approvedBy: string)
    returns (outcome: Outcome, ghost plan: Option<Plan>)
    modifies host
    ensures host.Valid() && host.initial == old(host.files) && host.stored == old(host.store)
    ensures outcome != Blocked ==>
      plan.Some? && Cleared(w, old(host.files), incidentId, FromDict(submitted), submittedIdentity, approvedBy, plan.value)
    ensures outcome == Blocked ==> host.files == old(host.files)
    ensures outcome in {ValidationFailed, Outcome.RolledBack} ==> host.files == old(host.files) + Torn(host.log)
    ensures Kept(outcome) ==>
      host.files == AfterRepair(old(host.files), plan.value) && Judged(w, host.files, plan.value, outcome)
    ensures Kept(outcome) ==> ScannedOver(host)
    ensures Ends(host, w, outcome, host.faults == old(host.faults))
    ensures outcome == Outcome.RolledBack ==> RollbackHolds(w)
    ensures host.faults == old(host.faults) && w.persistence && outcome == Blocked ==>
      forall p :: !Cleared(w, old(host.files), incidentId, FromDict(submitted), submittedIdentity, approvedBy, p)
    ensures host.faults == old(host.faults) && w.persistence && outcome != Blocked ==>
      Deserved(w, AfterRepair(old(host.files), plan.value), plan.value, outcome)
    ensures forall p :: p in old(host.files) && (plan.Some? ==> p !in PlanPaths(plan.value)) ==>
      p in host.files && host.files[p] == old(host.files)[p]
    ensures plan.Some? ==>
      IdentityHolds(w, old(host.files), incidentId, FromDict(submitted), submittedIdentity, plan.value)
      && Keyed(host.repair, plan.value, FromDict(submitted)) && About(host, plan.value)
  {
    outcome, plan := Perform(host, w, incidentId, FromDict(submitted), submittedIdentity, approvedBy);
  }

  method Perform(host: Host, w: World, incidentId: string, approved: Plan, submittedIdentity: Identity, approvedBy: string)
    returns (outcome: Outcome, ghost plan: Option<Plan>)
    modifies host
    ensures host.Valid() && host.initial == old(host.files) && host.stored == old(host.store)
    ensures outcome != Blocked ==>
      plan.Some? && Cleared(w, old(host.files), incidentId, approved, submittedIdentity, approvedBy, plan.value)
    ensures outcome == Blocked ==> host.files == old(host.files)
    ensures outcome in {ValidationFailed, Outcome.RolledBack} ==> host.files == old(host.files) + Torn(host.log)
    ensures Kept(outcome) ==>
      host.files == AfterRepair(old(host.files), plan.value) && Judged(w, host.files, plan.value, outcome)
    ensures Kept(outcome) ==> ScannedOver(host)
    ensures Ends(host, w, outcome, host.faults == old(host.faults))
    ensures outcome == Outcome.RolledBack ==> RollbackHolds(w)
    ensures host.faults == old(host.faults) && w.persistence && outcome == Blocked ==>
      forall p :: !Cleared(w, old(host.files), incidentId, approved, submittedIdentity, approvedBy, p)
    ensures host.faults == old(host.faults) && w.persistence && outcome != Blocked ==>
      Deserved(w, AfterRepair(old(host.files), plan.value), plan.value, outcome)
    ensures forall p :: p in old(host.files) && (plan.Some? ==> p !in PlanPaths(plan.value)) ==>
      p in host.files && host.files[p] == old(host.files)[p]
    ensures plan.Some? ==>
      IdentityHolds(w, old(host.files), incidentId, approved, submittedIdentity, plan.value)
      && Keyed(host.repair, plan.value, approved) && About(host, plan.value)
  {
    host.Begin(Repair([], submittedIdentity, submittedIdentity, incidentId));
    var current, cs, added := Clear(host, w, incidentId, approved, submittedIdentity, approvedBy);
    plan := current;
    if current.None? { return Blocked, None; }
    outcome := Proceed(host, w, incidentId, approved, submittedIdentity, approvedBy, current.value, cs, added);
  }

  /** The rest of a run whose plan passed. */
  method Proceed(host: Host, w: World, incidentId: string, approved: Plan, submittedIdentity: Identity, approvedBy: string,
                 plan: Plan, cs: seq<LocationChange>, added: set<string>)
    returns (outcome: Outcome)
    requires host.Valid() && host.log == [] && host.files == host.initial
    requires IdentityHolds(w, host.files, incidentId, approved, submittedIdentity, plan)
    requires MayApply(w, plan, added, approvedBy) && PlannedAgain(host.files, w.off, plan, cs, added)
    requires w.configValid && NoneViolated(w.invariants)
    requires forall c :: c in cs ==> Pristine(c)
    modifies host, cs
    ensures host.Valid() && host.initial == old(host.initial) && host.stored == old(host.stored)
    ensures host.faults >= old(host.faults)
    ensures outcome != Blocked ==> Cleared(w, host.initial, incidentId, approved, submittedIdentity, approvedBy, plan)
    ensures outcome == Blocked ==> host.files == host.initial
    ensures outcome in {ValidationFailed, Outcome.RolledBack} ==> host.files == host.initial + Torn(host.log)
    ensures Kept(outcome) ==> host.files == AfterRepair(host.initial, plan) && Judged(w, host.files, plan, outcome)
    ensures Kept(outcome) ==> ScannedOver(host)
    ensures Ends(host, w, outcome, host.faults == old(host.faults))
    ensures host.faults == old(host.faults) && w.persistence && AllMeasured(cs, host.initial) ==>
      Deserved(w, AfterRepair(host.initial, plan), plan, outcome)
    ensures outcome == Outcome.RolledBack ==> RollbackHolds(w)
    ensures forall p :: p in host.initial && p !in PlanPaths(plan) ==> p in host.files && host.files[p] == host.initial[p]
    ensures Keyed(host.repair, plan, approved) && About(host, plan)
  {
    Adopt(host, plan, approved, cs);
    outcome := Carry(host, w, plan, approved, cs, added, approvedBy);
    if outcome != Blocked { NothingGained(host.initial, w.off, plan, cs, added); }
    OnlyPlannedFilesMove(host, plan);
  }

  lemma OnlyPlannedFilesMove(host: Host, plan: Plan)
    requires host.Valid() && About(host, plan)
    ensures forall p :: p in host.initial && p !in PlanPaths(plan) ==> p in host.files && host.files[p] == host.initial[p]
  {
    host.Explained();
    TargetsStart(host.repair, host.initial, PlanPaths(plan), plan.staleEntity, plan.newEntity);
    forall p | p in host.initial && p !in PlanPaths(plan)
      ensures p in host.files && host.files[p] == host.initial[p]
    {
      assert !IsTarget(host.repair, p);
      OnlyTargetsChange(host.repair, host.initial, host.log, p);
    }
  }
}
