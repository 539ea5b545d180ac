/** What the outcomes of a repair add up to: statements about whole runs that no
    single phase makes. */
module RepairGuarantees {
  import opened Ordering
  import opened RepairPlan
  import opened DurableBaseline
  import opened RepairLog
  import opened RemediationTools
  import opened RemediationLifecycle
  import ScanCoordinator
  import TargetRediscovery
  import TokenReplacement
  import Authorization

  // ---- One key ------------------------------------------------------------------

  lemma DerivedPathsDistinct(w: World, files: Files, incidentId: string, plan: Plan)
    requires Derived(w, files, incidentId, plan)
    ensures DistinctBy(plan.locations, PathOf)
  {
    SamePathsAgain(w, files, incidentId, plan);
    forall i, j | 0 <= i < j < |plan.locations| ensures PathOf(plan.locations[i]) != PathOf(plan.locations[j]) {
      assert Itself(PlanPaths(plan)[i]) != Itself(PlanPaths(plan)[j]);
    }
  }

  /** A run that passed the drift check keeps all its records, those of a rollback
      included, under one key exactly when the approved plan has one entry per path. */
  lemma RecordsShareOneKeyIff(w: World, files: Files, incidentId: string, approved: Plan, submittedIdentity: Identity,
                              plan: Plan, r: Repair)
    requires IdentityHolds(w, files, incidentId, approved, submittedIdentity, plan) && Keyed(r, plan, approved)
    ensures r.approved == submittedIdentity
    ensures r.identity == r.approved <==> DistinctBy(approved.locations, PathOf)
  {
    DerivedPlanIsDerived(w, files, incidentId);
    DerivedPathsDistinct(w, files, incidentId, plan);
    IdentityAgreesIffPathsDistinct(approved, plan);
  }

  /** Recovery looks at a record of this repair after a crash and allows a write. */
  ghost predicate AllowsAgain(host: Host, id: Identity, incidentId: string, crash: nat, b: Baseline, o: Observation)
    reads host
  {
    crash <= |host.log| && b in StoreAfter(host.stored, host.log[..crash]) && b.For(id, incidentId) && !b.complete
    && Observes(o, b, FilesAfter(host.initial, host.log[..crash])) && MayApplyMutation(Recover(b, o))
  }

  ghost predicate UntouchedAt(host: Host, t: Target, k: nat)
    requires k <= |host.log|
    reads host
  {
    t.path in FilesAfter(host.initial, host.log[..k]) && FilesAfter(host.initial, host.log[..k])[t.path] == t.pre
  }

  /** No crash leads to a second application: for any run of `Execute`, any moment
      it may be cut off, and any stored record of the attempt, if recovery would
      let the mutation be applied then every planned file has held its original
      content at every moment up to the crash. */
  lemma NoRunIsAppliedTwice(host: Host, w: World, incidentId: string, approved: Plan, submittedIdentity: Identity,
                            plan: Plan, crash: nat, b: Baseline, o: Observation, k: nat, t: Target)
    requires host.Valid() && Keyed(host.repair, plan, approved) && DistinctBy(approved.locations, PathOf)
    requires IdentityHolds(w, host.initial, incidentId, approved, submittedIdentity, plan)
    requires AllowsAgain(host, submittedIdentity, incidentId, crash, b, o)
    requires k <= crash && t in host.repair.targets
    ensures UntouchedAt(host, t, k)
  {
    RecordsShareOneKeyIff(w, host.initial, incidentId, approved, submittedIdentity, plan, host.repair);
    host.Explained();
    RecoveryNeverReapplies(host.repair, host.initial, host.stored, host.log, crash, b, o, k, t);
  }

  /** The same as a promise of the run itself, blocked runs and runs cut off by a
      save that was never confirmed included; and what a restart makes of a run that
      ended unproven. */
  method ExecuteForRecovery(host: Host, w: World, incidentId: string, submitted: RawPlan, submittedIdentity: Identity, approvedBy: string)
    returns (outcome: Outcome, ghost plan: Option<Plan>)
    modifies host
    ensures host.Valid() && host.initial == old(host.files) && (plan.Some? ==> About(host, plan.value))
    ensures plan.None? ==> host.files == old(host.files)
    ensures plan.Some? && DistinctBy(FromDict(submitted).locations, PathOf) ==> NeverTwice(host, submittedIdentity, incidentId)
    ensures LeftOpen(w, outcome) && w.persistence && host.faults == old(host.faults) ==> ReadsAsSuccess(host)
  {
    outcome, plan := Execute(host, w, incidentId, submitted, submittedIdentity, approvedBy);
    if plan.Some? {
      if DistinctBy(FromDict(submitted).locations, PathOf) {
        EveryCrashIsSafe(host, w, incidentId, FromDict(submitted), submittedIdentity, plan.value);
      }
      if LeftOpen(w, outcome) && w.persistence && host.faults == old(host.faults) {
        EveryRestartIsFooled(host, w, incidentId, plan.value, outcome);
      }
    }
  }

  ghost predicate NeverTwice(host: Host, id: Identity, incidentId: string)
    reads host
  {
    forall crash, b, o, k, t ::
      AllowsAgain(host, id, incidentId, crash, b, o) && k <= crash && t in host.repair.targets ==> UntouchedAt(host, t, k)
  }

  ghost predicate ReadsAsSuccess(host: Host)
    reads host
  {
    LastRecord(host.log).Some?
    && forall o :: ReadsEverything(o, LastRecord(host.log).value, host.files) ==>
         Recover(LastRecord(host.log).value, o) == ValidatedSuccess
  }

  lemma EveryCrashIsSafe(host: Host, w: World, incidentId: string, approved: Plan, submittedIdentity: Identity, plan: Plan)
    requires host.Valid() && Keyed(host.repair, plan, approved) && DistinctBy(approved.locations, PathOf)
    requires IdentityHolds(w, host.initial, incidentId, approved, submittedIdentity, plan)
    ensures NeverTwice(host, submittedIdentity, incidentId)
  {
    forall crash, b, o, k, t
      | AllowsAgain(host, submittedIdentity, incidentId, crash, b, o) && k <= crash && t in host.repair.targets
      ensures UntouchedAt(host, t, k)
    {
      NoRunIsAppliedTwice(host, w, incidentId, approved, submittedIdentity, plan, crash, b, o, k, t);
    }
  }

  lemma EveryRestartIsFooled(host: Host, w: World, incidentId: string, plan: Plan, outcome: Outcome)
    requires host.Valid() && About(host, plan) && DerivedPlan(w, host.initial, incidentId) == Some(plan)
    requires LeftOpen(w, outcome) && StaysOpen(host, w, true) && w.persistence && host.files == AfterRepair(host.initial, plan)
    ensures ReadsAsSuccess(host)
  {
    DerivedPlanIsDerived(w, host.initial, incidentId);
    forall o | ReadsEverything(o, LastRecord(host.log).value, host.files)
      ensures Recover(LastRecord(host.log).value, o) == ValidatedSuccess
    {
      UnprovenRepairReadsAsSuccess(host, w, incidentId, plan, outcome, o);
    }
  }

  // ---- From proposal to execution --------------------------------------------------------

  lemma FoundPaths(f: TargetRediscovery.Facts, subjects: seq<string>)
    requires TargetRediscovery.Rediscovered(f, subjects, TargetRediscovery.NoHint).Usable()
    requires forall i, j :: 0 <= i < j < |f.active| ==> f.active[i] != f.active[j]
    ensures DistinctBy(Paths(TargetRediscovery.Rediscovered(f, subjects, TargetRediscovery.NoHint).locations), Itself)
  {
    var r := TargetRediscovery.Rediscovered(f, subjects, TargetRediscovery.NoHint);
    TargetRediscovery.StaleNonEmpty(f, subjects, TargetRediscovery.NoHint);
    TargetRediscovery.HintOnlyChooses(f, subjects, TargetRediscovery.NoHint);
    TargetRediscovery.SearchFindsOnce(f, f.active, r.stale.value);
    forall i, j | 0 <= i < j < |r.locations| ensures Itself(Paths(r.locations)[i]) != Itself(Paths(r.locations)[j]) {
      assert r.locations[i].path != r.locations[j].path;
    }
  }

  lemma PlannedDistinct(files: Files, paths: seq<string>, stale: string)
    requires stale != [] && (forall p :: p in paths ==> p in files) && DistinctBy(paths, Itself)
    ensures DistinctBy(PlannedAt(files, paths, stale), PathOf)
  {
    var ls := PlannedAt(files, paths, stale);
    forall i, j | 0 <= i < j < |ls| ensures PathOf(ls[i]) != PathOf(ls[j]) { assert Itself(paths[i]) != Itself(paths[j]); }
  }

  lemma PlannedMembers(files: Files, paths: seq<string>, stale: string, l: PlannedLocation)
    requires stale != [] && forall p :: p in paths ==> p in files
    ensures l in PlannedAt(files, paths, stale) <==>
      l.path in paths && l == PlannedLocation(l.path, TokenReplacement.Count(files[l.path], stale), Digest(files[l.path]))
  {
    if l.path in paths {
      var i :| 0 <= i < |paths| && paths[i] == l.path;
      assert PlannedAt(files, paths, stale)[i].path == l.path;
    }
  }

  /** Measuring the same files in another order plans the same locations. */
  lemma SamePlanned(files: Files, found: seq<string>, stale: string)
    requires stale != [] && (forall p :: p in found ==> p in files) && DistinctBy(found, Itself)
    ensures forall p :: p in SortedDistinct(found) ==> p in files
    ensures SortBy(PlannedAt(files, found, stale), PathOf) == SortBy(PlannedAt(files, SortedDistinct(found), stale), PathOf)
  {
    SortedDistinctIs(found);
    var xs, ys := PlannedAt(files, found, stale), PlannedAt(files, SortedDistinct(found), stale);
    PlannedDistinct(files, found, stale);
    PlannedDistinct(files, SortedDistinct(found), stale);
    forall l ensures l in xs <==> l in ys {
      PlannedMembers(files, found, stale, l);
      PlannedMembers(files, SortedDistinct(found), stale, l);
    }
    SameBag(xs, ys);
    SortIgnoresOrder(xs, ys, PathOf);
  }

  /** The world has not moved since triage: the same files, incident and registry. */
  ghost predicate Unmoved(w: World, incidentId: string, c: TargetRediscovery.Case) {
    w.incidentOf(incidentId).Some?
    && c.subjects == w.incidentOf(incidentId).value.subjects && c.incident == IncidentNow(w, incidentId)
  }

  function IncidentNow(w: World, incidentId: string): Incident
    requires w.incidentOf(incidentId).Some?
  {
    var known := w.incidentOf(incidentId).value;
    Incident(incidentId, known.rootCause, known.materialDigest, known.priority, known.evidenceStatus)
  }

  ghost predicate NothingGains(w: World, files: Files, plan: Plan)
    requires plan.staleEntity != []
  {
    forall p, e :: p in PlanPaths(plan) ==> !Gains(files, p, plan.staleEntity, plan.newEntity, w.off, e)
  }

  /** The plan built over these locations, under what authorization says of a repair
      that gains so much. */
  function PlanOver(w: World, incident: Incident, stale: string, next: string, measured: seq<PlannedLocation>, added: set<string>,
                    at: string): Plan
  {
    var auth := Authorization.Authorize(w.registry, Authorization.ReplaceReference, {stale, next}, added, w.intentSevers, false, "");
    BuildPlan(incident, "replace_stale_entity_reference", stale, next, measured,
              TargetRediscovery.RiskName(auth.risk), TargetRediscovery.VerdictName(auth.verdict), at)
  }

  /** What triage builds its plan from, in the terms execution uses. */
  lemma ProposedIs(w: World, files: Files, incidentId: string, r: TargetRediscovery.Reading,
                   c: TargetRediscovery.Case, inv: TargetRediscovery.Investigation)
    requires TargetRediscovery.Rediscovered(FactsOf(w, files), c.subjects, TargetRediscovery.NoHint).Usable()
    requires TargetRediscovery.Triage(FactsOf(w, files), r, w.registry, c, inv).plan.Some?
    ensures var found := TargetRediscovery.Rediscovered(FactsOf(w, files), c.subjects, TargetRediscovery.NoHint);
      var stale, next := found.stale.value, found.replacement.value;
      stale != [] && (forall p :: p in Paths(found.locations) ==> p in files)
      && TargetRediscovery.Triage(FactsOf(w, files), r, w.registry, c, inv).plan.value
         == PlanOver(w, c.incident, stale, next, PlannedAt(files, Paths(found.locations), stale), {}, r.createdAt)
  {
    var f := FactsOf(w, files);
    var found := TargetRediscovery.Rediscovered(f, c.subjects, TargetRediscovery.NoHint);
    TargetRediscovery.NeutralProposal(f, r, w.registry, c, inv, w.intentSevers);
    MeasuredIsPlanned(f, r, found.stale.value, found.locations);
  }

  lemma MeasuredIsPlanned(f: TargetRediscovery.Facts, r: TargetRediscovery.Reading, stale: string, found: seq<TargetRediscovery.Found>)
    requires stale != [] && TargetRediscovery.Measured(f, r, stale, found).Some?
    ensures (forall p :: p in Paths(found) ==> p in f.files)
      && TargetRediscovery.Measured(f, r, stale, found).value == PlannedAt(f.files, Paths(found), stale)
  {
    TargetRediscovery.MeasuredIff(f, r, stale, found);
    assert forall i :: 0 <= i < |found| ==> found[i] in found;
  }

  lemma RiskShows(w: World, incident: Incident, stale: string, next: string, xs: seq<PlannedLocation>, ys: seq<PlannedLocation>,
                  added: set<string>, one: string, other: string)
    requires SortBy(xs, PathOf) == SortBy(ys, PathOf)
    ensures var plan, proposed := PlanOver(w, incident, stale, next, xs, added, one), PlanOver(w, incident, stale, next, ys, {}, other);
      if added == {} then plan == proposed.(createdAt := one) else plan.risk != proposed.risk
  {
    Authorization.ReplacementBlockedIff(w.registry, {stale, next}, added, w.intentSevers, false);
    Authorization.ReplacementBlockedIff(w.registry, {stale, next}, {}, w.intentSevers, false);
    NamesDiffer();
  }

  lemma NamesDiffer()
    ensures TargetRediscovery.RiskName(Authorization.ConfigMutation) != TargetRediscovery.RiskName(Authorization.PhysicalStateChange)
    ensures TargetRediscovery.RiskName(Authorization.ConfigMutation) != TargetRediscovery.RiskName(Authorization.SecurityCritical)
  {}

  lemma DerivedFor(w: World, files: Files, incidentId: string)
    requires w.incidentOf(incidentId).Some?
    requires TargetRediscovery.Rediscovered(FactsOf(w, files), w.incidentOf(incidentId).value.subjects, TargetRediscovery.NoHint).Usable()
    ensures var known := w.incidentOf(incidentId).value;
      var found := TargetRediscovery.Rediscovered(FactsOf(w, files), known.subjects, TargetRediscovery.NoHint);
      found.stale.value != [] && (forall p :: p in SortedDistinct(Paths(found.locations)) ==> p in files)
      && DerivedPlan(w, files, incidentId)
         == Some(PlanFor(w, files, incidentId, known, found.stale.value, found.replacement.value,
                         SortedDistinct(Paths(found.locations))))
      && PlanPaths(DerivedPlan(w, files, incidentId).value) == SortedDistinct(Paths(found.locations))
  {
    var known := w.incidentOf(incidentId).value;
    var found := TargetRediscovery.Rediscovered(FactsOf(w, files), known.subjects, TargetRediscovery.NoHint);
    FoundAreFiles(w, files, incidentId);
    PlanForFacts(w, files, incidentId, known, found.stale.value, found.replacement.value, Paths(found.locations));
  }

  lemma PlansAgree(w: World, files: Files, incidentId: string, known: Known, stale: string, next: string, found: seq<string>, at: string)
    requires stale != [] && (forall p :: p in found ==> p in files) && DistinctBy(found, Itself)
    ensures forall p :: p in SortedDistinct(found) ==> p in files
    ensures var plan := PlanFor(w, files, incidentId, known, stale, next, SortedDistinct(found));
      var proposed := PlanOver(w, plan.incident, stale, next, PlannedAt(files, found, stale), {}, at);
      if Gained(files, SortedDistinct(found), stale, next, w.off) == {}
      then plan == proposed.(createdAt := w.createdAt) else plan.risk != proposed.risk
  {
    SortedDistinctIs(found);
    SamePlanned(files, found, stale);
    RiskShows(w, Incident(incidentId, known.rootCause, known.materialDigest, known.priority, known.evidenceStatus), stale, next,
              PlannedAt(files, SortedDistinct(found), stale), PlannedAt(files, found, stale),
              Gained(files, SortedDistinct(found), stale, next, w.off), w.createdAt, at);
  }

  /** Execution builds the same plan, at its own time, or a riskier one. */
  lemma SameOrRiskier(w: World, files: Files, incidentId: string, proposed: Plan)
    requires w.incidentOf(incidentId).Some?
    requires forall i, j :: 0 <= i < j < |w.active| ==> w.active[i] != w.active[j]
    requires TargetRediscovery.Rediscovered(FactsOf(w, files), w.incidentOf(incidentId).value.subjects, TargetRediscovery.NoHint).Usable()
    requires var found := TargetRediscovery.Rediscovered(FactsOf(w, files), w.incidentOf(incidentId).value.subjects,
                                                         TargetRediscovery.NoHint);
      found.stale.value != [] && (forall p :: p in Paths(found.locations) ==> p in files)
      && proposed == PlanOver(w, IncidentNow(w, incidentId), found.stale.value, found.replacement.value,
                              PlannedAt(files, Paths(found.locations), found.stale.value), {}, proposed.createdAt)
    ensures DerivedPlan(w, files, incidentId).Some?
    ensures var plan := DerivedPlan(w, files, incidentId).value;
      plan.staleEntity != []
      && if Gained(files, PlanPaths(plan), plan.staleEntity, plan.newEntity, w.off) == {}
         then plan == proposed.(createdAt := w.createdAt) else plan.risk != proposed.risk
  {
    var known := w.incidentOf(incidentId).value;
    var found := TargetRediscovery.Rediscovered(FactsOf(w, files), known.subjects, TargetRediscovery.NoHint);
    DerivedFor(w, files, incidentId);
    FoundPaths(FactsOf(w, files), known.subjects);
    PlansAgree(w, files, incidentId, known, found.stale.value, found.replacement.value, Paths(found.locations), proposed.createdAt);
  }

  lemma GainedIff(w: World, files: Files, plan: Plan)
    requires plan.staleEntity != []
    ensures Gained(files, PlanPaths(plan), plan.staleEntity, plan.newEntity, w.off) == {} <==> NothingGains(w, files, plan)
  {
    var gained := Gained(files, PlanPaths(plan), plan.staleEntity, plan.newEntity, w.off);
    forall p, e | p in PlanPaths(plan) && Gains(files, p, plan.staleEntity, plan.newEntity, w.off, e) ensures e in gained {}
    if e :| e in gained {
      var p :| p in PlanPaths(plan) && p in files && Gains(files, p, plan.staleEntity, plan.newEntity, w.off, e);
    }
  }

  /** What a derived plan says of itself: its risk is read off what it gains, and its
      protection off the chains that touches. */
  lemma DerivedPlanIsRated(w: World, files: Files, incidentId: string)
    requires DerivedPlan(w, files, incidentId).Some?
    ensures var p := DerivedPlan(w, files, incidentId).value;
      p.staleEntity != []
      && var gained := Gained(files, PlanPaths(p), p.staleEntity, p.newEntity, w.off);
         var touched := {p.staleEntity, p.newEntity} + gained;
         (p.risk == if gained == {} then "config_mutation"
                    else if exists e :: e in gained && Authorization.Domain(e) in {"lock", "alarm_control_panel", "siren"}
                    then "security_critical" else "physical_state_change")
         && p.protection == if forall d :: d in w.registry ==> d.protects !! touched then "allowed"
                            else if exists d :: d in w.registry && d.critical && !(d.protects !! touched) then "blocked"
                            else "requires_approval"
  {
    DerivedBy(w, files, incidentId);
    var p := DerivedPlan(w, files, incidentId).value;
    RatingNames(w.registry, {p.staleEntity, p.newEntity}, Gained(files, PlanPaths(p), p.staleEntity, p.newEntity, w.off),
                w.intentSevers);
  }

  lemma DerivedBy(w: World, files: Files, incidentId: string)
    requires DerivedPlan(w, files, incidentId).Some?
    ensures var p := DerivedPlan(w, files, incidentId).value;
      p.staleEntity != []
      && var gained := Gained(files, PlanPaths(p), p.staleEntity, p.newEntity, w.off);
         var auth := Authorization.Authorize(w.registry, Authorization.ReplaceReference, {p.staleEntity, p.newEntity}, gained,
                                             w.intentSevers, false, "");
         p.risk == TargetRediscovery.RiskName(auth.risk) && p.protection == TargetRediscovery.VerdictName(auth.verdict)
  {
    DerivedFor(w, files, incidentId);
  }

  lemma RatingNames(registry: seq<Authorization.Dependency>, targets: set<string>, gained: set<string>, severs: bool)
    ensures var auth := Authorization.Authorize(registry, Authorization.ReplaceReference, targets, gained, severs, false, "");
      TargetRediscovery.RiskName(auth.risk)
      == (if gained == {} then "config_mutation"
          else if exists e :: e in gained && Authorization.Domain(e) in {"lock", "alarm_control_panel", "siren"}
          then "security_critical" else "physical_state_change")
      && TargetRediscovery.VerdictName(auth.verdict)
         == if forall d :: d in registry ==> d.protects !! targets + gained then "allowed"
            else if exists d :: d in registry && d.critical && !(d.protects !! targets + gained) then "blocked"
            else "requires_approval"
  {
    Authorization.ReplacementRated(registry, targets, gained, severs, false, "");
  }

  /** What is proposed is what would be executed: in a world that has not moved, the
      plan that execution derives from scratch has the identity that was approved, and
      passes the drift check against it, exactly when the whole repair gains no power
      to switch anything off; the proposal has looked at one file of it only. */
  lemma ProposalSurvivesIff(w: World, files: Files, incidentId: string, r: TargetRediscovery.Reading,
                            c: TargetRediscovery.Case, inv: TargetRediscovery.Investigation)
    requires Unmoved(w, incidentId, c) && forall i, j :: 0 <= i < j < |w.active| ==> w.active[i] != w.active[j]
    requires TargetRediscovery.Rediscovered(FactsOf(w, files), c.subjects, TargetRediscovery.NoHint).Usable()
    requires TargetRediscovery.Triage(FactsOf(w, files), r, w.registry, c, inv).plan.Some?
    ensures var proposed := TargetRediscovery.Triage(FactsOf(w, files), r, w.registry, c, inv).plan.value;
      FromDict(AsDict(proposed)) == proposed
      && DerivedPlan(w, files, incidentId).Some?
      && var plan := DerivedPlan(w, files, incidentId).value;
         plan.staleEntity != []
         && (PlanIdentity(plan) == PlanIdentity(proposed) <==> NothingGains(w, files, plan))
         && (!BlockingDrift(proposed, plan) <==> NothingGains(w, files, plan))
  {
    var proposed := TargetRediscovery.Triage(FactsOf(w, files), r, w.registry, c, inv).plan.value;
    ProposedIs(w, files, incidentId, r, c, inv);
    ProposedRoundTrips(w, files, incidentId, r, c, inv);
    SameOrRiskier(w, files, incidentId, proposed);
    GainedIff(w, files, DerivedPlan(w, files, incidentId).value);
    var plan := DerivedPlan(w, files, incidentId).value;
    if plan.risk != proposed.risk {
      assert Drifted(proposed, plan, FieldChanged(Risk)) && Blocking(FieldChanged(Risk));
    } else {
      DerivedPlanIsDerived(w, files, incidentId);
      DerivedPathsDistinct(w, files, incidentId, plan);
      DriftAgreesWithIdentity(proposed, plan);
    }
  }

  lemma ProposedRoundTrips(w: World, files: Files, incidentId: string, r: TargetRediscovery.Reading,
                           c: TargetRediscovery.Case, inv: TargetRediscovery.Investigation)
    requires TargetRediscovery.Rediscovered(FactsOf(w, files), c.subjects, TargetRediscovery.NoHint).Usable()
    requires TargetRediscovery.Triage(FactsOf(w, files), r, w.registry, c, inv).plan.Some?
    ensures var proposed := TargetRediscovery.Triage(FactsOf(w, files), r, w.registry, c, inv).plan.value;
      FromDict(AsDict(proposed)) == proposed
  {
    var found := TargetRediscovery.Rediscovered(FactsOf(w, files), c.subjects, TargetRediscovery.NoHint);
    var stale, next := found.stale.value, found.replacement.value;
    ProposedIs(w, files, incidentId, r, c, inv);
    var auth := Authorization.Authorize(w.registry, Authorization.ReplaceReference, {stale, next}, {}, w.intentSevers, false, "");
    BuiltPlanRoundTrips(c.incident, "replace_stale_entity_reference", stale, next, PlannedAt(files, Paths(found.locations), stale),
                        TargetRediscovery.RiskName(auth.risk), TargetRediscovery.VerdictName(auth.verdict), r.createdAt);
  }

  // ---- What RESOLVED excludes ---------------------------------------------------------

  lemma PlannedFilesMention(w: World, files: Files, incidentId: string, plan: Plan, p: string)
    requires Derived(w, files, incidentId, plan) && p in PlanPaths(plan)
    ensures p in files && TokenReplacement.Count(files[p], plan.staleEntity) > 0
  {
    var subjects := w.incidentOf(incidentId).value.subjects;
    TargetRediscovery.NeutralTargetIsForced(FactsOf(w, files), subjects);
    var found := TargetRediscovery.Rediscovered(FactsOf(w, files), subjects, TargetRediscovery.NoHint).locations;
    SortedDistinctIs(Paths(found));
    var i :| 0 <= i < |Paths(found)| && Paths(found)[i] == p;
    assert found[i] in found;
  }

  lemma {:induction false} DistinctShrinks(xs: seq<string>)
    ensures |SortedDistinct(xs)| <= |xs|
  {
    DistinctShorter(xs);
    SortByIsSort(Distinct(xs), Itself);
    assert |multiset(SortedDistinct(xs))| == |multiset(Distinct(xs))|;
  }

  lemma {:induction false} DistinctShorter(xs: seq<string>)
    ensures |Distinct(xs)| <= |xs|
  {
    if xs != [] { DistinctShorter(xs[1..]); }
  }

  lemma {:induction false} ElementsFit(xs: seq<string>, s: set<string>)
    requires forall x :: x in s ==> x in xs
    ensures |s| <= |xs|
  {
    if s != {} {
      var n := |xs| - 1;
      assert xs == xs[..n] + [xs[n]];
      ElementsFit(xs[..n], s - {xs[n]});
      assert |s| <= |s - {xs[n]}| + 1;
    }
  }

  lemma AtMostMaxLocations(w: World, files: Files, incidentId: string, plan: Plan)
    requires Derived(w, files, incidentId, plan)
    ensures |PlanPaths(plan)| <= TargetRediscovery.MaxLocations
  {
    var found := TargetRediscovery.Rediscovered(FactsOf(w, files), w.incidentOf(incidentId).value.subjects,
                                                TargetRediscovery.NoHint).locations;
    DistinctShrinks(Paths(found));
  }

  /** A repair of more files than one plan can hold is never reported resolved, as
      long as the files that held the reference are still active and readable. */
  lemma TruncatedRepairIsNotResolved(w: World, files: Files, incidentId: string, plan: Plan, holders: set<string>)
    requires Derived(w, files, incidentId, plan) && |holders| > TargetRediscovery.MaxLocations
    requires forall p :: p in holders ==>
      p in files && TokenReplacement.Count(files[p], plan.staleEntity) > 0
      && p in w.post.active && p !in w.post.unreadable
    ensures !Proven(w, Edited(files, PlanPaths(plan), plan.staleEntity, plan.newEntity), incidentId, plan.staleEntity)
  {
    AtMostMaxLocations(w, files, incidentId, plan);
    if forall p :: p in holders ==> p in PlanPaths(plan) {
      ElementsFit(PlanPaths(plan), holders);
    } else {
      var p :| p in holders && p !in PlanPaths(plan);
      assert Edited(files, PlanPaths(plan), plan.staleEntity, plan.newEntity)[p] == files[p];
    }
  }

  /** The target of a plan is its stale entity without a numeric ending. */
  lemma TargetIsBase(w: World, files: Files, incidentId: string, plan: Plan) returns (dot: nat)
    requires Derived(w, files, incidentId, plan)
    ensures TokenReplacement.BaseOf(plan.staleEntity, plan.newEntity, dot)
    ensures !TokenReplacement.Contains(plan.newEntity, plan.staleEntity)
    ensures TokenReplacement.AllIdent(plan.staleEntity) && TokenReplacement.AllIdent(plan.newEntity)
    ensures plan.newEntity != [] && plan.staleEntity != plan.newEntity
  {
    TargetRediscovery.NeutralTargetIsForced(FactsOf(w, files), w.incidentOf(incidentId).value.subjects);
    dot := TargetRediscovery.SuccessorIsBase(w.stateOf, plan.staleEntity);
  }

  /** Repairing a planned file always changes it. */
  lemma PlannedFileChanges(w: World, files: Files, incidentId: string, plan: Plan, p: string)
    requires Derived(w, files, incidentId, plan) && p in PlanPaths(plan)
    ensures p in files && TokenReplacement.Replace(files[p], plan.staleEntity, plan.newEntity) != files[p]
  {
    PlannedFilesMention(w, files, incidentId, plan, p);
    var _ := TargetIsBase(w, files, incidentId, plan);
    TokenReplacement.ChangesIffOccurs(files[p], plan.staleEntity, plan.newEntity);
  }

  /** A completed repair leaves no trace exactly when no unplanned file has one and in
      no planned file an identifier joins up again out of its own base and what
      follows it, as in `light.a_2_2`. */
  lemma NothingRemainsIff(w: World, files: Files, incidentId: string, plan: Plan)
    requires Derived(w, files, incidentId, plan)
    ensures NoneLeft(w, AfterRepair(files, plan), plan.staleEntity) <==>
      forall p :: p in files && p in w.post.active && p !in w.post.unreadable ==>
        if p in PlanPaths(plan) then !TokenReplacement.Rejoins(files[p], plan.staleEntity, plan.newEntity)
        else TokenReplacement.Count(files[p], plan.staleEntity) == 0
  {
    var after := AfterRepair(files, plan);
    var dot := TargetIsBase(w, files, incidentId, plan);
    forall p | p in files
      ensures TokenReplacement.Count(after[p], plan.staleEntity) == 0 <==>
        if p in PlanPaths(plan) then !TokenReplacement.Rejoins(files[p], plan.staleEntity, plan.newEntity)
        else TokenReplacement.Count(files[p], plan.staleEntity) == 0
    {
      TokenReplacement.CountZeroIffAbsent(after[p], plan.staleEntity);
      TokenReplacement.LeftIffRejoins(files[p], plan.staleEntity, plan.newEntity, dot);
    }
  }

  /** In each planned file the repair is the renaming of one identifier exactly when
      every occurrence of the old one stands alone. */
  lemma PlannedFileIsRenamedIff(w: World, files: Files, incidentId: string, plan: Plan, p: string)
    requires Derived(w, files, incidentId, plan) && p in PlanPaths(plan)
    ensures p in files && p in AfterRepair(files, plan)
    ensures TokenReplacement.Tokens(AfterRepair(files, plan)[p])
            == TokenReplacement.Rename(TokenReplacement.Tokens(files[p]), plan.staleEntity, plan.newEntity)
       <==> TokenReplacement.Delimited(files[p], plan.staleEntity)
  {
    PlannedFilesMention(w, files, incidentId, plan, p);
    var _ := TargetIsBase(w, files, incidentId, plan);
    TokenReplacement.ReplacementIsRenamingIffDelimited(files[p], plan.staleEntity, plan.newEntity);
  }

  // ---- What a restart makes of it -------------------------------------------------------

  ghost predicate ReadsEverything(o: Observation, b: Baseline, files: Files) {
    Observes(o, b, files) && forall f :: f in b.files ==> f.path in o.hashes
  }

  /** A complete write of a derived plan is always recognised: every file holds its
      post-state, and none could be taken for unwritten. */
  lemma CompleteWriteIsRecognised(host: Host, w: World, incidentId: string, plan: Plan, b: Baseline, o: Observation)
    requires host.Valid() && About(host, plan) && Derived(w, host.initial, incidentId, plan)
    requires host.files == AfterRepair(host.initial, plan) && b.files == FileStates(host.repair.targets)
    requires ReadsEverything(o, b, host.files)
    ensures b.files != [] && !Retired(b, o) && forall f :: f in b.files ==> HoldsPost(f, o)
    ensures Recover(b, o) in {PostStateStands, ValidatedSuccess, RollbackRequired}
  {
    assert |b.files| == |PlanPaths(plan)|;
    forall i | 0 <= i < |b.files| ensures HoldsPost(b.files[i], o) {
      FileReadsAsWritten(host, w, incidentId, plan, b, o, i);
    }
    assert b.files[0] in b.files;
    CompleteWriteRecognisedIff(b, o);
  }

  lemma FileReadsAsWritten(host: Host, w: World, incidentId: string, plan: Plan, b: Baseline, o: Observation, i: nat)
    requires About(host, plan) && Derived(w, host.initial, incidentId, plan) && host.files == AfterRepair(host.initial, plan)
    requires b.files == FileStates(host.repair.targets) && ReadsEverything(o, b, host.files) && i < |b.files|
    ensures HoldsPost(b.files[i], o)
  {
    var p := PlanPaths(plan)[i];
    assert p in PlanPaths(plan) && b.files[i] in b.files && b.files[i].path == p;
    PlannedFileChanges(w, host.initial, incidentId, plan, p);
  }

  /** A run that ended REGRESSED, or INCONCLUSIVE for want of a fresh scan, is taken
      by the next restart for a validated success, and for finished: the last record
      is that of the configuration check. It needs nothing to go wrong. */
  lemma UnprovenRepairReadsAsSuccess(host: Host, w: World, incidentId: string, plan: Plan, outcome: Outcome, o: Observation)
    requires host.Valid() && About(host, plan) && Derived(w, host.initial, incidentId, plan)
    requires LeftOpen(w, outcome) && StaysOpen(host, w, true) && w.persistence
    requires host.files == AfterRepair(host.initial, plan)
    requires ReadsEverything(o, LastRecord(host.log).value, host.files)
    ensures Recover(LastRecord(host.log).value, o) == ValidatedSuccess
    ensures Terminal(Recover(LastRecord(host.log).value, o))
  {
    var b := LastRecord(host.log).value;
    host.Explained();
    LastRecordCovers(host.repair, host.log);
    CompleteWriteIsRecognised(host, w, incidentId, plan, b, o);
    ValidatedOnConfigurationAlone(b, o);
  }

  // ---- The scan behind the verdict -------------------------------------------------------

  /** One history of the house: steps of the scan coordinator and events of a repair
      in the order they happened. */
  datatype Moment = Act(action: ScanCoordinator.Action) | File(event: Event)

  function Actions(tr: seq<Moment>): seq<ScanCoordinator.Action> {
    if tr == [] then []
    else Actions(tr[..|tr| - 1]) + if tr[|tr| - 1].Act? then [tr[|tr| - 1].action] else []
  }

  function Events(tr: seq<Moment>): seq<Event> {
    if tr == [] then []
    else Events(tr[..|tr| - 1]) + if tr[|tr| - 1].File? then [tr[|tr| - 1].event] else []
  }

  /** The moment at which an action of the history happened. */
  lemma {:induction false} MomentOf(tr: seq<Moment>, i: nat) returns (b: nat)
    requires i < |Actions(tr)|
    ensures b < |tr| && tr[b] == Act(Actions(tr)[i]) && |Actions(tr[..b])| == i
  {
    var n := |tr| - 1;
    if i < |Actions(tr[..n])| {
      b := MomentOf(tr[..n], i);
      assert tr[..n][..b] == tr[..b];
    } else {
      b := n;
    }
  }

  lemma {:induction false} EventsGrow(tr: seq<Moment>, k: nat)
    requires k <= |tr|
    ensures |Events(tr[..k])| <= |Events(tr)| && Events(tr[..k]) == Events(tr)[..|Events(tr[..k])|]
    ensures |Actions(tr[..k])| <= |Actions(tr)| && Actions(tr[..k]) == Actions(tr)[..|Actions(tr[..k])|]
  {
    if k == |tr| {
      assert tr[..k] == tr;
    } else {
      var n := |tr| - 1;
      EventsGrow(tr[..n], k);
      assert tr[..n][..k] == tr[..k];
    }
  }

  lemma ActionsInOrder(tr: seq<Moment>, b: nat, k: nat)
    requires b <= k <= |tr|
    ensures |Actions(tr[..b])| <= |Actions(tr[..k])| && |Events(tr[..b])| <= |Events(tr[..k])|
  {
    EventsGrow(tr[..k], b);
    assert tr[..k][..b] == tr[..b];
  }

  lemma {:induction false} QuietTail(initial: Files, log: seq<Event>, k: nat)
    requires k <= |log| && Quiet(log[k..])
    ensures FilesAfter(initial, log[..k]) == FilesAfter(initial, log)
  {
    if k == |log| {
      assert log[..k] == log;
    } else {
      var n := |log| - 1;
      assert log[k..] == log[..n][k..] + [log[n]];
      assert log[n] in log[k..];
      QuietTail(initial, log[..n], k);
      assert log[..n][..k] == log[..k];
    }
  }

  /** The verdict rests on the repaired files: in any history of a run that kept its
      change, a scan requested where the run asked for one began when the files were
      as the run left them, and they stayed so while it ran. */
  lemma VerdictScanSawTheRepair(host: Host, tr: seq<Moment>, k: nat, w: nat) returns (b: nat)
    requires host.Valid() && ScannedOver(host) && Events(tr) == host.log
    requires k <= |tr| && |Events(tr[..k])| >= host.asked
    requires ScanCoordinator.After(Actions(tr)).Some? && ScanCoordinator.After(Actions(tr[..k])).Some?
    requires w !in ScanCoordinator.After(Actions(tr[..k])).value.waiters
    requires w in ScanCoordinator.After(Actions(tr)).value.waiters
      && ScanCoordinator.After(Actions(tr)).value.waiters[w].outcome.Result?
    ensures k < b < |tr| && tr[b].Act? && tr[b].action.Begin?
    ensures |Actions(tr[..b])| == ScanCoordinator.After(Actions(tr)).value.waiters[w].outcome.began
    ensures forall j :: b <= j <= |tr| ==> FilesAfter(host.initial, Events(tr[..j])) == host.files
  {
    host.Explained();
    var began := ScanCoordinator.After(Actions(tr)).value.waiters[w].outcome.began;
    ScanCoordinator.RunsAreDated(Actions(tr));
    EventsGrow(tr, k);
    ScanCoordinator.ScanFollowsRepair(Actions(tr), |Actions(tr[..k])|, w);
    b := MomentOf(tr, began);
    if b <= k { ActionsInOrder(tr, b, k); }
    forall j | b <= j <= |tr| ensures FilesAfter(host.initial, Events(tr[..j])) == host.files {
      FilesSettled(host, tr, k, j);
    }
  }

  lemma FilesSettled(host: Host, tr: seq<Moment>, k: nat, j: nat)
    requires host.Valid() && ScannedOver(host) && Events(tr) == host.log
    requires k <= j <= |tr| && |Events(tr[..k])| >= host.asked
    ensures FilesAfter(host.initial, Events(tr[..j])) == host.files
  {
    host.Explained();
    EventsGrow(tr, j);
    ActionsInOrder(tr, k, j);
    var n := |Events(tr[..j])|;
    assert host.log[n..] == host.log[host.asked..][n - host.asked..];
    QuietTail(host.initial, host.log, n);
  }

  // ---- A rollback over a torn write --------------------------------------------------------

  /** Nothing more need go wrong after a write that raised and left its file torn: the
      rollback reports ROLLED_BACK, and the file is as torn as before. */
  method RollbackKeepsTheTear(host: Host, w: World, approved: Plan, cs: seq<LocationChange>, torn: string)
    returns (outcome: Outcome)
    requires InFlight(host, cs) && !RollingBack(host.log) && torn in Torn(host.log)
    requires host.repair.approved == PlanIdentity(approved) && host.repair.incidentId == approved.incident.incidentId
    requires SomethingToRestore(cs, host.backups) && w.persistence && RollbackHolds(w)
    modifies host`files, host`store, host`log, host`faults, cs`restored
    ensures host.faults == old(host.faults) ==> outcome == Outcome.RolledBack
    ensures outcome == Outcome.RolledBack ==> torn in host.files && host.files[torn] == old(Torn(host.log))[torn]
  {
    outcome := Rollback(host, w, approved, cs);
  }
}
