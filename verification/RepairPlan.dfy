/** What an operator approves, its identity, and the drift check that decides
    whether the thing about to run is still the thing that was approved. */
module RepairPlan {
  import opened Ordering

  /** A SHA-256 digest, taken to be injective. */
  datatype Digest = Digest(of: string)

  datatype PlannedLocation = PlannedLocation(path: string, occurrences: nat, preHash: Digest)

  datatype Incident = Incident(
    incidentId: string, rootCause: string, materialDigest: string, priority: string, evidenceStatus: string)

  datatype Plan = Plan(
    incident: Incident, intentKind: string, staleEntity: string, newEntity: string,
    locations: seq<PlannedLocation>, expectedOccurrences: nat,
    risk: string, protection: string, createdAt: string)

  /** The digest behind `plan_identity`, kept as the tuple it is taken over. */
  datatype Identity = Identity(
    incidentId: string, intentKind: string, staleEntity: string, newEntity: string,
    locations: seq<PlannedLocation>, expectedOccurrences: nat, risk: string, protection: string)

  const PathOf: PlannedLocation -> string := (l: PlannedLocation) => l.path

  function PlanIdentity(p: Plan): Identity {
    Identity(p.incident.incidentId, p.intentKind, p.staleEntity, p.newEntity,
             SortBy(p.locations, PathOf), p.expectedOccurrences, p.risk, p.protection)
  }

  function TotalOccurrences(ls: seq<PlannedLocation>): nat {
    if ls == [] then 0 else ls[0].occurrences + TotalOccurrences(ls[1..])
  }

  function BuildPlan(incident: Incident, intentKind: string, staleEntity: string, newEntity: string,
                     measured: seq<PlannedLocation>, risk: string, protection: string, createdAt: string): Plan
  {
    var locations := SortBy(measured, PathOf);
    Plan(incident, intentKind, staleEntity, newEntity, locations, TotalOccurrences(locations),
         risk, protection, createdAt)
  }

  lemma {:induction false} TotalAdds(xs: seq<PlannedLocation>, ys: seq<PlannedLocation>)
    ensures TotalOccurrences(xs + ys) == TotalOccurrences(xs) + TotalOccurrences(ys)
  {
    if xs == [] {
      assert xs + ys == ys;
    } else {
      assert (xs + ys)[1..] == xs[1..] + ys;
      TotalAdds(xs[1..], ys);
    }
  }

  /** One location counts its occurrences, none counts nothing. */
  lemma TotalOfOne(l: PlannedLocation)
    ensures TotalOccurrences([]) == 0 && TotalOccurrences([l]) == l.occurrences
  {}

  // ---- Serialized form ---------------------------------------------------

  datatype RawLocation = RawLocation(
    path: Option<string>, occurrences: Option<nat>, preHash: Option<Digest>)

  datatype RawPlan = RawPlan(
    texts: map<string, string>, expectedOccurrences: Option<nat>, locations: Option<seq<RawLocation>>)

  function Text(raw: RawPlan, key: string): string {
    if key in raw.texts then raw.texts[key] else ""
  }

  function Raws(ls: seq<PlannedLocation>): seq<RawLocation> {
    seq(|ls|, i requires 0 <= i < |ls| =>
      RawLocation(Some(ls[i].path), Some(ls[i].occurrences), Some(ls[i].preHash)))
  }

  function AsDict(p: Plan): RawPlan {
    RawPlan(
      map["incident_id" := p.incident.incidentId, "incident_root_cause" := p.incident.rootCause,
          "incident_material_digest" := p.incident.materialDigest, "incident_priority" := p.incident.priority,
          "incident_evidence_status" := p.incident.evidenceStatus, "intent_kind" := p.intentKind,
          "old_entity" := p.staleEntity, "new_entity" := p.newEntity, "risk" := p.risk,
          "protection_verdict" := p.protection, "created_at" := p.createdAt],
      Some(p.expectedOccurrences),
      Some(Raws(p.locations)))
  }

  function OrText(value: Option<string>): string {
    if value.Some? then value.value else ""
  }

  function OrZero(value: Option<nat>): nat {
    if value.Some? then value.value else 0
  }

  function ReadLocation(raw: RawLocation): PlannedLocation {
    PlannedLocation(OrText(raw.path), OrZero(raw.occurrences),
                    if raw.preHash.Some? then raw.preHash.value else Digest(""))
  }

  const RawPathOf: RawLocation -> string := (l: RawLocation) => OrText(l.path)

  function FromDict(raw: RawPlan): Plan {
    var rows := SortBy(if raw.locations.Some? then raw.locations.value else [], RawPathOf);
    Plan(
      Incident(Text(raw, "incident_id"), Text(raw, "incident_root_cause"), Text(raw, "incident_material_digest"),
               Text(raw, "incident_priority"), Text(raw, "incident_evidence_status")),
      Text(raw, "intent_kind"), Text(raw, "old_entity"), Text(raw, "new_entity"),
      seq(|rows|, i requires 0 <= i < |rows| => ReadLocation(rows[i])),
      OrZero(raw.expectedOccurrences), Text(raw, "risk"), Text(raw, "protection_verdict"), Text(raw, "created_at"))
  }

  /** Which entry of a submitted plan is read as what; a missing one reads as empty. */
  lemma FieldsAreRead(raw: RawPlan)
    ensures var p := FromDict(raw);
      p.incident == Incident(Text(raw, "incident_id"), Text(raw, "incident_root_cause"), Text(raw, "incident_material_digest"),
                             Text(raw, "incident_priority"), Text(raw, "incident_evidence_status"))
      && p.intentKind == Text(raw, "intent_kind") && p.staleEntity == Text(raw, "old_entity")
      && p.newEntity == Text(raw, "new_entity") && p.risk == Text(raw, "risk")
      && p.protection == Text(raw, "protection_verdict") && p.createdAt == Text(raw, "created_at")
      && p.expectedOccurrences == (if raw.expectedOccurrences.Some? then raw.expectedOccurrences.value else 0)
      && (raw.locations.None? ==> p.locations == [])
    ensures ReadLocation(RawLocation(None, None, None)) == PlannedLocation("", 0, Digest(""))
    ensures forall key :: key !in raw.texts ==> Text(raw, key) == ""
  {}

  lemma {:induction false} InsertRaws(l: PlannedLocation, ls: seq<PlannedLocation>)
    ensures Insert(Raws([l])[0], Raws(ls), RawPathOf) == Raws(Insert(l, ls, PathOf))
  {
    if ls != [] && !Leq(l.path, ls[0].path) {
      InsertRaws(l, ls[1..]);
      assert Raws(ls)[1..] == Raws(ls[1..]);
    }
  }

  lemma {:induction false} SortRaws(ls: seq<PlannedLocation>)
    ensures SortBy(Raws(ls), RawPathOf) == Raws(SortBy(ls, PathOf))
  {
    if ls != [] {
      assert Raws(ls)[1..] == Raws(ls[1..]) && Raws(ls)[0] == Raws([ls[0]])[0];
      SortRaws(ls[1..]);
      InsertRaws(ls[0], SortBy(ls[1..], PathOf));
    }
  }

  lemma ReadBack(p: Plan)
    ensures FromDict(AsDict(p)) == p.(locations := SortBy(p.locations, PathOf))
  {
    SortRaws(p.locations);
    var sorted := SortBy(p.locations, PathOf);
    assert forall i :: 0 <= i < |sorted| ==> ReadLocation(Raws(sorted)[i]) == sorted[i];
    assert FromDict(AsDict(p)).locations == sorted;
  }

  /** Reading a serialized plan back sorts its locations and changes nothing
      else; it never changes the identity the approval is bound to. */
  lemma ReadBackSorts(p: Plan)
    ensures FromDict(AsDict(p)) == p.(locations := SortBy(p.locations, PathOf))
    ensures PlanIdentity(FromDict(AsDict(p))) == PlanIdentity(p)
    ensures FromDict(AsDict(p)) == p <==> SortedBy(p.locations, PathOf)
  {
    ReadBack(p);
    SortByIsSort(p.locations, PathOf);
    SortOfSorted(SortBy(p.locations, PathOf), PathOf);
    if SortedBy(p.locations, PathOf) { SortOfSorted(p.locations, PathOf); }
  }

  lemma BuiltPlanRoundTrips(incident: Incident, intentKind: string, staleEntity: string, newEntity: string,
                            measured: seq<PlannedLocation>, risk: string, protection: string, createdAt: string)
    ensures var p := BuildPlan(incident, intentKind, staleEntity, newEntity, measured, risk, protection, createdAt);
            FromDict(AsDict(p)) == p
  {
    SortByIsSort(measured, PathOf);
    ReadBackSorts(BuildPlan(incident, intentKind, staleEntity, newEntity, measured, risk, protection, createdAt));
  }

  lemma {:induction false} TotalPermutes(xs: seq<PlannedLocation>, ys: seq<PlannedLocation>)
    requires multiset(xs) == multiset(ys)
    ensures TotalOccurrences(xs) == TotalOccurrences(ys)
  {
    if xs == [] {
      SameBagSameSize(xs, ys);
    } else {
      var n := |xs| - 1;
      var i := LastElsewhere(xs, ys);
      TotalPermutes(xs[..n], ys[..i] + ys[i + 1..]);
      TotalAdds(xs[..n], [xs[n]]);
      TotalAdds(ys[..i], ys[i + 1..]);
      TotalAdds(ys[..i], [ys[i]]);
      TotalAdds(ys[..i] + [ys[i]], ys[i + 1..]);
      assert xs == xs[..n] + [xs[n]] && ys == ys[..i] + [ys[i]] + ys[i + 1..];
    }
  }

  /** A plan holds exactly what was measured, in path order, and expects as many
      occurrences as were measured, in whatever order that was done. */
  lemma BuiltPlanHolds(incident: Incident, intentKind: string, staleEntity: string, newEntity: string,
                       measured: seq<PlannedLocation>, risk: string, protection: string, createdAt: string)
    ensures var p := BuildPlan(incident, intentKind, staleEntity, newEntity, measured, risk, protection, createdAt);
      p == Plan(incident, intentKind, staleEntity, newEntity, p.locations, TotalOccurrences(measured), risk, protection, createdAt)
      && multiset(p.locations) == multiset(measured) && SortedBy(p.locations, PathOf)
  {
    SortByIsSort(measured, PathOf);
    TotalPermutes(SortBy(measured, PathOf), measured);
  }

  /** What two plans with distinct paths must agree on to be the same to an approval:
      not the incident's other particulars, nor when they were made. */
  lemma IdentityIff(a: Plan, c: Plan)
    requires DistinctBy(a.locations, PathOf) && DistinctBy(c.locations, PathOf)
    ensures PlanIdentity(a) == PlanIdentity(c) <==>
      a.incident.incidentId == c.incident.incidentId && a.intentKind == c.intentKind
      && a.staleEntity == c.staleEntity && a.newEntity == c.newEntity
      && multiset(a.locations) == multiset(c.locations) && a.expectedOccurrences == c.expectedOccurrences
      && a.risk == c.risk && a.protection == c.protection
  {
    SortByIsSort(a.locations, PathOf);
    SortByIsSort(c.locations, PathOf);
    if multiset(a.locations) == multiset(c.locations) { SortIgnoresOrder(a.locations, c.locations, PathOf); }
  }

  lemma IdentityIgnoresLocationOrder(p: Plan, shuffled: seq<PlannedLocation>)
    requires multiset(shuffled) == multiset(p.locations) && DistinctBy(p.locations, PathOf)
    ensures PlanIdentity(p.(locations := shuffled)) == PlanIdentity(p)
  {
    SortIgnoresOrder(p.locations, shuffled, PathOf);
  }

  // ---- Drift -------------------------------------------------------------

  datatype Field =
    | IntentKind | StaleEntity | NewEntity | ExpectedOccurrences | Risk | Protection
    | RootCause | Priority | EvidenceStatus | MaterialDigest

  datatype Drift =
    | FieldChanged(field: Field)
    | LocationAdded(path: string)
    | LocationRemoved(path: string)
    | ContentChanged(path: string)
    | OccurrencesChanged(path: string)

  /** Finding and evidence churn is recorded but never blocks. */
  predicate Blocking(d: Drift) {
    d != FieldChanged(MaterialDigest)
  }

  predicate Differs(a: Plan, c: Plan, f: Field) {
    match f
    case IntentKind => a.intentKind != c.intentKind
    case StaleEntity => a.staleEntity != c.staleEntity
    case NewEntity => a.newEntity != c.newEntity
    case ExpectedOccurrences => a.expectedOccurrences != c.expectedOccurrences
    case Risk => a.risk != c.risk
    case Protection => a.protection != c.protection
    case RootCause => a.incident.rootCause != c.incident.rootCause
    case Priority => a.incident.priority != c.incident.priority
    case EvidenceStatus => a.incident.evidenceStatus != c.incident.evidenceStatus
    case MaterialDigest => a.incident.materialDigest != c.incident.materialDigest
  }

  /** Later entries win, as in a dict comprehension. */
  function ByPath(ls: seq<PlannedLocation>): map<string, PlannedLocation> {
    if ls == [] then map[]
    else ByPath(ls[..|ls| - 1])[ls[|ls| - 1].path := ls[|ls| - 1]]
  }

  ghost predicate LocationDrifted(al: map<string, PlannedLocation>, cl: map<string, PlannedLocation>, d: Drift) {
    match d
    case FieldChanged(_) => false
    case LocationAdded(p) => p !in al && p in cl
    case LocationRemoved(p) => p in al && p !in cl
    case ContentChanged(p) => p in al && p in cl && al[p].preHash != cl[p].preHash
    case OccurrencesChanged(p) => p in al && p in cl && al[p].occurrences != cl[p].occurrences
  }

  ghost predicate Drifted(a: Plan, c: Plan, d: Drift) {
    if d.FieldChanged? then Differs(a, c, d.field)
    else LocationDrifted(ByPath(a.locations), ByPath(c.locations), d)
  }

  ghost predicate BlockingDrift(a: Plan, c: Plan) {
    exists d :: Drifted(a, c, d) && Blocking(d)
  }

  function LocationDrift(al: map<string, PlannedLocation>, cl: map<string, PlannedLocation>, p: string)
    : (r: seq<Drift>)
    ensures forall d :: d in r <==> LocationDrifted(al, cl, d) && d.path == p
  {
    if p !in al then (if p in cl then [LocationAdded(p)] else [])
    else if p !in cl then [LocationRemoved(p)]
    else
      var content := if al[p].preHash != cl[p].preHash then [ContentChanged(p)] else [];
      content + if al[p].occurrences != cl[p].occurrences then [OccurrencesChanged(p)] else []
  }

  const CompareOrder: seq<Field> :=
    [IntentKind, StaleEntity, NewEntity, ExpectedOccurrences, Risk, Protection,
     RootCause, Priority, EvidenceStatus, MaterialDigest]

  function FieldDrifts(a: Plan, c: Plan, fields: seq<Field>): (r: seq<Drift>)
    ensures forall d :: d in r <==> d.FieldChanged? && d.field in fields && Differs(a, c, d.field)
  {
    if fields == [] then []
    else (if Differs(a, c, fields[0]) then [FieldChanged(fields[0])] else []) + FieldDrifts(a, c, fields[1..])
  }

  lemma EveryFieldCompared(f: Field)
    ensures f in CompareOrder
  {
    var i := match f
      case IntentKind => 0 case StaleEntity => 1 case NewEntity => 2 case ExpectedOccurrences => 3
      case Risk => 4 case Protection => 5 case RootCause => 6 case Priority => 7
      case EvidenceStatus => 8 case MaterialDigest => 9;
    assert CompareOrder[i] == f;
  }

  /** Reports exactly the differences there are, and blocks exactly when one of them blocks. */
  method ComparePlans(approved: Plan, current: Plan) returns (changes: seq<Drift>)
    ensures forall d :: d in changes <==> Drifted(approved, current, d)
  {
    changes := FieldDrifts(approved, current, CompareOrder);
    forall f: Field ensures f in CompareOrder { EveryFieldCompared(f); }
    var al, cl := ByPath(approved.locations), ByPath(current.locations);
    var paths := Listed(al.Keys + cl.Keys);
    ListedIs(al.Keys + cl.Keys);
    ghost var done: set<string> := {};
    for i := 0 to |paths|
      invariant forall j :: 0 <= j < i ==> paths[j] in done
      invariant forall d :: d in changes <==>
        if d.FieldChanged? then Differs(approved, current, d.field)
        else d.path in done && LocationDrifted(al, cl, d)
    {
      ghost var before := changes;
      var found := LocationDrift(al, cl, paths[i]);
      changes := changes + found;
      done := done + {paths[i]};
      assert forall d :: d in changes <==> d in before || d in found;
    }
    assert forall p :: p in paths ==> p in done;
  }

  lemma {:induction false} ByPathOfDistinct(ls: seq<PlannedLocation>)
    requires DistinctBy(ls, PathOf)
    ensures forall p :: p in ByPath(ls) ==> ByPath(ls)[p] in ls && ByPath(ls)[p].path == p
    ensures forall l :: l in ls ==> l.path in ByPath(ls) && ByPath(ls)[l.path] == l
  {
    if ls != [] {
      var n := |ls| - 1;
      ByPathOfDistinct(ls[..n]);
      assert ls == ls[..n] + [ls[n]];
      forall l | l in ls[..n] ensures l.path != ls[n].path {
        var i :| 0 <= i < n && ls[i] == l;
        assert PathOf(ls[i]) != PathOf(ls[n]);
      }
    }
  }

  lemma SameBag(xs: seq<PlannedLocation>, ys: seq<PlannedLocation>)
    requires DistinctBy(xs, PathOf) && DistinctBy(ys, PathOf)
    requires forall l :: l in xs <==> l in ys
    ensures multiset(xs) == multiset(ys)
  {
    forall l ensures multiset(xs)[l] == multiset(ys)[l] {
      if l in xs {
        var i :| 0 <= i < |xs| && xs[i] == l;
        OnceCounted(xs, i, PathOf);
        assert l in ys;
        var j :| 0 <= j < |ys| && ys[j] == l;
        OnceCounted(ys, j, PathOf);
      } else {
        assert l !in multiset(xs) && l !in ys && l !in multiset(ys);
      }
    }
  }

  lemma SameLocations(a: Plan, c: Plan)
    requires DistinctBy(a.locations, PathOf) && DistinctBy(c.locations, PathOf)
    ensures ByPath(a.locations) == ByPath(c.locations)
       <==> SortBy(a.locations, PathOf) == SortBy(c.locations, PathOf)
  {
    var xs, ys := a.locations, c.locations;
    ByPathOfDistinct(xs);
    ByPathOfDistinct(ys);
    if ByPath(xs) == ByPath(ys) {
      SameBag(xs, ys);
      SortIgnoresOrder(xs, ys, PathOf);
    }
    if SortBy(xs, PathOf) == SortBy(ys, PathOf) {
      SortByIsSort(xs, PathOf);
      SortByIsSort(ys, PathOf);
      forall l ensures l in xs <==> l in ys {
        assert l in multiset(xs) <==> l in multiset(ys);
      }
    }
  }

  /** For plans of one incident whose paths are distinct, the drift check passes
      exactly when the identities agree and the incident's root cause, priority
      and evidence status have not moved. */
  lemma DriftAgreesWithIdentity(a: Plan, c: Plan)
    requires DistinctBy(a.locations, PathOf) && DistinctBy(c.locations, PathOf)
    requires a.incident.incidentId == c.incident.incidentId
    ensures !BlockingDrift(a, c) <==>
      PlanIdentity(a) == PlanIdentity(c)
      && a.incident.rootCause == c.incident.rootCause
      && a.incident.priority == c.incident.priority
      && a.incident.evidenceStatus == c.incident.evidenceStatus
  {
    SameLocations(a, c);
    LocationDriftFree(a, c);
    FieldsAgree(a, c);
    if !BlockingDrift(a, c) {
      forall f | f != MaterialDigest ensures !Differs(a, c, f) {
        assert !Drifted(a, c, FieldChanged(f));
      }
    }
  }

  /** New findings and new evidence about the same incident are reported, and block
      nothing. */
  lemma MaterialChurnNeverBlocks(a: Plan, digest: string)
    ensures var c := a.(incident := a.incident.(materialDigest := digest));
      !BlockingDrift(a, c) && (Drifted(a, c, FieldChanged(MaterialDigest)) <==> digest != a.incident.materialDigest)
  {}

  lemma FieldsAgree(a: Plan, c: Plan)
    ensures (forall f :: f != MaterialDigest ==> !Differs(a, c, f)) <==>
      a.intentKind == c.intentKind && a.staleEntity == c.staleEntity && a.newEntity == c.newEntity
      && a.expectedOccurrences == c.expectedOccurrences && a.risk == c.risk && a.protection == c.protection
      && a.incident.rootCause == c.incident.rootCause && a.incident.priority == c.incident.priority
      && a.incident.evidenceStatus == c.incident.evidenceStatus
  {
    if forall f :: f != MaterialDigest ==> !Differs(a, c, f) {
      assert !Differs(a, c, IntentKind) && !Differs(a, c, StaleEntity) && !Differs(a, c, NewEntity)
        && !Differs(a, c, ExpectedOccurrences) && !Differs(a, c, Risk) && !Differs(a, c, Protection)
        && !Differs(a, c, RootCause) && !Differs(a, c, Priority) && !Differs(a, c, EvidenceStatus);
    }
  }

  /** The drift check vouches for the identity of a plan that was measured, hence has
      one entry per path, exactly when the approved plan has one entry per path too;
      that can be seen from the approved plan alone. */
  lemma IdentityAgreesIffPathsDistinct(a: Plan, c: Plan)
    requires DistinctBy(c.locations, PathOf) && a.incident.incidentId == c.incident.incidentId && !BlockingDrift(a, c)
    ensures PlanIdentity(a) == PlanIdentity(c) <==> DistinctBy(a.locations, PathOf)
  {
    if DistinctBy(a.locations, PathOf) { DriftAgreesWithIdentity(a, c); }
    if PlanIdentity(a) == PlanIdentity(c) {
      SortByIsSort(a.locations, PathOf);
      SortByIsSort(c.locations, PathOf);
      DistinctMember(c.locations, a.locations, PathOf);
    }
  }

  lemma LocationDriftFree(a: Plan, c: Plan)
    requires DistinctBy(a.locations, PathOf) && DistinctBy(c.locations, PathOf)
    ensures ByPath(a.locations) == ByPath(c.locations)
       <==> forall d :: Drifted(a, c, d) ==> d.FieldChanged?
  {
    var al, cl := ByPath(a.locations), ByPath(c.locations);
    ByPathOfDistinct(a.locations);
    ByPathOfDistinct(c.locations);
    if forall d :: Drifted(a, c, d) ==> d.FieldChanged? {
      forall p ensures p in al <==> p in cl {
        assert !Drifted(a, c, LocationAdded(p)) && !Drifted(a, c, LocationRemoved(p));
      }
      forall p | p in al ensures al[p] == cl[p] {
        assert !Drifted(a, c, ContentChanged(p)) && !Drifted(a, c, OccurrencesChanged(p));
      }
      assert al == cl;
    }
  }

  /** With a repeated path the drift check and the identity disagree: the check
      sees only the last entry for the path, the identity sees both. */
  lemma DuplicatePathsEscapeDrift(c: Plan, l1: PlannedLocation, l2: PlannedLocation)
    requires c.locations == [l2] && l1.path == l2.path && l1 != l2
    ensures var a := c.(locations := [l1, l2]);
            !BlockingDrift(a, c) && PlanIdentity(a) != PlanIdentity(c)
  {
    var a := c.(locations := [l1, l2]);
    assert [l1, l2][..1] == [l1] && [l1][..0] == [] && [l2][..0] == [];
    assert ByPath([l1]) == map[l1.path := l1];
    assert ByPath(a.locations) == map[l2.path := l2] == ByPath(c.locations);
    SortByIsSort(a.locations, PathOf);
    SortByIsSort(c.locations, PathOf);
    assert multiset(a.locations)[l1] == 1 && multiset(c.locations)[l1] == 0;
  }
}
