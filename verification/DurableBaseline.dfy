/** The durable record of one repair, how the store keeps it, and what a restart
    concludes from it and from the bytes that are on disk. */
module DurableBaseline {
  import opened Ordering
  import opened RepairPlan

  datatype Stage =
    | PreStateConfirmed | BackupCreated | WriteBegan | WriteApplied
    | ValidationComplete | RollbackBegan | RollbackComplete | LifecycleComplete

  datatype FileState = FileState(path: string, pre: Digest, post: Digest)

  datatype Baseline = Baseline(
    identity: Identity, incidentId: string, capturedAt: nat, stage: Stage, complete: bool,
    protection: string, files: seq<FileState>, backups: set<string>, backupComplete: bool,
    writeBegan: bool, writeComplete: bool, validationComplete: bool, validationPassed: bool,
    rollbackBegan: bool, rollbackComplete: bool, rollbackVerified: bool)
  {
    predicate For(id: Identity, incident: string) {
      identity == id && incidentId == incident
    }
  }

  // ---- Retention ---------------------------------------------------------

  const MaxRetained := 25

  function Where(bs: seq<Baseline>, complete: bool): seq<Baseline> {
    if bs == [] then []
    else (if bs[0].complete == complete then [bs[0]] else []) + Where(bs[1..], complete)
  }

  function InsertNewest(b: Baseline, bs: seq<Baseline>): seq<Baseline> {
    if bs == [] || b.capturedAt >= bs[0].capturedAt then [b] + bs
    else [bs[0]] + InsertNewest(b, bs[1..])
  }

  function NewestFirst(bs: seq<Baseline>): seq<Baseline> {
    if bs == [] then [] else InsertNewest(bs[0], NewestFirst(bs[1..]))
  }

  function Prune(bs: seq<Baseline>): seq<Baseline> {
    var live, done := Where(bs, false), NewestFirst(Where(bs, true));
    var keep := if |live| >= MaxRetained then 0 else MaxRetained - |live|;
    live + if |done| > keep then done[..keep] else done
  }

  function Others(bs: seq<Baseline>, b: Baseline): seq<Baseline> {
    if bs == [] then []
    else (if bs[0].For(b.identity, b.incidentId) then [] else [bs[0]]) + Others(bs[1..], b)
  }

  /** `_save_remediation_baseline`: replace by key, then prune. */
  function Save(bs: seq<Baseline>, b: Baseline): seq<Baseline> {
    Prune(Others(bs, b) + [b])
  }

  lemma {:induction false} WhereMembers(bs: seq<Baseline>, complete: bool)
    ensures forall b :: b in Where(bs, complete) <==> b in bs && b.complete == complete
  {
    if bs != [] { WhereMembers(bs[1..], complete); }
  }

  lemma {:induction false} InsertNewestMembers(b: Baseline, bs: seq<Baseline>)
    ensures forall x :: x in InsertNewest(b, bs) <==> x == b || x in bs
  {
    if bs != [] { InsertNewestMembers(b, bs[1..]); }
  }

  lemma {:induction false} NewestFirstMembers(bs: seq<Baseline>)
    ensures forall x :: x in NewestFirst(bs) <==> x in bs
  {
    if bs != [] {
      NewestFirstMembers(bs[1..]);
      InsertNewestMembers(bs[0], NewestFirst(bs[1..]));
    }
  }

  lemma {:induction false} OthersMembers(bs: seq<Baseline>, b: Baseline)
    ensures forall x :: x in Others(bs, b) <==> x in bs && !x.For(b.identity, b.incidentId)
  {
    if bs != [] { OthersMembers(bs[1..], b); }
  }

  /** A record of a repair still in flight is found by its key and only it is;
      saving it costs no other repair in flight its record. */
  lemma SaveKeepsInFlight(bs: seq<Baseline>, b: Baseline)
    ensures forall x :: x in Save(bs, b) ==>
      x == b || (x in bs && (x.identity != b.identity || x.incidentId != b.incidentId))
    ensures !b.complete ==> b in Save(bs, b)
    ensures forall x :: x in bs && !x.complete && (x.identity != b.identity || x.incidentId != b.incidentId) ==> x in Save(bs, b)
  {
    var all := Others(bs, b) + [b];
    OthersMembers(bs, b);
    WhereMembers(all, false);
    WhereMembers(all, true);
    NewestFirstMembers(Where(all, true));
    assert forall x :: x in Save(bs, b) ==> x in all;
    assert forall x :: x in Where(all, false) ==> x in Save(bs, b);
    assert b in all;
  }

  ghost predicate Newest(bs: seq<Baseline>) {
    forall i, j :: 0 <= i < j < |bs| ==> bs[i].capturedAt >= bs[j].capturedAt
  }

  lemma {:induction false} InsertNewestSorted(b: Baseline, bs: seq<Baseline>)
    requires Newest(bs)
    ensures Newest(InsertNewest(b, bs)) && |InsertNewest(b, bs)| == |bs| + 1
  {
    if bs != [] && b.capturedAt < bs[0].capturedAt {
      InsertNewestSorted(b, bs[1..]);
      InsertNewestMembers(b, bs[1..]);
      var rest := InsertNewest(b, bs[1..]);
      assert forall x :: x in bs[1..] ==> x.capturedAt <= bs[0].capturedAt;
      assert forall j :: 0 <= j < |rest| ==> rest[j] in rest;
    }
  }

  lemma {:induction false} NewestFirstSorted(bs: seq<Baseline>)
    ensures Newest(NewestFirst(bs)) && |NewestFirst(bs)| == |bs|
  {
    if bs != [] {
      NewestFirstSorted(bs[1..]);
      InsertNewestSorted(bs[0], NewestFirst(bs[1..]));
    }
  }

  /** Of the repairs that are over, a save lets go only the oldest, and none while the
      store is not full: 25 records, or those in flight if they are more. */
  lemma SaveDropsOldest(bs: seq<Baseline>, b: Baseline, lost: Baseline)
    requires (lost == b || (lost in bs && !lost.For(b.identity, b.incidentId))) && lost !in Save(bs, b)
    ensures lost.complete && |Save(bs, b)| >= 25
    ensures forall x :: x in Save(bs, b) && x.complete ==> x.capturedAt >= lost.capturedAt
    ensures |Save(bs, b)| > 25 ==> forall x :: x in Save(bs, b) ==> !x.complete
  {
    var all := Others(bs, b) + [b];
    OthersMembers(bs, b);
    WhereMembers(all, false);
    WhereMembers(all, true);
    assert lost in all;
    var live, done := Where(all, false), NewestFirst(Where(all, true));
    NewestFirstMembers(Where(all, true));
    NewestFirstSorted(Where(all, true));
    var keep := if |live| >= MaxRetained then 0 else MaxRetained - |live|;
    assert Save(bs, b) == live + if |done| > keep then done[..keep] else done;
    assert lost !in live;
    var i :| 0 <= i < |done| && done[i] == lost;
    assert |done| > keep && i >= keep;
  }

  // ---- Recovery ----------------------------------------------------------

  datatype RecoveryOutcome =
    | NotStarted | PreStateStands | BackupStands | WriteUnvalidated | PostStateStands
    | ValidatedSuccess | RollbackRequired | RolledBack | Diverged | StalePlan | ApprovalInvalid
    | IncidentGone | ProtectedEffectChanged | RecoveryRequired | ManualReview | MaterialRetired

  datatype Observation = Observation(
    hashes: map<string, Digest>, backupsPresent: map<string, bool>, incidentPresent: bool,
    identity: Option<Identity>, protection: string,
    confirmedAbsent: set<string>, readerAvailable: bool, referenced: bool, scanId: string)

  predicate HoldsPre(f: FileState, o: Observation) {
    f.path in o.hashes && o.hashes[f.path] == f.pre
  }

  /** Read only after the pre-state has been ruled out. */
  predicate HoldsPost(f: FileState, o: Observation) {
    f.path in o.hashes && o.hashes[f.path] != f.pre && o.hashes[f.path] == f.post
  }

  predicate Retired(b: Baseline, o: Observation) {
    b.files != [] && o.readerAvailable
    && (forall f :: f in b.files ==> f.path in o.confirmedAbsent && f.path !in o.hashes)
    && !o.referenced && !o.incidentPresent && o.scanId != ""
  }

  function Recover(b: Baseline, o: Observation): RecoveryOutcome {
    if Retired(b, o) then MaterialRetired
    else if exists f :: f in b.files && !HoldsPre(f, o) && !HoldsPost(f, o) then Diverged
    else if (exists f :: f in b.files && HoldsPre(f, o)) && (exists f :: f in b.files && HoldsPost(f, o)) then RecoveryRequired
    else if exists f :: f in b.files && HoldsPost(f, o) then
      if b.rollbackBegan then RollbackRequired
      else if b.validationComplete && b.validationPassed then ValidatedSuccess
      else PostStateStands
    else if !o.incidentPresent then IncidentGone
    else if b.protection != "" && o.protection != "" && o.protection != b.protection then ProtectedEffectChanged
    else if o.identity.None? then StalePlan
    else if o.identity.value != b.identity then ApprovalInvalid
    else if b.rollbackBegan then RolledBack
    else if b.writeBegan then PreStateStands
    else if b.backupComplete then
      if exists p :: p in o.backupsPresent && !o.backupsPresent[p] then ManualReview else BackupStands
    else NotStarted
  }

  /** The complement of the outcomes that forbid any further mutation. */
  predicate MayApplyMutation(r: RecoveryOutcome) {
    r in {NotStarted, PreStateStands, BackupStands, WriteUnvalidated}
  }

  predicate Terminal(r: RecoveryOutcome) {
    r in {IncidentGone, RolledBack, ValidatedSuccess, MaterialRetired}
  }

  ghost predicate AllAtPre(b: Baseline, o: Observation) {
    forall f :: f in b.files ==> f.path in o.hashes && o.hashes[f.path] == f.pre
  }

  /** Changed as planned, where the plan changes anything. */
  ghost predicate AllAtPost(b: Baseline, o: Observation) {
    forall f :: f in b.files ==> f.path in o.hashes && o.hashes[f.path] == f.post && f.post != f.pre
  }

  /** What the files alone decide: they are gone for good, somebody else's, half
      written, or wholly in one of the two states. */
  lemma FilesDecide(b: Baseline, o: Observation)
    ensures Recover(b, o) == MaterialRetired <==>
      b.files != [] && o.readerAvailable && !o.referenced && !o.incidentPresent && o.scanId != ""
      && forall f :: f in b.files ==> f.path in o.confirmedAbsent && f.path !in o.hashes
    ensures Recover(b, o) == Diverged <==>
      !Retired(b, o) && exists f :: f in b.files && (f.path !in o.hashes || (o.hashes[f.path] != f.pre && o.hashes[f.path] != f.post))
    ensures Recover(b, o) == RecoveryRequired <==>
      !AllAtPre(b, o) && !AllAtPost(b, o)
      && forall f :: f in b.files ==> f.path in o.hashes && (o.hashes[f.path] == f.pre || o.hashes[f.path] == f.post)
    ensures Recover(b, o) in {RollbackRequired, ValidatedSuccess, PostStateStands} <==> b.files != [] && AllAtPost(b, o)
    ensures AllAtPre(b, o) <==>
      Recover(b, o) in {IncidentGone, ProtectedEffectChanged, StalePlan, ApprovalInvalid, RecoveryOutcome.RolledBack,
                        PreStateStands, ManualReview, BackupStands, NotStarted}
  {
    if b.files != [] { assert b.files[0] in b.files; }
  }

  /** What becomes of files in their post-state, by what the record says was done. */
  lemma PostStateMeans(b: Baseline, o: Observation)
    requires b.files != [] && AllAtPost(b, o)
    ensures Recover(b, o) == RollbackRequired <==> b.rollbackBegan
    ensures Recover(b, o) == ValidatedSuccess <==> !b.rollbackBegan && b.validationComplete && b.validationPassed
    ensures Recover(b, o) == PostStateStands <==> !b.rollbackBegan && !(b.validationComplete && b.validationPassed)
  {
    FilesDecide(b, o);
    assert b.files[0] in b.files;
  }

  ghost predicate StillMeant(b: Baseline, o: Observation) {
    o.incidentPresent && (b.protection == "" || o.protection == "" || o.protection == b.protection)
    && o.identity == Some(b.identity)
  }

  /** What becomes of untouched files: whether the repair is still meant, and how far
      it had come. */
  lemma PreStateMeans(b: Baseline, o: Observation)
    requires AllAtPre(b, o)
    ensures Recover(b, o) == IncidentGone <==> !o.incidentPresent
    ensures Recover(b, o) == ProtectedEffectChanged <==>
      o.incidentPresent && b.protection != "" && o.protection != "" && o.protection != b.protection
    ensures Recover(b, o) in {StalePlan, ApprovalInvalid} <==>
      o.incidentPresent && !(b.protection != "" && o.protection != "" && o.protection != b.protection)
      && o.identity != Some(b.identity)
    ensures Recover(b, o) == StalePlan ==> o.identity.None?
    ensures Recover(b, o) == ApprovalInvalid ==> o.identity.Some?
    ensures Recover(b, o) == RecoveryOutcome.RolledBack <==> StillMeant(b, o) && b.rollbackBegan
    ensures Recover(b, o) == PreStateStands <==> StillMeant(b, o) && !b.rollbackBegan && b.writeBegan
    ensures Recover(b, o) == ManualReview <==>
      StillMeant(b, o) && !b.rollbackBegan && !b.writeBegan && b.backupComplete
      && exists p :: p in o.backupsPresent && !o.backupsPresent[p]
    ensures Recover(b, o) == BackupStands <==>
      StillMeant(b, o) && !b.rollbackBegan && !b.writeBegan && b.backupComplete
      && forall p :: p in o.backupsPresent ==> o.backupsPresent[p]
    ensures Recover(b, o) == NotStarted <==> StillMeant(b, o) && !b.rollbackBegan && !b.writeBegan && !b.backupComplete
  {
    if b.files != [] { assert b.files[0] in b.files; }
  }

  /** When a restart is done with the record. */
  lemma TerminalIff(b: Baseline, o: Observation)
    ensures Terminal(Recover(b, o)) <==>
      Recover(b, o) == MaterialRetired
      || (AllAtPre(b, o) && (!o.incidentPresent || (StillMeant(b, o) && b.rollbackBegan)))
      || (b.files != [] && AllAtPost(b, o) && !b.rollbackBegan && b.validationComplete && b.validationPassed)
  {
    FilesDecide(b, o);
    if AllAtPre(b, o) { PreStateMeans(b, o); }
    if b.files != [] && AllAtPost(b, o) { PostStateMeans(b, o); }
  }

  /** When a restart may write again. */
  lemma MayApplyIff(b: Baseline, o: Observation)
    ensures MayApplyMutation(Recover(b, o)) <==>
      (forall f :: f in b.files ==> HoldsPre(f, o))
      && !b.rollbackBegan && o.incidentPresent && o.identity == Some(b.identity)
      && (b.protection == "" || o.protection in {"", b.protection})
      && (b.writeBegan || !b.backupComplete || forall p :: p in o.backupsPresent ==> o.backupsPresent[p])
  {}

  /** Files that all hold their planned post content, in a repair where the
      content really changes, are taken for a validated success exactly on the
      record of the configuration check. Runtime validation, which may still
      have failed, is not asked. */
  lemma ValidatedOnConfigurationAlone(b: Baseline, o: Observation)
    requires b.files != [] && !Retired(b, o)
    requires forall f :: f in b.files ==> HoldsPost(f, o)
    ensures Recover(b, o) == ValidatedSuccess <==> b.validationComplete && b.validationPassed && !b.rollbackBegan
    ensures Terminal(Recover(b, o)) <==> Recover(b, o) == ValidatedSuccess
  {
    assert b.files[0] in b.files;
  }

  /** A complete write is recognised as complete exactly when no planned file
      was left as it was: a file whose text does not change reads as unwritten. */
  lemma CompleteWriteRecognisedIff(b: Baseline, o: Observation)
    requires b.files != [] && !Retired(b, o)
    requires forall f :: f in b.files ==> f.path in o.hashes && o.hashes[f.path] == f.post
    requires exists f :: f in b.files && f.pre != f.post
    ensures Recover(b, o) in {PostStateStands, ValidatedSuccess, RollbackRequired}
       <==> forall f :: f in b.files ==> f.pre != f.post
    ensures Recover(b, o) == RecoveryRequired <==> exists f :: f in b.files && f.pre == f.post
  {
    var g :| g in b.files && g.pre != g.post;
    assert HoldsPost(g, o);
    if f :| f in b.files && f.pre == f.post { assert HoldsPre(f, o); }
  }
}
