/** What a repair leaves behind at every instant: the order of durable records,
    backups and writes, and what any prefix of that order, cut off by a crash,
    still proves. */
module RepairLog {
  import opened Ordering
  import opened RepairPlan
  import opened DurableBaseline

  datatype Target = Target(path: string, pre: string, post: string)

  /** One repair: its files and the key its records are kept under. Rollback
      records are keyed by the identity of the plan as it was approved, all
      others by that of the plan as it was re-derived. */
  datatype Repair = Repair(targets: seq<Target>, identity: Identity, approved: Identity, incidentId: string)

  /** `landed` is what the file held afterwards, which the caller cannot trust:
      a call may return having written something else, or raise having written
      part of it. */
  datatype Event =
    | Saved(record: Baseline)
    | BackedUp(path: string, content: string)
    | Wrote(path: string, asked: string, landed: string)
    | WriteRaised(path: string, asked: string, landed: string)
    | Restored(path: string, landed: string)
    | RestoreRaised(path: string, landed: string)
  {
    predicate Forward() { Wrote? || WriteRaised? }

    predicate Backward() { Restored? || RestoreRaised? }
  }

  type Files = map<string, string>

  function FileStep(files: Files, e: Event): Files {
    if e.Forward() || e.Backward() then files[e.path := e.landed] else files
  }

  function FilesAfter(initial: Files, log: seq<Event>): Files {
    if log == [] then initial
    else FileStep(FilesAfter(initial, log[..|log| - 1]), log[|log| - 1])
  }

  function BackupsAfter(log: seq<Event>): Files {
    if log == [] then map[]
    else
      var e := log[|log| - 1];
      var before := BackupsAfter(log[..|log| - 1]);
      if e.BackedUp? then before[e.path := e.content] else before
  }

  function LastRecord(log: seq<Event>): Option<Baseline> {
    if log == [] then None
    else if log[|log| - 1].Saved? then Some(log[|log| - 1].record)
    else LastRecord(log[..|log| - 1])
  }

  function StoreAfter(store: seq<Baseline>, log: seq<Event>): seq<Baseline> {
    if log == [] then store
    else
      var before := StoreAfter(store, log[..|log| - 1]);
      if log[|log| - 1].Saved? then Save(before, log[|log| - 1].record) else before
  }

  /** What forward writes that raised left behind. */
  function Torn(log: seq<Event>): Files {
    if log == [] then map[]
    else
      var e := log[|log| - 1];
      var before := Torn(log[..|log| - 1]);
      if e.WriteRaised? then before[e.path := e.landed] else before
  }

  predicate Began(log: seq<Event>) {
    exists e :: e in log && e.Saved? && e.record.writeBegan
  }

  predicate RollingBack(log: seq<Event>) {
    exists e :: e in log && e.Saved? && e.record.rollbackBegan
  }

  predicate Touched(log: seq<Event>, p: string) {
    exists e :: e in log && e.Forward() && e.path == p
  }

  function FileStates(ts: seq<Target>): seq<FileState> {
    seq(|ts|, i requires 0 <= i < |ts| => FileState(ts[i].path, Digest(ts[i].pre), Digest(ts[i].post)))
  }

  ghost predicate BackedUpAll(r: Repair, log: seq<Event>) {
    forall t :: t in r.targets ==> t.path in BackupsAfter(log) && BackupsAfter(log)[t.path] == t.pre
  }

  ghost predicate Noted(log: seq<Event>, stage: Stage) {
    exists e :: e in log && e.Saved? && e.record.stage == stage
  }

  /** It is on record that every backup was taken and read back. */
  ghost predicate BackupNoted(log: seq<Event>) {
    exists e :: e in log && e.Saved? && e.record.stage == BackupCreated && e.record.backupComplete
  }

  /** What the record of a stage says was done, and what may yet go either way. */
  ghost predicate Says(b: Baseline) {
    match b.stage
    case PreStateConfirmed => b.backups == {} && !b.backupComplete && !b.writeBegan && !b.writeComplete && !b.validationComplete && Standing(b)
    case BackupCreated => !b.writeBegan && !b.writeComplete && !b.validationComplete && Standing(b)
    case WriteBegan => b.backupComplete && b.writeBegan && !b.writeComplete && !b.validationComplete && Standing(b)
    case WriteApplied => b.backupComplete && b.writeBegan && !b.validationComplete && Standing(b)
    case ValidationComplete => b.backupComplete && b.writeBegan && b.writeComplete && b.validationComplete && Standing(b)
    case LifecycleComplete =>
      b.backupComplete && b.writeBegan && b.writeComplete && b.validationComplete && b.validationPassed && b.complete
      && !b.rollbackBegan && !b.rollbackComplete && !b.rollbackVerified
    case RollbackBegan => RolledAfter(b) && !b.rollbackComplete && !b.rollbackVerified && !b.complete
    case RollbackComplete => RolledAfter(b) && b.rollbackComplete && b.complete
  }

  ghost predicate Standing(b: Baseline) {
    !b.rollbackBegan && !b.rollbackComplete && !b.rollbackVerified && !b.complete && (b.validationPassed ==> b.validationComplete)
  }

  ghost predicate RolledAfter(b: Baseline) {
    b.backupComplete && b.writeBegan && b.writeComplete && b.rollbackBegan && !b.validationComplete && !b.validationPassed
  }

  /** A record is true when it is saved: it says what its stage says, after the
      records that have to be there before it; its files, backups and protection are
      those of the repair. */
  ghost predicate Truthful(r: Repair, log: seq<Event>, b: Baseline) {
    Says(b) && b.protection == b.identity.protection
    && (b.backupComplete ==> BackedUpAll(r, log))
    && (b.writeBegan ==> b.files == FileStates(r.targets) && b.backups == (set t | t in r.targets :: t.path))
    && (b.stage == BackupCreated || b.stage == WriteBegan ==> Noted(log, PreStateConfirmed))
    && (b.stage == WriteBegan ==> BackupNoted(log))
    && (b.stage == RollbackComplete ==> Noted(log, RollbackBegan))
  }

  /** The discipline: what each event requires to have become durable before it. */
  ghost predicate Allowed(r: Repair, log: seq<Event>, e: Event) {
    match e
    case Saved(b) =>
      b.For(if b.rollbackBegan then r.approved else r.identity, r.incidentId)
      && Truthful(r, log, b)
      && (Began(log) ==> b.writeBegan)
      && (b.rollbackBegan ==> Began(log))
      && (RollingBack(log) ==> b.rollbackBegan)
    case BackedUp(_, _) => !Began(log)
    case Wrote(p, asked, _) => MayWrite(r, log, p, asked)
    case WriteRaised(p, asked, _) => MayWrite(r, log, p, asked)
    case Restored(p, _) => MayRestore(r, log, p)
    case RestoreRaised(p, _) => MayRestore(r, log, p)
  }

  ghost predicate MayWrite(r: Repair, log: seq<Event>, p: string, asked: string) {
    Began(log) && !RollingBack(log) && !Touched(log, p)
    && exists t :: t in r.targets && t.path == p && t.post == asked
  }

  ghost predicate MayRestore(r: Repair, log: seq<Event>, p: string) {
    RollingBack(log) && Touched(log, p) && exists t :: t in r.targets && t.path == p
  }

  ghost predicate Legal(r: Repair, log: seq<Event>) {
    forall k {:trigger Allowed(r, log[..k], log[k])} :: 0 <= k < |log| ==> Allowed(r, log[..k], log[k])
  }

  lemma LegalExtends(r: Repair, log: seq<Event>, e: Event)
    requires Legal(r, log) && Allowed(r, log, e)
    ensures Legal(r, log + [e])
  {
    var longer := log + [e];
    forall k | 0 <= k < |longer| ensures Allowed(r, longer[..k], longer[k]) {
      assert longer[..k] == log[..k];
      if k == |log| { assert log[..k] == log; }
    }
  }

  lemma LegalPrefix(r: Repair, log: seq<Event>, k: nat)
    requires Legal(r, log) && k <= |log|
    ensures Legal(r, log[..k])
  {
    forall j | 0 <= j < k ensures Allowed(r, log[..k][..j], log[..k][j]) {
      assert log[..k][..j] == log[..j];
    }
  }

  // ---- The last record speaks for the whole log ---------------------------

  lemma {:induction false} LastRecordCovers(r: Repair, log: seq<Event>)
    requires Legal(r, log)
    ensures LastRecord(log).None? ==> !Began(log) && !RollingBack(log)
    ensures LastRecord(log).Some? ==>
      LastRecord(log).value.writeBegan == Began(log)
      && LastRecord(log).value.rollbackBegan == RollingBack(log)
      && (Began(log) ==> LastRecord(log).value.files == FileStates(r.targets))
  {
    if log != [] {
      var n := |log| - 1;
      var before, e := log[..n], log[n];
      LegalPrefix(r, log, n);
      LastRecordCovers(r, before);
      assert log == before + [e];
      assert Allowed(r, before, e);
      if e.Saved? { assert e in log; }
      assert forall x :: x in log <==> x in before || x == e;
    }
  }

  /** Every record on the log was true when it was saved, a declared attempt came after
      the records of the state it found and of its backups, and the end of a rollback
      after its declaration. */
  lemma RecordsAreTrue(r: Repair, log: seq<Event>, k: nat)
    requires Legal(r, log) && k < |log| && log[k].Saved?
    ensures Truthful(r, log[..k], log[k].record)
    ensures log[k].record.stage == WriteBegan ==>
      exists i, j :: 0 <= i < k && 0 <= j < k && log[i].Saved? && log[i].record.stage == PreStateConfirmed
                     && log[j].Saved? && log[j].record.stage == BackupCreated && log[j].record.backupComplete
    ensures log[k].record.stage == RollbackComplete ==>
      exists i :: 0 <= i < k && log[i].Saved? && log[i].record.stage == RollbackBegan
  {
    assert Allowed(r, log[..k], log[k]);
    if log[k].record.stage == WriteBegan {
      var i := NotedAt(log[..k], PreStateConfirmed);
      var e :| e in log[..k] && e.Saved? && e.record.stage == BackupCreated && e.record.backupComplete;
      var j :| 0 <= j < k && log[j] == e;
    }
    if log[k].record.stage == RollbackComplete {
      var i := NotedAt(log[..k], RollbackBegan);
    }
  }

  lemma NotedAt(log: seq<Event>, stage: Stage) returns (i: nat)
    requires Noted(log, stage)
    ensures i < |log| && log[i].Saved? && log[i].record.stage == stage
  {
    var e :| e in log && e.Saved? && e.record.stage == stage;
    i :| i < |log| && log[i] == e;
  }

  lemma {:induction false} LastRecordIsSaved(r: Repair, log: seq<Event>)
    requires Legal(r, log) && LastRecord(log).Some?
    ensures Noted(log, LastRecord(log).value.stage)
    ensures LastRecord(log).value.stage == BackupCreated ==> Noted(log, PreStateConfirmed)
    ensures LastRecord(log).value.stage == BackupCreated && LastRecord(log).value.backupComplete ==> BackupNoted(log)
  {
    var n := |log| - 1;
    LegalPrefix(r, log, n);
    assert log == log[..n] + [log[n]];
    if log[n].Saved? {
      assert Allowed(r, log[..n], log[n]) && log[n] in log;
    } else {
      LastRecordIsSaved(r, log[..n]);
    }
  }

  /** A rollback is under way only once it has been declared. */
  lemma {:induction false} RollbackIsNoted(r: Repair, log: seq<Event>)
    requires Legal(r, log) && RollingBack(log)
    ensures Noted(log, RollbackBegan)
  {
    var n := |log| - 1;
    LegalPrefix(r, log, n);
    assert log == log[..n] + [log[n]];
    if RollingBack(log[..n]) {
      RollbackIsNoted(r, log[..n]);
    } else {
      assert Allowed(r, log[..n], log[n]) && log[n] in log;
    }
  }

  lemma {:induction false} ForwardNeedsBegan(r: Repair, log: seq<Event>)
    requires Legal(r, log)
    ensures (exists e :: e in log && (e.Forward() || e.Backward())) ==> Began(log)
    ensures (exists e :: e in log && e.Backward()) ==> RollingBack(log)
  {
    if log != [] {
      var n := |log| - 1;
      LegalPrefix(r, log, n);
      ForwardNeedsBegan(r, log[..n]);
      assert log == log[..n] + [log[n]];
      assert Allowed(r, log[..n], log[n]);
    }
  }

  /** Nothing but a planned file is ever changed. */
  lemma {:induction false} OnlyTargetsChange(r: Repair, initial: Files, log: seq<Event>, p: string)
    requires Legal(r, log) && (forall t :: t in r.targets ==> t.path in initial)
    requires forall t :: t in r.targets ==> t.path != p
    ensures p in FilesAfter(initial, log) <==> p in initial
    ensures p in initial ==> FilesAfter(initial, log)[p] == initial[p]
  {
    if log != [] {
      LegalPrefix(r, log, |log| - 1);
      OnlyTargetsChange(r, initial, log[..|log| - 1], p);
      assert Allowed(r, log[..|log| - 1], log[|log| - 1]);
    }
  }

  lemma {:induction false} FilesKeep(r: Repair, initial: Files, log: seq<Event>)
    requires Legal(r, log) && (forall t :: t in r.targets ==> t.path in initial)
    ensures FilesAfter(initial, log).Keys == initial.Keys
  {
    if log != [] {
      LegalPrefix(r, log, |log| - 1);
      FilesKeep(r, initial, log[..|log| - 1]);
      assert Allowed(r, log[..|log| - 1], log[|log| - 1]);
    }
  }

  lemma {:induction false} UntouchedHoldsInitial(initial: Files, log: seq<Event>, p: string)
    requires forall e :: e in log && (e.Forward() || e.Backward()) ==> e.path != p
    ensures p in FilesAfter(initial, log) <==> p in initial
    ensures p in initial ==> FilesAfter(initial, log)[p] == initial[p]
  {
    if log != [] {
      assert log == log[..|log| - 1] + [log[|log| - 1]];
      UntouchedHoldsInitial(initial, log[..|log| - 1], p);
    }
  }

  /** Only records: no file moves. */
  ghost predicate Quiet(log: seq<Event>) {
    forall e :: e in log ==> !e.Forward() && !e.Backward()
  }

  ghost predicate EachOnce(log: seq<Event>) {
    forall k :: 0 <= k < |log| ==> !log[k].Backward() && (log[k].Forward() ==> !Touched(log[..k], log[k].path))
  }

  lemma LegalWritesOnce(r: Repair, log: seq<Event>)
    requires Legal(r, log) && !RollingBack(log)
    ensures EachOnce(log)
  {
    ForwardNeedsBegan(r, log);
    forall k | 0 <= k < |log| ensures !log[k].Backward() && (log[k].Forward() ==> !Touched(log[..k], log[k].path)) {
      assert log[k] in log && Allowed(r, log[..k], log[k]);
    }
  }

  lemma OncePrefix(log: seq<Event>, k: nat)
    requires EachOnce(log) && k <= |log|
    ensures EachOnce(log[..k])
  {
    forall j | 0 <= j < k ensures log[..k][..j] == log[..j] {}
  }

  lemma QuietPath(initial: Files, log: seq<Event>, k: nat, p: string)
    requires EachOnce(log) && !Touched(log, p) && k <= |log| && p in initial
    ensures p in FilesAfter(initial, log[..k]) && FilesAfter(initial, log[..k])[p] == initial[p]
  {
    forall e | e in log[..k] && (e.Forward() || e.Backward()) ensures e.path != p {
      var j :| 0 <= j < k && log[j] == e;
      assert log[j] in log;
    }
    UntouchedHoldsInitial(initial, log[..k], p);
  }

  /** As long as nothing is rolled back each file is written at most once, so its
      content is its first content or the one it has now. */
  lemma {:induction false} WrittenOnce(initial: Files, log: seq<Event>, k: nat, p: string)
    requires EachOnce(log) && k <= |log| && p in initial
    ensures p in FilesAfter(initial, log) && p in FilesAfter(initial, log[..k])
    ensures FilesAfter(initial, log[..k])[p] in {initial[p], FilesAfter(initial, log)[p]}
  {
    PathStays(initial, log, p);
    PathStays(initial, log[..k], p);
    if k == |log| {
      assert log[..k] == log;
    } else {
      var n := |log| - 1;
      var before, e := log[..n], log[n];
      OncePrefix(log, n);
      assert before[..k] == log[..k];
      if e.Forward() && e.path == p {
        QuietPath(initial, before, k, p);
      } else {
        WrittenOnce(initial, before, k, p);
      }
    }
  }

  lemma {:induction false} PathStays(initial: Files, log: seq<Event>, p: string)
    requires p in initial
    ensures p in FilesAfter(initial, log)
  {
    if log != [] { PathStays(initial, log[..|log| - 1], p); }
  }

  // ---- What a crash leaves ------------------------------------------------

  ghost predicate Starts(r: Repair, initial: Files) {
    forall t :: t in r.targets ==> t.path in initial && initial[t.path] == t.pre
  }

  /** What a restart reads is true; it may fail to read some files. */
  ghost predicate Observes(o: Observation, b: Baseline, files: Files) {
    forall f :: f in b.files && f.path in o.hashes ==> f.path in files && o.hashes[f.path] == Digest(files[f.path])
  }

  /** Write-ahead: wherever the log is cut, a file that no longer holds its
      original content is covered by a durable record of the attempt that names
      every file with both hashes, and by a backup holding the original. */
  lemma ChangedFilesAreRecoverable(r: Repair, initial: Files, log: seq<Event>, k: nat, t: Target)
    requires Legal(r, log) && k <= |log| && Starts(r, initial) && t in r.targets
    requires t.path in FilesAfter(initial, log[..k]) && FilesAfter(initial, log[..k])[t.path] != t.pre
    ensures LastRecord(log[..k]).Some? && LastRecord(log[..k]).value.writeBegan
    ensures LastRecord(log[..k]).value.files == FileStates(r.targets)
    ensures t.path in BackupsAfter(log[..k]) && BackupsAfter(log[..k])[t.path] == t.pre
  {
    var cut := log[..k];
    LegalPrefix(r, log, k);
    ForwardNeedsBegan(r, cut);
    if !Began(cut) { UntouchedHoldsInitial(initial, cut, t.path); }
    LastRecordCovers(r, cut);
    BackupsFrozen(r, cut);
  }

  /** Backups come before the attempt, and the attempt is declared over a full set. */
  ghost predicate BackupsFirst(r: Repair, log: seq<Event>) {
    forall k :: 0 <= k < |log| ==>
      (log[k].BackedUp? ==> !Began(log[..k]))
      && (log[k].Saved? && log[k].record.writeBegan ==> BackedUpAll(r, log[..k]))
  }

  lemma LegalBacksUpFirst(r: Repair, log: seq<Event>)
    requires Legal(r, log)
    ensures BackupsFirst(r, log)
  {
    forall k | 0 <= k < |log|
      ensures log[k].BackedUp? ==> !Began(log[..k])
      ensures log[k].Saved? && log[k].record.writeBegan ==> BackedUpAll(r, log[..k])
    {
      assert Allowed(r, log[..k], log[k]);
    }
  }

  lemma {:induction false} FrozenBackups(r: Repair, log: seq<Event>)
    requires BackupsFirst(r, log) && Began(log)
    ensures BackedUpAll(r, log)
  {
    var n := |log| - 1;
    var before, e := log[..n], log[n];
    assert log == before + [e];
    assert forall k :: 0 <= k < n ==> before[..k] == log[..k];
    if Began(before) {
      FrozenBackups(r, before);
      assert !e.BackedUp?;
    }
    assert BackupsAfter(log) == BackupsAfter(before);
  }

  lemma BackupsFrozen(r: Repair, log: seq<Event>)
    requires Legal(r, log) && Began(log)
    ensures BackedUpAll(r, log)
  {
    LegalBacksUpFirst(r, log);
    FrozenBackups(r, log);
  }

  /** Under one key the store holds what the log says: the record recovery reads
      for this repair is the last one saved. */
  lemma {:induction false} StoreHoldsLastRecord(r: Repair, store: seq<Baseline>, log: seq<Event>)
    requires Legal(r, log) && r.identity == r.approved && LastRecord(log).Some?
    ensures !LastRecord(log).value.complete ==> LastRecord(log).value in StoreAfter(store, log)
    ensures forall b :: b in StoreAfter(store, log) && b.For(r.identity, r.incidentId) ==> b == LastRecord(log).value
  {
    var n := |log| - 1;
    LegalPrefix(r, log, n);
    assert Allowed(r, log[..n], log[n]);
    if log[n].Saved? {
      SaveKeepsInFlight(StoreAfter(store, log[..n]), log[n].record);
    } else {
      StoreHoldsLastRecord(r, store, log[..n]);
    }
  }

  /** Whatever moment a crash picks, if recovery says of the stored record of this
      repair that the mutation may be applied, then no file has held anything but
      its original content at any moment of the run: a repair is never applied a
      second time, nor over its own rollback. This needs no assumption about how
      writes fail. */
  lemma RecoveryNeverReapplies(r: Repair, initial: Files, store: seq<Baseline>, log: seq<Event>, crash: nat,
                               b: Baseline, o: Observation, k: nat, t: Target)
    requires Legal(r, log) && Starts(r, initial) && r.identity == r.approved
    requires k <= crash <= |log| && t in r.targets
    requires b in StoreAfter(store, log[..crash]) && b.For(r.identity, r.incidentId) && !b.complete
    requires Observes(o, b, FilesAfter(initial, log[..crash])) && MayApplyMutation(Recover(b, o))
    ensures t.path in FilesAfter(initial, log[..k]) && FilesAfter(initial, log[..k])[t.path] == t.pre
  {
    var cut := log[..crash];
    LegalPrefix(r, log, crash);
    LastRecordCovers(r, cut);
    ForwardNeedsBegan(r, cut);
    assert cut[..k] == log[..k];
    if Began(cut) {
      StoreHoldsLastRecord(r, store, cut);
      MayApplyIff(b, o);
      LegalWritesOnce(r, cut);
      WrittenOnce(initial, cut, k, t.path);
      var i :| 0 <= i < |r.targets| && r.targets[i] == t;
      assert FileStates(r.targets)[i] in b.files;
    } else {
      assert forall e :: e in cut[..k] ==> e in cut;
      UntouchedHoldsInitial(initial, cut[..k], t.path);
    }
  }

  /** The one key is needed: kept under another identity, the record of a rollback
      does not replace the record of the write, and a restart that finds every
      file restored would apply the rejected repair again. */
  lemma SplitKeysForgetRollback(store: seq<Baseline>, b: Baseline, rollback: Baseline, o: Observation)
    requires b in store && !b.complete && b.writeBegan && !b.rollbackBegan
    requires rollback.identity != b.identity
    requires !Retired(b, o) && forall f :: f in b.files ==> HoldsPre(f, o)
    requires o.incidentPresent && o.identity == Some(b.identity) && o.protection == b.protection
    ensures b in Save(store, rollback) && MayApplyMutation(Recover(b, o))
  {
    SaveKeepsInFlight(store, rollback);
  }

  // ---- What a raised write leaves -----------------------------------------

  ghost predicate WritesTargetsOnce(r: Repair, log: seq<Event>) {
    forall k :: 0 <= k < |log| && log[k].Forward() ==>
      !Touched(log[..k], log[k].path) && IsTarget(r, log[k].path)
  }

  ghost predicate IsTarget(r: Repair, p: string) {
    exists t :: t in r.targets && t.path == p
  }

  lemma LegalWritesTargets(r: Repair, log: seq<Event>)
    requires Legal(r, log)
    ensures WritesTargetsOnce(r, log)
  {
    forall k | 0 <= k < |log| && log[k].Forward()
      ensures !Touched(log[..k], log[k].path) && IsTarget(r, log[k].path)
    {
      assert Allowed(r, log[..k], log[k]);
    }
  }

  ghost predicate TornExplained(r: Repair, log: seq<Event>) {
    (forall e :: e in log && e.WriteRaised? ==> e.path in Torn(log) && Torn(log)[e.path] == e.landed)
    && forall p :: p in Torn(log) ==> IsTarget(r, p) && exists e :: e in log && e.WriteRaised? && e.path == p
  }

  lemma TornStep(r: Repair, before: seq<Event>, e: Event)
    requires TornExplained(r, before)
    requires e.WriteRaised? ==> IsTarget(r, e.path) && !Touched(before, e.path)
    ensures TornExplained(r, before + [e])
  {
    assert (before + [e])[..|before|] == before;
    assert forall x :: x in before + [e] <==> x in before || x == e;
    if e.WriteRaised? {
      forall x | x in before && x.WriteRaised? ensures x.path != e.path {}
      assert e in before + [e];
    }
  }

  lemma {:induction false} TornFollowsLog(r: Repair, log: seq<Event>)
    requires WritesTargetsOnce(r, log)
    ensures TornExplained(r, log)
  {
    if log != [] {
      var n := |log| - 1;
      assert forall k :: 0 <= k < n ==> log[..n][..k] == log[..k];
      TornFollowsLog(r, log[..n]);
      TornStep(r, log[..n], log[n]);
      assert log == log[..n] + [log[n]];
    }
  }

  lemma TornIsWhatRaisedLeft(r: Repair, log: seq<Event>)
    requires Legal(r, log)
    ensures forall e :: e in log && e.WriteRaised? ==> e.path in Torn(log) && Torn(log)[e.path] == e.landed
    ensures forall p :: p in Torn(log) ==> IsTarget(r, p) && Touched(log, p)
    ensures forall p :: p in Torn(log) ==> exists e :: e in log && e.WriteRaised? && e.path == p
  {
    LegalWritesTargets(r, log);
    TornFollowsLog(r, log);
  }

  /** Restoring everything that was written gives back the original files exactly
      when no raised write left its file changed. */
  lemma RestoredIsOriginalIff(r: Repair, initial: Files, log: seq<Event>)
    requires Legal(r, log) && Starts(r, initial)
    ensures initial + Torn(log) == initial
       <==> forall e :: e in log && e.WriteRaised? ==> e.path in initial && e.landed == initial[e.path]
  {
    TornIsWhatRaisedLeft(r, log);
    if initial + Torn(log) == initial {
      assert forall p :: p in Torn(log) ==> (initial + Torn(log))[p] == Torn(log)[p];
    }
  }

  /** The failing case: of two files one is written, the other is truncated by a
      write that raises; a rollback restores the first alone. */
  lemma TruncatedFileIsNotRestored(r: Repair, initial: Files, log: seq<Event>, a: Target, b: Target, back: Baseline)
    requires Legal(r, log) && Began(log) && !RollingBack(log)
    requires a in r.targets && b in r.targets && a.path != b.path
    requires !Touched(log, a.path) && !Touched(log, b.path)
    requires DeclaresRollback(r, back)
    ensures var l := log + [Wrote(a.path, a.post, a.post)] + [WriteRaised(b.path, b.post, "")]
                     + [Saved(back)] + [Restored(a.path, a.pre)];
      Legal(r, l) && FilesAfter(initial, l) == FilesAfter(initial, log)[b.path := ""][a.path := a.pre]
  {
    var l1 := log + [Wrote(a.path, a.post, a.post)];
    WriteStep(r, initial, log, a, Wrote(a.path, a.post, a.post));
    WriteStep(r, initial, l1, b, WriteRaised(b.path, b.post, ""));
    RollbackStep(r, initial, l1 + [WriteRaised(b.path, b.post, "")], a, back);
    Overwritten(FilesAfter(initial, log), a.path, a.post, a.pre, b.path, "");
  }

  lemma Overwritten(files: Files, p: string, x: string, y: string, q: string, z: string)
    requires p != q
    ensures files[p := x][q := z][p := y] == files[q := z][p := y]
  {}

  lemma WriteStep(r: Repair, initial: Files, log: seq<Event>, t: Target, e: Event)
    requires Legal(r, log) && Began(log) && !RollingBack(log) && t in r.targets && !Touched(log, t.path)
    requires e.Forward() && e.path == t.path && e.asked == t.post
    ensures Legal(r, log + [e]) && Began(log + [e]) && !RollingBack(log + [e])
    ensures FilesAfter(initial, log + [e]) == FilesAfter(initial, log)[t.path := e.landed]
    ensures forall p :: Touched(log + [e], p) == (Touched(log, p) || p == t.path)
  {
    assert MayWrite(r, log, e.path, e.asked);
    Stepped(r, initial, log, e);
  }

  lemma RollbackStep(r: Repair, initial: Files, log: seq<Event>, a: Target, back: Baseline)
    requires Legal(r, log) && Began(log) && a in r.targets && Touched(log, a.path)
    requires DeclaresRollback(r, back)
    ensures var l := log + [Saved(back)] + [Restored(a.path, a.pre)];
      Legal(r, l) && FilesAfter(initial, l) == FilesAfter(initial, log)[a.path := a.pre]
  {
    MaySaveRollback(r, log, back);
    var l := log + [Saved(back)];
    assert Legal(r, l) && RollingBack(l) && Touched(l, a.path) && FilesAfter(initial, l) == FilesAfter(initial, log) by {
      Stepped(r, initial, log, Saved(back));
    }
    MayRestoreTarget(r, l, a);
    Stepped(r, initial, l, Restored(a.path, a.pre));
  }

  ghost predicate DeclaresRollback(r: Repair, back: Baseline) {
    back.stage == RollbackBegan && Says(back) && back.For(r.approved, r.incidentId)
    && back.protection == back.identity.protection
    && back.files == FileStates(r.targets) && back.backups == (set t | t in r.targets :: t.path)
  }

  lemma MaySaveRollback(r: Repair, log: seq<Event>, back: Baseline)
    requires Legal(r, log) && Began(log)
    requires DeclaresRollback(r, back)
    ensures Allowed(r, log, Saved(back))
  {
    BackupsFrozen(r, log);
  }

  lemma MayRestoreTarget(r: Repair, log: seq<Event>, a: Target)
    requires RollingBack(log) && Touched(log, a.path) && a in r.targets
    ensures Allowed(r, log, Restored(a.path, a.pre))
  {}

  lemma Stepped(r: Repair, initial: Files, log: seq<Event>, e: Event)
    ensures FilesAfter(initial, log + [e]) == FileStep(FilesAfter(initial, log), e)
    ensures BackupsAfter(log + [e]) == if e.BackedUp? then BackupsAfter(log)[e.path := e.content] else BackupsAfter(log)
    ensures Torn(log + [e]) == if e.WriteRaised? then Torn(log)[e.path := e.landed] else Torn(log)
    ensures LastRecord(log + [e]) == if e.Saved? then Some(e.record) else LastRecord(log)
    ensures Legal(r, log) && Allowed(r, log, e) ==> Legal(r, log + [e])
    ensures Began(log + [e]) == (Began(log) || (e.Saved? && e.record.writeBegan))
    ensures RollingBack(log + [e]) == (RollingBack(log) || (e.Saved? && e.record.rollbackBegan))
    ensures forall p :: Touched(log + [e], p) == (Touched(log, p) || (e.Forward() && e.path == p))
  {
    assert (log + [e])[..|log|] == log;
    assert e in log + [e];
    assert forall x :: x in log + [e] <==> x in log || x == e;
    if Legal(r, log) && Allowed(r, log, e) { LegalExtends(r, log, e); }
  }

  /** A log accounts for a machine: it breaks no rule and explains every file,
      backup and record there is. Stated under a guard: a proof that only passes the
      fact along does not see inside, one that needs the inside mentions `Look`. */
  ghost predicate Accounts(r: Repair, initial: Files, stored: seq<Baseline>, log: seq<Event>,
                           files: Files, backups: Files, store: seq<Baseline>)
  {
    forall inside: bool {:trigger Look(inside)} :: Look(inside) ==>
      Legal(r, log) && Starts(r, initial)
      && files == FilesAfter(initial, log) && backups == BackupsAfter(log) && store == StoreAfter(stored, log)
  }

  predicate Look(inside: bool) { true }

  lemma AccountsForStep(r: Repair, initial: Files, stored: seq<Baseline>, log: seq<Event>,
                        files: Files, backups: Files, store: seq<Baseline>, e: Event)
    requires Accounts(r, initial, stored, log, files, backups, store) && Allowed(r, log, e)
    ensures Accounts(r, initial, stored, log + [e], FileStep(files, e),
                     if e.BackedUp? then backups[e.path := e.content] else backups,
                     if e.Saved? then Save(store, e.record) else store)
  {
    assert Look(true);
    Stepped(r, initial, log, e);
    assert (log + [e])[..|log|] == log;
  }

  /** Writes that land as asked or not at all, restores that bring back what the
      backup holds or change nothing. */
  ghost predicate Faithful(initial: Files, log: seq<Event>) {
    forall k :: 0 <= k < |log| ==> FaithfulEvent(FilesAfter(initial, log[..k]), BackupsAfter(log[..k]), log[k])
  }

  ghost predicate FaithfulEvent(files: Files, backups: Files, e: Event) {
    match e
    case Wrote(p, asked, landed) => landed == asked
    case WriteRaised(p, asked, landed) => p in files && landed == files[p]
    case Restored(p, landed) => p in backups && landed == backups[p]
    case RestoreRaised(p, landed) => p in files && landed == files[p]
    case _ => true
  }

  lemma BackupHoldsPre(r: Repair, log: seq<Event>, k: nat, t: Target)
    requires Legal(r, log) && k <= |log| && RollingBack(log[..k]) && t in r.targets
    ensures t.path in BackupsAfter(log[..k]) && BackupsAfter(log[..k])[t.path] == t.pre
  {
    LegalPrefix(r, log, k);
    RollbackWasBegan(r, log[..k]);
    BackupsFrozen(r, log[..k]);
  }

  lemma {:induction false} RollbackWasBegan(r: Repair, log: seq<Event>)
    requires Legal(r, log)
    ensures RollingBack(log) ==> Began(log)
  {
    if log != [] {
      var n := |log| - 1;
      LegalPrefix(r, log, n);
      RollbackWasBegan(r, log[..n]);
      assert Allowed(r, log[..n], log[n]);
      assert log == log[..n] + [log[n]];
    }
  }

  /** Then every planned file is, at every moment, its recorded pre or post content. */
  lemma {:induction false} PreOrPostAtEveryCrash(r: Repair, initial: Files, log: seq<Event>, k: nat, t: Target)
    requires Legal(r, log) && Faithful(initial, log) && Starts(r, initial) && k <= |log|
    requires t in r.targets && forall u :: u in r.targets && u.path == t.path ==> u == t
    ensures t.path in FilesAfter(initial, log[..k])
    ensures FilesAfter(initial, log[..k])[t.path] in {t.pre, t.post}
  {
    if k > 0 {
      PreOrPostAtEveryCrash(r, initial, log, k - 1, t);
      assert log[..k][..k - 1] == log[..k - 1];
      var before, e := log[..k - 1], log[k - 1];
      assert Allowed(r, before, e) && FaithfulEvent(FilesAfter(initial, before), BackupsAfter(before), e);
      if e.Restored? && e.path == t.path { BackupHoldsPre(r, log, k - 1, t); }
    }
  }

  /** ... so recovery can always tell where the repair stopped. */
  lemma FaithfulCrashNeverDiverges(r: Repair, initial: Files, log: seq<Event>, crash: nat, o: Observation)
    requires Legal(r, log) && Faithful(initial, log) && Starts(r, initial) && crash <= |log|
    requires forall t, u :: t in r.targets && u in r.targets && t.path == u.path ==> t == u
    requires LastRecord(log[..crash]).Some? && Began(log[..crash])
    requires var b := LastRecord(log[..crash]).value;
      Observes(o, b, FilesAfter(initial, log[..crash])) && forall f :: f in b.files ==> f.path in o.hashes
    ensures Recover(LastRecord(log[..crash]).value, o) != Diverged
  {
    var b := LastRecord(log[..crash]).value;
    LegalPrefix(r, log, crash);
    LastRecordCovers(r, log[..crash]);
    forall i | 0 <= i < |r.targets|
      ensures r.targets[i].path in FilesAfter(initial, log[..crash])
      ensures FilesAfter(initial, log[..crash])[r.targets[i].path] in {r.targets[i].pre, r.targets[i].post}
    {
      PreOrPostAtEveryCrash(r, initial, log, crash, r.targets[i]);
    }
    PreOrPostIsNoDivergence(r, FilesAfter(initial, log[..crash]), b, o);
  }

  lemma PreOrPostIsNoDivergence(r: Repair, files: Files, b: Baseline, o: Observation)
    requires b.files == FileStates(r.targets) && Observes(o, b, files)
    requires forall f :: f in b.files ==> f.path in o.hashes
    requires forall i :: 0 <= i < |r.targets| ==>
      r.targets[i].path in files && files[r.targets[i].path] in {r.targets[i].pre, r.targets[i].post}
    ensures Recover(b, o) != Diverged
  {
    forall f | f in b.files ensures HoldsPre(f, o) || HoldsPost(f, o) {
      var i :| 0 <= i < |b.files| && b.files[i] == f;
    }
  }
}
