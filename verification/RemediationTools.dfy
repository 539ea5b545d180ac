/** The hands of the repair: reading, backing up, writing and restoring files,
    each step proved by reading the file back rather than by the call returning. */
module RemediationTools {
  import opened Ordering
  import opened RepairPlan
  import opened DurableBaseline
  import opened RepairLog
  import Authorization
  import TokenReplacement

  datatype IO<+T> = Returned(value: T) | Raised

  /** The machine a repair runs on: its configuration files, the backups taken
      under the stamp of this run, and the store of durable records. Every call
      may fail; a read that returns returns the truth, a write promises nothing. */
  class Host {
    var files: Files
    var backups: Files
    var store: seq<Baseline>

    ghost var repair: Repair
    ghost var initial: Files
    ghost var stored: seq<Baseline>
    ghost var log: seq<Event>

    /** How often a call has not done what it was asked, or not said so. */
    ghost var faults: nat

    /** How long the log was when the run asked for a scan. */
    ghost var asked: nat

    /** The log accounts for everything on the machine, and breaks no rule. */
    ghost predicate Valid()
      reads this
    {
      Accounts(repair, initial, stored, log, files, backups, store)
    }

    /** What being accounted for means. */
    lemma Explained()
      requires Valid()
      ensures Legal(repair, log) && Starts(repair, initial)
      ensures files == FilesAfter(initial, log) && backups == BackupsAfter(log) && store == StoreAfter(stored, log)
    {
      assert Look(true);
    }

    method Begin(ghost r: Repair)
      requires Starts(r, files)
      modifies this
      ensures Valid() && files == old(files) == initial && store == old(store) == stored
      ensures repair == r && log == [] && backups == map[] && faults == old(faults)
    {
      backups := map[];
      repair, initial, stored, log := r, files, store, [];
    }

    method Read(path: string) returns (r: IO<string>)
      modifies this`faults
      ensures r.Returned? ==> path in files && files[path] == r.value
      ensures faults >= old(faults) && (faults == old(faults) && path in files ==> r.Returned?)
    {
      if path in files {
        if * { return Returned(files[path]); }
        faults := faults + 1;
      }
      r := Raised;
    }

    method ReadBackup(path: string) returns (r: IO<string>)
      modifies this`faults
      ensures r.Returned? ==> path in backups && backups[path] == r.value
      ensures faults >= old(faults) && (faults == old(faults) && path in backups ==> r.Returned?)
    {
      if path in backups {
        if * { return Returned(backups[path]); }
        faults := faults + 1;
      }
      r := Raised;
    }

    method Backup(path: string) returns (ok: bool, ghost copied: string)
      requires Valid() && !Began(log)
      modifies this`backups, this`log, this`faults
      ensures faults >= old(faults) && (faults == old(faults) ==> ok && path in files && copied == files[path])
      ensures Valid() && log == old(log) + [BackedUp(path, copied)] && backups == old(backups)[path := copied]
      ensures !Began(log) && RollingBack(log) == old(RollingBack(log))
    {
      var content: string := *;
      ok := *;
      if !(ok && path in files && content == files[path]) { faults := faults + 1; }
      ghost var e := BackedUp(path, content);
      AccountsForStep(repair, initial, stored, log, files, backups, store, e);
      copied, log, backups := content, log + [e], backups[path := content];
    }

    method Write(path: string, content: string) returns (ok: bool, ghost landed: string)
      requires Valid() && MayWrite(repair, log, path, content)
      modifies this`files, this`log, this`faults
      ensures faults >= old(faults) && (faults == old(faults) ==> ok && landed == content)
      ensures Valid() && files == old(files)[path := landed]
      ensures log == old(log) + [if ok then Wrote(path, content, landed) else WriteRaised(path, content, landed)]
    {
      var after: string := *;
      ok := *;
      if !(ok && after == content) { faults := faults + 1; }
      ghost var e := if ok then Wrote(path, content, after) else WriteRaised(path, content, after);
      assert Allowed(repair, log, e);
      AccountsForStep(repair, initial, stored, log, files, backups, store, e);
      landed, log, files := after, log + [e], files[path := after];
    }

    method Restore(path: string) returns (ok: bool, ghost landed: string)
      requires Valid() && MayRestore(repair, log, path)
      modifies this`files, this`log, this`faults
      ensures faults >= old(faults) && (faults == old(faults) ==> ok && path in backups && landed == backups[path])
      ensures Valid() && files == old(files)[path := landed]
      ensures log == old(log) + [if ok then Restored(path, landed) else RestoreRaised(path, landed)]
    {
      var after: string := *;
      ok := *;
      if !(ok && path in backups && after == backups[path]) { faults := faults + 1; }
      ghost var e := if ok then Restored(path, after) else RestoreRaised(path, after);
      assert Allowed(repair, log, e);
      AccountsForStep(repair, initial, stored, log, files, backups, store, e);
      landed, log, files := after, log + [e], files[path := after];
    }

    /** The commit and the notification after it are one call, so a call that
        raises may have persisted the record or not. */
    method SaveBaseline(b: Baseline) returns (confirmed: bool)
      requires Valid() && Allowed(repair, log, Saved(b))
      modifies this`store, this`log, this`faults
      ensures Valid() && faults >= old(faults) && (faults == old(faults) ==> confirmed)
      ensures log == old(log) + [Saved(b)] || (!confirmed && log == old(log))
    {
      var persisted: bool := *;
      confirmed := *;
      if !(confirmed) { faults := faults + 1; }
      if persisted || confirmed {
        ghost var e := Saved(b);
        AccountsForStep(repair, initial, stored, log, files, backups, store, e);
        log, store := log + [e], Save(store, b);
      }
    }
  }

  /** One file's part in a repair. What planning measured does not change; the
      flags follow the read-backs. */
  class LocationChange {
    const path: string
    const occurrences: nat
    const preHash: Option<Digest>
    const postHash: Option<Digest>
    var backupTaken: bool
    var backupVerified: bool
    var written: bool
    var writeVerified: bool
    var restored: Option<bool>

    constructor (path: string, occurrences: nat, preHash: Option<Digest>, postHash: Option<Digest>)
      ensures this.path == path && this.occurrences == occurrences
      ensures this.preHash == preHash && this.postHash == postHash
      ensures !backupTaken && !backupVerified && !written && !writeVerified && restored == None
    {
      this.path, this.occurrences, this.preHash, this.postHash := path, occurrences, preHash, postHash;
      backupTaken, backupVerified, written, writeVerified, restored := false, false, false, false, None;
    }
  }

  // ---- Planning ------------------------------------------------------------

  /** What a file shows to the planner, or nothing at all. */
  ghost predicate Measured(c: LocationChange, files: Files, stale: string, next: string)
    requires stale != []
  {
    if c.preHash.None? then c.occurrences == 0
    else
      c.path in files
      && c.occurrences == TokenReplacement.Count(files[c.path], stale)
      && c.preHash == Some(Digest(files[c.path]))
      && c.postHash == Some(Digest(TokenReplacement.Replace(files[c.path], stale, next)))
  }

  /** Entities the rewritten texts could switch off and the present ones could not. */
  ghost predicate Gains(files: Files, path: string, stale: string, next: string, off: string -> set<string>, e: string)
    requires stale != []
  {
    path in files && e in off(TokenReplacement.Replace(files[path], stale, next)) && e !in off(files[path])
  }

  predicate Pristine(c: LocationChange)
    reads c
  {
    !c.backupTaken && !c.backupVerified && !c.written && !c.writeVerified && c.restored == None
  }

  method PlanLocations(host: Host, paths: seq<string>, stale: string, next: string, off: string -> set<string>)
    returns (cs: seq<LocationChange>, added: set<string>)
    requires stale != []
    modifies host`faults
    ensures host.faults >= old(host.faults) && (host.faults == old(host.faults) ==> forall c :: c in cs && c.path in host.files ==> c.preHash.Some?)
    ensures |cs| == |SortedDistinct(paths)| && forall i :: 0 <= i < |cs| ==> cs[i].path == SortedDistinct(paths)[i]
    ensures fresh(cs) && forall c :: c in cs ==> Pristine(c) && Measured(c, host.files, stale, next)
    ensures forall i, j :: 0 <= i < j < |cs| ==> cs[i] != cs[j]
    ensures forall e :: e in added <==> exists c :: c in cs && c.preHash.Some? && Gains(host.files, c.path, stale, next, off, e)
  {
    var sorted := SortedDistinct(paths);
    cs, added := [], {};
    for i := 0 to |sorted|
      invariant host.faults >= old(host.faults)
      invariant host.faults == old(host.faults) ==> forall c :: c in cs && c.path in host.files ==> c.preHash.Some?
      invariant |cs| == i && forall j :: 0 <= j < i ==> cs[j].path == sorted[j]
      invariant fresh(cs) && forall c :: c in cs ==> Pristine(c) && Measured(c, host.files, stale, next)
      invariant forall j, k :: 0 <= j < k < |cs| ==> cs[j] != cs[k]
      invariant forall e :: e in added <==>
        exists c :: c in cs && c.preHash.Some? && Gains(host.files, c.path, stale, next, off, e)
    {
      var c, gained := MeasureLocation(host, sorted[i], stale, next, off);
      assert forall d :: d in cs + [c] <==> d in cs || d == c;
      cs, added := cs + [c], added + gained;
    }
  }

  method MeasureLocation(host: Host, path: string, stale: string, next: string, off: string -> set<string>)
    returns (c: LocationChange, gained: set<string>)
    requires stale != []
    modifies host`faults
    ensures host.faults >= old(host.faults) && (host.faults == old(host.faults) && path in host.files ==> c.preHash.Some?)
    ensures fresh(c) && c.path == path && Pristine(c) && Measured(c, host.files, stale, next)
    ensures forall e :: e in gained <==> c.preHash.Some? && Gains(host.files, path, stale, next, off, e)
  {
    var text := host.Read(path);
    match text {
      case Raised =>
        c := new LocationChange(path, 0, None, None);
        gained := {};
      case Returned(before) =>
        var after := TokenReplacement.Replace(before, stale, next);
        c := new LocationChange(path, TokenReplacement.Count(before, stale), Some(Digest(before)), Some(Digest(after)));
        gained := off(after) - off(before);
    }
  }

  ghost predicate Planned(c: LocationChange, t: Target) {
    c.path == t.path && (c.preHash.Some? ==> c.preHash == Some(Digest(t.pre)) && c.postHash == Some(Digest(t.post)))
  }

  ghost predicate Plans(r: Repair, cs: seq<LocationChange>) {
    |cs| == |r.targets|
    && (forall i, j :: 0 <= i < j < |cs| ==> cs[i] != cs[j] && cs[i].path != cs[j].path)
    && forall i :: 0 <= i < |cs| ==> Planned(cs[i], r.targets[i])
  }

  // ---- Backing up ----------------------------------------------------------

  ghost predicate HasBackup(c: LocationChange, backups: Files) {
    c.path in backups && c.preHash == Some(Digest(backups[c.path]))
  }

  method BackupLocation(host: Host, c: LocationChange) returns (ghost copied: string)
    requires host.Valid() && !Began(host.log) && !RollingBack(host.log)
    modifies host`backups, host`log, host`faults, c`backupTaken, c`backupVerified
    ensures host.faults >= old(host.faults) && (host.faults == old(host.faults) ==> (HasBackup(c, host.files) ==> c.backupVerified))
    ensures host.Valid() && !Began(host.log) && !RollingBack(host.log)
    ensures host.backups == old(host.backups)[c.path := copied] && LastRecord(host.log) == old(LastRecord(host.log))
    ensures c.backupVerified ==> c.backupTaken && HasBackup(c, host.backups)
  {
    var taken, content := host.Backup(c.path);
    copied := content;
    Stepped(host.repair, host.initial, old(host.log), BackedUp(c.path, content));
    c.backupVerified := false;
    if taken {
      c.backupTaken := true;
      var reread := host.ReadBackup(c.path);
      if reread.Returned? { c.backupVerified := Some(Digest(reread.value)) == c.preHash; }
    }
  }

  method BackupLocations(host: Host, cs: seq<LocationChange>) returns (ok: bool)
    requires host.Valid() && Plans(host.repair, cs) && !Began(host.log) && !RollingBack(host.log)
    modifies host`backups, host`log, host`faults, cs`backupTaken, cs`backupVerified
    ensures host.faults >= old(host.faults) && (host.faults == old(host.faults) ==> ((forall c :: c in cs ==> HasBackup(c, host.files)) ==> ok))
    ensures host.Valid() && !Began(host.log) && !RollingBack(host.log)
    ensures LastRecord(host.log) == old(LastRecord(host.log))
    ensures ok <==> forall c :: c in cs ==> c.backupVerified
    ensures forall c :: c in cs && c.backupVerified ==> c.backupTaken && HasBackup(c, host.backups)
  {
    ok := true;
    var i := 0;
    while i < |cs|
      invariant 0 <= i <= |cs|
      invariant host.Valid() && !Began(host.log) && !RollingBack(host.log)
      invariant LastRecord(host.log) == old(LastRecord(host.log))
      invariant ok <==> forall j :: 0 <= j < i ==> cs[j].backupVerified
      invariant host.faults >= old(host.faults) && (host.faults == old(host.faults) ==> ((forall c :: c in cs ==> HasBackup(c, host.files)) ==> ok))
      invariant forall j :: 0 <= j < i && cs[j].backupVerified ==> cs[j].backupTaken && HasBackup(cs[j], host.backups)
    {
      ghost var _ := BackupLocation(host, cs[i]);
      ok := ok && cs[i].backupVerified;
      i := i + 1;
    }
  }

  lemma VerifiedBackupsAreComplete(r: Repair, log: seq<Event>, cs: seq<LocationChange>)
    requires Plans(r, cs)
    requires forall c :: c in cs ==> HasBackup(c, BackupsAfter(log))
    ensures BackedUpAll(r, log)
  {
    forall t | t in r.targets ensures t.path in BackupsAfter(log) && BackupsAfter(log)[t.path] == t.pre {
      var i :| 0 <= i < |r.targets| && r.targets[i] == t;
      assert cs[i] in cs && Planned(cs[i], t);
    }
  }

  // ---- Writing --------------------------------------------------------------

  /** What is known of a file once its write has been attempted: one whose write
      raised holds what that write left. */
  ghost predicate Attempted(c: LocationChange, t: Target, files: Files, log: seq<Event>)
    reads c
  {
    c.path in files
    && (c.writeVerified ==> c.written && files[c.path] == t.post)
    && (c.written ==> c.path !in Torn(log) && Touched(log, c.path))
    && (!c.written ==> files[c.path] == if c.path in Torn(log) then Torn(log)[c.path] else t.pre)
  }

  ghost predicate Unattempted(c: LocationChange, t: Target, files: Files, log: seq<Event>)
    reads c
  {
    !c.written && !c.writeVerified && c.path in files && files[c.path] == t.pre
    && !Touched(log, c.path) && c.path !in Torn(log)
  }

  /** Nothing about any other file has moved. */
  ghost predicate OnlyPath(p: string, files: Files, files': Files, log: seq<Event>, log': seq<Event>) {
    (forall q :: q != p ==> (q in files <==> q in files') && (q in files ==> files'[q] == files[q]))
    && (forall q :: q != p ==> Touched(log', q) == Touched(log, q))
    && (forall q :: q != p ==> (q in Torn(log) <==> q in Torn(log')) && (q in Torn(log) ==> Torn(log')[q] == Torn(log)[q]))
    && LastRecord(log') == LastRecord(log)
  }

  lemma WriteMoves(r: Repair, initial: Files, files: Files, log: seq<Event>, e: Event)
    requires e.Forward()
    ensures OnlyPath(e.path, files, files[e.path := e.landed], log, log + [e])
    ensures Touched(log + [e], e.path) && Began(log + [e]) == Began(log) && RollingBack(log + [e]) == RollingBack(log)
    ensures if e.WriteRaised? then e.path in Torn(log + [e]) && Torn(log + [e])[e.path] == e.landed
            else Torn(log + [e]) == Torn(log)
  {
    Stepped(r, initial, log, e);
  }

  method ApplyLocation(host: Host, c: LocationChange, ghost t: Target, stale: string, next: string)
    requires host.Valid() && Began(host.log) && !RollingBack(host.log)
    requires t in host.repair.targets && Planned(c, t) && c.preHash.Some?
    requires stale != [] && t.post == TokenReplacement.Replace(t.pre, stale, next)
    requires Unattempted(c, t, host.files, host.log)
    modifies host`files, host`log, host`faults, c`written, c`writeVerified
    ensures host.faults >= old(host.faults) && (host.faults == old(host.faults) ==> c.writeVerified)
    ensures host.Valid() && Began(host.log) && !RollingBack(host.log)
    ensures OnlyPath(c.path, old(host.files), host.files, old(host.log), host.log)
    ensures Attempted(c, t, host.files, host.log)
  {
    c.writeVerified := false;
    var before := host.Read(c.path);
    if before.Returned? {
      var after := TokenReplacement.Replace(before.value, stale, next);
      assert MayWrite(host.repair, host.log, c.path, after);
      var ok, landed := host.Write(c.path, after);
      WriteMoves(host.repair, host.initial, old(host.files), old(host.log),
                 if ok then Wrote(c.path, after, landed) else WriteRaised(c.path, after, landed));
      if ok {
        c.written := true;
        var reread := host.Read(c.path);
        if reread.Returned? { c.writeVerified := Some(Digest(reread.value)) == c.postHash; }
      }
    }
  }

  datatype Application = Refused | Applied | NotApplied

  /** `async_apply_locations`: authorizes once more, insists on a proven backup
      of every file, then attempts every one of them. */
  method ApplyLocations(host: Host, cs: seq<LocationChange>, stale: string, next: string,
                        registry: seq<Authorization.Dependency>, added: set<string>, intentSevers: bool, approvedBy: string)
    returns (r: Application)
    requires host.Valid() && Plans(host.repair, cs) && Began(host.log) && !RollingBack(host.log)
    requires EditsTargets(host.repair, stale, next)
    requires forall c :: c in cs && c.backupVerified ==> c.preHash.Some?
    requires NoneAttempted(host, cs, 0)
    modifies host`files, host`log, host`faults, cs`written, cs`writeVerified
    ensures host.faults >= old(host.faults) && (host.faults == old(host.faults) ==> r != NotApplied)
    ensures host.Valid() && Began(host.log) && !RollingBack(host.log)
    ensures LastRecord(host.log) == old(LastRecord(host.log))
    ensures r.Refused? <==>
      approvedBy == "" || added != {} || (exists c :: c in cs && !c.backupVerified)
      || exists d :: d in registry && d.critical && !(d.protects !! {stale, next})
    ensures r.Refused? ==> host.files == old(host.files) && host.log == old(host.log)
    ensures !r.Refused? ==> (r.Applied? <==> forall j :: 0 <= j < |cs| ==> cs[j].writeVerified) && AllAttempted(host, cs, 0, |cs|)
  {
    var auth := Authorization.Authorize(registry, Authorization.ReplaceReference, {stale, next}, added,
                                        intentSevers, false, approvedBy);
    Authorization.ReplacementRunsIff(registry, {stale, next}, added, intentSevers, false, approvedBy);
    if auth.decision != Authorization.Automatic { return Refused; }
    if exists c :: c in cs && !c.backupVerified { return Refused; }
    var applied := AttemptAll(host, cs, stale, next);
    r := if applied then Applied else NotApplied;
  }

  method AttemptAll(host: Host, cs: seq<LocationChange>, stale: string, next: string) returns (applied: bool)
    requires host.Valid() && Plans(host.repair, cs) && Began(host.log) && !RollingBack(host.log)
    requires EditsTargets(host.repair, stale, next) && forall c :: c in cs ==> c.preHash.Some?
    requires NoneAttempted(host, cs, 0)
    modifies host`files, host`log, host`faults, cs`written, cs`writeVerified
    ensures host.faults >= old(host.faults) && (host.faults == old(host.faults) ==> applied)
    ensures host.Valid() && Began(host.log) && !RollingBack(host.log)
    ensures LastRecord(host.log) == old(LastRecord(host.log))
    ensures applied <==> forall j :: 0 <= j < |cs| ==> cs[j].writeVerified
    ensures AllAttempted(host, cs, 0, |cs|)
  {
    applied := true;
    var i := 0;
    while i < |cs|
      invariant 0 <= i <= |cs|
      invariant host.Valid() && Began(host.log) && !RollingBack(host.log)
      invariant LastRecord(host.log) == old(LastRecord(host.log))
      invariant applied <==> forall j :: 0 <= j < i ==> cs[j].writeVerified
      invariant host.faults >= old(host.faults) && (host.faults == old(host.faults) ==> applied)
      invariant AllAttempted(host, cs, 0, i) && NoneAttempted(host, cs, i)
    {
      AttemptNext(host, cs, i, cs[i], stale, next);
      applied := applied && cs[i].writeVerified;
      i := i + 1;
    }
  }

  ghost predicate EditsTargets(r: Repair, stale: string, next: string) {
    stale != [] && forall t :: t in r.targets ==> t.post == TokenReplacement.Replace(t.pre, stale, next)
  }

  method AttemptNext(host: Host, cs: seq<LocationChange>, i: nat, c: LocationChange,
                     stale: string, next: string)
    requires i < |cs| && c == cs[i] && c.preHash.Some?
    requires host.Valid() && Plans(host.repair, cs) && Began(host.log) && !RollingBack(host.log)
    requires EditsTargets(host.repair, stale, next)
    requires AllAttempted(host, cs, 0, i) && NoneAttempted(host, cs, i)
    modifies host`files, host`log, host`faults, c`written, c`writeVerified
    ensures host.faults >= old(host.faults) && (host.faults == old(host.faults) ==> c.writeVerified)
    ensures host.Valid() && Began(host.log) && !RollingBack(host.log)
    ensures LastRecord(host.log) == old(LastRecord(host.log))
    ensures forall j :: 0 <= j < i ==> cs[j].writeVerified == old(cs[j].writeVerified)
    ensures AllAttempted(host, cs, 0, i + 1) && NoneAttempted(host, cs, i + 1)
  {
    ghost var t := host.repair.targets[i];
    assert Planned(c, t) && Unattempted(c, t, host.files, host.log);
    ApplyLocation(host, c, t, stale, next);
    assert AllAttempted(host, cs, 0, i + 1) by {
      forall j | 0 <= j < i ensures Attempted(cs[j], host.repair.targets[j], host.files, host.log) {
        assert old(Attempted(cs[j], host.repair.targets[j], host.files, host.log));
      }
    }
    assert NoneAttempted(host, cs, i + 1) by {
      forall j | i < j < |cs| ensures Unattempted(cs[j], host.repair.targets[j], host.files, host.log) {
        assert old(Unattempted(cs[j], host.repair.targets[j], host.files, host.log));
      }
    }
  }

  ghost predicate AllAttempted(host: Host, cs: seq<LocationChange>, m: nat, n: nat)
    requires m <= n <= |cs| == |host.repair.targets|
    reads host, cs
  {
    forall j {:trigger Attempted(cs[j], host.repair.targets[j], host.files, host.log)} ::
      m <= j < n ==> Attempted(cs[j], host.repair.targets[j], host.files, host.log)
  }

  ghost predicate NoneAttempted(host: Host, cs: seq<LocationChange>, n: nat)
    requires n <= |cs| == |host.repair.targets|
    reads host, cs
  {
    forall j {:trigger Unattempted(cs[j], host.repair.targets[j], host.files, host.log)} ::
      n <= j < |cs| ==> Unattempted(cs[j], host.repair.targets[j], host.files, host.log)
  }

  // ---- Restoring --------------------------------------------------------------

  ghost predicate Restorable(c: LocationChange, backups: Files)
    reads c
  {
    c.backupTaken && c.backupVerified && HasBackup(c, backups)
  }

  ghost predicate AllRestorable(cs: seq<LocationChange>, backups: Files)
    reads cs
  {
    forall j {:trigger Restorable(cs[j], backups)} :: 0 <= j < |cs| ==> Restorable(cs[j], backups)
  }

  method RestoreLocation(host: Host, c: LocationChange, ghost t: Target)
    requires host.Valid() && RollingBack(host.log)
    requires t in host.repair.targets && Planned(c, t) && (c.written ==> Touched(host.log, c.path))
    requires c.path in host.files
    modifies host`files, host`log, host`faults, c`restored
    ensures host.faults >= old(host.faults) && (host.faults == old(host.faults) ==> (Restorable(c, host.backups) && c.written ==> c.restored == Some(true)))
    ensures host.Valid() && RollingBack(host.log) && (old(Began(host.log)) ==> Began(host.log))
    ensures OnlyPath(c.path, old(host.files), host.files, old(host.log), host.log)
    ensures Torn(host.log) == old(Torn(host.log)) && Touched(host.log, c.path) == old(Touched(host.log, c.path))
    ensures c.restored == None <==> !c.written
    ensures !c.written ==> host.files == old(host.files)
    ensures c.restored == Some(true) ==> c.path in host.files && host.files[c.path] == t.pre
    ensures c.path in host.files
  {
    if !c.written {
      c.restored := None;
    } else if !c.backupTaken || !c.backupVerified {
      c.restored := Some(false);
    } else {
      assert MayRestore(host.repair, host.log, c.path);
      var ok, landed := host.Restore(c.path);
      Stepped(host.repair, host.initial, old(host.log),
              if ok then Restored(c.path, landed) else RestoreRaised(c.path, landed));
      c.restored := Some(false);
      if ok {
        var reread := host.Read(c.path);
        if reread.Returned? { c.restored := Some(Some(Digest(reread.value)) == c.preHash); }
      }
    }
  }

  /** `async_restore_locations`: every file that was written is put back and read
      back. A file whose write raised does not count as written and is skipped. */
  method RestoreLocations(host: Host, cs: seq<LocationChange>) returns (ok: bool)
    requires host.Valid() && Plans(host.repair, cs) && RollingBack(host.log)
    requires AllAttempted(host, cs, 0, |cs|)
    modifies host`files, host`log, host`faults, cs`restored
    ensures host.faults >= old(host.faults) && (host.faults == old(host.faults) && old(AllRestorable(cs, host.backups)) ==> ok)
    ensures host.Valid() && RollingBack(host.log) && (old(Began(host.log)) ==> Began(host.log))
    ensures LastRecord(host.log) == old(LastRecord(host.log)) && Torn(host.log) == old(Torn(host.log))
    ensures ok <==> forall j :: 0 <= j < |cs| && cs[j].written ==> cs[j].restored == Some(true)
    ensures ok ==> host.files == host.initial + Torn(host.log)
  {
    ok := true;
    var i := 0;
    while i < |cs|
      invariant 0 <= i <= |cs|
      invariant host.Valid() && RollingBack(host.log) && (old(Began(host.log)) ==> Began(host.log))
      invariant LastRecord(host.log) == old(LastRecord(host.log)) && Torn(host.log) == old(Torn(host.log))
      invariant ok <==> forall j :: 0 <= j < i && cs[j].written ==> cs[j].restored == Some(true)
      invariant ok ==> AllOriginal(host, i)
      invariant AllRestorable(cs, host.backups) == old(AllRestorable(cs, host.backups))
      invariant host.faults >= old(host.faults) && (host.faults == old(host.faults) && old(AllRestorable(cs, host.backups)) ==> ok)
      invariant AllAttempted(host, cs, i, |cs|)
    {
      var back := RestoreNext(host, cs, i, cs[i]);
      ok := ok && back;
      i := i + 1;
    }
    if ok { AllOriginalMeans(host); }
  }

  method RestoreNext(host: Host, cs: seq<LocationChange>, i: nat, c: LocationChange) returns (back: bool)
    requires i < |cs| && c == cs[i]
    requires host.Valid() && Plans(host.repair, cs) && RollingBack(host.log)
    requires AllAttempted(host, cs, i, |cs|)
    modifies host`files, host`log, host`faults, c`restored
    ensures host.faults >= old(host.faults) && (host.faults == old(host.faults) ==> (Restorable(c, host.backups) ==> back))
    ensures host.Valid() && RollingBack(host.log) && (old(Began(host.log)) ==> Began(host.log))
    ensures LastRecord(host.log) == old(LastRecord(host.log)) && Torn(host.log) == old(Torn(host.log))
    ensures forall j :: 0 <= j < i ==> cs[j].restored == old(cs[j].restored)
    ensures AllRestorable(cs, host.backups) == old(AllRestorable(cs, host.backups))
    ensures AllAttempted(host, cs, i + 1, |cs|)
    ensures back <==> !c.written || c.restored == Some(true)
    ensures old(AllOriginal(host, i)) && back ==> AllOriginal(host, i + 1)
  {
    ghost var t := host.repair.targets[i];
    assert Planned(c, t) && Attempted(c, t, host.files, host.log);
    RestoreLocation(host, c, t);
    assert AllRestorable(cs, host.backups) == old(AllRestorable(cs, host.backups)) by {
      forall j | 0 <= j < |cs| ensures Restorable(cs[j], host.backups) == old(Restorable(cs[j], host.backups)) {}
    }
    assert AllAttempted(host, cs, i + 1, |cs|) by {
      forall j | i < j < |cs| ensures Attempted(cs[j], host.repair.targets[j], host.files, host.log) {
        assert old(Attempted(cs[j], host.repair.targets[j], host.files, host.log));
      }
    }
    back := !c.written || c.restored == Some(true);
    if old(AllOriginal(host, i)) && back {
      assert Original(t, host.files, Torn(host.log));
      forall j | 0 <= j < i ensures Original(host.repair.targets[j], host.files, Torn(host.log)) {
        assert old(Original(host.repair.targets[j], host.files, Torn(host.log)));
        assert Planned(cs[j], host.repair.targets[j]);
      }
    }
  }

  lemma AllOriginalMeans(host: Host)
    requires host.Valid() && AllOriginal(host, |host.repair.targets|)
    ensures host.files == host.initial + Torn(host.log)
  {
    host.Explained();
    forall t | t in host.repair.targets ensures Original(t, host.files, Torn(host.log)) {
      var j :| 0 <= j < |host.repair.targets| && host.repair.targets[j] == t;
      assert Original(host.repair.targets[j], host.files, Torn(host.log));
    }
    OriginalEverywhere(host.repair, host.initial, host.log);
  }

  ghost predicate AllOriginal(host: Host, n: nat)
    requires n <= |host.repair.targets|
    reads host
  {
    forall j {:trigger Original(host.repair.targets[j], host.files, Torn(host.log))} ::
      0 <= j < n ==> Original(host.repair.targets[j], host.files, Torn(host.log))
  }

  ghost predicate Original(t: Target, files: Files, torn: Files) {
    t.path in files && files[t.path] == if t.path in torn then torn[t.path] else t.pre
  }

  lemma OriginalEverywhere(r: Repair, initial: Files, log: seq<Event>)
    requires Legal(r, log) && Starts(r, initial)
    requires forall t :: t in r.targets ==> Original(t, FilesAfter(initial, log), Torn(log))
    ensures FilesAfter(initial, log) == initial + Torn(log)
  {
    TornIsWhatRaisedLeft(r, log);
    FilesKeep(r, initial, log);
    forall p | p in initial ensures FilesAfter(initial, log)[p] == (initial + Torn(log))[p] {
      if IsTarget(r, p) {
        var t :| t in r.targets && t.path == p;
        assert Original(t, FilesAfter(initial, log), Torn(log));
      } else {
        OnlyTargetsChange(r, initial, log, p);
      }
    }
  }

  // ---- The files a repair is about -------------------------------------------

  function TargetsOf(files: Files, paths: seq<string>, stale: string, next: string): seq<Target>
    requires stale != [] && forall p :: p in paths ==> p in files
  {
    seq(|paths|, i requires 0 <= i < |paths| =>
      Target(paths[i], files[paths[i]], TokenReplacement.Replace(files[paths[i]], stale, next)))
  }

  /** The house after a repair that worked. */
  function Edited(files: Files, paths: seq<string>, stale: string, next: string): Files
    requires stale != []
  {
    map p | p in files :: if p in paths then TokenReplacement.Replace(files[p], stale, next) else files[p]
  }

  lemma TargetsStart(r: Repair, files: Files, paths: seq<string>, stale: string, next: string)
    requires stale != [] && (forall p :: p in paths ==> p in files)
    requires r.targets == TargetsOf(files, paths, stale, next)
    ensures Starts(r, files) && EditsTargets(r, stale, next)
    ensures forall p :: IsTarget(r, p) <==> p in paths
  {
    forall p | p in paths ensures IsTarget(r, p) {
      var i :| 0 <= i < |paths| && paths[i] == p;
      assert r.targets[i] in r.targets;
    }
    assert forall t :: t in r.targets ==> t.path in paths && t.pre == files[t.path];
  }

  lemma EditedEverywhere(r: Repair, initial: Files, log: seq<Event>, paths: seq<string>, stale: string, next: string)
    requires stale != [] && (forall p :: p in paths ==> p in initial)
    requires r.targets == TargetsOf(initial, paths, stale, next) && Legal(r, log)
    requires forall t :: t in r.targets ==> t.path in FilesAfter(initial, log) && FilesAfter(initial, log)[t.path] == t.post
    ensures FilesAfter(initial, log) == Edited(initial, paths, stale, next)
  {
    TargetsStart(r, initial, paths, stale, next);
    FilesKeep(r, initial, log);
    var edited := Edited(initial, paths, stale, next);
    forall p | p in initial ensures FilesAfter(initial, log)[p] == edited[p] {
      if p in paths {
        var i :| 0 <= i < |paths| && paths[i] == p;
        assert r.targets[i] in r.targets;
      } else {
        assert !IsTarget(r, p);
        OnlyTargetsChange(r, initial, log, p);
      }
    }
  }

  lemma MeasuredArePlanned(r: Repair, files: Files, paths: seq<string>, stale: string, next: string, cs: seq<LocationChange>)
    requires stale != [] && (forall p :: p in paths ==> p in files) && DistinctBy(paths, Itself)
    requires r.targets == TargetsOf(files, paths, stale, next)
    requires |cs| == |paths| && (forall i :: 0 <= i < |cs| ==> cs[i].path == paths[i])
    requires forall c :: c in cs ==> Measured(c, files, stale, next)
    requires forall i, j :: 0 <= i < j < |cs| ==> cs[i] != cs[j]
    ensures Plans(r, cs)
  {
    assert forall i :: 0 <= i < |cs| ==> cs[i] in cs;
    forall i, j | 0 <= i < j < |cs| ensures cs[i].path != cs[j].path {
      assert Itself(paths[i]) != Itself(paths[j]);
    }
  }
}
