/** What whole runs of commands leave behind: for each finding, when it was seen and
    how its review came to be what it is; for everything else, the last word on it. */
module CommandHistory {
  import opened Ordering
  import opened Reconciliation
  import opened Repository
  import DurableBaseline
  import OptimisticStore

  // ---- One scan, finding by finding ----------------------------------------------

  lemma OwnResult(rs: seq<Supervision>, owner: string -> string, r: Supervision)
    requires OwnResults(rs, owner) && r in rs
    ensures ResultOf(rs, r.analyzer) == Some(r)
  {
    ResultOfIs(rs, r.analyzer);
    var i :| 0 <= i < |rs| && rs[i] == r;
    var j :| 0 <= j < |rs| && rs[j] == ResultOf(rs, r.analyzer).value;
    assert i == j;
  }

  /** A finding a scan reports is on record afterwards, open and as reported; if it was
      known it keeps its first sighting, counts one more, and is a new revision exactly
      when its digest moved. Its review stands unless it came back, changed, or had
      been snoozed until now. */
  lemma ScanReports(s: State, rs: seq<Supervision>, at: int, scan: string, owner: string -> string, r: Supervision, c: Candidate)
    requires Owned(s.findings, owner) && OwnResults(rs, owner) && r in rs && c in r.candidates
    ensures c.id in Apply(s, Scan(rs, at, scan)).value.findings
    ensures var f := Apply(s, Scan(rs, at, scan)).value.findings[c.id];
      f.lifecycle == Open && f.analyzer == c.analyzer && f.subject == c.subject && f.payload == c.payload && f.digest == c.digest
      && f.lastSeen == at && f.latestScan == scan && f.coverage == r.coverage
      && if c.id !in s.findings then
           f.firstSeen == at && f.occurrences == 1 && f.revision == 1 && f.review == New && f.snoozeUntil == None
         else
           var e := s.findings[c.id];
           f.firstSeen == e.firstSeen && f.occurrences == e.occurrences + 1
           && f.revision == e.revision + (if e.digest != c.digest then 1 else 0)
           && if e.lifecycle == Resolved || e.digest != c.digest
                 || (e.review == Snoozed && e.snoozeUntil.Some? && e.snoozeUntil.value <= at)
              then f.review == New && f.snoozeUntil == None
              else f.review == e.review && f.snoozeUntil == e.snoozeUntil
  {
    assert c.analyzer == r.analyzer == owner(c.id);
    FoldPointwise(s.findings, rs, at, scan, owner, c.id);
    OwnResult(rs, owner, r);
    OwnCandidate(r, c);
    assert c.id in AllIds(rs);
    ScanFindings(s, rs, at, scan);
  }

  ghost predicate Unreported(rs: seq<Supervision>, id: string) {
    forall r, c :: r in rs && c in r.candidates ==> c.id != id
  }

  /** The analyzer the finding belongs to looked at its subject. */
  ghost predicate Vouches(r: Supervision, f: Finding) {
    r.analyzer == f.analyzer && f.lifecycle == Open && (f.subject in r.covered || f.subject in r.excluded)
  }

  /** A finding no analyzer reports is left alone, or resolved by its own analyzer,
      and none appears. */
  lemma ScanPassesOver(s: State, rs: seq<Supervision>, at: int, scan: string, owner: string -> string, id: string)
    requires Owned(s.findings, owner) && OwnResults(rs, owner) && Unreported(rs, id)
    ensures var fs := Apply(s, Scan(rs, at, scan)).value.findings;
      (id in fs <==> id in s.findings)
      && (id in fs ==>
            var f := s.findings[id];
            ((forall r :: r in rs ==> !Vouches(r, f)) ==> fs[id] == f)
            && forall r :: r in rs && Vouches(r, f) ==> fs[id] == f.(latestScan := scan, lifecycle := Resolved, coverage := r.coverage))
  {
    FoldPointwise(s.findings, rs, at, scan, owner, id);
    ResultOfIs(rs, owner(id));
    var r := ResultOf(rs, owner(id));
    if r.Some? { CandidateForIs(r.value.candidates, id); }
    assert id !in AllIds(rs);
    if id in s.findings {
      forall r | r in rs && Vouches(r, s.findings[id]) ensures ResultOf(rs, owner(id)) == Some(r) { OwnResult(rs, owner, r); }
    }
  }

  // ---- Every sighting counts ---------------------------------------------------------

  datatype Sighting = Sighting(at: int, digest: string)

  /** What the analyzers of one scan report about one finding. */
  function ReportOf(rs: seq<Supervision>, id: string): Option<Candidate> {
    if rs == [] then None
    else
      var c := CandidateFor(rs[|rs| - 1].candidates, id);
      if c.Some? then c else ReportOf(rs[..|rs| - 1], id)
  }

  lemma {:induction false} ReportOfIs(rs: seq<Supervision>, id: string)
    ensures ReportOf(rs, id).None? ==> Unreported(rs, id)
    ensures ReportOf(rs, id).Some? ==>
      ReportOf(rs, id).value.id == id && exists r :: r in rs && ReportOf(rs, id).value in r.candidates
  {
    if rs != [] {
      var before, last := rs[..|rs| - 1], rs[|rs| - 1];
      assert rs == before + [last];
      ReportOfIs(before, id);
      CandidateForIs(last.candidates, id);
    }
  }

  /** When a run of commands saw the finding, and with which content. */
  function Sightings(ms: seq<Mutation>, id: string): seq<Sighting> {
    if ms == [] then []
    else
      var m := ms[|ms| - 1];
      Sightings(ms[..|ms| - 1], id)
      + if m.Scan? && ReportOf(m.results, id).Some? then [Sighting(m.at, ReportOf(m.results, id).value.digest)] else []
  }

  function Changes(h: seq<Sighting>): nat {
    if |h| < 2 then 0
    else Changes(h[..|h| - 1]) + if h[|h| - 1].digest != h[|h| - 2].digest then 1 else 0
  }

  ghost predicate OwnScans(ms: seq<Mutation>, owner: string -> string) {
    forall m :: m in ms && m.Scan? ==> OwnResults(m.results, owner)
  }

  /** The record of a finding tells its sightings. */
  ghost predicate Tells(fs: Findings, id: string, h: seq<Sighting>) {
    (id in fs <==> h != [])
    && (id in fs ==>
          fs[id].firstSeen == h[0].at && fs[id].lastSeen == h[|h| - 1].at && fs[id].occurrences == |h|
          && fs[id].digest == h[|h| - 1].digest && fs[id].revision == 1 + Changes(h))
  }

  lemma SightingTells(s: State, rs: seq<Supervision>, at: int, scan: string, owner: string -> string, id: string, h: seq<Sighting>)
    requires Owned(s.findings, owner) && OwnResults(rs, owner) && Tells(s.findings, id, h) && ReportOf(rs, id).Some?
    ensures Tells(Apply(s, Scan(rs, at, scan)).value.findings, id, h + [Sighting(at, ReportOf(rs, id).value.digest)])
  {
    ReportOfIs(rs, id);
    var c := ReportOf(rs, id).value;
    var r :| r in rs && c in r.candidates;
    ScanReports(s, rs, at, scan, owner, r, c);
    OneSightingMore(s.findings, Apply(s, Scan(rs, at, scan)).value.findings, id, h, Sighting(at, c.digest));
  }

  lemma OneSightingMore(fs: Findings, gs: Findings, id: string, h: seq<Sighting>, x: Sighting)
    requires Tells(fs, id, h) && id in gs && gs[id].lastSeen == x.at && gs[id].digest == x.digest
    requires if id in fs
             then gs[id].firstSeen == fs[id].firstSeen && gs[id].occurrences == fs[id].occurrences + 1
                  && gs[id].revision == fs[id].revision + (if fs[id].digest != x.digest then 1 else 0)
             else gs[id].firstSeen == x.at && gs[id].occurrences == 1 && gs[id].revision == 1
    ensures Tells(gs, id, h + [x])
  {
    assert (h + [x])[..|h|] == h;
  }

  lemma SilenceTells(s: State, rs: seq<Supervision>, at: int, scan: string, owner: string -> string, id: string, h: seq<Sighting>)
    requires Owned(s.findings, owner) && OwnResults(rs, owner) && Tells(s.findings, id, h) && ReportOf(rs, id).None?
    ensures Tells(Apply(s, Scan(rs, at, scan)).value.findings, id, h)
  {
    ReportOfIs(rs, id);
    ScanPassesOver(s, rs, at, scan, owner, id);
    if id in s.findings {
      if r :| r in rs && Vouches(r, s.findings[id]) {
        assert Apply(s, Scan(rs, at, scan)).value.findings[id].digest == s.findings[id].digest;
      }
    }
  }

  lemma ScanKeepsOwners(s: State, rs: seq<Supervision>, at: int, scan: string, owner: string -> string)
    requires Owned(s.findings, owner) && OwnResults(rs, owner)
    ensures Owned(Apply(s, Scan(rs, at, scan)).value.findings, owner)
  {
    var n := Apply(s, Scan(rs, at, scan)).value.findings;
    forall id | id in n ensures n[id].analyzer == owner(id) { FoldPointwise(s.findings, rs, at, scan, owner, id); }
  }

  lemma OthersTell(s: State, m: Mutation, owner: string -> string, id: string, h: seq<Sighting>)
    requires Owned(s.findings, owner) && Tells(s.findings, id, h) && !m.Scan? && Apply(s, m).Some?
    ensures Tells(Apply(s, m).value.findings, id, h) && Owned(Apply(s, m).value.findings, owner)
  {}

  /** Over any run of commands that starts without a finding: it is on record exactly
      if a scan reported it, was first and last seen when it first and last was, has
      been counted once per report, and has one revision for every change between
      one report and the next. Reviews, closings and everything else leave that be. */
  lemma {:induction false} RecordTellsSightings(s: State, ms: seq<Mutation>, owner: string -> string, id: string)
    requires Owned(s.findings, owner) && OwnScans(ms, owner) && id !in s.findings
    ensures Owned(Replay(s, ms).findings, owner)
    ensures Tells(Replay(s, ms).findings, id, Sightings(ms, id))
  {
    if ms != [] {
      var before, m := ms[..|ms| - 1], ms[|ms| - 1];
      assert m in ms;
      RecordTellsSightings(s, before, owner, id);
      var t := Replay(s, before);
      assert Sightings(before, id) + [] == Sightings(before, id);
      if m.Scan? {
        if ReportOf(m.results, id).Some? {
          SightingTells(t, m.results, m.at, m.scan, owner, id, Sightings(before, id));
        } else {
          SilenceTells(t, m.results, m.at, m.scan, owner, id, Sightings(before, id));
        }
        ScanKeepsOwners(t, m.results, m.at, m.scan, owner);
      } else if Apply(t, m).Some? {
        OthersTell(t, m, owner, id, Sightings(before, id));
      }
    }
  }

  // ---- Every change of a review is on record ----------------------------------------------

  /** A finding not on record counts as new. */
  function ReviewOf(fs: Findings, id: string): ReviewState {
    if id in fs then fs[id].review else New
  }

  /** Followed through these records the review of a finding goes from one state to
      the other, each record starting where the one before it ended. */
  predicate Leads(trail: seq<ReviewRecord>, id: string, from: ReviewState, to: ReviewState) {
    if trail == [] then from == to
    else
      var r := trail[|trail| - 1];
      if r.id == id then r.resulting == to && r.prior != to && Leads(trail[..|trail| - 1], id, from, r.prior)
      else Leads(trail[..|trail| - 1], id, from, to)
  }

  ghost predicate Accounts(trail: seq<ReviewRecord>, fs: Findings, gs: Findings) {
    forall id :: Leads(trail, id, ReviewOf(fs, id), ReviewOf(gs, id))
  }

  lemma {:induction false} LeadsOn(trail: seq<ReviewRecord>, more: seq<ReviewRecord>, id: string,
                                   from: ReviewState, mid: ReviewState, to: ReviewState)
    requires Leads(trail, id, from, mid) && Leads(more, id, mid, to)
    ensures Leads(trail + more, id, from, to)
  {
    if more == [] {
      assert trail + more == trail;
    } else {
      var n := |more| - 1;
      assert (trail + more)[..|trail| + n] == trail + more[..n];
      LeadsOn(trail, more[..n], id, from, mid, if more[n].id == id then more[n].prior else to);
    }
  }

  lemma {:induction false} NoneLeads(trail: seq<ReviewRecord>, id: string, state: ReviewState)
    requires forall r :: r in trail ==> r.id != id
    ensures Leads(trail, id, state, state)
  {
    if trail != [] { NoneLeads(trail[..|trail| - 1], id, state); }
  }

  lemma {:induction false} OneLeads(trail: seq<ReviewRecord>, r: ReviewRecord)
    requires OneRecordEach(trail) && r in trail && r.prior != r.resulting
    ensures Leads(trail, r.id, r.prior, r.resulting)
  {
    var n := |trail| - 1;
    if trail[n] == r {
      forall q | q in trail[..n] ensures q.id != r.id { var i :| 0 <= i < n && trail[i] == q; }
      NoneLeads(trail[..n], r.id, r.prior);
    } else {
      OneLeads(trail[..n], r);
      var i :| 0 <= i <= n && trail[i] == r;
    }
  }

  /** The records are those of a change and those of a snooze that ran out. */
  function Resets(fs: Findings, rs: seq<Supervision>, at: int, scan: string): seq<ReviewRecord> {
    var reconciled := Fold(fs, rs, at, scan);
    PolicyReopens(fs, reconciled, Listed(reconciled.Keys), at)
    + SnoozeReopens(reconciled, AllIds(rs), Listed(reconciled.Keys), at)
  }

  lemma ScanKeepsLast(s: State, rs: seq<Supervision>, at: int, scan: string)
    ensures Apply(s, Scan(rs, at, scan)).value.reviews == Latest(s.reviews + Resets(s.findings, rs, at, scan), MaxReviews)
  {
    var reconciled := Fold(s.findings, rs, at, scan);
    var policy := PolicyReopens(s.findings, reconciled, Listed(reconciled.Keys), at);
    var snoozes := SnoozeReopens(reconciled, AllIds(rs), Listed(reconciled.Keys), at);
    LatestAgain(s.reviews + policy, snoozes, MaxReviews);
    assert s.reviews + policy + snoozes == s.reviews + (policy + snoozes);
  }

  ghost predicate RecordsEachReset(added: seq<ReviewRecord>, fs: Findings, gs: Findings, at: int) {
    OneRecordEach(added)
    && (forall r :: r in added ==>
          r.id in fs && r.id in gs && fs[r.id].review != New
          && r == ReviewRecord(r.id, "hamie", at, gs[r.id].revision, fs[r.id].review, New))
    && forall id ::
         (exists r :: r in added && r.id == id) <==> (id in fs && id in gs && fs[id].review != New && gs[id].review == New)
  }

  /** A scan changes findings and their reviews alone, and commits one record for each
      finding whose review it took back, and for no other, on top of the last kept. */
  lemma ScanRecordsResets(s: State, rs: seq<Supervision>, at: int, scan: string, owner: string -> string)
    returns (added: seq<ReviewRecord>)
    requires Owned(s.findings, owner) && OwnResults(rs, owner)
    ensures var n := Apply(s, Scan(rs, at, scan)).value;
      n == s.(generation := s.generation + 1, projection := s.projection + 1, findings := n.findings, reviews := n.reviews)
    ensures KeepsLast(Apply(s, Scan(rs, at, scan)).value.reviews, s.reviews + added, 500)
    ensures RecordsEachReset(added, s.findings, Apply(s, Scan(rs, at, scan)).value.findings, at)
  {
    added := Resets(s.findings, rs, at, scan);
    ScanFindings(s, rs, at, scan);
    EachIsRecorded(s.findings, rs, at, scan, owner);
    ScanKeepsLast(s, rs, at, scan);
    LatestKeepsLast(s.reviews + added, MaxReviews);
  }

  lemma ScanFindings(s: State, rs: seq<Supervision>, at: int, scan: string)
    ensures var n := Apply(s, Scan(rs, at, scan)).value;
      n == s.(generation := s.generation + 1, projection := s.projection + 1, findings := n.findings, reviews := n.reviews)
      && n.findings == Reopened(Fold(s.findings, rs, at, scan), AllIds(rs), at)
  {}

  lemma EachIsRecorded(fs: Findings, rs: seq<Supervision>, at: int, scan: string, owner: string -> string)
    requires Owned(fs, owner) && OwnResults(rs, owner)
    ensures RecordsEachReset(Resets(fs, rs, at, scan), fs, Reopened(Fold(fs, rs, at, scan), AllIds(rs), at), at)
  {
    EachResetRecordedOnce(fs, rs, at, scan, owner);
  }

  /** A review that was not taken back is what it was. */
  lemma ScanReviewStands(s: State, rs: seq<Supervision>, at: int, scan: string, owner: string -> string, id: string)
    requires Owned(s.findings, owner) && OwnResults(rs, owner)
    ensures var n := Apply(s, Scan(rs, at, scan)).value.findings; ReviewOf(n, id) in {New, ReviewOf(s.findings, id)}
    ensures id in s.findings ==> id in Apply(s, Scan(rs, at, scan)).value.findings
  {
    FoldPointwise(s.findings, rs, at, scan, owner, id);
  }

  lemma ScanAccounts(s: State, rs: seq<Supervision>, at: int, scan: string, owner: string -> string) returns (added: seq<ReviewRecord>)
    requires Owned(s.findings, owner) && OwnResults(rs, owner)
    ensures var n := Apply(s, Scan(rs, at, scan)).value;
      n.reviews == Latest(s.reviews + added, MaxReviews) && Accounts(added, s.findings, n.findings)
  {
    added := ScanRecordsResets(s, rs, at, scan, owner);
    var n := Apply(s, Scan(rs, at, scan)).value;
    KeptIsLatest(n.reviews, s.reviews + added, MaxReviews);
    forall id ensures ReviewOf(n.findings, id) in {New, ReviewOf(s.findings, id)} && (id in s.findings ==> id in n.findings) {
      ScanReviewStands(s, rs, at, scan, owner, id);
    }
    ResetsAccount(added, s.findings, n.findings, at);
  }

  lemma ResetsAccount(added: seq<ReviewRecord>, fs: Findings, gs: Findings, at: int)
    requires RecordsEachReset(added, fs, gs, at)
    requires forall id :: ReviewOf(gs, id) in {New, ReviewOf(fs, id)} && (id in fs ==> id in gs)
    ensures Accounts(added, fs, gs)
  {
    forall id ensures Leads(added, id, ReviewOf(fs, id), ReviewOf(gs, id)) {
      if r :| r in added && r.id == id {
        OneLeads(added, r);
      } else {
        NoneLeads(added, id, ReviewOf(fs, id));
      }
    }
  }

  lemma KeptIsLatest<T>(kept: seq<T>, all: seq<T>, n: nat)
    requires KeepsLast(kept, all, n)
    ensures kept == Latest(all, n)
  {}

  lemma CommandAccounts(s: State, m: Mutation) returns (added: seq<ReviewRecord>)
    requires !m.Scan? && Apply(s, m).Some? && |s.reviews| <= MaxReviews
    ensures var n := Apply(s, m).value;
      n.reviews == Latest(s.reviews + added, MaxReviews) && Accounts(added, s.findings, n.findings)
  {
    added := [];
    assert s.reviews + [] == s.reviews;
    if m.ReviewBy? {
      AppliedChanges(s, m.command, m.at);
      var n := Apply(s, m).value;
      var f := s.findings[m.command.finding];
      added := [ReviewRecord(m.command.finding, m.command.actor, m.at, f.revision, f.review, n.findings[m.command.finding].review)];
      KeptIsLatest(n.reviews, s.reviews + added, 500);
      assert added[..0] == [];
    }
  }

  lemma CommandKeepsOwners(s: State, m: Mutation, owner: string -> string)
    requires Owned(s.findings, owner) && !m.Scan? && Apply(s, m).Some?
    ensures Owned(Apply(s, m).value.findings, owner)
  {}

  lemma StepAccounts(s: State, m: Mutation, owner: string -> string) returns (added: seq<ReviewRecord>)
    requires Owned(s.findings, owner) && (m.Scan? ==> OwnResults(m.results, owner)) && |s.reviews| <= MaxReviews
    ensures var n := if Apply(s, m).Some? then Apply(s, m).value else s;
      n.reviews == Latest(s.reviews + added, MaxReviews) && Accounts(added, s.findings, n.findings) && Owned(n.findings, owner)
  {
    if m.Scan? {
      added := ScanAccounts(s, m.results, m.at, m.scan, owner);
      ScanKeepsOwners(s, m.results, m.at, m.scan, owner);
    } else if Apply(s, m).Some? {
      added := CommandAccounts(s, m);
      CommandKeepsOwners(s, m, owner);
    } else {
      added := [];
      assert s.reviews + [] == s.reviews;
    }
  }

  /** Over any run of commands no review changes without a record: the records kept
      are the last 500 of a trail that leads every finding from the review it had to
      the one it has, without a gap. */
  lemma {:induction false} EveryReviewIsAccountedFor(s: State, ms: seq<Mutation>, owner: string -> string)
    returns (trail: seq<ReviewRecord>)
    requires Owned(s.findings, owner) && OwnScans(ms, owner) && |s.reviews| <= 500
    ensures Owned(Replay(s, ms).findings, owner)
    ensures KeepsLast(Replay(s, ms).reviews, s.reviews + trail, 500)
    ensures Accounts(trail, s.findings, Replay(s, ms).findings)
  {
    if ms == [] {
      trail := [];
      assert s.reviews + trail == s.reviews;
    } else {
      var before, m := ms[..|ms| - 1], ms[|ms| - 1];
      assert m in ms;
      var earlier := EveryReviewIsAccountedFor(s, before, owner);
      var added := StepAccounts(Replay(s, before), m, owner);
      trail := earlier + added;
      RecordsGoOn(s.reviews, earlier, Replay(s, before).reviews, added);
      TrailGoesOn(earlier, added, s.findings, Replay(s, before).findings, Replay(s, ms).findings);
    }
  }

  lemma RecordsGoOn(first: seq<ReviewRecord>, earlier: seq<ReviewRecord>, kept: seq<ReviewRecord>, added: seq<ReviewRecord>)
    requires KeepsLast(kept, first + earlier, 500)
    ensures KeepsLast(Latest(kept + added, MaxReviews), first + (earlier + added), 500)
  {
    KeptIsLatest(kept, first + earlier, 500);
    LatestAgain(first + earlier, added, MaxReviews);
    assert first + earlier + added == first + (earlier + added);
    LatestKeepsLast(first + (earlier + added), MaxReviews);
  }

  lemma TrailGoesOn(earlier: seq<ReviewRecord>, added: seq<ReviewRecord>, fs: Findings, gs: Findings, hs: Findings)
    requires Accounts(earlier, fs, gs) && Accounts(added, gs, hs)
    ensures Accounts(earlier + added, fs, hs)
  {
    forall id ensures Leads(earlier + added, id, ReviewOf(fs, id), ReviewOf(hs, id)) {
      LeadsOn(earlier, added, id, ReviewOf(fs, id), ReviewOf(gs, id), ReviewOf(hs, id));
    }
  }

  /** The same of a document that clients race for. */
  lemma RacingReviewsAreAccountedFor(s: State, empty: State, cs: seq<OptimisticStore.Call>, owner: string -> string)
    returns (trail: seq<ReviewRecord>)
    requires (forall c :: c in cs ==> !c.Reset?) && Owned(s.findings, owner) && |s.reviews| <= 500
    requires OwnScans(OptimisticStore.Run(s, empty, cs).committed, owner)
    ensures KeepsLast(OptimisticStore.Run(s, empty, cs).store.reviews, s.reviews + trail, 500)
    ensures Accounts(trail, s.findings, OptimisticStore.Run(s, empty, cs).store.findings)
  {
    var w := OptimisticStore.Run(s, empty, cs);
    OptimisticStore.NoLostUpdate(s, empty, cs);
    OptimisticStore.SerialIsReplay(w, |w.committed|);
    WholeSequence(w.committed);
    trail := EveryReviewIsAccountedFor(s, w.committed, owner);
  }

  // ---- The last word --------------------------------------------------------------------

  /** What each command leaves alone. */
  lemma CommandsKeepApart(s: State, m: Mutation)
    requires Apply(s, m).Some?
    ensures var n := Apply(s, m).value;
      (m.Scan? || m.ReviewBy? || (n.findings == s.findings && n.reviews == s.reviews))
      && (m.ReviewBy? || m.SetIncident? || n.idempotency == s.idempotency)
      && (m.AcknowledgeAi? || m.RevokeAi? || n.acknowledgement == s.acknowledgement)
      && (m.MergeWork? || n.lastCleanupScan == s.lastCleanupScan)
      && (m.MergeWork? || m.DecideWork? || n.workItems == s.workItems)
      && (m.SetIncident? || m.RecordDeliveries? || n.audits == s.audits)
      && (m.SaveBaseline? || n.baselines == s.baselines)
      && n.projection == s.projection
                         + (if m.AcknowledgeAi? || m.RevokeAi? || m.MergeWork? || m.DecideWork? then 0 else 1)
      && n.generation == s.generation + (if m.RevokeAi? && s.acknowledgement.None? then 0 else 1)
  {}

  /** Which commands raise, and when. */
  lemma RaisesIff(s: State, m: Mutation)
    ensures Apply(s, m).None? <==>
      match m
      case ReviewBy(c, at) => !Review(s, c, at).Accepted?
      case SetIncident(token, _) => !InOrder(token) || exists r :: r in s.idempotency && r.token == token
      case DecideWork(item, _) => item !in s.workItems
      case _ => false
  {
    if m.SetIncident? { RecordOfIs(s.idempotency, m.token); }
  }

  /** What the lists gain of which only the last entries are kept. */
  lemma IncidentRecorded(s: State, token: string, incident: string)
    requires Apply(s, SetIncident(token, incident)).Some?
    ensures var n := Apply(s, SetIncident(token, incident)).value;
      KeepsLast(n.audits, s.audits + [incident], 500)
      && KeepsLast(n.idempotency, s.idempotency + [IdempotencyRecord(token, "incident_lifecycle", incident, s.projection + 1)], 128)
  {
    LatestKeepsLast(s.idempotency + [IdempotencyRecord(token, "incident_lifecycle", incident, s.projection + 1)], 128);
    LatestKeepsLast(s.audits + [incident], 500);
  }

  lemma DeliveriesRecorded(s: State, lines: seq<string>)
    ensures Apply(s, RecordDeliveries(lines)).Some?
    ensures KeepsLast(Apply(s, RecordDeliveries(lines)).value.audits, s.audits + lines, 500)
  {
    LatestKeepsLast(s.audits + lines, 500);
  }

  /** The record of a repair that is saved is there afterwards unless it is over, and
      no other repair in flight loses its own. */
  lemma BaselineSaved(s: State, b: DurableBaseline.Baseline)
    ensures Apply(s, SaveBaseline(b)).Some?
    ensures var n := Apply(s, SaveBaseline(b)).value.baselines;
      (!b.complete ==> b in n)
      && (forall x :: x in n ==> x == b || (x in s.baselines && !x.For(b.identity, b.incidentId)))
      && forall x :: x in s.baselines && !x.complete && !x.For(b.identity, b.incidentId) ==> x in n
  {
    DurableBaseline.SaveKeepsInFlight(s.baselines, b);
  }

  predicate OnAi(m: Mutation) {
    m.AcknowledgeAi? || m.RevokeAi?
  }

  lemma AcknowledgementNext(s: State, m: Mutation)
    ensures OnAi(m) ==> Apply(s, m).Some? && Apply(s, m).value.acknowledgement == if m.AcknowledgeAi? then Some(m.who) else None
    ensures !OnAi(m) && Apply(s, m).Some? ==> Apply(s, m).value.acknowledgement == s.acknowledgement
  {}

  /** After any run the acknowledgement is what the last command about it said. */
  lemma {:induction false} AcknowledgementIsLastWord(s: State, ms: seq<Mutation>)
    ensures (forall m :: m in ms ==> !OnAi(m)) ==> Replay(s, ms).acknowledgement == s.acknowledgement
    ensures forall i :: 0 <= i < |ms| && OnAi(ms[i]) && (forall j :: i < j < |ms| ==> !OnAi(ms[j])) ==>
      Replay(s, ms).acknowledgement == if ms[i].AcknowledgeAi? then Some(ms[i].who) else None
  {
    if ms != [] {
      var n := |ms| - 1;
      var before := ms[..n];
      assert ms == before + [ms[n]];
      AcknowledgementIsLastWord(s, before);
      assert ms[n] in ms && forall m :: m in before ==> m in ms;
      AcknowledgementNext(Replay(s, before), ms[n]);
      forall i | 0 <= i < n && OnAi(ms[i]) && (forall j :: i < j < |ms| ==> !OnAi(ms[j]))
        ensures Replay(s, ms).acknowledgement == if ms[i].AcknowledgeAi? then Some(ms[i].who) else None
      {
        assert before[i] == ms[i] && forall j :: i < j < n ==> before[j] == ms[j];
      }
    }
  }

  predicate OnWork(m: Mutation, item: string) {
    m.MergeWork? || (m.DecideWork? && m.item == item)
  }

  lemma WorkLeft(s: State, m: Mutation, item: string)
    requires !OnWork(m, item)
    ensures var n := if Apply(s, m).Some? then Apply(s, m).value else s;
      n.lastCleanupScan == s.lastCleanupScan && (item in n.workItems <==> item in s.workItems)
      && (item in s.workItems ==> n.workItems[item] == s.workItems[item])
  {}

  lemma WorkDone(s: State, m: Mutation, item: string)
    requires OnWork(m, item)
    ensures var n := if Apply(s, m).Some? then Apply(s, m).value else s;
      if m.MergeWork? then n.workItems == (m.merge)(s.workItems) && n.lastCleanupScan == Some(m.scan)
      else (item in n.workItems <==> item in s.workItems) && (item in s.workItems ==> n.workItems[item] == m.lifecycle)
  {}

  /** A decision about a known piece of work stands until the next decision about it
      or the next clean-up pass, and the latest pass is the one on record. */
  lemma {:induction false} DecisionStands(s: State, ms: seq<Mutation>, i: nat, item: string)
    requires i < |ms| && OnWork(ms[i], item) && forall j :: i < j < |ms| ==> !OnWork(ms[j], item)
    ensures ms[i].DecideWork? && item in Replay(s, ms[..i]).workItems ==>
      item in Replay(s, ms).workItems && Replay(s, ms).workItems[item] == ms[i].lifecycle
    ensures ms[i].DecideWork? && item !in Replay(s, ms[..i]).workItems ==> item !in Replay(s, ms).workItems
    ensures ms[i].MergeWork? ==>
      var merged := (ms[i].merge)(Replay(s, ms[..i]).workItems);
      Replay(s, ms).lastCleanupScan == Some(ms[i].scan)
      && (item in Replay(s, ms).workItems <==> item in merged)
      && (item in merged ==> Replay(s, ms).workItems[item] == merged[item])
  {
    var n := |ms| - 1;
    if i < n {
      var before := ms[..n];
      assert before[..i] == ms[..i] && before[i] == ms[i] && forall j :: i < j < n ==> before[j] == ms[j];
      DecisionStands(s, before, i, item);
      WorkLeft(Replay(s, before), ms[n], item);
    } else {
      WorkDone(Replay(s, ms[..n]), ms[n], item);
    }
  }
}
