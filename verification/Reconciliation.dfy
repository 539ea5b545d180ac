/** How the findings on record move from one scan to the next: what a scan may
    add, confirm or close, and which reviews it takes back. */
module Reconciliation {
  import opened Ordering

  datatype Lifecycle = Open | Resolved

  datatype ReviewState = New | Acknowledged | Snoozed | Retained | Dismissed

  /** `payload` stands for the fields a scan simply overwrites. */
  datatype Finding = Finding(
    analyzer: string, subject: string, payload: string, digest: string,
    firstSeen: int, lastSeen: int, occurrences: nat, latestScan: string, revision: nat,
    lifecycle: Lifecycle, review: ReviewState, snoozeUntil: Option<int>, coverage: string)

  /** Finding id to finding; the stored tuple is its values in id order. */
  type Findings = map<string, Finding>

  datatype Candidate = Candidate(id: string, analyzer: string, subject: string, payload: string, digest: string)

  datatype Supervision = Supervision(
    analyzer: string, candidates: seq<Candidate>, covered: set<string>, excluded: set<string>, coverage: string)

  datatype Counts = Counts(created: nat, retained: nat, resolved: nat, same: nat)
  {
    function Plus(o: Counts): Counts {
      Counts(created + o.created, retained + o.retained, resolved + o.resolved, same + o.same)
    }
  }

  const Zero := Counts(0, 0, 0, 0)

  // ---- One analyzer's pass ------------------------------------------------------

  predicate Changed(f: Finding, c: Candidate) {
    f.digest != c.digest || f.lifecycle == Resolved
  }

  /** What a candidate makes of the finding it matches, if it matches one. */
  function Seen(f: Option<Finding>, c: Candidate, at: int, scan: string, coverage: string): Finding {
    match f
    case None =>
      Finding(c.analyzer, c.subject, c.payload, c.digest, at, at, 1, scan, 1, Open, New, None, coverage)
    case Some(e) =>
      e.(subject := c.subject, payload := c.payload, digest := c.digest, lastSeen := at,
         occurrences := e.occurrences + 1, latestScan := scan,
         revision := if e.digest != c.digest then e.revision + 1 else e.revision, lifecycle := Open,
         review := if Changed(e, c) then New else e.review,
         snoozeUntil := if Changed(e, c) then None else e.snoozeUntil, coverage := coverage)
  }

  function Get(fs: Findings, id: string): Option<Finding> {
    if id in fs then Some(fs[id]) else None
  }

  function Tally(f: Option<Finding>, c: Candidate): Counts {
    if f.None? then Counts(1, 0, 0, 0)
    else if Changed(f.value, c) then Counts(0, 1, 0, 0)
    else Counts(0, 0, 0, 1)
  }

  function Admit(fs: Findings, cs: seq<Candidate>, at: int, scan: string, coverage: string): Findings {
    if cs == [] then fs
    else
      var c := cs[|cs| - 1];
      var before := Admit(fs, cs[..|cs| - 1], at, scan, coverage);
      before[c.id := Seen(Get(before, c.id), c, at, scan, coverage)]
  }

  function Tallies(fs: Findings, cs: seq<Candidate>, at: int, scan: string, coverage: string): Counts {
    if cs == [] then Zero
    else
      var c := cs[|cs| - 1];
      var before := Admit(fs, cs[..|cs| - 1], at, scan, coverage);
      Tallies(fs, cs[..|cs| - 1], at, scan, coverage).Plus(Tally(Get(before, c.id), c))
  }

  predicate Reported(r: Supervision, id: string) {
    exists c :: c in r.candidates && c.id == id
  }

  /** Absent for a reason the scan can vouch for. */
  predicate Closes(r: Supervision, id: string, f: Finding) {
    f.analyzer == r.analyzer && !Reported(r, id) && f.lifecycle == Open && f.subject in r.covered + r.excluded
  }

  function Close(f: Finding, r: Supervision, scan: string): Finding {
    f.(latestScan := scan, lifecycle := Resolved, coverage := r.coverage)
  }

  function Pass(fs: Findings, r: Supervision, at: int, scan: string): Findings {
    var admitted := Admit(fs, r.candidates, at, scan, r.coverage);
    map id | id in admitted :: if Closes(r, id, admitted[id]) then Close(admitted[id], r, scan) else admitted[id]
  }

  function Closed(fs: Findings, r: Supervision, at: int, scan: string): set<string> {
    var admitted := Admit(fs, r.candidates, at, scan, r.coverage);
    set id | id in admitted && Closes(r, id, admitted[id])
  }

  function PassCounts(fs: Findings, r: Supervision, at: int, scan: string): Counts {
    Tallies(fs, r.candidates, at, scan, r.coverage).Plus(Counts(0, 0, |Closed(fs, r, at, scan)|, 0))
  }

  method ReconcileFindings(current: Findings, r: Supervision, at: int, scan: string)
    returns (next: Findings, counts: Counts)
    ensures next == Pass(current, r, at, scan) && counts == PassCounts(current, r, at, scan)
  {
    var byId, reported, admitted := AdmitCandidates(current, r, at, scan);
    var closed;
    next, closed := CloseAbsent(byId, r, reported, scan);
    counts := admitted.(resolved := closed);
    assert ClosedIds(byId, r, {}) == Closed(current, r, at, scan);
    assert ClosedBut(byId, r, scan, {}) == Pass(current, r, at, scan);
  }

  method AdmitCandidates(current: Findings, r: Supervision, at: int, scan: string)
    returns (byId: Findings, reported: set<string>, counts: Counts)
    ensures byId == Admit(current, r.candidates, at, scan, r.coverage)
    ensures counts == Tallies(current, r.candidates, at, scan, r.coverage) && counts.resolved == 0
    ensures forall id :: id in reported <==> Reported(r, id)
  {
    byId, reported, counts := current, {}, Zero;
    var cs := r.candidates;
    for i := 0 to |cs|
      invariant byId == Admit(current, cs[..i], at, scan, r.coverage)
      invariant counts == Tallies(current, cs[..i], at, scan, r.coverage) && counts.resolved == 0
      invariant forall j :: 0 <= j < i ==> cs[j].id in reported
      invariant forall id :: id in reported ==> Reported(r, id)
    {
      var c := cs[i];
      AdmitNext(current, cs, i, at, scan, r.coverage);
      reported := reported + {c.id};
      byId, counts := AdmitOne(byId, counts, c, at, scan, r.coverage);
    }
    WholeSequence(cs);
  }

  method AdmitOne(byId: Findings, counts: Counts, c: Candidate, at: int, scan: string, coverage: string)
    returns (next: Findings, total: Counts)
    ensures next == byId[c.id := Seen(Get(byId, c.id), c, at, scan, coverage)]
    ensures total == counts.Plus(Tally(Get(byId, c.id), c))
  {
    if c.id !in byId {
      return byId[c.id := Seen(None, c, at, scan, coverage)], counts.(created := counts.created + 1);
    }
    var existing := byId[c.id];
    next := byId[c.id := Seen(Some(existing), c, at, scan, coverage)];
    if Changed(existing, c) {
      total := counts.(retained := counts.retained + 1);
    } else {
      total := counts.(same := counts.same + 1);
    }
  }

  lemma AdmitNext(fs: Findings, cs: seq<Candidate>, i: nat, at: int, scan: string, coverage: string)
    requires i < |cs|
    ensures var before := Admit(fs, cs[..i], at, scan, coverage);
      Admit(fs, cs[..i + 1], at, scan, coverage) == before[cs[i].id := Seen(Get(before, cs[i].id), cs[i], at, scan, coverage)]
      && Tallies(fs, cs[..i + 1], at, scan, coverage)
         == Tallies(fs, cs[..i], at, scan, coverage).Plus(Tally(Get(before, cs[i].id), cs[i]))
  {
    assert cs[..i + 1][..i] == cs[..i];
  }

  /** The findings and the ids closed once all but `left` have been looked at. */
  function ClosedBut(admitted: Findings, r: Supervision, scan: string, left: set<string>): Findings {
    map id | id in admitted :: if id !in left && Closes(r, id, admitted[id]) then Close(admitted[id], r, scan) else admitted[id]
  }

  function ClosedIds(admitted: Findings, r: Supervision, left: set<string>): set<string> {
    set id | id in admitted && id !in left && Closes(r, id, admitted[id])
  }

  lemma CloseOneMore(admitted: Findings, r: Supervision, scan: string, left: set<string>, id: string)
    requires id in left && id in admitted
    ensures ClosedBut(admitted, r, scan, left - {id})
         == if Closes(r, id, admitted[id]) then ClosedBut(admitted, r, scan, left)[id := Close(admitted[id], r, scan)]
            else ClosedBut(admitted, r, scan, left)
    ensures |ClosedIds(admitted, r, left - {id})| == |ClosedIds(admitted, r, left)| + if Closes(r, id, admitted[id]) then 1 else 0
  {
    assert ClosedIds(admitted, r, left - {id})
        == ClosedIds(admitted, r, left) + (if Closes(r, id, admitted[id]) then {id} else {});
  }

  method CloseAbsent(admitted: Findings, r: Supervision, reported: set<string>, scan: string)
    returns (byId: Findings, resolved: nat)
    requires forall id :: id in reported <==> Reported(r, id)
    ensures byId == ClosedBut(admitted, r, scan, {}) && resolved == |ClosedIds(admitted, r, {})|
  {
    byId, resolved := admitted, 0;
    var left := admitted.Keys;
    assert ClosedBut(admitted, r, scan, left) == admitted && ClosedIds(admitted, r, left) == {};
    while left != {}
      invariant left <= admitted.Keys
      invariant byId == ClosedBut(admitted, r, scan, left) && resolved == |ClosedIds(admitted, r, left)|
      decreases |left|
    {
      var id :| id in left;
      CloseOneMore(admitted, r, scan, left, id);
      left := left - {id};
      var f := byId[id];
      if f.analyzer == r.analyzer && id !in reported && f.lifecycle == Open && f.subject in r.covered + r.excluded {
        byId := byId[id := Close(f, r, scan)];
        resolved := resolved + 1;
      }
    }
  }

  // ---- What a pass does -----------------------------------------------------------

  predicate OneEach(r: Supervision) {
    forall i, j :: 0 <= i < j < |r.candidates| ==> r.candidates[i].id != r.candidates[j].id
  }

  function CandidateFor(cs: seq<Candidate>, id: string): Option<Candidate> {
    if cs == [] then None
    else if cs[|cs| - 1].id == id then Some(cs[|cs| - 1])
    else CandidateFor(cs[..|cs| - 1], id)
  }

  lemma {:induction false} CandidateForIs(cs: seq<Candidate>, id: string)
    ensures CandidateFor(cs, id).None? <==> !exists c :: c in cs && c.id == id
    ensures CandidateFor(cs, id).Some? ==> CandidateFor(cs, id).value in cs && CandidateFor(cs, id).value.id == id
  {
    if cs != [] {
      assert cs == cs[..|cs| - 1] + [cs[|cs| - 1]];
      CandidateForIs(cs[..|cs| - 1], id);
    }
  }

  lemma LastIsOnly(cs: seq<Candidate>)
    requires cs != [] && forall i, j :: 0 <= i < j < |cs| ==> cs[i].id != cs[j].id
    ensures forall c :: c in cs[..|cs| - 1] ==> c.id != cs[|cs| - 1].id
  {}

  /** With one candidate per id, admission looks at each finding by itself. */
  lemma {:induction false} AdmitPointwise(fs: Findings, cs: seq<Candidate>, at: int, scan: string, coverage: string, id: string)
    requires forall i, j :: 0 <= i < j < |cs| ==> cs[i].id != cs[j].id
    ensures Get(Admit(fs, cs, at, scan, coverage), id) ==
      if CandidateFor(cs, id).None? then Get(fs, id)
      else Some(Seen(Get(fs, id), CandidateFor(cs, id).value, at, scan, coverage))
  {
    if cs != [] {
      var n := |cs| - 1;
      AdmitPointwise(fs, cs[..n], at, scan, coverage, id);
      if cs[n].id == id {
        CandidateForIs(cs[..n], id);
        LastIsOnly(cs);
      }
    }
  }

  /** One finding after one pass. */
  function PassOne(f: Option<Finding>, r: Supervision, id: string, at: int, scan: string): Option<Finding> {
    var c := CandidateFor(r.candidates, id);
    if c.Some? then Some(Seen(f, c.value, at, scan, r.coverage))
    else if f.Some? && f.value.analyzer == r.analyzer && f.value.lifecycle == Open && f.value.subject in r.covered + r.excluded
    then Some(Close(f.value, r, scan))
    else f
  }

  lemma PassPointwise(fs: Findings, r: Supervision, at: int, scan: string, id: string)
    requires OneEach(r)
    ensures Get(Pass(fs, r, at, scan), id) == PassOne(Get(fs, id), r, id, at, scan)
  {
    AdmitPointwise(fs, r.candidates, at, scan, r.coverage, id);
    CandidateForIs(r.candidates, id);
  }

  /** A scan closes exactly its own analyzer's open findings that it did not report
      and whose subject it looked at; it deletes none. */
  lemma ClosedIff(fs: Findings, r: Supervision, at: int, scan: string, id: string)
    requires OneEach(r) && id in fs && fs[id].lifecycle == Open
    ensures id in Pass(fs, r, at, scan)
    ensures Pass(fs, r, at, scan)[id].lifecycle == Resolved <==>
      fs[id].analyzer == r.analyzer && !Reported(r, id) && (fs[id].subject in r.covered || fs[id].subject in r.excluded)
  {
    PassPointwise(fs, r, at, scan, id);
    CandidateForIs(r.candidates, id);
  }

  /** Conservation: every candidate is counted once, every new finding is one that
      was created, and nothing disappears. No assumption on the candidates. */
  lemma CountsAreConserved(fs: Findings, r: Supervision, at: int, scan: string)
    ensures var n := PassCounts(fs, r, at, scan);
      n.created + n.retained + n.same == |r.candidates|
      && |Pass(fs, r, at, scan)| == |fs| + n.created
      && fs.Keys <= Pass(fs, r, at, scan).Keys
  {
    AdmitCounts(fs, r.candidates, at, scan, r.coverage);
    var admitted := Admit(fs, r.candidates, at, scan, r.coverage);
    assert Pass(fs, r, at, scan).Keys == admitted.Keys;
    assert |Pass(fs, r, at, scan)| == |Pass(fs, r, at, scan).Keys| == |admitted.Keys| == |admitted|;
  }

  lemma PutSize(fs: Findings, id: string, f: Finding)
    ensures |fs[id := f]| == |fs| + (if id in fs then 0 else 1) && fs[id := f].Keys == fs.Keys + {id}
  {
    assert |fs[id := f]| == |fs[id := f].Keys| && |fs| == |fs.Keys|;
    assert fs[id := f].Keys == fs.Keys + {id};
  }

  lemma {:induction false} AdmitCounts(fs: Findings, cs: seq<Candidate>, at: int, scan: string, coverage: string)
    ensures var n := Tallies(fs, cs, at, scan, coverage);
      n.created + n.retained + n.same == |cs| && n.resolved == 0
      && |Admit(fs, cs, at, scan, coverage)| == |fs| + n.created
      && fs.Keys <= Admit(fs, cs, at, scan, coverage).Keys
  {
    if cs != [] {
      var n := |cs| - 1;
      AdmitCounts(fs, cs[..n], at, scan, coverage);
      var before := Admit(fs, cs[..n], at, scan, coverage);
      PutSize(before, cs[n].id, Seen(Get(before, cs[n].id), cs[n], at, scan, coverage));
    }
  }

  function NewIds(fs: Findings, cs: seq<Candidate>): set<string> {
    set c | c in cs && c.id !in fs :: c.id
  }

  function ChangedIds(fs: Findings, cs: seq<Candidate>): set<string> {
    set c | c in cs && c.id in fs && Changed(fs[c.id], c) :: c.id
  }

  function SettledIds(fs: Findings, cs: seq<Candidate>): set<string> {
    set c | c in cs && c.id in fs && !Changed(fs[c.id], c) :: c.id
  }

  lemma {:induction false} TalliesMean(fs: Findings, cs: seq<Candidate>, at: int, scan: string, coverage: string)
    requires forall i, j :: 0 <= i < j < |cs| ==> cs[i].id != cs[j].id
    ensures Tallies(fs, cs, at, scan, coverage)
         == Counts(|NewIds(fs, cs)|, |ChangedIds(fs, cs)|, 0, |SettledIds(fs, cs)|)
  {
    if cs != [] {
      var n := |cs| - 1;
      var before, c := cs[..n], cs[n];
      assert cs == before + [c];
      TalliesMean(fs, before, at, scan, coverage);
      AdmitPointwise(fs, before, at, scan, coverage, c.id);
      CandidateForIs(before, c.id);
      LastIsOnly(cs);
      OneCandidateMore(fs, before, c);
    }
  }

  lemma OneCandidateMore(fs: Findings, cs: seq<Candidate>, c: Candidate)
    requires forall d :: d in cs ==> d.id != c.id
    ensures var t := Tally(Get(fs, c.id), c);
      |NewIds(fs, cs + [c])| == |NewIds(fs, cs)| + t.created
      && |ChangedIds(fs, cs + [c])| == |ChangedIds(fs, cs)| + t.retained
      && |SettledIds(fs, cs + [c])| == |SettledIds(fs, cs)| + t.same
  {
    OneNewMore(fs, cs, c);
    OneChangedMore(fs, cs, c);
    OneSettledMore(fs, cs, c);
  }

  lemma OneNewMore(fs: Findings, cs: seq<Candidate>, c: Candidate)
    requires forall d :: d in cs ==> d.id != c.id
    ensures |NewIds(fs, cs + [c])| == |NewIds(fs, cs)| + if c.id !in fs then 1 else 0
  {
    assert NewIds(fs, cs + [c]) == NewIds(fs, cs) + (if c.id !in fs then {c.id} else {});
  }

  lemma OneChangedMore(fs: Findings, cs: seq<Candidate>, c: Candidate)
    requires forall d :: d in cs ==> d.id != c.id
    ensures |ChangedIds(fs, cs + [c])| == |ChangedIds(fs, cs)| + if c.id in fs && Changed(fs[c.id], c) then 1 else 0
  {
    assert ChangedIds(fs, cs + [c]) == ChangedIds(fs, cs) + (if c.id in fs && Changed(fs[c.id], c) then {c.id} else {});
  }

  lemma OneSettledMore(fs: Findings, cs: seq<Candidate>, c: Candidate)
    requires forall d :: d in cs ==> d.id != c.id
    ensures |SettledIds(fs, cs + [c])| == |SettledIds(fs, cs)| + if c.id in fs && !Changed(fs[c.id], c) then 1 else 0
  {
    assert SettledIds(fs, cs + [c]) == SettledIds(fs, cs) + (if c.id in fs && !Changed(fs[c.id], c) then {c.id} else {});
  }

  /** What the four numbers count, in terms of the findings before and after. */
  lemma CountsMean(fs: Findings, r: Supervision, at: int, scan: string)
    requires OneEach(r)
    ensures var n := PassCounts(fs, r, at, scan);
      n.created == |NewIds(fs, r.candidates)| && n.retained == |ChangedIds(fs, r.candidates)|
      && n.same == |SettledIds(fs, r.candidates)|
      && n.resolved == |set id | id in fs && fs[id].lifecycle == Open && id in Pass(fs, r, at, scan)
                              && Pass(fs, r, at, scan)[id].lifecycle == Resolved|
  {
    TalliesMean(fs, r.candidates, at, scan, r.coverage);
    var after := Pass(fs, r, at, scan);
    var closed := set id | id in fs && fs[id].lifecycle == Open && id in after && after[id].lifecycle == Resolved;
    forall id ensures id in Closed(fs, r, at, scan) <==> id in closed {
      AdmitPointwise(fs, r.candidates, at, scan, r.coverage, id);
      PassPointwise(fs, r, at, scan, id);
      CandidateForIs(r.candidates, id);
    }
    assert Closed(fs, r, at, scan) == closed;
  }

  /** Seeing the same thing again creates, retains and resolves nothing. */
  lemma SecondPassIsQuiet(fs: Findings, r: Supervision, at: int, scan: string, later: int, again: string)
    requires OneEach(r)
    ensures PassCounts(Pass(fs, r, at, scan), r, later, again) == Counts(0, 0, 0, |r.candidates|)
  {
    var once := Pass(fs, r, at, scan);
    forall c | c in r.candidates ensures c.id in once && !Changed(once[c.id], c) {
      CandidateSettles(fs, r, at, scan, c);
    }
    SettledTallies(once, r.candidates, later, again, r.coverage);
    forall id ensures id !in Closed(once, r, later, again) {
      NothingLeftToClose(fs, r, at, scan, later, again, id);
    }
    assert Closed(once, r, later, again) == {};
  }

  lemma CandidateSettles(fs: Findings, r: Supervision, at: int, scan: string, c: Candidate)
    requires OneEach(r) && c in r.candidates
    ensures c.id in Pass(fs, r, at, scan) && !Changed(Pass(fs, r, at, scan)[c.id], c)
  {
    PassPointwise(fs, r, at, scan, c.id);
    OwnCandidate(r, c);
  }

  lemma NothingLeftToClose(fs: Findings, r: Supervision, at: int, scan: string, later: int, again: string, id: string)
    requires OneEach(r)
    ensures id !in Closed(Pass(fs, r, at, scan), r, later, again)
  {
    PassPointwise(fs, r, at, scan, id);
    AdmitPointwise(Pass(fs, r, at, scan), r.candidates, later, again, r.coverage, id);
    CandidateForIs(r.candidates, id);
  }

  lemma OwnCandidate(r: Supervision, c: Candidate)
    requires OneEach(r) && c in r.candidates
    ensures CandidateFor(r.candidates, c.id) == Some(c)
  {
    CandidateForIs(r.candidates, c.id);
    var d := CandidateFor(r.candidates, c.id).value;
    var i :| 0 <= i < |r.candidates| && r.candidates[i] == c;
    var j :| 0 <= j < |r.candidates| && r.candidates[j] == d;
    assert i == j;
  }

  lemma {:induction false} SettledTallies(fs: Findings, cs: seq<Candidate>, at: int, scan: string, coverage: string)
    requires forall i, j :: 0 <= i < j < |cs| ==> cs[i].id != cs[j].id
    requires forall c :: c in cs ==> c.id in fs && !Changed(fs[c.id], c)
    ensures Tallies(fs, cs, at, scan, coverage) == Counts(0, 0, 0, |cs|)
  {
    if cs != [] {
      var n := |cs| - 1;
      assert cs == cs[..n] + [cs[n]];
      SettledTallies(fs, cs[..n], at, scan, coverage);
      AdmitPointwise(fs, cs[..n], at, scan, coverage, cs[n].id);
      CandidateForIs(cs[..n], cs[n].id);
      LastIsOnly(cs);
    }
  }

  // ---- All analyzers of one scan ---------------------------------------------------

  function Fold(fs: Findings, rs: seq<Supervision>, at: int, scan: string): Findings {
    if rs == [] then fs else Pass(Fold(fs, rs[..|rs| - 1], at, scan), rs[|rs| - 1], at, scan)
  }

  function FoldCounts(fs: Findings, rs: seq<Supervision>, at: int, scan: string): Counts {
    if rs == [] then Zero
    else FoldCounts(fs, rs[..|rs| - 1], at, scan).Plus(PassCounts(Fold(fs, rs[..|rs| - 1], at, scan), rs[|rs| - 1], at, scan))
  }

  method ReconcileAll(current: Findings, rs: seq<Supervision>, at: int, scan: string)
    returns (findings: Findings, totals: Counts)
    ensures findings == Fold(current, rs, at, scan) && totals == FoldCounts(current, rs, at, scan)
  {
    findings, totals := current, Zero;
    for i := 0 to |rs|
      invariant findings == Fold(current, rs[..i], at, scan) && totals == FoldCounts(current, rs[..i], at, scan)
    {
      FoldNext(current, rs, i, at, scan);
      var counts;
      findings, counts := ReconcileFindings(findings, rs[i], at, scan);
      totals := totals.Plus(counts);
    }
    WholeSequence(rs);
  }

  lemma FoldNext(fs: Findings, rs: seq<Supervision>, i: nat, at: int, scan: string)
    requires i < |rs|
    ensures Fold(fs, rs[..i + 1], at, scan) == Pass(Fold(fs, rs[..i], at, scan), rs[i], at, scan)
    ensures FoldCounts(fs, rs[..i + 1], at, scan)
         == FoldCounts(fs, rs[..i], at, scan).Plus(PassCounts(Fold(fs, rs[..i], at, scan), rs[i], at, scan))
  {
    assert rs[..i + 1][..i] == rs[..i];
  }

  /** Finding ids are digests over the analyzer among other things: an id belongs to
      one analyzer. */
  ghost predicate Owned(fs: Findings, owner: string -> string) {
    forall id :: id in fs ==> fs[id].analyzer == owner(id)
  }

  ghost predicate OwnResults(rs: seq<Supervision>, owner: string -> string) {
    (forall r :: r in rs ==> OneEach(r) && forall c :: c in r.candidates ==> c.analyzer == r.analyzer == owner(c.id))
    && forall i, j :: 0 <= i < j < |rs| ==> rs[i].analyzer != rs[j].analyzer
  }

  function ResultOf(rs: seq<Supervision>, analyzer: string): Option<Supervision> {
    if rs == [] then None
    else if rs[|rs| - 1].analyzer == analyzer then Some(rs[|rs| - 1])
    else ResultOf(rs[..|rs| - 1], analyzer)
  }

  lemma {:induction false} ResultOfIs(rs: seq<Supervision>, analyzer: string)
    ensures ResultOf(rs, analyzer).None? ==> forall r :: r in rs ==> r.analyzer != analyzer
    ensures ResultOf(rs, analyzer).Some? ==> ResultOf(rs, analyzer).value in rs && ResultOf(rs, analyzer).value.analyzer == analyzer
  {
    if rs != [] {
      assert rs == rs[..|rs| - 1] + [rs[|rs| - 1]];
      ResultOfIs(rs[..|rs| - 1], analyzer);
    }
  }

  lemma PrefixOwn(rs: seq<Supervision>, owner: string -> string)
    requires OwnResults(rs, owner) && rs != []
    ensures OwnResults(rs[..|rs| - 1], owner) && OwnResults([rs[|rs| - 1]], owner)
    ensures ResultOf(rs[..|rs| - 1], rs[|rs| - 1].analyzer).None?
  {
    var n := |rs| - 1;
    assert forall r :: r in rs[..n] ==> r in rs;
    ResultOfIs(rs[..n], rs[n].analyzer);
    forall r | r in rs[..n] ensures r.analyzer != rs[n].analyzer {
      var i :| 0 <= i < n && rs[i] == r;
    }
  }

  lemma ForeignUntouched(f: Option<Finding>, r: Supervision, id: string, at: int, scan: string, owner: string -> string)
    requires OwnResults([r], owner) && owner(id) != r.analyzer && (f.Some? ==> f.value.analyzer == owner(id))
    ensures PassOne(f, r, id, at, scan) == f
  {
    CandidateForIs(r.candidates, id);
    assert r in [r];
  }

  /** After a whole scan each finding is what its own analyzer's result makes of it. */
  lemma {:induction false} FoldPointwise(fs: Findings, rs: seq<Supervision>, at: int, scan: string, owner: string -> string, id: string)
    requires Owned(fs, owner) && OwnResults(rs, owner)
    ensures Get(Fold(fs, rs, at, scan), id) ==
      (var r := ResultOf(rs, owner(id)); if r.None? then Get(fs, id) else PassOne(Get(fs, id), r.value, id, at, scan))
    ensures id in Fold(fs, rs, at, scan) ==> Fold(fs, rs, at, scan)[id].analyzer == owner(id)
  {
    if rs != [] {
      var n := |rs| - 1;
      PrefixOwn(rs, owner);
      FoldPointwise(fs, rs[..n], at, scan, owner, id);
      assert rs[n] in [rs[n]];
      PassPointwise(Fold(fs, rs[..n], at, scan), rs[n], at, scan, id);
      CandidateForIs(rs[n].candidates, id);
      if owner(id) != rs[n].analyzer {
        ForeignUntouched(Get(Fold(fs, rs[..n], at, scan), id), rs[n], id, at, scan, owner);
      }
    }
  }

  lemma SameFindings(fs: Findings, gs: Findings)
    requires forall id :: Get(fs, id) == Get(gs, id)
    ensures fs == gs
  {
    forall id ensures id in fs <==> id in gs { assert Get(fs, id) == Get(gs, id); }
    forall id | id in fs ensures fs[id] == gs[id] { assert Get(fs, id) == Get(gs, id); }
  }

  /** The counts of a pass depend on its own analyzer's findings alone. */
  lemma CountsLookAtOwn(fs: Findings, gs: Findings, r: Supervision, at: int, scan: string, owner: string -> string)
    requires Owned(fs, owner) && Owned(gs, owner) && OwnResults([r], owner)
    requires forall id :: owner(id) == r.analyzer ==> Get(fs, id) == Get(gs, id)
    ensures PassCounts(fs, r, at, scan) == PassCounts(gs, r, at, scan)
  {
    assert r in [r];
    TalliesLookAtOwn(fs, gs, r.candidates, at, scan, r.coverage);
    forall id ensures id in Closed(fs, r, at, scan) <==> id in Closed(gs, r, at, scan) {
      AdmitPointwise(fs, r.candidates, at, scan, r.coverage, id);
      AdmitPointwise(gs, r.candidates, at, scan, r.coverage, id);
      CandidateForIs(r.candidates, id);
    }
    assert Closed(fs, r, at, scan) == Closed(gs, r, at, scan);
  }

  lemma {:induction false} TalliesLookAtOwn(fs: Findings, gs: Findings, cs: seq<Candidate>, at: int, scan: string, coverage: string)
    requires forall c :: c in cs ==> Get(fs, c.id) == Get(gs, c.id)
    requires forall i, j :: 0 <= i < j < |cs| ==> cs[i].id != cs[j].id
    ensures Tallies(fs, cs, at, scan, coverage) == Tallies(gs, cs, at, scan, coverage)
  {
    if cs != [] {
      var n := |cs| - 1;
      assert cs == cs[..n] + [cs[n]];
      TalliesLookAtOwn(fs, gs, cs[..n], at, scan, coverage);
      AdmitPointwise(fs, cs[..n], at, scan, coverage, cs[n].id);
      AdmitPointwise(gs, cs[..n], at, scan, coverage, cs[n].id);
    }
  }

  function Sum<T>(xs: seq<T>, f: T -> Counts): Counts {
    if xs == [] then Zero else Sum(xs[..|xs| - 1], f).Plus(f(xs[|xs| - 1]))
  }

  lemma {:induction false} SumRemoves<T>(xs: seq<T>, f: T -> Counts, i: nat)
    requires i < |xs|
    ensures Sum(xs, f) == Sum(xs[..i] + xs[i + 1..], f).Plus(f(xs[i]))
  {
    var n := |xs| - 1;
    var less := xs[..i] + xs[i + 1..];
    if i == n {
      assert less == xs[..n];
    } else {
      SumRemoves(xs[..n], f, i);
      RemovedBeforeLast(xs, i);
    }
  }

  lemma {:induction false} SumsPermute<T>(xs: seq<T>, ys: seq<T>, f: T -> Counts)
    requires multiset(xs) == multiset(ys)
    ensures Sum(xs, f) == Sum(ys, f)
  {
    if xs == [] {
      SameBagSameSize(xs, ys);
    } else {
      var i := LastElsewhere(xs, ys);
      SumRemoves(ys, f, i);
      SumsPermute(xs[..|xs| - 1], ys[..i] + ys[i + 1..], f);
    }
  }

  function Alone(fs: Findings, at: int, scan: string): Supervision -> Counts {
    r => PassCounts(fs, r, at, scan)
  }

  /** No analyzer's counts are affected by those that went before it. */
  lemma {:induction false} TotalsAreSums(fs: Findings, rs: seq<Supervision>, at: int, scan: string, owner: string -> string)
    requires Owned(fs, owner) && OwnResults(rs, owner)
    ensures FoldCounts(fs, rs, at, scan) == Sum(rs, Alone(fs, at, scan))
  {
    if rs != [] {
      var n := |rs| - 1;
      PrefixOwn(rs, owner);
      TotalsAreSums(fs, rs[..n], at, scan, owner);
      forall id ensures Get(Fold(fs, rs[..n], at, scan), id) ==
        (var r := ResultOf(rs[..n], owner(id)); if r.None? then Get(fs, id) else PassOne(Get(fs, id), r.value, id, at, scan))
      {
        FoldPointwise(fs, rs[..n], at, scan, owner, id);
      }
      forall id | id in Fold(fs, rs[..n], at, scan)
        ensures Fold(fs, rs[..n], at, scan)[id].analyzer == owner(id)
      {
        FoldPointwise(fs, rs[..n], at, scan, owner, id);
      }
      CountsLookAtOwn(fs, Fold(fs, rs[..n], at, scan), rs[n], at, scan, owner);
    }
  }

  lemma SameResult(rs: seq<Supervision>, qs: seq<Supervision>, owner: string -> string, analyzer: string)
    requires OwnResults(rs, owner) && multiset(rs) == multiset(qs)
    ensures ResultOf(rs, analyzer) == ResultOf(qs, analyzer)
  {
    ResultOfIs(rs, analyzer);
    ResultOfIs(qs, analyzer);
    assert forall r :: r in rs <==> r in multiset(rs);
    assert forall r :: r in qs <==> r in multiset(qs);
    if ResultOf(rs, analyzer).Some? && ResultOf(qs, analyzer).Some? {
      var i :| 0 <= i < |rs| && rs[i] == ResultOf(rs, analyzer).value;
      var j :| 0 <= j < |rs| && rs[j] == ResultOf(qs, analyzer).value;
      assert i == j;
    }
  }

  /** The order in which the analyzers of a scan are reconciled changes neither the
      findings nor the totals. */
  lemma ScanOrderIsFree(fs: Findings, rs: seq<Supervision>, qs: seq<Supervision>, at: int, scan: string, owner: string -> string)
    requires Owned(fs, owner) && OwnResults(rs, owner) && OwnResults(qs, owner) && multiset(rs) == multiset(qs)
    ensures Fold(fs, rs, at, scan) == Fold(fs, qs, at, scan)
    ensures FoldCounts(fs, rs, at, scan) == FoldCounts(fs, qs, at, scan)
  {
    forall id ensures Get(Fold(fs, rs, at, scan), id) == Get(Fold(fs, qs, at, scan), id) {
      FoldPointwise(fs, rs, at, scan, owner, id);
      FoldPointwise(fs, qs, at, scan, owner, id);
      SameResult(rs, qs, owner, owner(id));
    }
    SameFindings(Fold(fs, rs, at, scan), Fold(fs, qs, at, scan));
    TotalsAreSums(fs, rs, at, scan, owner);
    TotalsAreSums(fs, qs, at, scan, owner);
    SumsPermute(rs, qs, Alone(fs, at, scan));
  }

  /** The findings of analyzers that took no part stay exactly as they were. */
  lemma OthersStay(fs: Findings, rs: seq<Supervision>, at: int, scan: string, owner: string -> string, id: string)
    requires Owned(fs, owner) && OwnResults(rs, owner) && forall r :: r in rs ==> r.analyzer != owner(id)
    ensures Get(Fold(fs, rs, at, scan), id) == Get(fs, id)
  {
    FoldPointwise(fs, rs, at, scan, owner, id);
    ResultOfIs(rs, owner(id));
  }

  // ---- Reviews taken back ------------------------------------------------------------

  datatype ReviewRecord = ReviewRecord(id: string, actor: string, at: int, revision: nat, prior: ReviewState, resulting: ReviewState)

  const MaxReviews := 500

  /** The review was reset because the condition came back or became another one. */
  predicate PolicyReset(previous: Findings, reconciled: Findings, id: string) {
    id in previous && id in reconciled && previous[id].review != New && reconciled[id].review == New
    && (previous[id].lifecycle == Resolved || previous[id].digest != reconciled[id].digest)
  }

  function PolicyReopens(previous: Findings, reconciled: Findings, ids: seq<string>, at: int): seq<ReviewRecord> {
    if ids == [] then []
    else
      var id := ids[|ids| - 1];
      PolicyReopens(previous, reconciled, ids[..|ids| - 1], at)
      + if PolicyReset(previous, reconciled, id)
        then [ReviewRecord(id, "hamie", at, reconciled[id].revision, previous[id].review, New)] else []
  }

  method RecordPolicyReopens(previous: Findings, reconciled: Findings, reviews: seq<ReviewRecord>, at: int)
    returns (next: seq<ReviewRecord>)
    ensures next == Latest(reviews + PolicyReopens(previous, reconciled, Listed(reconciled.Keys), at), MaxReviews)
  {
    var ids := Listed(reconciled.Keys);
    ListedIs(reconciled.Keys);
    var additions: seq<ReviewRecord> := [];
    for i := 0 to |ids|
      invariant additions == PolicyReopens(previous, reconciled, ids[..i], at)
    {
      var id := ids[i];
      assert id in ids;
      PolicyReopensNext(previous, reconciled, ids, i, at);
      var finding := reconciled[id];
      if id in previous && previous[id].review != New && finding.review == New {
        var prior := previous[id];
        if prior.lifecycle == Resolved || prior.digest != finding.digest {
          additions := additions + [ReviewRecord(id, "hamie", at, finding.revision, prior.review, New)];
        }
      }
    }
    WholeSequence(ids);
    next := Latest(reviews + additions, MaxReviews);
  }

  lemma PolicyReopensNext(previous: Findings, reconciled: Findings, ids: seq<string>, i: nat, at: int)
    requires i < |ids|
    ensures PolicyReopens(previous, reconciled, ids[..i + 1], at) == PolicyReopens(previous, reconciled, ids[..i], at)
      + if PolicyReset(previous, reconciled, ids[i])
        then [ReviewRecord(ids[i], "hamie", at, reconciled[ids[i]].revision, previous[ids[i]].review, New)] else []
  {
    assert ids[..i + 1][..i] == ids[..i];
  }

  predicate Expired(f: Finding, reconfirmed: bool, at: int) {
    reconfirmed && f.lifecycle == Open && f.review == Snoozed && f.snoozeUntil.Some? && f.snoozeUntil.value <= at
  }

  function Reopen(f: Finding, reconfirmed: bool, at: int): Finding {
    if Expired(f, reconfirmed, at) then f.(review := New, snoozeUntil := None) else f
  }

  function Reopened(fs: Findings, reconfirmed: set<string>, at: int): Findings {
    map id | id in fs :: Reopen(fs[id], id in reconfirmed, at)
  }

  function SnoozeReopens(fs: Findings, reconfirmed: set<string>, ids: seq<string>, at: int): seq<ReviewRecord> {
    if ids == [] then []
    else
      var id := ids[|ids| - 1];
      SnoozeReopens(fs, reconfirmed, ids[..|ids| - 1], at)
      + if id in fs && Expired(fs[id], id in reconfirmed, at)
        then [ReviewRecord(id, "hamie", at, fs[id].revision, Snoozed, New)] else []
  }

  method ReopenExpiredSnoozes(fs: Findings, reviews: seq<ReviewRecord>, reconfirmed: set<string>, at: int)
    returns (reopened: Findings, next: seq<ReviewRecord>)
    ensures reopened == Reopened(fs, reconfirmed, at)
    ensures next == Latest(reviews + SnoozeReopens(fs, reconfirmed, Listed(fs.Keys), at), MaxReviews)
  {
    var ids := Listed(fs.Keys);
    ListedIs(fs.Keys);
    var additions: seq<ReviewRecord> := [];
    reopened := map[];
    for i := 0 to |ids|
      invariant reopened == ReopenedAmong(fs, reconfirmed, ids[..i], at)
      invariant additions == SnoozeReopens(fs, reconfirmed, ids[..i], at)
    {
      var id := ids[i];
      assert id in ids;
      SnoozeReopensNext(fs, reconfirmed, ids, i, at);
      var finding := fs[id];
      if !Expired(finding, id in reconfirmed, at) {
        reopened := reopened[id := finding];
      } else {
        reopened := reopened[id := finding.(review := New, snoozeUntil := None)];
        additions := additions + [ReviewRecord(id, "hamie", at, finding.revision, Snoozed, New)];
      }
    }
    WholeSequence(ids);
    ReopenedAmongAll(fs, reconfirmed, ids, at);
    next := Latest(reviews + additions, MaxReviews);
  }

  /** The list being rebuilt, as far as `ids` go. */
  function ReopenedAmong(fs: Findings, reconfirmed: set<string>, ids: seq<string>, at: int): Findings {
    if ids == [] then map[]
    else
      var id := ids[|ids| - 1];
      var before := ReopenedAmong(fs, reconfirmed, ids[..|ids| - 1], at);
      if id in fs then before[id := Reopen(fs[id], id in reconfirmed, at)] else before
  }

  lemma {:induction false} ReopenedAmongIs(fs: Findings, reconfirmed: set<string>, ids: seq<string>, at: int, id: string)
    ensures Get(ReopenedAmong(fs, reconfirmed, ids, at), id)
         == if id in ids && id in fs then Some(Reopen(fs[id], id in reconfirmed, at)) else None
  {
    if ids != [] {
      assert ids == ids[..|ids| - 1] + [ids[|ids| - 1]];
      ReopenedAmongIs(fs, reconfirmed, ids[..|ids| - 1], at, id);
    }
  }

  lemma ReopenedAmongAll(fs: Findings, reconfirmed: set<string>, ids: seq<string>, at: int)
    requires forall id :: id in ids <==> id in fs
    ensures ReopenedAmong(fs, reconfirmed, ids, at) == Reopened(fs, reconfirmed, at)
  {
    forall id ensures Get(ReopenedAmong(fs, reconfirmed, ids, at), id) == Get(Reopened(fs, reconfirmed, at), id) {
      ReopenedAmongIs(fs, reconfirmed, ids, at, id);
    }
    SameFindings(ReopenedAmong(fs, reconfirmed, ids, at), Reopened(fs, reconfirmed, at));
  }

  lemma SnoozeReopensNext(fs: Findings, reconfirmed: set<string>, ids: seq<string>, i: nat, at: int)
    requires i < |ids| && ids[i] in fs
    ensures ReopenedAmong(fs, reconfirmed, ids[..i + 1], at)
         == ReopenedAmong(fs, reconfirmed, ids[..i], at)[ids[i] := Reopen(fs[ids[i]], ids[i] in reconfirmed, at)]
    ensures SnoozeReopens(fs, reconfirmed, ids[..i + 1], at) == SnoozeReopens(fs, reconfirmed, ids[..i], at)
      + if Expired(fs[ids[i]], ids[i] in reconfirmed, at)
        then [ReviewRecord(ids[i], "hamie", at, fs[ids[i]].revision, Snoozed, New)] else []
  {
    assert ids[..i + 1][..i] == ids[..i];
  }

  ghost predicate OneRecordEach(rs: seq<ReviewRecord>) {
    forall i, j :: 0 <= i < j < |rs| ==> rs[i].id != rs[j].id
  }

  lemma {:induction false} PolicyReopensIs(previous: Findings, reconciled: Findings, ids: seq<string>, at: int)
    requires forall i, j :: 0 <= i < j < |ids| ==> ids[i] != ids[j]
    ensures var rs := PolicyReopens(previous, reconciled, ids, at);
      OneRecordEach(rs)
      && forall r :: r in rs <==>
           (r.id in ids && PolicyReset(previous, reconciled, r.id)
            && r == ReviewRecord(r.id, "hamie", at, reconciled[r.id].revision, previous[r.id].review, New))
  {
    if ids != [] {
      var n := |ids| - 1;
      assert ids == ids[..n] + [ids[n]];
      PolicyReopensIs(previous, reconciled, ids[..n], at);
      var before := PolicyReopens(previous, reconciled, ids[..n], at);
      forall i | 0 <= i < |before| ensures before[i].id != ids[n] { assert before[i] in before; }
    }
  }

  lemma {:induction false} SnoozeReopensIs(fs: Findings, reconfirmed: set<string>, ids: seq<string>, at: int)
    requires forall i, j :: 0 <= i < j < |ids| ==> ids[i] != ids[j]
    ensures var rs := SnoozeReopens(fs, reconfirmed, ids, at);
      OneRecordEach(rs)
      && forall r :: r in rs <==>
           (r.id in ids && r.id in fs && Expired(fs[r.id], r.id in reconfirmed, at)
            && r == ReviewRecord(r.id, "hamie", at, fs[r.id].revision, Snoozed, New))
  {
    if ids != [] {
      var n := |ids| - 1;
      assert ids == ids[..n] + [ids[n]];
      SnoozeReopensIs(fs, reconfirmed, ids[..n], at);
      var before := SnoozeReopens(fs, reconfirmed, ids[..n], at);
      forall i | 0 <= i < |before| ensures before[i].id != ids[n] { assert before[i] in before; }
    }
  }

  function AllIds(rs: seq<Supervision>): set<string> {
    set r, c | r in rs && c in r.candidates :: c.id
  }

  /** A scan resets a review only for one of the reasons it records. */
  lemma ResetsHaveReasons(fs: Findings, rs: seq<Supervision>, at: int, scan: string, owner: string -> string, id: string)
    requires Owned(fs, owner) && OwnResults(rs, owner) && id in fs && fs[id].review != New
    ensures id in Fold(fs, rs, at, scan)
    ensures var f := Fold(fs, rs, at, scan)[id];
      (f.review == New <==> PolicyReset(fs, Fold(fs, rs, at, scan), id)) && (f.review != New ==> f.review == fs[id].review)
  {
    FoldPointwise(fs, rs, at, scan, owner, id);
    var r := ResultOf(rs, owner(id));
    if r.Some? { CandidateForIs(r.value.candidates, id); }
  }

  /** Over a whole scan, the records added before the history is cut are one for one
      the findings whose review was taken back, each with the state it was taken
      back from; a material change and an expired snooze are never both recorded. */
  lemma EachResetRecordedOnce(fs: Findings, rs: seq<Supervision>, at: int, scan: string, owner: string -> string)
    requires Owned(fs, owner) && OwnResults(rs, owner)
    ensures var reconciled := Fold(fs, rs, at, scan);
      var reopened := Reopened(reconciled, AllIds(rs), at);
      var added := PolicyReopens(fs, reconciled, Listed(reconciled.Keys), at)
                   + SnoozeReopens(reconciled, AllIds(rs), Listed(reconciled.Keys), at);
      OneRecordEach(added)
      && (forall r :: r in added ==>
           r.id in fs && r.id in reopened && fs[r.id].review != New
           && r == ReviewRecord(r.id, "hamie", at, reopened[r.id].revision, fs[r.id].review, New))
      && forall id ::
           (exists r :: r in added && r.id == id) <==>
           (id in fs && id in reopened && fs[id].review != New && reopened[id].review == New)
  {
    var reconciled := Fold(fs, rs, at, scan);
    var ids := Listed(reconciled.Keys);
    ListedIs(reconciled.Keys);
    PolicyReopensIs(fs, reconciled, ids, at);
    SnoozeReopensIs(reconciled, AllIds(rs), ids, at);
    forall id | id in reconciled && reconciled[id].review == Snoozed ensures id in fs && fs[id].review == Snoozed {
      SnoozedBefore(fs, rs, at, scan, owner, id);
    }
    forall id | id in fs && fs[id].review != New
      ensures id in reconciled && (reconciled[id].review == New <==> PolicyReset(fs, reconciled, id))
      ensures reconciled[id].review != New ==> reconciled[id].review == fs[id].review
    {
      ResetsHaveReasons(fs, rs, at, scan, owner, id);
    }
    ResetsAndRecords(fs, reconciled, AllIds(rs), ids, at);
  }

  lemma SnoozedBefore(fs: Findings, rs: seq<Supervision>, at: int, scan: string, owner: string -> string, id: string)
    requires Owned(fs, owner) && OwnResults(rs, owner)
    requires id in Fold(fs, rs, at, scan) && Fold(fs, rs, at, scan)[id].review == Snoozed
    ensures id in fs && fs[id].review == Snoozed
  {
    FoldPointwise(fs, rs, at, scan, owner, id);
  }

  lemma ResetsAndRecords(fs: Findings, reconciled: Findings, reconfirmed: set<string>, ids: seq<string>, at: int)
    requires forall id :: id in ids <==> id in reconciled
    requires forall i, j :: 0 <= i < j < |ids| ==> ids[i] != ids[j]
    requires forall id :: id in reconciled && reconciled[id].review == Snoozed ==> id in fs && fs[id].review == Snoozed
    requires forall id :: id in fs && fs[id].review != New ==>
      id in reconciled && (reconciled[id].review == New <==> PolicyReset(fs, reconciled, id))
    ensures var added := PolicyReopens(fs, reconciled, ids, at) + SnoozeReopens(reconciled, reconfirmed, ids, at);
      var reopened := Reopened(reconciled, reconfirmed, at);
      OneRecordEach(added)
      && (forall r :: r in added ==>
           r.id in fs && r.id in reopened && fs[r.id].review != New
           && r == ReviewRecord(r.id, "hamie", at, reopened[r.id].revision, fs[r.id].review, New))
      && forall id ::
           (exists r :: r in added && r.id == id) <==>
           (id in fs && id in reopened && fs[id].review != New && reopened[id].review == New)
  {
    PolicyReopensIs(fs, reconciled, ids, at);
    SnoozeReopensIs(reconciled, reconfirmed, ids, at);
    var a, b := PolicyReopens(fs, reconciled, ids, at), SnoozeReopens(reconciled, reconfirmed, ids, at);
    var reopened := Reopened(reconciled, reconfirmed, at);
    forall i, j | 0 <= i < |a| && 0 <= j < |b| ensures a[i].id != b[j].id {
      assert a[i] in a && b[j] in b;
    }
    forall id | id in fs && id in reopened && fs[id].review != New && reopened[id].review == New
      ensures exists r :: r in a + b && r.id == id
    {
      if reconciled[id].review == New {
        assert ReviewRecord(id, "hamie", at, reconciled[id].revision, fs[id].review, New) in a;
      } else {
        assert ReviewRecord(id, "hamie", at, reconciled[id].revision, Snoozed, New) in b;
      }
    }
  }
}
