/** The one document everything is kept in: the commands that change it, the rule a
    commit obeys, and the window in which a repeated command is recognised. */
module Repository {
  import opened Ordering
  import opened Reconciliation
  import DurableBaseline

  datatype IdempotencyRecord = IdempotencyRecord(token: string, command: string, target: string, revision: nat)

  datatype State = State(
    generation: nat, projection: nat, findings: Findings, reviews: seq<ReviewRecord>,
    idempotency: seq<IdempotencyRecord>, acknowledgement: Option<string>,
    workItems: map<string, string>, lastCleanupScan: Option<string>, audits: seq<string>,
    baselines: seq<DurableBaseline.Baseline>)

  const MaxIdempotency := 128
  const MaxAudits := 500

  // ---- Reviews -------------------------------------------------------------------

  datatype Action = Acknowledge | Snooze | Retain | Dismiss | Reopen

  function Name(a: Action): string {
    match a
    case Acknowledge => "review:acknowledge" case Snooze => "review:snooze" case Retain => "review:retain"
    case Dismiss => "review:dismiss" case Reopen => "review:reopen"
  }

  function ResultingState(a: Action): ReviewState {
    match a
    case Acknowledge => Acknowledged case Snooze => Snoozed case Retain => Retained
    case Dismiss => Dismissed case Reopen => New
  }

  function AllowedPrior(a: Action): set<ReviewState> {
    match a
    case Acknowledge => {New}
    case Snooze => {New, Acknowledged, Retained}
    case Retain => {New, Acknowledged}
    case Dismiss => {New, Acknowledged, Snoozed, Retained}
    case Reopen => {Acknowledged, Snoozed, Retained, Dismissed}
  }

  datatype Command = Command(
    finding: string, action: Action, expectedRevision: nat, token: string, actor: string, snoozeUntil: Option<int>)

  datatype Error = BadToken | TokenReused | NotFound | NotOpen | RevisionChanged | NotAllowed

  datatype Reply = Rejected(error: Error) | Replayed(current: Finding) | Accepted(next: State, updated: Finding)

  predicate Space(c: char) { c in {' ', '\t', '\n', '\r'} }

  predicate Normalized(token: string) {
    token != "" && |token| <= 128 && !Space(token[0]) && !Space(token[|token| - 1])
  }

  function RecordOf(rs: seq<IdempotencyRecord>, token: string): Option<IdempotencyRecord> {
    if rs == [] then None else if rs[0].token == token then Some(rs[0]) else RecordOf(rs[1..], token)
  }

  predicate Knows(rs: seq<IdempotencyRecord>, token: string) {
    exists r :: r in rs && r.token == token
  }

  lemma {:induction false} RecordOfIs(rs: seq<IdempotencyRecord>, token: string)
    ensures RecordOf(rs, token).Some? <==> Knows(rs, token)
    ensures RecordOf(rs, token).Some? ==> RecordOf(rs, token).value in rs && RecordOf(rs, token).value.token == token
  {
    if rs != [] {
      RecordOfIs(rs[1..], token);
      assert forall r :: r in rs <==> r == rs[0] || r in rs[1..];
    }
  }

  /** `_review`, up to its commit. */
  function Review(s: State, c: Command, at: int): Reply {
    if !Normalized(c.token) then Rejected(BadToken)
    else
      var replay := RecordOf(s.idempotency, c.token);
      if replay.Some? then
        if replay.value.command != Name(c.action) || replay.value.target != c.finding then Rejected(TokenReused)
        else if c.finding !in s.findings then Rejected(NotFound)
        else Replayed(s.findings[c.finding])
      else if c.finding !in s.findings then Rejected(NotFound)
      else
        var f := s.findings[c.finding];
        if f.lifecycle != Open then Rejected(NotOpen)
        else if f.revision != c.expectedRevision then Rejected(RevisionChanged)
        else if !MayReview(f, c, at) then Rejected(NotAllowed)
        else
          var updated := f.(review := ResultingState(c.action), snoozeUntil := if c.action == Snooze then c.snoozeUntil else None);
          Accepted(
            s.(generation := s.generation + 1, projection := s.projection + 1,
               findings := s.findings[c.finding := updated],
               reviews := Latest(s.reviews + [ReviewRecord(c.finding, c.actor, at, f.revision, f.review, ResultingState(c.action))],
                               MaxReviews),
               idempotency := Latest(s.idempotency + [IdempotencyRecord(c.token, Name(c.action), c.finding, f.revision)], MaxIdempotency)),
            updated)
  }

  /** What constructing the review record insists on. */
  predicate MayReview(f: Finding, c: Command, at: int) {
    c.actor != "" && f.review in AllowedPrior(c.action)
    && (if c.action == Snooze then c.snoozeUntil.Some? && c.snoozeUntil.value > at else c.snoozeUntil.None?)
  }

  /** A review is applied exactly when its token is in order and unknown, everything it
      names is as the caller believes, and the finding's review admits the action. */
  lemma AppliedIff(s: State, c: Command, at: int)
    ensures Review(s, c, at).Accepted? <==>
      InOrder(c.token) && (forall r :: r in s.idempotency ==> r.token != c.token)
      && c.finding in s.findings && s.findings[c.finding].lifecycle == Open
      && s.findings[c.finding].revision == c.expectedRevision && c.actor != ""
      && (match c.action
          case Acknowledge => s.findings[c.finding].review == New
          case Snooze => s.findings[c.finding].review in {New, Acknowledged, Retained}
          case Retain => s.findings[c.finding].review in {New, Acknowledged}
          case Dismiss => s.findings[c.finding].review != Dismissed
          case Reopen => s.findings[c.finding].review != New)
      && (if c.action == Snooze then c.snoozeUntil.Some? && c.snoozeUntil.value > at else c.snoozeUntil.None?)
  {
    RecordOfIs(s.idempotency, c.token);
  }

  ghost predicate InOrder(token: string) {
    0 < |token| <= 128 && token[0] !in " \t\n\r" && token[|token| - 1] !in " \t\n\r"
  }

  /** What applying it comes to: the finding's review is what the action is for, all
      else about it and every other finding is as before, and one record of the
      transition and one of the command join the last ones kept. */
  lemma AppliedChanges(s: State, c: Command, at: int)
    requires Review(s, c, at).Accepted?
    ensures var n, u, f := Review(s, c, at).next, Review(s, c, at).updated, s.findings[c.finding];
      n == s.(generation := s.generation + 1, projection := s.projection + 1, findings := s.findings[c.finding := u],
              reviews := n.reviews, idempotency := n.idempotency)
      && u == f.(review := u.review, snoozeUntil := c.snoozeUntil) && u.review != f.review
      && KeepsLast(n.reviews, s.reviews + [ReviewRecord(c.finding, c.actor, at, f.revision, f.review, u.review)], 500)
    ensures var n, u := Review(s, c, at).next, Review(s, c, at).updated;
      match c.action
      case Acknowledge => u.review == Acknowledged && Remembers(s, n, c, "review:acknowledge")
      case Snooze => u.review == Snoozed && Remembers(s, n, c, "review:snooze")
      case Retain => u.review == Retained && Remembers(s, n, c, "review:retain")
      case Dismiss => u.review == Dismissed && Remembers(s, n, c, "review:dismiss")
      case Reopen => u.review == New && Remembers(s, n, c, "review:reopen")
  {
    ReviewRecorded(s, c, at);
    CommandRemembered(s, c, at);
  }

  lemma ReviewRecorded(s: State, c: Command, at: int)
    requires Review(s, c, at).Accepted?
    ensures var n, u, f := Review(s, c, at).next, Review(s, c, at).updated, s.findings[c.finding];
      KeepsLast(n.reviews, s.reviews + [ReviewRecord(c.finding, c.actor, at, f.revision, f.review, u.review)], 500)
  {
    var u, f := Review(s, c, at).updated, s.findings[c.finding];
    LatestKeepsLast(s.reviews + [ReviewRecord(c.finding, c.actor, at, f.revision, f.review, u.review)], 500);
  }

  lemma CommandRemembered(s: State, c: Command, at: int)
    requires Review(s, c, at).Accepted?
    ensures Remembers(s, Review(s, c, at).next, c, Name(c.action))
  {
    LatestKeepsLast(s.idempotency + [IdempotencyRecord(c.token, Name(c.action), c.finding, c.expectedRevision)], 128);
  }

  ghost predicate Remembers(s: State, n: State, c: Command, name: string) {
    KeepsLast(n.idempotency, s.idempotency + [IdempotencyRecord(c.token, name, c.finding, c.expectedRevision)], 128)
  }

  /** The first command remembered under the token was this one. */
  ghost predicate AskedBefore(rs: seq<IdempotencyRecord>, c: Command) {
    exists i :: 0 <= i < |rs| && rs[i].token == c.token && rs[i].target == c.finding && rs[i].command == Name(c.action)
             && forall j :: 0 <= j < i ==> rs[j].token != c.token
  }

  lemma {:induction false} RecordOfFirst(rs: seq<IdempotencyRecord>, c: Command)
    ensures AskedBefore(rs, c) <==>
      RecordOf(rs, c.token).Some? && RecordOf(rs, c.token).value.target == c.finding
      && RecordOf(rs, c.token).value.command == Name(c.action)
  {
    if rs != [] && rs[0].token != c.token {
      RecordOfFirst(rs[1..], c);
      if AskedBefore(rs, c) {
        var i :| 0 <= i < |rs| && rs[i].token == c.token && rs[i].target == c.finding && rs[i].command == Name(c.action)
              && forall j :: 0 <= j < i ==> rs[j].token != c.token;
        assert rs[1..][i - 1] == rs[i] && forall j :: 0 <= j < i - 1 ==> rs[1..][j] == rs[j + 1];
      }
      if AskedBefore(rs[1..], c) {
        var i :| 0 <= i < |rs[1..]| && rs[1..][i].token == c.token && rs[1..][i].target == c.finding
              && rs[1..][i].command == Name(c.action) && forall j :: 0 <= j < i ==> rs[1..][j].token != c.token;
        assert forall j :: 1 <= j < i + 1 ==> rs[j] == rs[1..][j - 1];
        assert rs[i + 1] == rs[1..][i];
      }
    }
  }

  /** Which refusal a caller meets, and when it is answered from memory instead. */
  lemma RefusedFor(s: State, c: Command, at: int)
    ensures Review(s, c, at) == Rejected(BadToken) <==> !InOrder(c.token)
    ensures Review(s, c, at) == Rejected(TokenReused) <==>
      InOrder(c.token) && Knows(s.idempotency, c.token) && !AskedBefore(s.idempotency, c)
    ensures Review(s, c, at) == Rejected(NotFound) <==>
      InOrder(c.token) && c.finding !in s.findings && (Knows(s.idempotency, c.token) ==> AskedBefore(s.idempotency, c))
    ensures Review(s, c, at).Replayed? <==>
      InOrder(c.token) && c.finding in s.findings && AskedBefore(s.idempotency, c)
    ensures Review(s, c, at).Replayed? ==> Review(s, c, at).current == s.findings[c.finding]
    ensures var unheard := InOrder(c.token) && !Knows(s.idempotency, c.token) && c.finding in s.findings;
      (Review(s, c, at) == Rejected(NotOpen) <==> unheard && s.findings[c.finding].lifecycle == Resolved)
      && (Review(s, c, at) == Rejected(RevisionChanged) <==>
            unheard && s.findings[c.finding].lifecycle == Open && s.findings[c.finding].revision != c.expectedRevision)
  {
    RecordOfIs(s.idempotency, c.token);
    RecordOfFirst(s.idempotency, c);
  }

  /** Asked again while it is remembered, a command that was applied changes nothing
      and answers with the finding as it now is. */
  lemma ReplayIsHarmless(s: State, c: Command, at: int, later: State, now: int)
    requires Review(s, c, at).Accepted? && TokensUnique(later.idempotency)
    requires IdempotencyRecord(c.token, Name(c.action), c.finding, c.expectedRevision) in later.idempotency
    requires c.finding in later.findings
    ensures Review(later, c, now) == Replayed(later.findings[c.finding])
  {
    RecordOfIs(later.idempotency, c.token);
    var r := IdempotencyRecord(c.token, Name(c.action), c.finding, c.expectedRevision);
    assert RecordOf(later.idempotency, c.token).value == r by {
      var q := RecordOf(later.idempotency, c.token).value;
      assert q.token == r.token;
    }
  }

  ghost predicate TokensUnique(rs: seq<IdempotencyRecord>) {
    (forall i, j :: 0 <= i < j < |rs| ==> rs[i].token != rs[j].token)
  }

  // ---- Everything that commits --------------------------------------------------------

  datatype Mutation =
    | Scan(results: seq<Supervision>, at: int, scan: string)
    | ReviewBy(command: Command, at: int)
    | SetIncident(token: string, incident: string)
    | AcknowledgeAi(who: string)
    | RevokeAi
    | MergeWork(merge: map<string, string> -> map<string, string>, scan: string)
    | DecideWork(item: string, lifecycle: string)
    | SaveBaseline(baseline: DurableBaseline.Baseline)
    | RecordDeliveries(lines: seq<string>)

  function Advanced(s: State): State {
    s.(generation := s.generation + 1)
  }

  function Scanned(s: State, rs: seq<Supervision>, at: int, scan: string): State {
    var reconciled := Fold(s.findings, rs, at, scan);
    var policy := PolicyReopens(s.findings, reconciled, Listed(reconciled.Keys), at);
    var snoozes := SnoozeReopens(reconciled, AllIds(rs), Listed(reconciled.Keys), at);
    Advanced(s).(findings := Reopened(reconciled, AllIds(rs), at), projection := s.projection + 1,
                 reviews := Latest(Latest(s.reviews + policy, MaxReviews) + snoozes, MaxReviews))
  }

  /** The state a client asks to be committed, or nothing if it raises first. Revoking
      an acknowledgement that is absent asks for the state it was given. */
  function Apply(s: State, m: Mutation): Option<State> {
    match m
    case Scan(rs, at, scan) => Some(Scanned(s, rs, at, scan))
    case ReviewBy(c, at) => var r := Review(s, c, at); if r.Accepted? then Some(r.next) else None
    case SetIncident(token, incident) =>
      if !Normalized(token) || RecordOf(s.idempotency, token).Some? then None
      else Some(Advanced(s).(
        projection := s.projection + 1, audits := Latest(s.audits + [incident], MaxAudits),
        idempotency := Latest(s.idempotency + [IdempotencyRecord(token, "incident_lifecycle", incident, s.projection + 1)],
                            MaxIdempotency)))
    case AcknowledgeAi(who) => Some(Advanced(s).(acknowledgement := Some(who)))
    case RevokeAi => Some(if s.acknowledgement.None? then s else Advanced(s).(acknowledgement := None))
    case MergeWork(merge, scan) => Some(Advanced(s).(workItems := merge(s.workItems), lastCleanupScan := Some(scan)))
    case DecideWork(item, lifecycle) =>
      if item !in s.workItems then None else Some(Advanced(s).(workItems := s.workItems[item := lifecycle]))
    case SaveBaseline(b) =>
      Some(Advanced(s).(projection := s.projection + 1, baselines := DurableBaseline.Save(s.baselines, b)))
    case RecordDeliveries(lines) =>
      Some(Advanced(s).(projection := s.projection + 1, audits := Latest(s.audits + lines, MaxAudits)))
  }

  datatype Commit = Committed | Conflict | Invalid

  /** `async_commit`: the store must be where the client found it, and the new state
      exactly one generation further. */
  function CommitRule(store: State, next: State, expected: nat): Commit {
    if store.generation != expected then Conflict
    else if next.generation != expected + 1 then Invalid
    else Committed
  }

  /** A command commits on the state it was computed from unless it is a revocation
      with nothing to revoke: that raises, although it is documented to be a no-op. */
  lemma CommitsUnlessNothingToRevoke(s: State, m: Mutation)
    requires Apply(s, m).Some?
    ensures CommitRule(s, Apply(s, m).value, s.generation) == Committed <==> !(m.RevokeAi? && s.acknowledgement.None?)
    ensures m.RevokeAi? && s.acknowledgement.None? <==> CommitRule(s, Apply(s, m).value, s.generation) == Invalid
  {}

  // ---- The window of remembered commands -------------------------------------------------

  /** What a command that is accepted leaves behind to be recognised by. */
  function Trace(s: State, m: Mutation): seq<IdempotencyRecord> {
    if Apply(s, m).None? then []
    else match m
      case ReviewBy(c, _) => [IdempotencyRecord(c.token, Name(c.action), c.finding, c.expectedRevision)]
      case SetIncident(token, incident) => [IdempotencyRecord(token, "incident_lifecycle", incident, s.projection + 1)]
      case _ => []
  }

  /** Commands one after the other; those that raise change nothing. */
  function Replay(s: State, ms: seq<Mutation>): State {
    if ms == [] then s
    else
      var before := Replay(s, ms[..|ms| - 1]);
      var next := Apply(before, ms[|ms| - 1]);
      if next.Some? then next.value else before
  }

  function Traces(s: State, ms: seq<Mutation>): seq<IdempotencyRecord> {
    if ms == [] then []
    else Traces(s, ms[..|ms| - 1]) + Trace(Replay(s, ms[..|ms| - 1]), ms[|ms| - 1])
  }

  lemma LatestAgain<T>(xs: seq<T>, ys: seq<T>, n: nat)
    ensures Latest(Latest(xs, n) + ys, n) == Latest(xs + ys, n)
  {}

  lemma StepRemembers(s: State, m: Mutation)
    requires |s.idempotency| <= MaxIdempotency && Apply(s, m).Some?
    ensures Apply(s, m).value.idempotency == Latest(s.idempotency + Trace(s, m), MaxIdempotency)
  {
    assert s.idempotency + [] == s.idempotency;
  }

  lemma ReplayRemembers(s: State, before: seq<IdempotencyRecord>, m: Mutation)
    requires s.idempotency == Latest(before, MaxIdempotency)
    ensures (if Apply(s, m).Some? then Apply(s, m).value else s).idempotency == Latest(before + Trace(s, m), MaxIdempotency)
  {
    LatestAgain(before, Trace(s, m), MaxIdempotency);
    if Apply(s, m).Some? {
      StepRemembers(s, m);
    } else {
      assert before + [] == before;
    }
  }

  /** The records kept are the last 128 of all that were ever made. */
  lemma {:induction false} WindowIsLast(s: State, ms: seq<Mutation>)
    requires |s.idempotency| <= MaxIdempotency
    ensures Replay(s, ms).idempotency == Latest(s.idempotency + Traces(s, ms), MaxIdempotency)
  {
    if ms == [] {
      assert s.idempotency + [] == s.idempotency;
    } else {
      var before, m := ms[..|ms| - 1], ms[|ms| - 1];
      WindowIsLast(s, before);
      ReplayRemembers(Replay(s, before), s.idempotency + Traces(s, before), m);
      assert s.idempotency + Traces(s, ms) == s.idempotency + Traces(s, before) + Trace(Replay(s, before), m);
    }
  }

  lemma NewTokenIsUnknown(s: State, m: Mutation)
    ensures forall r :: r in Trace(s, m) ==> !Knows(s.idempotency, r.token)
  {
    if m.ReviewBy? { RecordOfIs(s.idempotency, m.command.token); }
    if m.SetIncident? { RecordOfIs(s.idempotency, m.token); }
  }

  /** Tokens stay unique, so no commit is ever refused for a repeated one. */
  lemma {:induction false} TokensStayUnique(s: State, ms: seq<Mutation>)
    requires |s.idempotency| <= MaxIdempotency && TokensUnique(s.idempotency)
    ensures TokensUnique(Replay(s, ms).idempotency) && |Replay(s, ms).idempotency| <= MaxIdempotency
  {
    if ms != [] {
      var before, m := ms[..|ms| - 1], ms[|ms| - 1];
      TokensStayUnique(s, before);
      var t := Replay(s, before);
      if Apply(t, m).Some? {
        StepRemembers(t, m);
        NewTokenIsUnknown(t, m);
        LastUnique(t.idempotency, Trace(t, m));
      }
    }
  }

  lemma LastUnique(rs: seq<IdempotencyRecord>, more: seq<IdempotencyRecord>)
    requires TokensUnique(rs) && |more| <= 1 && forall r :: r in more ==> !Knows(rs, r.token)
    ensures TokensUnique(Latest(rs + more, MaxIdempotency))
  {
    forall i | 0 <= i < |rs| && more != [] ensures rs[i].token != more[0].token {
      assert more[0] in more && rs[i] in rs;
    }
  }

  lemma KeptFromTheEnd(all: seq<IdempotencyRecord>, i: nat)
    requires i < |all|
    ensures |all| - i <= MaxIdempotency ==> all[i] in Latest(all, MaxIdempotency)
    ensures forall r :: r in Latest(all, MaxIdempotency) ==> exists j :: 0 <= j < |all| && |all| - j <= MaxIdempotency && all[j] == r
  {
    var kept := Latest(all, MaxIdempotency);
    var cut := |all| - |kept|;
    assert forall j :: 0 <= j < |kept| ==> kept[j] == all[cut + j];
    if |all| - i <= MaxIdempotency { assert kept[i - cut] == all[i]; }
  }

  /** A command is recognised for exactly the next 127 commands that are accepted,
      whatever else happens in between. */
  lemma RememberedForExactly127(s: State, ms: seq<Mutation>, k: nat)
    requires |s.idempotency| <= MaxIdempotency && k < |Traces(s, ms)|
    requires forall l :: k < l < |Traces(s, ms)| ==> Traces(s, ms)[l].token != Traces(s, ms)[k].token
    ensures Knows(Replay(s, ms).idempotency, Traces(s, ms)[k].token) <==> |Traces(s, ms)| - 1 - k <= 127
  {
    WindowIsLast(s, ms);
    KnownIffRecent(s.idempotency, Traces(s, ms), k);
  }

  lemma KnownIffRecent(before: seq<IdempotencyRecord>, ts: seq<IdempotencyRecord>, k: nat)
    requires k < |ts| && forall l :: k < l < |ts| ==> ts[l].token != ts[k].token
    ensures Knows(Latest(before + ts, MaxIdempotency), ts[k].token) <==> |ts| - 1 - k <= 127
  {
    var all := before + ts;
    var i := |before| + k;
    KeptFromTheEnd(all, i);
    assert forall j :: i < j < |all| ==> all[j] == ts[j - |before|];
    if r :| r in Latest(all, MaxIdempotency) && r.token == ts[k].token {
      var j :| 0 <= j < |all| && |all| - j <= MaxIdempotency && all[j] == r;
    }
  }

  /** At most once: between two applications of one token at least 128 other commands
      were accepted. */
  lemma {:induction false} AppliedOnceInWindow(s: State, ms: seq<Mutation>, i: nat, j: nat)
    requires |s.idempotency| <= MaxIdempotency && i < j < |Traces(s, ms)|
    requires Traces(s, ms)[i].token == Traces(s, ms)[j].token
    ensures j - i > 128
  {
    var before, m := ms[..|ms| - 1], ms[|ms| - 1];
    var ts := Traces(s, before);
    if j < |ts| {
      AppliedOnceInWindow(s, before, i, j);
    } else {
      var t := Replay(s, before);
      assert Traces(s, ms) == ts + Trace(t, m);
      assert Traces(s, ms)[j] in Trace(t, m) && Traces(s, ms)[i] == ts[i];
      NewTokenIsUnknown(t, m);
      WindowIsLast(s, before);
      if |ts| - i <= MaxIdempotency { RecentIsKnown(s.idempotency, ts, i); }
    }
  }

  lemma RecentIsKnown(before: seq<IdempotencyRecord>, ts: seq<IdempotencyRecord>, i: nat)
    requires i < |ts| && |ts| - i <= MaxIdempotency
    ensures Knows(Latest(before + ts, MaxIdempotency), ts[i].token)
  {
    assert (before + ts)[|before| + i] == ts[i];
    KeptFromTheEnd(before + ts, |before| + i);
  }
}
