/** Re-deriving what a repair would change from configuration and live state,
    and the triage that may consult a model but not be steered by it. */
module TargetRediscovery {
  import opened Ordering
  import opened Authorization
  import TokenReplacement
  import RepairPlan

  const MaxLocations := 25

  datatype Found = Found(path: string, occurrences: nat)

  /** Everything the deterministic side can see at one moment. */
  datatype Facts = Facts(
    stateOf: string -> Option<string>, similar: string -> seq<string>,
    files: map<string, string>, active: seq<string>, unreadable: set<string>)

  predicate Mentions(f: Facts, path: string, needle: string)
    requires needle != []
  {
    path in f.files && path !in f.unreadable && TokenReplacement.Count(f.files[path], needle) > 0
  }

  /** `search_config`: occurrences in active configuration, skipping files that
      cannot be read. */
  function Search(f: Facts, active: seq<string>, needle: string): (found: seq<Found>)
    requires needle != []
    ensures forall x :: x in found ==>
      x.path in active && Mentions(f, x.path, needle)
      && x.occurrences == TokenReplacement.Count(f.files[x.path], needle)
    ensures forall p :: p in active && Mentions(f, p, needle) ==> exists x :: x in found && x.path == p
  {
    if active == [] then []
    else
      var rest := Search(f, active[1..], needle);
      var p := active[0];
      if Mentions(f, p, needle) then
        var here := Found(p, TokenReplacement.Count(f.files[p], needle));
        assert forall x :: x in [here] + rest <==> x == here || x in rest;
        [here] + rest
      else rest
  }

  /** `search_config` looks at one file after the other. */
  lemma {:induction false} SearchFileByFile(f: Facts, active: seq<string>, more: seq<string>, needle: string)
    requires needle != []
    ensures Search(f, active + more, needle) == Search(f, active, needle) + Search(f, more, needle)
  {
    if active == [] {
      assert active + more == more;
    } else {
      assert (active + more)[1..] == active[1..] + more;
      SearchFileByFile(f, active[1..], more, needle);
    }
  }

  ghost predicate OncePerFile(found: seq<Found>) {
    forall i, j :: 0 <= i < j < |found| ==> found[i].path != found[j].path
  }

  lemma OneFileMore(here: Found, rest: seq<Found>)
    requires OncePerFile(rest) && forall x :: x in rest ==> x.path != here.path
    ensures OncePerFile([here] + rest)
  {
    var found := [here] + rest;
    forall i, j | 0 <= i < j < |found| ensures found[i].path != found[j].path {
      assert rest[j - 1] in rest;
    }
  }

  lemma {:induction false} SearchFindsOnce(f: Facts, active: seq<string>, needle: string)
    requires needle != [] && forall i, j :: 0 <= i < j < |active| ==> active[i] != active[j]
    ensures OncePerFile(Search(f, active, needle))
  {
    if active != [] {
      var rest := Search(f, active[1..], needle);
      SearchFindsOnce(f, active[1..], needle);
      assert forall p :: p in active[1..] ==> p != active[0];
      if Mentions(f, active[0], needle) {
        OneFileMore(Found(active[0], TokenReplacement.Count(f.files[active[0]], needle)), rest);
      }
    }
  }

  lemma SearchOneFile(f: Facts, p: string, needle: string)
    requires needle != []
    ensures if p in f.files && p !in f.unreadable && TokenReplacement.Count(f.files[p], needle) > 0
            then Search(f, [p], needle) == [Found(p, TokenReplacement.Count(f.files[p], needle))]
            else Search(f, [p], needle) == []
  {
    assert [p][1..] == [];
  }

  /** The part before a numeric duplicate ending `_2` to `_9` of the object id. */
  function BaseName(e: string): Option<string> {
    var dot := |Domain(e)|;
    if dot + 2 < |e| && e[|e| - 2] == '_' && '2' <= e[|e| - 1] <= '9' then Some(e[..|e| - 2]) else None
  }

  /** `_similar_entities`: only the exact base of a duplicate, and only if it exists. */
  function Successors(stateOf: string -> Option<string>): string -> seq<string> {
    e => var base := BaseName(e); if base.Some? && stateOf(base.value).Some? then [base.value] else []
  }

  predicate DomainChar(c: char) { 'a' <= c <= 'z' || c == '_' }

  predicate ObjectChar(c: char) { DomainChar(c) || '0' <= c <= '9' }

  /** The full match of `[a-z_]+\.[a-z0-9_]+`. */
  predicate EntityId(s: string) {
    exists dot :: 0 < dot < |s| - 1 && s[dot] == '.'
      && (forall i :: 0 <= i < dot ==> DomainChar(s[i]))
      && forall i :: dot < i < |s| ==> ObjectChar(s[i])
  }

  /** An entity identifier is a domain of lower-case letters and underscores, a dot, and
      an object id that may have digits too, neither empty; by their ASCII codes. */
  lemma EntityIdIff(s: string, domain: string, name: string)
    requires s == domain + "." + name && '.' !in domain
    ensures EntityId(s) <==>
      domain != "" && name != "" && (forall c :: c in domain ==> 97 <= c as int <= 122 || c as int == 95)
      && forall c :: c in name ==> 97 <= c as int <= 122 || c as int == 95 || 48 <= c as int <= 57
  {
    var n := |domain|;
    assert s[..n] == domain && s[n] == '.' && s[n + 1..] == name;
    assert (forall i :: 0 <= i < n ==> DomainChar(s[i])) <==> forall c :: c in domain ==> DomainChar(c);
    assert (forall i :: n < i < |s| ==> ObjectChar(s[i])) <==> forall c :: c in name ==> ObjectChar(c) by {
      if forall i :: n < i < |s| ==> ObjectChar(s[i]) {
        forall c | c in name ensures ObjectChar(c) {
          var k :| 0 <= k < |name| && name[k] == c;
          assert s[n + 1 + k] == c;
        }
      }
      if forall c :: c in name ==> ObjectChar(c) {
        forall i | n < i < |s| ensures ObjectChar(s[i]) { assert s[i] == name[i - n - 1]; }
      }
    }
  }

  function AfterColon(s: string): string {
    if ':' in s then AfterColon(s[1..]) else s
  }

  /** What follows the last colon, or all of it. */
  lemma {:induction false} AfterColonIs(s: string)
    ensures var r := AfterColon(s);
      ':' !in r && |r| <= |s| && r == s[|s| - |r|..] && (|r| < |s| ==> s[|s| - |r| - 1] == ':')
  {
    if ':' in s { AfterColonIs(s[1..]); }
  }

  datatype Hint = Hint(stale: string, replacement: string)

  const NoHint := Hint("", "")

  datatype Rediscovery = Rediscovery(
    stale: Option<string>, replacement: Option<string>, locations: seq<Found>,
    replacementExists: bool, domainsCompatible: bool, ambiguous: bool, truncated: bool)
  {
    predicate Usable() {
      stale.Some? && replacement.Some? && !ambiguous && locations != [] && replacementExists && domainsCompatible
    }
  }

  const Ambiguous := Rediscovery(None, None, [], false, false, true, false)

  function Absent(f: Facts, subjects: seq<string>): seq<string> {
    if subjects == [] then []
    else
      var e := AfterColon(subjects[0]);
      (if EntityId(e) && f.stateOf(e).None? then [e] else []) + Absent(f, subjects[1..])
  }

  function Missing(f: Facts, subjects: seq<string>, hint: Hint): seq<string> {
    var missing := Absent(f, subjects);
    if missing == [] && hint.stale != "" && f.stateOf(hint.stale).None? then [hint.stale] else missing
  }

  function Chosen(candidates: seq<string>, hint: Hint): Option<string> {
    if hint.replacement != "" && hint.replacement in candidates then Some(hint.replacement)
    else if |candidates| == 1 then Some(candidates[0])
    else None
  }

  ghost predicate FromSubject(f: Facts, subjects: seq<string>, e: string) {
    EntityId(e) && f.stateOf(e).None? && exists s :: s in subjects && AfterColon(s) == e
  }

  lemma {:induction false} AbsentAreEntities(f: Facts, subjects: seq<string>)
    ensures forall e :: e in Absent(f, subjects) <==> FromSubject(f, subjects, e)
  {
    if subjects != [] {
      AbsentAreEntities(f, subjects[1..]);
      assert forall s :: s in subjects <==> s == subjects[0] || s in subjects[1..];
      assert forall e :: e in Absent(f, subjects) <==>
        e in Absent(f, subjects[1..]) || (e == AfterColon(subjects[0]) && EntityId(e) && f.stateOf(e).None?);
    }
  }

  ghost predicate AbsentAt(f: Facts, subjects: seq<string>, i: int) {
    0 <= i < |subjects| && EntityId(AfterColon(subjects[i])) && f.stateOf(AfterColon(subjects[i])).None?
  }

  /** One subject names an entity that does not exist, and no other subject does. */
  ghost predicate SoleAbsent(f: Facts, subjects: seq<string>, stale: string) {
    exists i :: AbsentAt(f, subjects, i) && AfterColon(subjects[i]) == stale && forall j :: AbsentAt(f, subjects, j) ==> j == i
  }

  lemma AbsentShifts(f: Facts, subjects: seq<string>, i: int)
    requires subjects != []
    ensures AbsentAt(f, subjects, i) && i != 0 ==> AbsentAt(f, subjects[1..], i - 1)
    ensures AbsentAt(f, subjects[1..], i) ==> AbsentAt(f, subjects, i + 1) && subjects[1..][i] == subjects[i + 1]
  {}

  lemma {:induction false} NoneAbsentIff(f: Facts, subjects: seq<string>)
    ensures Absent(f, subjects) == [] <==> forall i :: !AbsentAt(f, subjects, i)
  {
    if subjects != [] {
      NoneAbsentIff(f, subjects[1..]);
      if Absent(f, subjects) == [] {
        forall i ensures !AbsentAt(f, subjects, i) { AbsentShifts(f, subjects, i); }
      } else if !AbsentAt(f, subjects, 0) {
        var i :| AbsentAt(f, subjects[1..], i);
        AbsentShifts(f, subjects, i);
      }
    }
  }

  lemma {:induction false} SoleAbsentIff(f: Facts, subjects: seq<string>, stale: string)
    ensures Absent(f, subjects) == [stale] <==> SoleAbsent(f, subjects, stale)
  {
    if subjects != [] {
      var rest := subjects[1..];
      SoleAbsentIff(f, rest, stale);
      if AbsentAt(f, subjects, 0) { SoleAbsentFirst(f, subjects, stale); } else { SoleAbsentLater(f, subjects, stale); }
    }
  }

  lemma SoleAbsentLater(f: Facts, subjects: seq<string>, stale: string)
    requires subjects != [] && !AbsentAt(f, subjects, 0)
    ensures SoleAbsent(f, subjects, stale) <==> SoleAbsent(f, subjects[1..], stale)
  {
    var rest := subjects[1..];
    forall i ensures (AbsentAt(f, subjects, i) && i != 0 ==> AbsentAt(f, rest, i - 1))
      && (AbsentAt(f, rest, i) ==> AbsentAt(f, subjects, i + 1) && rest[i] == subjects[i + 1])
    {
      AbsentShifts(f, subjects, i);
    }
    if SoleAbsent(f, subjects, stale) {
      var i :| AbsentAt(f, subjects, i) && AfterColon(subjects[i]) == stale && forall j :: AbsentAt(f, subjects, j) ==> j == i;
      assert AbsentAt(f, rest, i - 1);
    }
    if SoleAbsent(f, rest, stale) {
      var i :| AbsentAt(f, rest, i) && AfterColon(rest[i]) == stale && forall j :: AbsentAt(f, rest, j) ==> j == i;
      assert AbsentAt(f, subjects, i + 1);
    }
  }

  lemma SoleAbsentFirst(f: Facts, subjects: seq<string>, stale: string)
    requires subjects != [] && AbsentAt(f, subjects, 0)
    ensures Absent(f, subjects) == [stale] <==> SoleAbsent(f, subjects, stale)
  {
    var rest := subjects[1..];
    NoneAbsentIff(f, rest);
    assert Absent(f, subjects) == [AfterColon(subjects[0])] + Absent(f, rest);
    if SoleAbsent(f, subjects, stale) {
      forall i ensures !AbsentAt(f, rest, i) { AbsentShifts(f, subjects, i); }
    }
    if Absent(f, subjects) == [stale] {
      assert Absent(f, subjects)[0] == stale && |Absent(f, rest)| == 0;
      forall j ensures AbsentAt(f, subjects, j) ==> j == 0 { AbsentShifts(f, subjects, j); }
    }
  }

  lemma MissingNonEmpty(f: Facts, subjects: seq<string>, hint: Hint)
    ensures forall e :: e in Missing(f, subjects, hint) ==> e != []
  {
    AbsentAreEntities(f, subjects);
  }

  function Rediscovered(f: Facts, subjects: seq<string>, hint: Hint): Rediscovery {
    var missing := Missing(f, subjects, hint);
    if |missing| != 1 then Ambiguous
    else
      MissingNonEmpty(f, subjects, hint);
      var stale := missing[0];
      assert stale in missing;
      var raw := Search(f, f.active, stale);
      var locations := if |raw| > MaxLocations then raw[..MaxLocations] else raw;
      var truncated := |raw| > MaxLocations;
      match Chosen(f.similar(stale), hint)
      case None => Rediscovery(Some(stale), None, locations, false, false, true, truncated)
      case Some(chosen) =>
        Rediscovery(Some(stale), Some(chosen), locations, f.stateOf(chosen).Some?,
                    Domain(stale) == Domain(chosen), false, truncated)
  }

  /** `rediscover_targets`: collects the absent subjects one by one. */
  method Rediscover(f: Facts, subjects: seq<string>, hint: Hint) returns (r: Rediscovery)
    ensures r == Rediscovered(f, subjects, hint)
  {
    var missing: seq<string> := [];
    var i := 0;
    while i < |subjects|
      invariant 0 <= i <= |subjects|
      invariant missing + Absent(f, subjects[i..]) == Absent(f, subjects)
    {
      var entity := AfterColon(subjects[i]);
      assert subjects[i..][1..] == subjects[i + 1..];
      if EntityId(entity) && f.stateOf(entity).None? { missing := missing + [entity]; }
      i := i + 1;
    }
    if missing == [] && hint.stale != "" && f.stateOf(hint.stale).None? { missing := [hint.stale]; }
    assert missing == Missing(f, subjects, hint);
    if |missing| != 1 { return Ambiguous; }
    MissingNonEmpty(f, subjects, hint);
    var stale := missing[0];
    assert stale in missing;
    var raw := Search(f, f.active, stale);
    var locations := if |raw| > MaxLocations then raw[..MaxLocations] else raw;
    var chosen := Chosen(f.similar(stale), hint);
    if chosen.None? {
      return Rediscovery(Some(stale), None, locations, false, false, true, |raw| > MaxLocations);
    }
    r := Rediscovery(Some(stale), Some(chosen.value), locations, f.stateOf(chosen.value).Some?,
                     Domain(stale) == Domain(chosen.value), false, |raw| > MaxLocations);
  }

  /** Without a hint, a usable target is the incident's sole absent subject and
      that subject's sole candidate; nothing else can be executed. */
  lemma NeutralTargetIsForced(f: Facts, subjects: seq<string>)
    requires Rediscovered(f, subjects, NoHint).Usable()
    ensures var r := Rediscovered(f, subjects, NoHint);
      Absent(f, subjects) == [r.stale.value] && f.similar(r.stale.value) == [r.replacement.value]
      && r.stale != r.replacement && r.stale.value != []
      && FromSubject(f, subjects, r.stale.value)
      && forall x :: x in r.locations ==> x.path in f.active && Mentions(f, x.path, r.stale.value)
  {
    AbsentAreEntities(f, subjects);
    var r := Rediscovered(f, subjects, NoHint);
    assert Absent(f, subjects)[0] in Absent(f, subjects);
    assert f.stateOf(r.stale.value) != f.stateOf(r.replacement.value);
  }

  /** Exactly when a target can be executed: one subject is absent, it has one
      candidate, which exists and is of its domain, and some file mentions it. */
  lemma NeutralUsableIff(f: Facts, subjects: seq<string>, stale: string, next: string)
    ensures var r := Rediscovered(f, subjects, NoHint);
      (r.Usable() && r.stale == Some(stale) && r.replacement == Some(next)) <==>
        SoleAbsent(f, subjects, stale) && f.similar(stale) == [next] && f.stateOf(next).Some?
        && Domain(stale) == Domain(next)
        && exists p :: p in f.active && p in f.files && p !in f.unreadable && TokenReplacement.Count(f.files[p], stale) > 0
  {
    SoleAbsentIff(f, subjects, stale);
    MissingNonEmpty(f, subjects, NoHint);
    if Absent(f, subjects) == [stale] {
      assert stale in Missing(f, subjects, NoHint);
      var raw := Search(f, f.active, stale);
      if raw != [] { assert raw[0] in raw && Mentions(f, raw[0].path, stale); }
      if p :| p in f.active && p in f.files && p !in f.unreadable && TokenReplacement.Count(f.files[p], stale) > 0 {
        assert Mentions(f, p, stale);
      }
    }
  }

  /** Which entity is taken to be stale; without one nothing at all is found. */
  lemma StaleIff(f: Facts, subjects: seq<string>, hint: Hint, stale: string)
    ensures Rediscovered(f, subjects, hint).stale == Some(stale) <==>
      SoleAbsent(f, subjects, stale)
      || ((forall i :: !AbsentAt(f, subjects, i)) && stale == hint.stale != "" && f.stateOf(stale).None?)
    ensures var r := Rediscovered(f, subjects, hint);
      r.stale.None? ==>
        r.ambiguous && r.replacement.None? && r.locations == [] && !r.replacementExists && !r.domainsCompatible && !r.truncated
  {
    SoleAbsentIff(f, subjects, stale);
    NoneAbsentIff(f, subjects);
    assert |Missing(f, subjects, hint)| == 1 ==> Missing(f, subjects, hint) == [Missing(f, subjects, hint)[0]];
  }

  /** With or without a hint, the replacement is one of the candidates: the hinted one
      if it is among them, else the only one there is. And of the files found the
      first 25 are looked at, which is said if there were more. */
  lemma HintOnlyChooses(f: Facts, subjects: seq<string>, hint: Hint)
    requires Rediscovered(f, subjects, hint).stale.Some? && Rediscovered(f, subjects, hint).stale.value != []
    ensures var r := Rediscovered(f, subjects, hint);
      var candidates := f.similar(r.stale.value);
      r.replacement ==
        (if hint.replacement != "" && hint.replacement in candidates then Some(hint.replacement)
         else if |candidates| == 1 then Some(candidates[0]) else None)
      && (r.ambiguous <==> r.replacement.None?)
      && (r.replacementExists <==> r.replacement.Some? && f.stateOf(r.replacement.value).Some?)
      && (r.domainsCompatible <==> r.replacement.Some? && Domain(r.replacement.value) == Domain(r.stale.value))
    ensures var r := Rediscovered(f, subjects, hint);
      var raw := Search(f, f.active, r.stale.value);
      (r.truncated <==> |raw| > 25) && |r.locations| == (if |raw| > 25 then 25 else |raw|)
      && forall i :: 0 <= i < |r.locations| ==> r.locations[i] == raw[i]
  {}

  lemma {:induction false} DomainEndsAt(e: string, dot: nat)
    requires dot < |e| && e[dot] == '.' && forall i :: 0 <= i < dot ==> e[i] != '.'
    ensures |Domain(e)| == dot
  {
    if dot > 0 { DomainEndsAt(e[1..], dot - 1); }
  }

  lemma {:induction false} DomainIsPrefix(e: string)
    ensures |Domain(e)| <= |e| && (forall i :: 0 <= i < |Domain(e)| ==> e[i] != '.')
    ensures |Domain(e)| < |e| ==> e[|Domain(e)|] == '.'
  {
    if e != [] && e[0] != '.' { DomainIsPrefix(e[1..]); }
  }

  /** An entity has a candidate exactly when its object id ends in `_2` to `_9` and
      what is before that exists; that is the candidate, and the only one. */
  lemma SuccessorIff(stateOf: string -> Option<string>, e: string, base: string)
    ensures base in Successors(stateOf)(e) <==>
      |e| == |base| + 2 && e[..|base|] == base && e[|base|] == '_' && '2' <= e[|base| + 1] <= '9'
      && '.' in base && stateOf(base).Some?
    ensures |Successors(stateOf)(e)| <= 1
  {
    DomainIsPrefix(e);
    if |e| == |base| + 2 && e[..|base|] == base && '.' in base {
      var i :| 0 <= i < |base| && base[i] == '.';
      assert e[i] == '.' && |Domain(e)| <= i;
    }
    if base in Successors(stateOf)(e) {
      assert base == e[..|e| - 2] && base[|Domain(e)|] == '.';
    }
  }

  /** The base of an entity id is a proper prefix that keeps its one dot, so it is an
      entity's identifier still and cannot contain the whole. */
  lemma SuccessorIsBase(stateOf: string -> Option<string>, e: string) returns (dot: nat)
    requires EntityId(e) && Successors(stateOf)(e) != []
    ensures TokenReplacement.BaseOf(e, Successors(stateOf)(e)[0], dot)
    ensures !TokenReplacement.Contains(Successors(stateOf)(e)[0], e)
    ensures TokenReplacement.AllIdent(e) && TokenReplacement.AllIdent(Successors(stateOf)(e)[0])
  {
    dot :| 0 < dot < |e| - 1 && e[dot] == '.'
      && (forall i :: 0 <= i < dot ==> DomainChar(e[i])) && (forall i :: dot < i < |e| ==> ObjectChar(e[i]));
    DomainEndsAt(e, dot);
    var base := Successors(stateOf)(e)[0];
    assert base == e[..|e| - 2];
    assert forall i :: 0 <= i < |e| && i != dot ==> TokenReplacement.Ident(e[i]) && e[i] != '.';
  }

  /** A hint brings in a stale entity of its own exactly when the incident has
      no absent subject; the neutral derivation that execution uses then finds
      nothing to execute. */
  lemma HintIntroducesTargetIff(f: Facts, subjects: seq<string>, hint: Hint)
    ensures var r := Rediscovered(f, subjects, hint);
      (r.stale.Some? && r.stale.value !in Absent(f, subjects))
      <==> Absent(f, subjects) == [] && hint.stale != "" && f.stateOf(hint.stale).None?
    ensures Absent(f, subjects) == [] ==> !Rediscovered(f, subjects, NoHint).Usable()
  {}

  // ---- Triage ------------------------------------------------------------

  datatype Status = RootCauseFound | NeedsMoreEvidence | BlockedByInvariant | ModelUnavailable | InvalidOutput

  datatype Kind = ReplaceStale | RemoveDead | DeviceOffline | Informational | External | Unknown

  /** What the investigator, hence possibly a model, came back with. */
  datatype Investigation = Investigation(
    status: Status, kind: Kind, hint: Hint, rationaleSevers: bool, cited: bool)

  datatype Disposition =
    | NoAction | InsufficientEvidence | ExternalAction | OperatorDecision | RepairCandidate | DispositionBlocked

  datatype Triaged = Triaged(
    disposition: Disposition, rediscovery: Option<Rediscovery>,
    authorized: Option<Authorized>, plan: Option<RepairPlan.Plan>)

  datatype Case = Case(
    incident: RepairPlan.Incident, subjects: seq<string>, informational: bool, weakEvidence: bool)

  /** How the house looks when the plan is read: files the path policy or the
      disk refuses, and which device ids a text can switch off. */
  datatype Reading = Reading(refused: set<string>, offTargets: string -> set<string>, createdAt: string)

  function Measured(f: Facts, r: Reading, stale: string, found: seq<Found>): Option<seq<RepairPlan.PlannedLocation>>
    requires stale != []
  {
    if found == [] then Some([])
    else
      var p := found[0].path;
      var rest := Measured(f, r, stale, found[1..]);
      if p in r.refused || p !in f.files || rest.None? then None
      else Some([RepairPlan.PlannedLocation(
                   p, TokenReplacement.Count(f.files[p], stale), RepairPlan.Digest(f.files[p]))] + rest.value)
  }

  /** The location with most occurrences, the first of them on a tie. */
  function Primary(found: seq<Found>): Found
    requires found != []
  {
    if |found| == 1 then found[0]
    else
      var best := Primary(found[1..]);
      if found[0].occurrences >= best.occurrences then found[0] else best
  }

  lemma {:induction false} PrimaryIsFirstLargest(found: seq<Found>) returns (i: nat)
    requires found != []
    ensures i < |found| && Primary(found) == found[i]
    ensures forall j :: 0 <= j < i ==> found[j].occurrences < found[i].occurrences
    ensures forall j :: i <= j < |found| ==> found[j].occurrences <= found[i].occurrences
  {
    if |found| == 1 { return 0; }
    var k := PrimaryIsFirstLargest(found[1..]);
    assert forall j :: 1 <= j < |found| ==> found[j] == found[1..][j - 1];
    i := if found[0].occurrences >= found[k + 1].occurrences then 0 else k + 1;
  }


  /** The non-mutating preview over the primary location reports a change it may make. */
  predicate DryRuns(f: Facts, r: Reading, registry: seq<Dependency>, stale: string, next: string, path: string)
    requires stale != []
  {
    path !in r.refused && path in f.files && TokenReplacement.Count(f.files[path], stale) > 0
    && var before := f.files[path];
       var added := r.offTargets(TokenReplacement.Replace(before, stale, next)) - r.offTargets(before);
       Authorize(registry, ReplaceReference, {stale, next}, added, false, false, "").decision != Blocked
  }

  /** The part of triage after the targets are settled: no investigation result
      is among its inputs except the wording handed to the authorization. */
  function Propose(f: Facts, r: Reading, registry: seq<Dependency>, c: Case, found: Rediscovery,
                   wordingSevers: bool, cited: bool): Triaged
    requires found.Usable() && found.stale.value != []
  {
    var stale, next := found.stale.value, found.replacement.value;
    var auth := Authorize(registry, ReplaceReference, {stale, next}, {}, wordingSevers, cited, "");
    if auth.decision == Blocked then Triaged(DispositionBlocked, Some(found), Some(auth), None)
    else
      var measured := Measured(f, r, stale, found.locations);
      var plan := if measured.None? then None
                  else Some(RepairPlan.BuildPlan(c.incident, "replace_stale_entity_reference", stale, next,
                              measured.value, RiskName(auth.risk), VerdictName(auth.verdict), r.createdAt));
      var ready := DryRuns(f, r, registry, stale, next, Primary(found.locations).path) && plan.Some?;
      Triaged(if ready then RepairCandidate else OperatorDecision, Some(found), Some(auth), plan)
  }

  function RiskName(r: Risk): string {
    match r
    case ReadOnly => "read_only" case SafeReversible => "safe_reversible"
    case ConfigMutation => "config_mutation" case RestartRequired => "restart_required"
    case PhysicalStateChange => "physical_state_change" case SecurityCritical => "security_critical"
    case Destructive => "destructive"
  }

  function VerdictName(v: Verdict): string {
    match v case Allowed => "allowed" case NeedsApproval => "requires_approval" case Severed => "blocked"
  }

  lemma StaleNonEmpty(f: Facts, subjects: seq<string>, hint: Hint)
    ensures Rediscovered(f, subjects, hint).Usable() ==> Rediscovered(f, subjects, hint).stale.value != []
  {
    MissingNonEmpty(f, subjects, hint);
    assert forall xs: seq<string> :: |xs| == 1 ==> xs[0] in xs;
  }

  function Triage(f: Facts, r: Reading, registry: seq<Dependency>, c: Case, inv: Investigation): Triaged {
    if c.informational then Triaged(NoAction, None, None, None)
    else
      var neutral := Rediscovered(f, c.subjects, NoHint);
      if inv.status == BlockedByInvariant then Triaged(DispositionBlocked, Some(neutral), None, None)
      else
        var usableModel := inv.status == RootCauseFound;
        var hint := if usableModel then inv.hint else NoHint;
        var hinted := Rediscovered(f, c.subjects, hint);
        var found := if !neutral.Usable() && hint != NoHint && hinted.Usable() then hinted else neutral;
        if !found.Usable() && !usableModel then Triaged(InsufficientEvidence, Some(found), None, None)
        else if !found.Usable() && inv.kind == External then Triaged(ExternalAction, Some(found), None, None)
        else if !found.Usable() && inv.kind in {DeviceOffline, Informational} then
          Triaged(NoAction, Some(found), None, None)
        else if c.weakEvidence || !found.Usable() then Triaged(OperatorDecision, Some(found), None, None)
        else
          StaleNonEmpty(f, c.subjects, NoHint);
          StaleNonEmpty(f, c.subjects, hint);
          Propose(f, r, registry, c, found, usableModel && inv.rationaleSevers, usableModel && inv.cited)
  }

  /** The target is settled, by the deterministic side alone or with a hint that an
      investigation which found a root cause may give. */
  ghost predicate Settled(f: Facts, c: Case, inv: Investigation) {
    Rediscovered(f, c.subjects, NoHint).Usable()
    || (inv.status == RootCauseFound && inv.hint != NoHint && Rediscovered(f, c.subjects, inv.hint).Usable())
  }

  /** The hint counts only where the deterministic side is at a loss. */
  ghost function TargetOf(f: Facts, c: Case, inv: Investigation): Rediscovery {
    var neutral := Rediscovered(f, c.subjects, NoHint);
    if !neutral.Usable() && Settled(f, c, inv) then Rediscovered(f, c.subjects, inv.hint) else neutral
  }

  lemma SettledEnds(f: Facts, r: Reading, registry: seq<Dependency>, c: Case, inv: Investigation)
    requires Settled(f, c, inv) && !c.informational
    ensures Triage(f, r, registry, c, inv).disposition in {DispositionBlocked, OperatorDecision, RepairCandidate}
  {}

  lemma UnsettledEnds(f: Facts, r: Reading, registry: seq<Dependency>, c: Case, inv: Investigation)
    requires !Settled(f, c, inv) && !c.informational
    ensures Triage(f, r, registry, c, inv).disposition ==
      match inv.status
      case BlockedByInvariant => DispositionBlocked
      case RootCauseFound =>
        if inv.kind == External then ExternalAction
        else if inv.kind == DeviceOffline || inv.kind == Informational then NoAction
        else OperatorDecision
      case _ => InsufficientEvidence
  {}

  /** How triage ends without a settled target, or without needing one. */
  lemma TriageStopsWhen(f: Facts, r: Reading, registry: seq<Dependency>, c: Case, inv: Investigation)
    ensures var d := Triage(f, r, registry, c, inv).disposition;
      (d == NoAction <==>
         c.informational
         || (!Settled(f, c, inv) && inv.status == RootCauseFound && (inv.kind == DeviceOffline || inv.kind == Informational)))
      && (d == ExternalAction <==>
            !c.informational && !Settled(f, c, inv) && inv.status == RootCauseFound && inv.kind == External)
      && (d == InsufficientEvidence <==>
            !c.informational && !Settled(f, c, inv)
            && (inv.status == NeedsMoreEvidence || inv.status == ModelUnavailable || inv.status == InvalidOutput))
  {
    if !c.informational {
      if Settled(f, c, inv) { SettledEnds(f, r, registry, c, inv); } else { UnsettledEnds(f, r, registry, c, inv); }
    }
  }

  /** Then it carries no plan; and whatever it found it found by these rules. */
  lemma TriageWithoutPlan(f: Facts, r: Reading, registry: seq<Dependency>, c: Case, inv: Investigation)
    ensures var t := Triage(f, r, registry, c, inv);
      (c.informational || inv.status == BlockedByInvariant || !Settled(f, c, inv) || c.weakEvidence ==>
            t.plan.None? && t.authorized.None? && t.disposition != RepairCandidate)
      && (!c.informational && inv.status != BlockedByInvariant ==> t.rediscovery == Some(TargetOf(f, c, inv)))
      && (c.informational || !Settled(f, c, inv) || c.weakEvidence ==>
            (t.disposition == DispositionBlocked <==> !c.informational && inv.status == BlockedByInvariant))
  {}

  ghost predicate Touches(registry: seq<Dependency>, targets: set<string>) {
    exists d :: d in registry && d.critical && !(d.protects !! targets)
  }

  lemma {:induction false} MeasuredIff(f: Facts, r: Reading, stale: string, found: seq<Found>)
    requires stale != []
    ensures Measured(f, r, stale, found).Some? <==> forall x :: x in found ==> x.path !in r.refused && x.path in f.files
    ensures Measured(f, r, stale, found).Some? ==>
      Measured(f, r, stale, found).value
      == seq(|found|, i requires 0 <= i < |found| =>
           if found[i].path in f.files
           then RepairPlan.PlannedLocation(found[i].path, TokenReplacement.Count(f.files[found[i].path], stale),
                                           RepairPlan.Digest(f.files[found[i].path]))
           else RepairPlan.PlannedLocation("", 0, RepairPlan.Digest("")))
  {
    if found != [] {
      MeasuredIff(f, r, stale, found[1..]);
      assert forall x :: x in found <==> x == found[0] || x in found[1..];
    }
  }

  /** The file has something to change, and changing it gains no power to switch
      anything off. */
  ghost predicate Harmless(f: Facts, r: Reading, stale: string, next: string, path: string)
    requires stale != []
  {
    path in f.files && TokenReplacement.Count(f.files[path], stale) > 0
    && forall e :: e in r.offTargets(TokenReplacement.Replace(f.files[path], stale, next)) ==> e in r.offTargets(f.files[path])
  }

  /** With a settled target and evidence to act on, triage proposes a plan: unless a
      critical chain is touched, whenever every file found can be read; and calls it a
      candidate when the preview of the largest file gains no power to switch anything
      off. */
  lemma TriageProposes(f: Facts, r: Reading, registry: seq<Dependency>, c: Case, inv: Investigation)
    requires !c.informational && inv.status != BlockedByInvariant && !c.weakEvidence && Settled(f, c, inv)
    ensures var t := Triage(f, r, registry, c, inv);
      var found := TargetOf(f, c, inv);
      var critical := Touches(registry, {found.stale.value, found.replacement.value});
      var readable := forall x :: x in found.locations ==> x.path !in r.refused && x.path in f.files;
      found.stale.value != []
      && (t.disposition == DispositionBlocked <==> critical)
      && (t.plan.Some? <==> !critical && readable)
      && (t.disposition == RepairCandidate <==>
            !critical && readable && Harmless(f, r, found.stale.value, found.replacement.value, Primary(found.locations).path))
      && (t.plan.Some? ==> t.plan.value.staleEntity == found.stale.value && t.plan.value.newEntity == found.replacement.value
                           && t.plan.value.incident == c.incident && t.plan.value.risk == "config_mutation")
  {
    var found := TargetOf(f, c, inv);
    StaleNonEmpty(f, c.subjects, NoHint);
    StaleNonEmpty(f, c.subjects, inv.hint);
    Proposal(f, r, registry, c, found, inv.status == RootCauseFound && inv.rationaleSevers,
             inv.status == RootCauseFound && inv.cited);
  }

  lemma Proposal(f: Facts, r: Reading, registry: seq<Dependency>, c: Case, found: Rediscovery, severs: bool, cited: bool)
    requires found.Usable() && found.stale.value != []
    ensures var t := Propose(f, r, registry, c, found, severs, cited);
      var critical := Touches(registry, {found.stale.value, found.replacement.value});
      var readable := forall x :: x in found.locations ==> x.path !in r.refused && x.path in f.files;
      (t.disposition == DispositionBlocked <==> critical)
      && (t.plan.Some? <==> !critical && readable)
      && (t.disposition == RepairCandidate <==>
            !critical && readable && Harmless(f, r, found.stale.value, found.replacement.value, Primary(found.locations).path))
      && (t.plan.Some? ==> t.plan.value.staleEntity == found.stale.value && t.plan.value.newEntity == found.replacement.value
                           && t.plan.value.incident == c.incident && t.plan.value.risk == "config_mutation")
  {
    var stale, next := found.stale.value, found.replacement.value;
    ReplacementBlockedIff(registry, {stale, next}, {}, severs, cited);
    MeasuredIff(f, r, stale, found.locations);
    var i := PrimaryIsFirstLargest(found.locations);
    assert found.locations[i] in found.locations;
    var path := found.locations[i].path;
    if path in f.files {
      var before := f.files[path];
      var added := r.offTargets(TokenReplacement.Replace(before, stale, next)) - r.offTargets(before);
      ReplacementBlockedIff(registry, {stale, next}, added, false, false);
      assert added == {} <==>
        forall e :: e in r.offTargets(TokenReplacement.Replace(before, stale, next)) ==> e in r.offTargets(before) by {
        forall e | added == {} && e in r.offTargets(TokenReplacement.Replace(before, stale, next))
          ensures e in r.offTargets(before)
        {
          assert e !in added;
        }
      }
    }
  }

  /** The plan proposed for a target that needs no hint, whatever the investigation said. */
  lemma NeutralProposal(f: Facts, r: Reading, registry: seq<Dependency>, c: Case, inv: Investigation, severs: bool)
    requires Rediscovered(f, c.subjects, NoHint).Usable() && Triage(f, r, registry, c, inv).plan.Some?
    ensures var found := Rediscovered(f, c.subjects, NoHint);
      var stale, next := found.stale.value, found.replacement.value;
      var auth := Authorize(registry, ReplaceReference, {stale, next}, {}, severs, false, "");
      stale != [] && Measured(f, r, stale, found.locations).Some?
      && Triage(f, r, registry, c, inv).plan.value
         == RepairPlan.BuildPlan(c.incident, "replace_stale_entity_reference", stale, next,
              Measured(f, r, stale, found.locations).value, RiskName(auth.risk), VerdictName(auth.verdict), r.createdAt)
  {
    var found := Rediscovered(f, c.subjects, NoHint);
    StaleNonEmpty(f, c.subjects, NoHint);
    WordingIsIgnored(registry, {found.stale.value, found.replacement.value}, {},
                     inv.status == RootCauseFound && inv.rationaleSevers, severs,
                     inv.status == RootCauseFound && inv.cited, false, "");
  }

  /** When the deterministic side can settle the target, no two investigations
      lead to different targets, plans or dispositions; all one of them can do
      is stop the repair. */
  lemma ModelCannotSteer(f: Facts, r: Reading, registry: seq<Dependency>, c: Case, a: Investigation, b: Investigation)
    requires Rediscovered(f, c.subjects, NoHint).Usable()
    ensures Triage(f, r, registry, c, a).rediscovery == Triage(f, r, registry, c, b).rediscovery
    ensures Triage(f, r, registry, c, a) != Triage(f, r, registry, c, b) ==>
      a.status != b.status && BlockedByInvariant in {a.status, b.status}
    ensures !c.informational && a.status == BlockedByInvariant ==>
      Triage(f, r, registry, c, a).disposition == DispositionBlocked && Triage(f, r, registry, c, a).plan.None?
  {
    if !c.informational && a.status != BlockedByInvariant && b.status != BlockedByInvariant && !c.weakEvidence {
      var found := Rediscovered(f, c.subjects, NoHint);
      StaleNonEmpty(f, c.subjects, NoHint);
      WordingIsIgnored(registry, {found.stale.value, found.replacement.value}, {},
                       a.status == RootCauseFound && a.rationaleSevers, b.status == RootCauseFound && b.rationaleSevers,
                       a.status == RootCauseFound && a.cited, b.status == RootCauseFound && b.cited, "");
    }
  }
}
