/** One analyzer over one capture, cut into batches, run side by side, and helped by
    a cache: all of it is scheduling, and none of it may show in the result. */
module AnalyzerSupervisor {
  import opened Ordering
  import LruCache
  import Reconciliation

  type Candidate = Reconciliation.Candidate

  datatype Entity = Entity(id: string, revision: string)

  datatype Class = Covered | Excluded | Uncovered | Stale | Indeterminate

  /** An analyzer at one instant, with one reference index. It judges one entity at a
      time; `key` is the digest its outcomes are cached under. */
  datatype Analyzer = Analyzer(
    findings: Entity -> seq<Candidate>, classify: Entity -> Class,
    partitionId: seq<Entity> -> string, key: seq<Entity> -> LruCache.Key)

  const IdOf: Candidate -> string := (c: Candidate) => c.id

  datatype Outcome = Outcome(
    partitionId: string, findings: seq<Candidate>, covered: set<string>, excluded: set<string>,
    uncovered: set<string>, stale: set<string>, indeterminate: set<string>)

  function AllFindings(a: Analyzer, es: seq<Entity>): seq<Candidate> {
    if es == [] then [] else a.findings(es[0]) + AllFindings(a, es[1..])
  }

  function InClass(a: Analyzer, es: seq<Entity>, c: Class): set<string> {
    set e | e in es && a.classify(e) == c :: e.id
  }

  function Analyze(a: Analyzer, es: seq<Entity>): Outcome {
    Outcome(a.partitionId(es), SortBy(AllFindings(a, es), IdOf), InClass(a, es, Covered), InClass(a, es, Excluded),
            InClass(a, es, Uncovered), InClass(a, es, Stale), InClass(a, es, Indeterminate))
  }

  predicate Unique(es: seq<Entity>) {
    forall i, j :: 0 <= i < j < |es| ==> es[i].id != es[j].id
  }

  /** The constructors of a partition and of its outcome raise: a repeated entity, or
      a finding about a subject that is not covered. (Overlapping classes would take a
      repeated entity.) */
  predicate Refuses(a: Analyzer, es: seq<Entity>) {
    !Unique(es) || exists e, c :: e in es && c in a.findings(e) && c.subject !in InClass(a, es, Covered)
  }

  function Checked(a: Analyzer, es: seq<Entity>): Option<Outcome> {
    if Refuses(a, es) then None else Some(Analyze(a, es))
  }

  /** The analyzer speaks of the entity it is looking at. */
  ghost predicate OwnFindings(a: Analyzer) {
    forall e, c :: c in a.findings(e) ==> c.subject == e.id
  }

  // ---- Batches -------------------------------------------------------------------

  function Joined<T>(xss: seq<seq<T>>): seq<T> {
    if xss == [] then [] else Joined(xss[..|xss| - 1]) + xss[|xss| - 1]
  }

  /** Cuts the capture into batches that put back together are the capture. */
  method Partitions(es: seq<Entity>, size: nat) returns (batches: seq<seq<Entity>>)
    requires size > 0
    ensures Joined(batches) == es
    ensures forall i :: 0 <= i < |batches| ==> 0 < |batches[i]| <= size && (i < |batches| - 1 ==> |batches[i]| == size)
  {
    batches := [];
    var offset := 0;
    while offset < |es|
      invariant offset <= |es| && Joined(batches) == es[..offset]
      invariant forall i :: 0 <= i < |batches| ==> 0 < |batches[i]| <= size
      invariant forall i :: 0 <= i < |batches| ==> offset == |es| || |batches[i]| == size || i < |batches| - 1
      invariant forall i :: 0 <= i < |batches| - 1 ==> |batches[i]| == size
      invariant batches != [] && offset < |es| ==> |batches[|batches| - 1]| == size
      decreases |es| - offset
    {
      var end := if offset + size < |es| then offset + size else |es|;
      var batch := es[offset..end];
      assert (batches + [batch])[..|batches|] == batches;
      assert es[..offset] + batch == es[..end];
      batches := batches + [batch];
      offset := end;
    }
  }

  // ---- Running them ---------------------------------------------------------------

  function Answers(a: Analyzer, ps: seq<seq<Entity>>): seq<Outcome> {
    seq(|ps|, i requires 0 <= i < |ps| => Analyze(a, ps[i]))
  }

  /** What the cache key promises: it decides the outcome, raising included, at any
      instant and for any partition. */
  ghost predicate Keyed(a: Analyzer, truth: LruCache.Key -> Option<Outcome>) {
    forall p :: truth(a.key(p)) == Checked(a, p)
  }

  ghost predicate Sound(c: LruCache.Cache<Outcome>, truth: LruCache.Key -> Option<Outcome>)
    reads c
  {
    c.Valid() && forall k :: k in c.entries ==> truth(k) == Some(c.entries[k])
  }

  predicate AnyRefused(a: Analyzer, ps: seq<seq<Entity>>) {
    exists p :: p in ps && Refuses(a, p)
  }

  /** Analyzes the batches the cache does not know; results are gathered in the order
      of the batches, whichever finishes first, and one that raises raises for all. */
  method AnalyzeMissing(a: Analyzer, missing: seq<seq<Entity>>) returns (outcomes: Option<seq<Outcome>>)
    ensures outcomes == if AnyRefused(a, missing) then None else Some(Answers(a, missing))
  {
    var done: seq<Outcome> := [];
    for i := 0 to |missing|
      invariant done == Answers(a, missing[..i]) && !AnyRefused(a, missing[..i])
    {
      assert missing[..i + 1] == missing[..i] + [missing[i]];
      var outcome := Checked(a, missing[i]);
      if outcome.None? {
        assert missing[i] in missing;
        return None;
      }
      OneMore(a, missing[..i], missing[i]);
      done := done + [outcome.value];
    }
    WholeSequence(missing);
    outcomes := Some(done);
  }

  function Keys(a: Analyzer, ps: seq<seq<Entity>>): seq<LruCache.Key> {
    seq(|ps|, i requires 0 <= i < |ps| => a.key(ps[i]))
  }

  /** The batches whose key is among `known`, or those whose key is not. */
  function Select(a: Analyzer, ps: seq<seq<Entity>>, known: set<LruCache.Key>, hit: bool): seq<seq<Entity>> {
    if ps == [] then []
    else
      Select(a, ps[..|ps| - 1], known, hit)
      + if (a.key(ps[|ps| - 1]) in known) == hit then [ps[|ps| - 1]] else []
  }

  lemma {:induction false} SelectSplits(a: Analyzer, ps: seq<seq<Entity>>, known: set<LruCache.Key>)
    ensures multiset(Select(a, ps, known, true) + Select(a, ps, known, false)) == multiset(ps)
  {
    if ps != [] {
      var n := |ps| - 1;
      SelectSplits(a, ps[..n], known);
      assert ps == ps[..n] + [ps[n]];
      PartsGrow(Select(a, ps[..n], known, true), Select(a, ps[..n], known, false), ps[n]);
      var hit := a.key(ps[n]) in known;
      assert Select(a, ps, known, hit) == Select(a, ps[..n], known, hit) + [ps[n]];
      assert Select(a, ps, known, !hit) == Select(a, ps[..n], known, !hit) + [];
    }
  }

  lemma PartsGrow<T>(xs: seq<T>, ys: seq<T>, x: T)
    ensures multiset((xs + [x]) + ys) == multiset(xs + ys) + multiset{x} == multiset(xs + (ys + [x]))
  {}

  lemma SelectNext(a: Analyzer, ps: seq<seq<Entity>>, known: set<LruCache.Key>, hit: bool, i: nat)
    requires i < |ps|
    ensures Select(a, ps[..i + 1], known, hit)
         == Select(a, ps[..i], known, hit) + if (a.key(ps[i]) in known) == hit then [ps[i]] else []
  {
    assert ps[..i + 1][..i] == ps[..i];
  }

  lemma OneMore(a: Analyzer, ps: seq<seq<Entity>>, p: seq<Entity>)
    ensures Answers(a, ps + [p]) == Answers(a, ps) + [Analyze(a, p)]
    ensures Keys(a, ps + [p]) == Keys(a, ps) + [a.key(p)]
  {}

  method ServeHits(cache: LruCache.Cache<Outcome>, a: Analyzer, ps: seq<seq<Entity>>, ghost capacity: nat,
                   ghost truth: LruCache.Key -> Option<Outcome>)
    returns (outcomes: seq<Outcome>, missing: seq<seq<Entity>>)
    requires Sound(cache, truth) && Keyed(a, truth)
    modifies cache`order, cache`touches
    ensures Sound(cache, truth)
    ensures outcomes == Answers(a, Select(a, ps, cache.entries.Keys, true))
    ensures missing == Select(a, ps, cache.entries.Keys, false)
    ensures !AnyRefused(a, Select(a, ps, cache.entries.Keys, true))
    ensures cache.touches == old(cache.touches) + Keys(a, Select(a, ps, cache.entries.Keys, true))
    ensures capacity > 0 && old(cache.Lru(capacity)) ==> cache.Lru(capacity)
  {
    outcomes, missing := [], [];
    ghost var known := cache.entries.Keys;
    ghost var hits: seq<seq<Entity>> := [];
    for i := 0 to |ps|
      invariant Sound(cache, truth)
      invariant hits == Select(a, ps[..i], known, true) && missing == Select(a, ps[..i], known, false)
      invariant !AnyRefused(a, hits)
      invariant outcomes == Answers(a, hits) && cache.touches == old(cache.touches) + Keys(a, hits)
      invariant capacity > 0 && old(cache.Lru(capacity)) ==> cache.Lru(capacity)
    {
      SelectNext(a, ps, known, true, i);
      SelectNext(a, ps, known, false, i);
      var key := a.key(ps[i]);
      if key in cache.entries {
        OneMore(a, hits, ps[i]);
        cache.MoveToEnd(key, capacity);
        outcomes := outcomes + [cache.entries[key]];
        hits := hits + [ps[i]];
      } else {
        missing := missing + [ps[i]];
      }
    }
    WholeSequence(ps);
  }

  method StoreOutcomes(cache: LruCache.Cache<Outcome>, keys: seq<LruCache.Key>, outcomes: seq<Outcome>, capacity: nat,
                       ghost truth: LruCache.Key -> Option<Outcome>)
    requires Sound(cache, truth) && |keys| == |outcomes| && capacity > 0
    requires forall i :: 0 <= i < |keys| ==> truth(keys[i]) == Some(outcomes[i])
    modifies cache
    ensures Sound(cache, truth) && cache.touches == old(cache.touches) + keys
    ensures old(cache.Lru(capacity)) ==> cache.Lru(capacity)
  {
    for i := 0 to |keys|
      invariant Sound(cache, truth) && cache.touches == old(cache.touches) + keys[..i]
      invariant old(cache.Lru(capacity)) ==> cache.Lru(capacity)
    {
      assert keys[..i + 1] == keys[..i] + [keys[i]];
      cache.Put(keys[i], outcomes[i], capacity);
    }
    WholeSequence(keys);
  }

  lemma AnswersAreTrue(a: Analyzer, missing: seq<seq<Entity>>, truth: LruCache.Key -> Option<Outcome>)
    requires Keyed(a, truth) && !AnyRefused(a, missing)
    ensures forall i :: 0 <= i < |missing| ==> truth(Keys(a, missing)[i]) == Some(Answers(a, missing)[i])
  {
    forall i | 0 <= i < |missing| ensures truth(a.key(missing[i])) == Some(Analyze(a, missing[i])) {
      assert missing[i] in missing;
    }
  }

  /** `_run_partitions`: whatever the cache holds, the outcomes are the analyzer's for
      exactly these batches; the cache ends up having seen the hits in order and then
      the misses in order. It raises exactly when one of the batches does, and then
      has stored nothing. */
  method RunPartitions(cache: LruCache.Cache<Outcome>, a: Analyzer, ps: seq<seq<Entity>>, capacity: nat,
                       ghost truth: LruCache.Key -> Option<Outcome>)
    returns (outcomes: Option<seq<Outcome>>, processed: nat, skipped: nat)
    requires Sound(cache, truth) && Keyed(a, truth)
    modifies cache
    ensures Sound(cache, truth)
    ensures outcomes == if AnyRefused(a, ps) then None else Some(Answers(a, Seen(a, ps, old(cache.entries.Keys))))
    ensures outcomes.None? ==> cache.entries == old(cache.entries)
    ensures skipped == |Select(a, ps, old(cache.entries.Keys), true)| && processed + skipped == |ps|
    ensures outcomes.Some? && capacity > 0 ==> cache.touches == old(cache.touches) + Keys(a, Seen(a, ps, old(cache.entries.Keys)))
    ensures capacity > 0 && old(cache.Lru(capacity)) ==> cache.Lru(capacity)
  {
    ghost var known := cache.entries.Keys;
    SeenIsAll(a, ps, known);
    RefusedAmongSeen(a, ps, known);
    var hits, missing := ServeHits(cache, a, ps, capacity, truth);
    processed, skipped := |missing|, |ps| - |missing|;
    var completed := RunMissing(cache, a, missing, capacity, truth);
    if completed.None? { return None, processed, skipped; }
    ghost var served := Select(a, ps, known, true);
    AnswersJoin(a, served, missing);
    AppendTwice(old(cache.touches), Keys(a, served), Keys(a, missing));
    outcomes := Some(hits + completed.value);
  }

  lemma AppendTwice<T>(xs: seq<T>, ys: seq<T>, zs: seq<T>)
    ensures (xs + ys) + zs == xs + (ys + zs)
  {}

  method RunMissing(cache: LruCache.Cache<Outcome>, a: Analyzer, missing: seq<seq<Entity>>, capacity: nat,
                    ghost truth: LruCache.Key -> Option<Outcome>)
    returns (completed: Option<seq<Outcome>>)
    requires Sound(cache, truth) && Keyed(a, truth)
    modifies cache
    ensures Sound(cache, truth)
    ensures completed == if AnyRefused(a, missing) then None else Some(Answers(a, missing))
    ensures completed.None? ==> cache.entries == old(cache.entries)
    ensures completed.Some? && capacity > 0 ==> cache.touches == old(cache.touches) + Keys(a, missing)
    ensures capacity > 0 && old(cache.Lru(capacity)) ==> cache.Lru(capacity)
  {
    completed := AnalyzeMissing(a, missing);
    if completed.Some? && capacity > 0 {
      AnswersAreTrue(a, missing, truth);
      StoreOutcomes(cache, Keys(a, missing), completed.value, capacity, truth);
    }
  }

  lemma RefusedAmongSeen(a: Analyzer, ps: seq<seq<Entity>>, known: set<LruCache.Key>)
    ensures AnyRefused(a, ps) <==> AnyRefused(a, Select(a, ps, known, true)) || AnyRefused(a, Select(a, ps, known, false))
  {
    SeenIsAll(a, ps, known);
    SameBagSameSize(Seen(a, ps, known), ps);
  }

  /** The order outcomes come in: those from the cache first. */
  function Seen(a: Analyzer, ps: seq<seq<Entity>>, known: set<LruCache.Key>): seq<seq<Entity>> {
    Select(a, ps, known, true) + Select(a, ps, known, false)
  }

  lemma SeenIsAll(a: Analyzer, ps: seq<seq<Entity>>, known: set<LruCache.Key>)
    ensures multiset(Seen(a, ps, known)) == multiset(ps) && |Seen(a, ps, known)| == |ps|
  {
    SelectSplits(a, ps, known);
    assert |multiset(Seen(a, ps, known))| == |Seen(a, ps, known)| && |multiset(ps)| == |ps|;
  }

  lemma AnswersJoin(a: Analyzer, ps: seq<seq<Entity>>, qs: seq<seq<Entity>>)
    ensures Answers(a, ps) + Answers(a, qs) == Answers(a, ps + qs)
    ensures Keys(a, ps) + Keys(a, qs) == Keys(a, ps + qs)
  {}

  // ---- Reducing ----------------------------------------------------------------------

  datatype CoverageState = Complete | Partial | Unknown

  datatype Coverage = Coverage(
    state: CoverageState, requested: set<string>, covered: set<string>, excluded: set<string>,
    uncovered: set<string>, stale: set<string>, indeterminate: set<string>)

  datatype Result = Raised | Supervised(findings: seq<Candidate>, coverage: Coverage)

  const PartitionOf: Outcome -> string := (o: Outcome) => o.partitionId

  const CoveredOf: Outcome -> set<string> := (o: Outcome) => o.covered
  const ExcludedOf: Outcome -> set<string> := (o: Outcome) => o.excluded
  const UncoveredOf: Outcome -> set<string> := (o: Outcome) => o.uncovered
  const StaleOf: Outcome -> set<string> := (o: Outcome) => o.stale
  const IndeterminateOf: Outcome -> set<string> := (o: Outcome) => o.indeterminate

  function Gather(os: seq<Outcome>): seq<Candidate> {
    if os == [] then [] else Gather(os[..|os| - 1]) + os[|os| - 1].findings
  }

  function Union(os: seq<Outcome>, part: Outcome -> set<string>): set<string> {
    set o, x | o in os && x in part(o) :: x
  }

  predicate NoTwins(cs: seq<Candidate>) {
    forall i, j :: 0 <= i < j < |cs| ==> cs[i].id != cs[j].id
  }

  /** `_reduce`. Raises when a finding id occurs twice. */
  function Reduce(requested: set<string>, outcomes: seq<Outcome>): Result {
    var ordered := SortBy(outcomes, PartitionOf);
    var findings := SortBy(Gather(ordered), IdOf);
    if !NoTwins(findings) then Raised
    else
      var uncovered := Union(ordered, UncoveredOf);
      var stale := Union(ordered, StaleOf);
      var indeterminate := Union(ordered, IndeterminateOf);
      var state := if uncovered + stale + indeterminate == {} then Complete else Partial;
      Supervised(findings, Coverage(state, requested, Union(ordered, CoveredOf),
                                    Union(ordered, ExcludedOf), uncovered, stale, indeterminate))
  }

  function Ids(es: seq<Entity>): set<string> {
    set e | e in es :: e.id
  }

  lemma {:induction false} GatherRemoves(os: seq<Outcome>, i: nat)
    requires i < |os|
    ensures multiset(Gather(os)) == multiset(Gather(os[..i] + os[i + 1..])) + multiset(os[i].findings)
  {
    var n := |os| - 1;
    if i == n {
      assert os[..i] + os[i + 1..] == os[..n];
    } else {
      GatherRemoves(os[..n], i);
      RemovedBeforeLast(os, i);
      assert Gather(os) == Gather(os[..n]) + os[n].findings;
    }
  }

  lemma {:induction false} GatherPermutes(os: seq<Outcome>, qs: seq<Outcome>)
    requires multiset(os) == multiset(qs)
    ensures multiset(Gather(os)) == multiset(Gather(qs))
  {
    if os == [] {
      SameBagSameSize(os, qs);
    } else {
      var i := LastElsewhere(os, qs);
      GatherRemoves(qs, i);
      GatherPermutes(os[..|os| - 1], qs[..i] + qs[i + 1..]);
    }
  }

  lemma {:induction false} AllFindingsJoin(a: Analyzer, xs: seq<Entity>, ys: seq<Entity>)
    ensures AllFindings(a, xs + ys) == AllFindings(a, xs) + AllFindings(a, ys)
  {
    if xs == [] {
      assert xs + ys == ys;
    } else {
      assert (xs + ys)[1..] == xs[1..] + ys;
      AllFindingsJoin(a, xs[1..], ys);
    }
  }

  lemma {:induction false} BatchesFindTheSame(a: Analyzer, ps: seq<seq<Entity>>)
    ensures multiset(Gather(Answers(a, ps))) == multiset(AllFindings(a, Joined(ps)))
  {
    if ps != [] {
      var n := |ps| - 1;
      BatchesFindTheSame(a, ps[..n]);
      assert Answers(a, ps)[..n] == Answers(a, ps[..n]);
      AllFindingsJoin(a, Joined(ps[..n]), ps[n]);
      SortByIsSort(AllFindings(a, ps[n]), IdOf);
    }
  }

  lemma {:induction false} JoinedMembers(ps: seq<seq<Entity>>)
    ensures forall e :: e in Joined(ps) <==> exists p :: p in ps && e in p
  {
    if ps != [] {
      JoinedMembers(ps[..|ps| - 1]);
      assert ps == ps[..|ps| - 1] + [ps[|ps| - 1]];
    }
  }

  /** A part of the outcome that collects the ids of one class. */
  ghost predicate Collects(a: Analyzer, part: Outcome -> set<string>, c: Class) {
    forall p :: part(Analyze(a, p)) == InClass(a, p, c)
  }

  lemma UnionIsClass(a: Analyzer, ps: seq<seq<Entity>>, outcomes: seq<Outcome>, part: Outcome -> set<string>, c: Class)
    requires Collects(a, part, c) && multiset(outcomes) == multiset(Answers(a, ps))
    ensures Union(SortBy(outcomes, PartitionOf), part) == InClass(a, Joined(ps), c)
  {
    SortByIsSort(outcomes, PartitionOf);
    SameBagSameSize(SortBy(outcomes, PartitionOf), Answers(a, ps));
    JoinedMembers(ps);
    var u, k := Union(SortBy(outcomes, PartitionOf), part), InClass(a, Joined(ps), c);
    forall x | x in u ensures x in k {
      var o :| o in SortBy(outcomes, PartitionOf) && x in part(o);
      assert o in Answers(a, ps);
      var i :| 0 <= i < |ps| && Answers(a, ps)[i] == o;
      assert ps[i] in ps;
    }
    forall x | x in k ensures x in u {
      var e :| e in Joined(ps) && a.classify(e) == c && e.id == x;
      var p :| p in ps && e in p;
      var i :| 0 <= i < |ps| && ps[i] == p;
      assert Answers(a, ps)[i] in Answers(a, ps) && x in InClass(a, p, c);
    }
  }

  lemma TwinsAreBagProperty(xs: seq<Candidate>, ys: seq<Candidate>)
    requires multiset(xs) == multiset(ys)
    ensures NoTwins(SortBy(xs, IdOf)) == NoTwins(SortBy(ys, IdOf))
    ensures NoTwins(SortBy(xs, IdOf)) ==> SortBy(xs, IdOf) == SortBy(ys, IdOf)
  {
    SortByIsSort(xs, IdOf);
    SortByIsSort(ys, IdOf);
    var s, t := SortBy(xs, IdOf), SortBy(ys, IdOf);
    if NoTwins(s) {
      assert DistinctBy(s, IdOf);
      DistinctMember(s, t, IdOf);
      SortedUnique(s, t, IdOf);
    }
    if NoTwins(t) {
      assert DistinctBy(t, IdOf);
      DistinctMember(t, s, IdOf);
      SortedUnique(t, s, IdOf);
    }
  }

  lemma FindingsAgree(a: Analyzer, ps: seq<seq<Entity>>, outcomes: seq<Outcome>)
    requires multiset(outcomes) == multiset(Answers(a, ps))
    ensures multiset(Gather(SortBy(outcomes, PartitionOf))) == multiset(AllFindings(a, Joined(ps)))
  {
    SortByIsSort(outcomes, PartitionOf);
    GatherPermutes(SortBy(outcomes, PartitionOf), Answers(a, ps));
    BatchesFindTheSame(a, ps);
  }

  /** What reducing comes to when some batch may have raised. */
  function Reduced(a: Analyzer, ps: seq<seq<Entity>>, outcomes: seq<Outcome>, requested: set<string>): Result {
    if AnyRefused(a, ps) then Raised else Reduce(requested, outcomes)
  }

  /** Batch sizes, completion order and cache hits do not show: the outcomes of any
      batches of a capture, in any order, reduce to what analyzing the whole capture
      at once reduces to. The one raises exactly when the other does: over a finding
      about something uncovered, or over a repeated finding id. */
  lemma SchedulingIsInvisible(a: Analyzer, es: seq<Entity>, ps: seq<seq<Entity>>, outcomes: seq<Outcome>, requested: set<string>)
    requires OwnFindings(a) && Unique(es)
    requires Joined(ps) == es && multiset(outcomes) == multiset(Answers(a, ps))
    ensures Reduced(a, ps, outcomes, requested) == Reduced(a, [es], [Analyze(a, es)], requested)
    ensures AnyRefused(a, [es]) <==> Refuses(a, es)
  {
    RefusedPartwise(a, ps);
    assert es in [es];
    ReductionsAgree(a, es, ps, outcomes, requested);
  }

  lemma {:induction false} PiecesUnique(ps: seq<seq<Entity>>, p: seq<Entity>)
    requires Unique(Joined(ps)) && p in ps
    ensures Unique(p)
  {
    var n := |ps| - 1;
    var before, last := Joined(ps[..n]), ps[n];
    assert forall i :: 0 <= i < |before| ==> Joined(ps)[i] == before[i];
    assert forall i :: 0 <= i < |last| ==> Joined(ps)[|before| + i] == last[i];
    if p != last { PiecesUnique(ps[..n], p); }
  }

  lemma SameIdSameEntity(es: seq<Entity>, e: Entity, f: Entity)
    requires Unique(es) && e in es && f in es && e.id == f.id
    ensures e == f
  {}

  /** A capture is refused exactly when one of its batches is. */
  lemma RefusedPartwise(a: Analyzer, ps: seq<seq<Entity>>)
    requires OwnFindings(a) && Unique(Joined(ps))
    ensures AnyRefused(a, ps) <==> Refuses(a, Joined(ps))
  {
    var es := Joined(ps);
    JoinedMembers(ps);
    if Refuses(a, es) {
      var e, c :| e in es && c in a.findings(e) && c.subject !in InClass(a, es, Covered);
      var p :| p in ps && e in p;
      assert InClass(a, p, Covered) <= InClass(a, es, Covered);
      assert Refuses(a, p);
    }
    if AnyRefused(a, ps) {
      var p :| p in ps && Refuses(a, p);
      PiecesUnique(ps, p);
      var e, c :| e in p && c in a.findings(e) && c.subject !in InClass(a, p, Covered);
      forall f | f in es && f.id == e.id ensures a.classify(f) != Covered { SameIdSameEntity(es, e, f); }
      assert c.subject !in InClass(a, es, Covered);
    }
  }

  lemma ReductionsAgree(a: Analyzer, es: seq<Entity>, ps: seq<seq<Entity>>, outcomes: seq<Outcome>, requested: set<string>)
    requires Joined(ps) == es && multiset(outcomes) == multiset(Answers(a, ps))
    ensures Reduce(requested, outcomes) == Reduce(requested, [Analyze(a, es)])
  {
    WholeFindingsAgree(a, es, ps, outcomes);
    ClassesAgree(a, es, ps, outcomes, CoveredOf, Covered);
    ClassesAgree(a, es, ps, outcomes, ExcludedOf, Excluded);
    ClassesAgree(a, es, ps, outcomes, UncoveredOf, Uncovered);
    ClassesAgree(a, es, ps, outcomes, StaleOf, Stale);
    ClassesAgree(a, es, ps, outcomes, IndeterminateOf, Indeterminate);
  }

  lemma WholeFindingsAgree(a: Analyzer, es: seq<Entity>, ps: seq<seq<Entity>>, outcomes: seq<Outcome>)
    requires Joined(ps) == es && multiset(outcomes) == multiset(Answers(a, ps))
    ensures var f := SortBy(Gather(SortBy(outcomes, PartitionOf)), IdOf);
      var g := SortBy(Gather(SortBy([Analyze(a, es)], PartitionOf)), IdOf);
      NoTwins(f) == NoTwins(g) && (NoTwins(f) ==> f == g)
  {
    var one := [es];
    assert one[..0] == [] && Joined(one) == es;
    assert Answers(a, one) == [Analyze(a, es)];
    FindingsAgree(a, ps, outcomes);
    FindingsAgree(a, one, [Analyze(a, es)]);
    TwinsAreBagProperty(Gather(SortBy(outcomes, PartitionOf)), Gather(SortBy([Analyze(a, es)], PartitionOf)));
  }

  lemma ClassesAgree(a: Analyzer, es: seq<Entity>, ps: seq<seq<Entity>>, outcomes: seq<Outcome>, part: Outcome -> set<string>, c: Class)
    requires Joined(ps) == es && multiset(outcomes) == multiset(Answers(a, ps)) && Collects(a, part, c)
    ensures Union(SortBy(outcomes, PartitionOf), part) == Union(SortBy([Analyze(a, es)], PartitionOf), part)
  {
    UnionIsClass(a, ps, outcomes, part, c);
    UnionOfOne(a, es, part, c);
  }

  // ---- The supervisors -------------------------------------------------------------------

  /** Building a capture raises unless its entities are `Unique`. */
  datatype Capture = Capture(entities: seq<Entity>, consistent: bool, stale: bool, missingScopes: bool)

  function Unusable(c: Capture): Result {
    var requested := Ids(c.entities);
    Supervised([], Coverage(Unknown, requested, {}, {}, if c.stale then {} else requested, if c.stale then requested else {}, {}))
  }

  /** Everything at once, with no batches and no cache. */
  function Reference(a: Analyzer, c: Capture): Result {
    if !c.consistent || c.stale || c.missingScopes then Unusable(c)
    else if Refuses(a, c.entities) then Raised
    else Reduce(Ids(c.entities), [Analyze(a, c.entities)])
  }

  // ---- What a result says ----------------------------------------------------------------

  ghost predicate SharesId(xs: seq<Candidate>, ys: seq<Candidate>) {
    exists x, y :: x in xs && y in ys && x.id == y.id
  }

  ghost predicate RepeatsId(xs: seq<Candidate>) {
    exists i, j :: 0 <= i < j < |xs| && xs[i].id == xs[j].id
  }

  /** Something is found about an entity that is not covered, or under an id that
      something else is found under. */
  ghost predicate Unsound(a: Analyzer, es: seq<Entity>) {
    (exists e :: e in es && a.findings(e) != [] && a.classify(e) != Covered)
    || (exists e :: e in es && RepeatsId(a.findings(e)))
    || (exists e, f :: e in es && f in es && e != f && SharesId(a.findings(e), a.findings(f)))
  }

  /** The result holds what the analyzer found, in the order of its ids, and puts every
      entity where the analyzer put it; it is complete when none of them is a gap. */
  ghost predicate Assesses(a: Analyzer, es: seq<Entity>, r: Result) {
    r.Supervised?
    && (forall c :: c in r.findings <==> exists e :: e in es && c in a.findings(e))
    && (forall i, j :: 0 <= i < j < |r.findings| ==>
          Leq(r.findings[i].id, r.findings[j].id) && r.findings[i].id != r.findings[j].id)
    && r.coverage.requested == (set e | e in es :: e.id)
    && r.coverage.covered == (set e | e in es && a.classify(e) == Covered :: e.id)
    && r.coverage.excluded == (set e | e in es && a.classify(e) == Excluded :: e.id)
    && r.coverage.uncovered == (set e | e in es && a.classify(e) == Uncovered :: e.id)
    && r.coverage.stale == (set e | e in es && a.classify(e) == Stale :: e.id)
    && r.coverage.indeterminate == (set e | e in es && a.classify(e) == Indeterminate :: e.id)
    && r.coverage.state == if forall e :: e in es ==> a.classify(e) in {Covered, Excluded} then Complete else Partial
  }

  lemma {:induction false} AllFindingsMembers(a: Analyzer, es: seq<Entity>)
    ensures forall c :: c in AllFindings(a, es) <==> exists e :: e in es && c in a.findings(e)
  {
    if es != [] {
      AllFindingsMembers(a, es[1..]);
      assert forall e :: e in es <==> e == es[0] || e in es[1..];
      assert forall c :: c in AllFindings(a, es) <==> c in a.findings(es[0]) || c in AllFindings(a, es[1..]);
    }
  }

  lemma RepeatsJoin(xs: seq<Candidate>, ys: seq<Candidate>)
    ensures RepeatsId(xs + ys) <==> RepeatsId(xs) || RepeatsId(ys) || SharesId(xs, ys)
  {
    var all := xs + ys;
    if RepeatsId(all) {
      var i, j :| 0 <= i < j < |all| && all[i].id == all[j].id;
      if |xs| <= i { assert ys[i - |xs|].id == ys[j - |xs|].id; }
      else if |xs| <= j { assert xs[i] in xs && ys[j - |xs|] in ys; }
      else { assert xs[i].id == xs[j].id; }
    }
    if RepeatsId(xs) {
      var i, j :| 0 <= i < j < |xs| && xs[i].id == xs[j].id;
      assert all[i].id == all[j].id;
    }
    if RepeatsId(ys) {
      var i, j :| 0 <= i < j < |ys| && ys[i].id == ys[j].id;
      assert all[|xs| + i].id == all[|xs| + j].id;
    }
    if SharesId(xs, ys) {
      var x, y :| x in xs && y in ys && x.id == y.id;
      var i :| 0 <= i < |xs| && xs[i] == x;
      var j :| 0 <= j < |ys| && ys[j] == y;
      assert all[i].id == all[|xs| + j].id;
    }
  }

  lemma {:induction false} RepeatsAmong(a: Analyzer, es: seq<Entity>)
    requires Unique(es)
    ensures RepeatsId(AllFindings(a, es)) <==>
      (exists e :: e in es && RepeatsId(a.findings(e)))
      || (exists e, f :: e in es && f in es && e != f && SharesId(a.findings(e), a.findings(f)))
  {
    if es != [] {
      var e, rest := es[0], es[1..];
      assert forall f :: f in es <==> f == e || f in rest;
      assert e !in rest;
      RepeatsAmong(a, rest);
      RepeatsJoin(a.findings(e), AllFindings(a, rest));
      AllFindingsMembers(a, rest);
      assert SharesId(a.findings(e), AllFindings(a, rest)) <==> exists f :: f in rest && SharesId(a.findings(e), a.findings(f));
      assert forall f :: SharesId(a.findings(e), a.findings(f)) <==> SharesId(a.findings(f), a.findings(e));
    }
  }

  lemma TwinsRepeat(xs: seq<Candidate>)
    ensures NoTwins(SortBy(xs, IdOf)) <==> !RepeatsId(xs)
  {
    SortByIsSort(xs, IdOf);
    if NoTwins(SortBy(xs, IdOf)) {
      assert DistinctBy(SortBy(xs, IdOf), IdOf);
      DistinctMember(SortBy(xs, IdOf), xs, IdOf);
      assert forall i, j :: 0 <= i < j < |xs| ==> IdOf(xs[i]) != IdOf(xs[j]);
    }
    if !RepeatsId(xs) {
      assert DistinctBy(xs, IdOf);
      DistinctMember(xs, SortBy(xs, IdOf), IdOf);
      assert forall i, j :: 0 <= i < j < |SortBy(xs, IdOf)| ==> IdOf(SortBy(xs, IdOf)[i]) != IdOf(SortBy(xs, IdOf)[j]);
    }
  }

  /** The constructors raise exactly over a repeated entity or a finding about an id
      that no covered entity has. */
  lemma CheckedIff(a: Analyzer, es: seq<Entity>)
    requires OwnFindings(a)
    ensures Checked(a, es).None? <==>
      (exists i, j :: 0 <= i < j < |es| && es[i].id == es[j].id)
      || exists e :: e in es && a.findings(e) != [] && forall f :: f in es && f.id == e.id ==> a.classify(f) != Covered
  {
    if e :| e in es && a.findings(e) != [] && forall f :: f in es && f.id == e.id ==> a.classify(f) != Covered {
      var c := a.findings(e)[0];
      assert c in a.findings(e) && c.subject == e.id;
      assert c.subject !in InClass(a, es, Covered);
      assert Refuses(a, es);
    } else {
      forall e, c | e in es && c in a.findings(e) ensures c.subject in InClass(a, es, Covered) {
        assert a.findings(e) != [] && c.subject == e.id;
      }
    }
  }

  lemma RefusedOverUncovered(a: Analyzer, es: seq<Entity>)
    requires OwnFindings(a) && Unique(es)
    ensures Refuses(a, es) <==> exists e :: e in es && a.findings(e) != [] && a.classify(e) != Covered
  {
    CheckedIff(a, es);
    forall e, f | e in es && f in es && e.id == f.id ensures e == f { SameIdSameEntity(es, e, f); }
  }

  lemma ReducedFindings(a: Analyzer, es: seq<Entity>)
    ensures var fs := SortBy(Gather(SortBy([Analyze(a, es)], PartitionOf)), IdOf);
      multiset(fs) == multiset(AllFindings(a, es)) && SortedBy(fs, IdOf) && (NoTwins(fs) <==> !RepeatsId(AllFindings(a, es)))
  {
    var one := [es];
    assert one[..0] == [] && Joined(one) == es;
    assert Answers(a, one) == [Analyze(a, es)];
    var gathered := Gather(SortBy([Analyze(a, es)], PartitionOf));
    FindingsAgree(a, one, [Analyze(a, es)]);
    SortByIsSort(gathered, IdOf);
    SortByIsSort(AllFindings(a, es), IdOf);
    TwinsAreBagProperty(gathered, AllFindings(a, es));
    TwinsRepeat(AllFindings(a, es));
  }

  lemma ReducedCoverage(a: Analyzer, es: seq<Entity>)
    ensures var os := SortBy([Analyze(a, es)], PartitionOf);
      Union(os, CoveredOf) == InClass(a, es, Covered) && Union(os, ExcludedOf) == InClass(a, es, Excluded)
      && Union(os, UncoveredOf) == InClass(a, es, Uncovered) && Union(os, StaleOf) == InClass(a, es, Stale)
      && Union(os, IndeterminateOf) == InClass(a, es, Indeterminate)
  {
    UnionOfOne(a, es, CoveredOf, Covered);
    UnionOfOne(a, es, ExcludedOf, Excluded);
    UnionOfOne(a, es, UncoveredOf, Uncovered);
    UnionOfOne(a, es, StaleOf, Stale);
    UnionOfOne(a, es, IndeterminateOf, Indeterminate);
  }

  lemma GapsAre(a: Analyzer, es: seq<Entity>)
    ensures InClass(a, es, Uncovered) + InClass(a, es, Stale) + InClass(a, es, Indeterminate) == {} <==>
      forall e :: e in es ==> a.classify(e) in {Covered, Excluded}
  {
    var gaps := InClass(a, es, Uncovered) + InClass(a, es, Stale) + InClass(a, es, Indeterminate);
    forall e | e in es && a.classify(e) !in {Covered, Excluded} ensures e.id in gaps {
      assert e.id in InClass(a, es, a.classify(e));
    }
  }

  /** The reference in terms of the analyzer alone: when it raises, and what it says. */
  lemma ReferenceAssesses(a: Analyzer, es: seq<Entity>)
    requires OwnFindings(a) && Unique(es)
    ensures var r := if Refuses(a, es) then Raised else Reduce(Ids(es), [Analyze(a, es)]);
      if Unsound(a, es) then r == Raised else Assesses(a, es, r)
  {
    RefusedOverUncovered(a, es);
    RepeatsAmong(a, es);
    ReducedFindings(a, es);
    if !Unsound(a, es) {
      ReducedCoverage(a, es);
      ClassifiedAssess(a, es, SortBy(Gather(SortBy([Analyze(a, es)], PartitionOf)), IdOf));
    }
  }

  lemma ClassifiedAssess(a: Analyzer, es: seq<Entity>, fs: seq<Candidate>)
    requires multiset(fs) == multiset(AllFindings(a, es)) && SortedBy(fs, IdOf) && NoTwins(fs)
    ensures var gaps := InClass(a, es, Uncovered) + InClass(a, es, Stale) + InClass(a, es, Indeterminate);
      Assesses(a, es, Supervised(fs,
        Coverage(if gaps == {} then Complete else Partial, Ids(es), InClass(a, es, Covered), InClass(a, es, Excluded),
                 InClass(a, es, Uncovered), InClass(a, es, Stale), InClass(a, es, Indeterminate))))
  {
    GapsAre(a, es);
    AllFindingsMembers(a, es);
    forall c ensures c in fs <==> c in AllFindings(a, es) { assert c in multiset(fs) <==> c in multiset(AllFindings(a, es)); }
    forall i, j | 0 <= i < j < |fs| ensures Leq(fs[i].id, fs[j].id) { assert Leq(IdOf(fs[i]), IdOf(fs[j])); }
  }

  class Supervisor {
    const cache: LruCache.Cache<Outcome>

    constructor ()
      ensures fresh(cache) && cache.Valid() && cache.entries == map[] && forall n :: cache.Lru(n)
    {
      cache := new LruCache.Cache();
    }

    /** `async_evaluate`: for every batch size, cache size and earlier use the result
        is the reference result, which for a usable capture is what the analyzer says
        of it, and for another one nothing at all. */
    method Evaluate(a: Analyzer, c: Capture, batchSize: nat, capacity: nat, ghost truth: LruCache.Key -> Option<Outcome>)
      returns (r: Result)
      requires batchSize > 0 && Sound(cache, truth) && Keyed(a, truth) && OwnFindings(a) && Unique(c.entities)
      modifies cache
      ensures r == Reference(a, c)
      ensures c.consistent && !c.stale && !c.missingScopes ==>
        if Unsound(a, c.entities) then r == Raised else Assesses(a, c.entities, r)
      ensures !c.consistent || c.stale || c.missingScopes ==>
        r.Supervised? && r.findings == [] && r.coverage.state == Unknown
        && r.coverage.requested == (set e | e in c.entities :: e.id)
        && r.coverage.stale == (if c.stale then r.coverage.requested else {})
        && r.coverage.uncovered == (if c.stale then {} else r.coverage.requested)
        && r.coverage.covered == r.coverage.excluded == r.coverage.indeterminate == {}
      ensures Sound(cache, truth)
      ensures capacity > 0 && old(cache.Lru(capacity)) ==> cache.Lru(capacity)
    {
      ReferenceAssesses(a, c.entities);
      if !c.consistent || c.stale || c.missingScopes { return Unusable(c); }
      var batches := Partitions(c.entities, batchSize);
      ghost var known := cache.entries.Keys;
      var outcomes, processed, skipped := RunPartitions(cache, a, batches, capacity, truth);
      SeenIsAll(a, batches, known);
      SameAnswers(a, Seen(a, batches, known), batches);
      SchedulingIsInvisible(a, c.entities, batches, Answers(a, Seen(a, batches, known)), Ids(c.entities));
      r := if outcomes.None? then Raised else Reduce(Ids(c.entities), outcomes.value);
    }
  }

  lemma {:induction false} ImagesPermute<A, B>(xs: seq<A>, ys: seq<A>, f: A -> B, us: seq<B>, vs: seq<B>)
    requires multiset(xs) == multiset(ys)
    requires |us| == |xs| && forall i :: 0 <= i < |xs| ==> us[i] == f(xs[i])
    requires |vs| == |ys| && forall i :: 0 <= i < |ys| ==> vs[i] == f(ys[i])
    ensures multiset(us) == multiset(vs)
  {
    if xs == [] {
      SameBagSameSize(xs, ys);
    } else {
      var n := |xs| - 1;
      var i := LastElsewhere(xs, ys);
      var images := vs[..i] + vs[i + 1..];
      ImagesPermute(xs[..n], ys[..i] + ys[i + 1..], f, us[..n], images);
      BagWithout(vs, i);
      BagWithout(us, n);
      assert us[..n] + us[n + 1..] == us[..n];
    }
  }

  lemma SameAnswers(a: Analyzer, ps: seq<seq<Entity>>, qs: seq<seq<Entity>>)
    requires multiset(ps) == multiset(qs)
    ensures multiset(Answers(a, ps)) == multiset(Answers(a, qs))
  {
    ImagesPermute(ps, qs, (p: seq<Entity>) => Analyze(a, p), Answers(a, ps), Answers(a, qs));
  }

  /** Every coverage that assesses a capture classifies each of its entities exactly
      once and is complete only without gaps, so building the assessment never raises;
      and the findings have one candidate per id, as reconciliation expects. */
  lemma CoverageClassifiesEveryone(a: Analyzer, es: seq<Entity>, r: Result)
    requires Unique(es) && Assesses(a, es, r)
    ensures var v := r.coverage;
      v.covered + v.excluded + v.uncovered + v.stale + v.indeterminate == v.requested
      && v.covered !! v.excluded && v.covered !! v.uncovered && v.covered !! v.stale && v.covered !! v.indeterminate
      && v.excluded !! v.uncovered && v.excluded !! v.stale && v.excluded !! v.indeterminate
      && v.uncovered !! v.stale && v.uncovered !! v.indeterminate && v.stale !! v.indeterminate
      && v.state == (if v.uncovered == v.stale == v.indeterminate == {} then Complete else Partial)
    ensures !RepeatsId(r.findings)
  {
    forall e, f | e in es && f in es && e.id == f.id ensures e == f { SameIdSameEntity(es, e, f); }
    ClassesPartition(a, es);
    GapsAre(a, es);
    var v := r.coverage;
    assert v.covered == InClass(a, es, Covered) && v.excluded == InClass(a, es, Excluded)
      && v.uncovered == InClass(a, es, Uncovered) && v.stale == InClass(a, es, Stale)
      && v.indeterminate == InClass(a, es, Indeterminate) && v.requested == Ids(es);
  }

  /** There is one such result. */
  lemma OneAssessment(a: Analyzer, es: seq<Entity>, r: Result, q: Result)
    requires Assesses(a, es, r) && Assesses(a, es, q)
    ensures r == q
  {
    forall c ensures multiset(r.findings)[c] == multiset(q.findings)[c] {
      assert c in r.findings <==> c in q.findings;
      if c in r.findings {
        var i :| 0 <= i < |r.findings| && r.findings[i] == c;
        OnceCounted(r.findings, i, IdOf);
        var j :| 0 <= j < |q.findings| && q.findings[j] == c;
        OnceCounted(q.findings, j, IdOf);
      }
    }
    SortedUnique(r.findings, q.findings, IdOf);
  }

  lemma UnionOfOne(a: Analyzer, es: seq<Entity>, part: Outcome -> set<string>, c: Class)
    requires Collects(a, part, c)
    ensures Union(SortBy([Analyze(a, es)], PartitionOf), part) == InClass(a, es, c)
  {
    var one := [es];
    assert one[..0] == [] && Joined(one) == es;
    assert Answers(a, one) == [Analyze(a, es)];
    UnionIsClass(a, one, [Analyze(a, es)], part, c);
  }

  lemma ClassesPartition(a: Analyzer, es: seq<Entity>)
    requires forall e, f :: e in es && f in es && e.id == f.id ==> e == f
    ensures InClass(a, es, Covered) + InClass(a, es, Excluded) + InClass(a, es, Uncovered) + InClass(a, es, Stale)
            + InClass(a, es, Indeterminate) == Ids(es)
    ensures forall c, d :: c != d ==> InClass(a, es, c) !! InClass(a, es, d)
  {
    var all := InClass(a, es, Covered) + InClass(a, es, Excluded) + InClass(a, es, Uncovered) + InClass(a, es, Stale)
               + InClass(a, es, Indeterminate);
    forall x | x in Ids(es) ensures x in all {
      var e :| e in es && e.id == x;
      assert x in InClass(a, es, a.classify(e));
    }
  }

  // ---- Whole-collection analyzers ---------------------------------------------------------

  /** An analyzer that reads the whole capture in one go, or raises. */
  datatype Collection = Collection(analyze: Capture -> Option<Outcome>, key: Capture -> LruCache.Key)

  function Direct(outcome: Outcome): Result {
    if !NoTwins(outcome.findings) then Raised
    else
      var gaps := outcome.uncovered + outcome.stale + outcome.indeterminate;
      Supervised(outcome.findings,
        Coverage(if gaps == {} then Complete else Partial, outcome.covered + outcome.excluded + gaps,
                 outcome.covered, outcome.excluded, outcome.uncovered, outcome.stale, outcome.indeterminate))
  }

  /** The analyzer's outcome as it stands, complete when it has no gap; what was asked
      for is what it classified. */
  ghost predicate Reports(o: Outcome, r: Result) {
    (r.Raised? <==> RepeatsId(o.findings))
    && (r.Supervised? ==>
          var v := r.coverage;
          r.findings == o.findings && v.covered == o.covered && v.excluded == o.excluded && v.uncovered == o.uncovered
          && v.stale == o.stale && v.indeterminate == o.indeterminate
          && (forall e :: e in v.requested <==>
                e in o.covered || e in o.excluded || e in o.uncovered || e in o.stale || e in o.indeterminate)
          && v.state == if o.uncovered == {} && o.stale == {} && o.indeterminate == {} then Complete else Partial)
  }

  class WholeCollectionSupervisor {
    const cache: LruCache.Cache<Outcome>
    const capacity: nat

    constructor (capacity: nat)
      ensures this.capacity == capacity && fresh(cache) && cache.Valid() && cache.entries == map[] && cache.Lru(capacity)
    {
      this.capacity := capacity;
      cache := new LruCache.Cache();
    }

    /** The same cache discipline; a remembered outcome is the one that would have been
        computed. */
    method Evaluate(k: Collection, c: Capture, ghost truth: LruCache.Key -> Option<Outcome>) returns (r: Result)
      requires Sound(cache, truth) && forall d :: truth(k.key(d)) == k.analyze(d)
      modifies cache
      ensures r == if !c.consistent || c.stale || c.missingScopes
                   then Supervised([], Coverage(Unknown, {}, {}, {}, {}, {}, {}))
                   else if k.analyze(c).None? then Raised
                   else Direct(k.analyze(c).value)
      ensures c.consistent && !c.stale && !c.missingScopes && k.analyze(c).Some? ==>
        Reports(k.analyze(c).value, r)
      ensures c.consistent && !c.stale && !c.missingScopes && k.analyze(c).Some? && capacity > 0 ==>
        k.key(c) in cache.entries && cache.touches == old(cache.touches) + [k.key(c)]
      ensures !c.consistent || c.stale || c.missingScopes || k.analyze(c).None? ==>
        cache.entries == old(cache.entries) && cache.touches == old(cache.touches)
      ensures Sound(cache, truth)
      ensures capacity > 0 && old(cache.Lru(capacity)) ==> cache.Lru(capacity)
    {
      if !c.consistent || c.stale || c.missingScopes {
        return Supervised([], Coverage(Unknown, {}, {}, {}, {}, {}, {}));
      }
      var key := k.key(c);
      var outcome;
      if key in cache.entries {
        outcome := cache.entries[key];
        cache.MoveToEnd(key, capacity);
      } else {
        var answer := k.analyze(c);
        if answer.None? { return Raised; }
        outcome := answer.value;
        if capacity > 0 { cache.Put(key, outcome, capacity); }
      }
      r := Direct(outcome);
    }
  }
}
