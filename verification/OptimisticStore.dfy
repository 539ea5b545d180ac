/** Many clients, one document: each loads it, thinks, and commits against the
    generation it loaded. */
module OptimisticStore {
  import opened Ordering
  import opened Repository

  // ---- Every interleaving -----------------------------------------------------

  /** `Reset` is removal or quarantine of the document: the next load starts from
      empty content at generation 0. */
  datatype Call =
    | Load(client: nat)
    | TryCommit(client: nat, mutation: Mutation)
    | Reset

  /** `epoch` counts removals. `committed` lists the commands that took effect since
      the last one, `states` the documents before, between and after them. A client
      remembers what it loaded, and we in which epoch. */
  datatype World = World(
    store: State, epoch: nat, loaded: map<nat, State>, loadedIn: map<nat, nat>,
    committed: seq<Mutation>, states: seq<State>)

  /** The attempt gets as far as replacing the document. */
  predicate Takes(w: World, c: Call) {
    c.TryCommit? && c.client in w.loaded && Apply(w.loaded[c.client], c.mutation).Some?
    && CommitRule(w.store, Apply(w.loaded[c.client], c.mutation).value, w.loaded[c.client].generation) == Committed
  }

  function Step(w: World, empty: State, c: Call): World {
    match c
    case Load(client) => w.(loaded := w.loaded[client := w.store], loadedIn := w.loadedIn[client := w.epoch])
    case TryCommit(client, m) =>
      if !Takes(w, c) then w
      else
        var next := Apply(w.loaded[client], m).value;
        w.(store := next, committed := w.committed + [m], states := w.states + [next])
    case Reset => w.(store := empty, epoch := w.epoch + 1, committed := [], states := [empty])
  }

  function Run(s: State, empty: State, cs: seq<Call>): World {
    if cs == [] then World(s, 0, map[], map[], [], [s]) else Step(Run(s, empty, cs[..|cs| - 1]), empty, cs[|cs| - 1])
  }

  /** One state per generation, and whatever was loaded in this epoch is one of them. */
  ghost predicate Ordered(w: World) {
    |w.states| == |w.committed| + 1 && w.store == w.states[|w.committed|]
    && (forall k :: 0 <= k < |w.states| ==> w.states[k].generation == w.states[0].generation + k)
    && w.loaded.Keys == w.loadedIn.Keys
    && (forall c :: c in w.loaded ==> w.loadedIn[c] <= w.epoch && (w.loadedIn[c] == w.epoch ==> w.loaded[c] in w.states))
  }

  ghost predicate Serial(w: World) {
    |w.states| == |w.committed| + 1
    && forall k :: 0 <= k < |w.committed| ==> Apply(w.states[k], w.committed[k]) == Some(w.states[k + 1])
  }

  lemma StepKeepsOrder(w: World, empty: State, c: Call)
    requires Ordered(w)
    ensures Ordered(Step(w, empty, c))
  {
    assert forall x :: x in w.states && !c.Reset? ==> x in Step(w, empty, c).states;
  }

  lemma {:induction false} RunsAreOrdered(s: State, empty: State, cs: seq<Call>)
    ensures Ordered(Run(s, empty, cs))
  {
    if cs != [] {
      RunsAreOrdered(s, empty, cs[..|cs| - 1]);
      StepKeepsOrder(Run(s, empty, cs[..|cs| - 1]), empty, cs[|cs| - 1]);
    }
  }

  /** The command was computed from the very state it replaces. */
  predicate Direct(w: World, c: Call)
    requires Takes(w, c)
  {
    w.loaded[c.client] == w.store
  }

  /** Since the last removal a generation identifies its state. */
  lemma EqualGenerationsForce(w: World, client: nat)
    requires Ordered(w) && client in w.loaded && w.loadedIn[client] == w.epoch
    requires w.loaded[client].generation == w.store.generation
    ensures w.loaded[client] == w.store
  {
    var k :| 0 <= k < |w.states| && w.states[k] == w.loaded[client];
  }

  /** An attempt that asks for the next generation takes effect exactly when the
      generations agree; computed from a load of this epoch it is then direct. */
  lemma TakesIff(s: State, empty: State, cs: seq<Call>, c: Call)
    requires var w := Run(s, empty, cs);
      c.TryCommit? && c.client in w.loaded && Apply(w.loaded[c.client], c.mutation).Some?
      && !(c.mutation.RevokeAi? && w.loaded[c.client].acknowledgement.None?)
    ensures var w := Run(s, empty, cs);
      c.client in w.loadedIn && w.loadedIn[c.client] <= w.epoch
      && (Takes(w, c) <==> w.loaded[c.client].generation == w.store.generation)
      && (Takes(w, c) && w.loadedIn[c.client] == w.epoch ==> Direct(w, c))
  {
    var w := Run(s, empty, cs);
    RunsAreOrdered(s, empty, cs);
    CommitsUnlessNothingToRevoke(w.loaded[c.client], c.mutation);
    if Takes(w, c) && w.loadedIn[c.client] == w.epoch { EqualGenerationsForce(w, c.client); }
  }

  /** Nothing committed in the run was computed from anything but what it replaced. */
  ghost predicate NothingLost(s: State, empty: State, cs: seq<Call>) {
    forall k {:trigger cs[k]} :: 0 <= k < |cs| && Takes(Run(s, empty, cs[..k]), cs[k]) ==> Direct(Run(s, empty, cs[..k]), cs[k])
  }

  /** Some client loaded before a removal and comes back when the generations have
      been climbed again, to a document that is not the one it loaded. */
  ghost predicate Revenant(w: World, c: Call) {
    c.TryCommit? && c.client in w.loaded && c.client in w.loadedIn && w.loadedIn[c.client] < w.epoch
    && w.loaded[c.client].generation == w.store.generation && w.loaded[c.client] != w.store
    && Apply(w.loaded[c.client], c.mutation).Some?
    && !(c.mutation.RevokeAi? && w.loaded[c.client].acknowledgement.None?)
  }

  lemma LostIffRevenant(s: State, empty: State, cs: seq<Call>, c: Call)
    ensures var w := Run(s, empty, cs); (Takes(w, c) && !Direct(w, c)) <==> Revenant(w, c)
  {
    var w := Run(s, empty, cs);
    RunsAreOrdered(s, empty, cs);
    if c.TryCommit? && c.client in w.loaded && Apply(w.loaded[c.client], c.mutation).Some? {
      CommitsUnlessNothingToRevoke(w.loaded[c.client], c.mutation);
      if !(c.mutation.RevokeAi? && w.loaded[c.client].acknowledgement.None?) { TakesIff(s, empty, cs, c); }
    }
  }

  /** Over every run, with any number of removals: no update is lost exactly when no
      client comes back from before a removal to a generation climbed again. */
  lemma NothingLostIff(s: State, empty: State, cs: seq<Call>)
    ensures NothingLost(s, empty, cs) <==> forall k :: 0 <= k < |cs| ==> !Revenant(Run(s, empty, cs[..k]), cs[k])
  {
    forall k | 0 <= k < |cs|
      ensures (Takes(Run(s, empty, cs[..k]), cs[k]) && !Direct(Run(s, empty, cs[..k]), cs[k]))
         <==> Revenant(Run(s, empty, cs[..k]), cs[k])
    {
      LostIffRevenant(s, empty, cs[..k], cs[k]);
    }
  }

  /** Then, since the last removal, each commit is its command applied to the state
      before it. */
  lemma {:induction false} NothingLostIsSerial(s: State, empty: State, cs: seq<Call>)
    requires NothingLost(s, empty, cs)
    ensures Serial(Run(s, empty, cs))
  {
    if cs != [] {
      var n := |cs| - 1;
      var before := cs[..n];
      assert forall k :: 0 <= k < n ==> before[..k] == cs[..k] && before[k] == cs[k];
      NothingLostIsSerial(s, empty, before);
      RunsAreOrdered(s, empty, before);
      SerialStep(Run(s, empty, before), empty, cs[n]);
    }
  }

  lemma SerialStep(w: World, empty: State, c: Call)
    requires Ordered(w) && Serial(w) && (Takes(w, c) ==> Direct(w, c))
    ensures Serial(Step(w, empty, c))
  {}

  lemma {:induction false} OneEpoch(s: State, empty: State, cs: seq<Call>)
    requires forall c :: c in cs ==> !c.Reset?
    ensures Run(s, empty, cs).epoch == 0 && |Run(s, empty, cs).states| > 0 && Run(s, empty, cs).states[0] == s
  {
    if cs != [] {
      assert cs == cs[..|cs| - 1] + [cs[|cs| - 1]] && cs[|cs| - 1] in cs;
      OneEpoch(s, empty, cs[..|cs| - 1]);
    }
  }

  /** No lost update. As long as the document is not removed, whatever the clients
      interleave, every commit that succeeds is its command applied to the very state
      it replaces: the document is always what the committed commands would have made
      of it one after another, and a generation identifies its state. */
  lemma NoLostUpdate(s: State, empty: State, cs: seq<Call>)
    requires forall c :: c in cs ==> !c.Reset?
    ensures NothingLost(s, empty, cs) && Ordered(Run(s, empty, cs)) && Serial(Run(s, empty, cs))
    ensures Run(s, empty, cs).states[0] == s
  {
    forall k | 0 <= k < |cs| ensures !Revenant(Run(s, empty, cs[..k]), cs[k]) {
      assert forall c :: c in cs[..k] ==> c in cs;
      OneEpoch(s, empty, cs[..k]);
    }
    NothingLostIff(s, empty, cs);
    NothingLostIsSerial(s, empty, cs);
    RunsAreOrdered(s, empty, cs);
    OneEpoch(s, empty, cs);
  }

  /** So the guarantees about commands in sequence hold for commands in any
      interleaving. */
  lemma {:induction false} SerialIsReplay(w: World, k: nat)
    requires Serial(w) && k <= |w.committed|
    ensures w.states[k] == Replay(w.states[0], w.committed[..k])
  {
    if k > 0 {
      SerialIsReplay(w, k - 1);
      assert w.committed[..k][..k - 1] == w.committed[..k - 1];
      assert Apply(w.states[k - 1], w.committed[k - 1]) == Some(w.states[k]);
    }
  }

  /** In particular one token is not applied twice by two callers who race. */
  lemma RacingTokensApplyOnce(s: State, empty: State, cs: seq<Call>, i: nat, j: nat)
    requires forall c :: c in cs ==> !c.Reset?
    requires |s.idempotency| <= MaxIdempotency && TokensUnique(s.idempotency)
    requires var ts := Traces(s, Run(s, empty, cs).committed); i < j < |ts| && ts[i].token == ts[j].token
    ensures j - i > 128
    ensures TokensUnique(Run(s, empty, cs).store.idempotency)
  {
    var w := Run(s, empty, cs);
    NoLostUpdate(s, empty, cs);
    SerialIsReplay(w, |w.committed|);
    WholeSequence(w.committed);
    AppliedOnceInWindow(s, w.committed, i, j);
    TokensStayUnique(s, w.committed);
  }

  /** A revenant: what was committed after the removal is gone. */
  lemma RemovalForgetsGenerations(s: State, empty: State, who: string, item: string)
    requires s.generation == 1 && empty.generation == 0 && s.acknowledgement.None? && item in s.workItems
    ensures var loaded := Step(World(s, 0, map[], map[], [], [s]), empty, Load(0));
      var again := Step(Step(loaded, empty, Reset), empty, Load(1));
      var acknowledged := Step(again, empty, TryCommit(1, AcknowledgeAi(who)));
      var overwritten := Step(acknowledged, empty, TryCommit(0, DecideWork(item, "kept")));
      Revenant(acknowledged, TryCommit(0, DecideWork(item, "kept")))
      && acknowledged.store.acknowledgement == Some(who)
      && overwritten.committed == [AcknowledgeAi(who), DecideWork(item, "kept")]
      && overwritten.store.acknowledgement.None?
  {}

  // ---- Retrying ---------------------------------------------------------------------

  /** What a caller computes from the state it loaded; nothing if it raises. */
  type Mutate = State -> Option<State>

  datatype Outcome = Done(next: State) | Raised | Refused | Exhausted

  /** The state asked for is not one generation further. */
  predicate StandsStill(m: Mutate, s: State) {
    m(s).Some? && m(s).value.generation != s.generation + 1
  }

  function Of(m: Mutation): Mutate {
    s => Apply(s, m)
  }

  /** Of all the commands only a revocation can stand still, when there is nothing
      to revoke: the documented no-op is refused by the store. */
  lemma OnlyEmptyRevocationStandsStill(m: Mutation, s: State)
    ensures StandsStill(Of(m), s) <==> m.RevokeAi? && s.acknowledgement.None?
  {}

  /** The store as one caller meets it; `writers` says whose each commit was. */
  class Store {
    var state: State
    ghost var history: seq<State>
    ghost var mutations: seq<Mutate>
    ghost var writers: seq<nat>

    ghost predicate Valid()
      reads this
    {
      |history| == |mutations| + 1 == |writers| + 1 && history[|mutations|] == state
      && (forall k :: 0 <= k < |mutations| ==> mutations[k](history[k]) == Some(history[k + 1]))
      && forall k :: 0 <= k < |history| ==> history[k].generation == history[0].generation + k
    }

    constructor (s: State)
      ensures Valid() && state == s && history == [s]
    {
      state, history, mutations, writers := s, [s], [], [];
    }

    method Load() returns (s: State)
      ensures s == state
    {
      s := state;
    }

    /** The history so far is not rewritten. */
    twostate predicate Extends()
      reads this
    {
      |old(history)| <= |history| && |old(writers)| <= |writers|
      && history[..|old(history)|] == old(history) && writers[..|old(writers)|] == old(writers)
    }

    method TryToCommit(ghost who: nat, ghost m: Mutate, next: State, expected: nat) returns (r: Commit)
      requires Valid() && (expected == state.generation ==> Some(next) == m(state))
      modifies this
      ensures Valid() && Extends() && r == CommitRule(old(state), next, expected)
      ensures r == Committed ==>
        history == old(history) + [next] && mutations == old(mutations) + [m] && writers == old(writers) + [who]
      ensures r != Committed ==>
        state == old(state) && history == old(history) && mutations == old(mutations) && writers == old(writers)
    {
      r := CommitRule(state, next, expected);
      if r == Committed {
        state := next;
        history, mutations, writers := history + [next], mutations + [m], writers + [who];
      }
    }

    /** Anything the other clients may do while this one is suspended. */
    method Others(ghost me: nat)
      requires Valid()
      modifies this
      ensures Valid() && Extends()
      ensures forall k :: |old(writers)| <= k < |writers| ==> writers[k] != me
      ensures |history| == |old(history)| ==> state == old(state)
    {
      var n: nat := *;
      ghost var them := me + 1;
      label start:
      while n > 0
        invariant Valid() && Extends@start()
        invariant forall k :: |old@start(writers)| <= k < |writers| ==> writers[k] != me
        invariant |history| == |old@start(history)| ==> state == old@start(state)
      {
        var m: Mutate := *;
        var next := m(state);
        if next.Some? { var _ := TryToCommit(them, m, next.value, state.generation); }
        n := n - 1;
      }
    }

    /** One round: load, compute, commit, with the others in between the two. */
    method Attempt(ghost me: nat, m: Mutate) returns (o: Outcome, ghost at: nat)
      requires Valid()
      modifies this
      ensures Valid() && Extends()
      ensures o.Done? ==>
        |old(writers)| <= at < |writers| && writers[at] == me && mutations[at] == m && history[at + 1] == o.next
      ensures forall k :: |old(writers)| <= k < |writers| && writers[k] == me ==> o.Done? && k == at
      ensures o.Raised? ==> |old(writers)| <= at < |history| && StandsStill(m, history[at])
      ensures o.Refused? ==> |old(writers)| <= at < |history| && m(history[at]).None?
      ensures o.Exhausted? ==> |history| >= |old(history)| + 1
    {
      var s := Load();
      at := |history| - 1;
      var next := m(s);
      if next.None? { return Refused, at; }
      ghost var seen := history;
      Others(me);
      assert history[..|seen|][at] == s;
      var r := TryToCommit(me, m, next.value, s.generation);
      match r
      case Committed => return Done(next.value), |writers| - 1;
      case Invalid =>
        return Raised, at;
      case Conflict => return Exhausted, at;
    }

    /** `_commit_with_retry` and its siblings: the command takes effect exactly once
        or not at all, and only a caller that lost to somebody else at every attempt
        gives up. */
    method CommitWithRetry(ghost me: nat, m: Mutate, attempts: nat) returns (o: Outcome, ghost at: nat)
      requires Valid()
      modifies this
      ensures Valid() && Extends()
      ensures o.Done? ==>
        |old(writers)| <= at < |writers| && writers[at] == me && mutations[at] == m && history[at + 1] == o.next
      ensures forall k :: |old(writers)| <= k < |writers| && writers[k] == me ==> o.Done? && k == at
      ensures o.Raised? ==> |old(writers)| <= at < |history| && StandsStill(m, history[at])
      ensures o.Refused? ==> |old(writers)| <= at < |history| && m(history[at]).None?
      ensures o.Exhausted? ==> |history| >= |old(history)| + attempts
    {
      o, at := Exhausted, 0;
      var i := 0;
      label start:
      while i < attempts
        invariant 0 <= i <= attempts && o == Exhausted
        invariant Valid() && Extends@start()
        invariant forall k :: |old@start(writers)| <= k < |writers| ==> writers[k] != me
        invariant |history| >= |old@start(history)| + i
      {
        Others(me);
        o, at := Attempt(me, m);
        if o != Exhausted { return; }
        i := i + 1;
      }
    }
  }
}
