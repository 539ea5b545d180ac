/** One scan at a time, one merged batch behind it, and a cancel that races both.
    Every stretch of code between two suspension points is one atomic action. */
module ScanCoordinator {
  import opened Ordering

  datatype Outcome = Waiting | Result(began: nat, triggers: set<string>) | Failed | Cancelled

  datatype Waiter = Waiter(registered: nat, trigger: string, outcome: Outcome)

  /** Where the task running `_run_loop` is suspended. */
  datatype Pc = Start | Executing | NotifyFailure | NotifyCancelled | AwaitLock | NotifyQueue | AwaitFinally | Done

  /** `due`: a cancellation will be raised at the point of suspension;
      `cancelled`: one has been requested at some time. */
  datatype Task = Task(pc: Pc, waiters: seq<nat>, triggers: set<string>, began: nat, due: bool, cancelled: bool)
  {
    predicate Live() { pc != AwaitFinally && pc != Done }
  }

  /** `cancels` holds the calls of `async_cancel` that have begun and not returned,
      each with the runner it waits for. */
  datatype State = State(
    runner: Option<nat>, active: seq<nat>, pending: seq<nat>, triggers: set<string>, cancelling: bool,
    tasks: map<nat, Task>, waiters: map<nat, Waiter>, cancels: map<nat, Option<nat>>, clock: nat)
  {
    predicate Busy() { runner.Some? && runner.value in tasks && tasks[runner.value].pc != Done }

    function Put(t: nat, task: Task): State { this.(tasks := tasks[t := task]) }
  }

  const Initial := State(None, [], [], {}, false, map[], map[], map[], 0)

  datatype Action =
    | Request(w: nat, t: nat, trigger: string)
    | CancelBegin(c: nat)
    | CancelAgain(c: nat)
    | CancelEnd(c: nat)
    | Begin(t: nat)
    | Succeed(t: nat)
    | Fail(t: nat)
    | FailureNotified(t: nat)
    | CancelNotified(t: nat)
    | TakeNext(t: nat)
    | Finish(t: nat)
    | RaiseCancel(t: nat)

  /** Completes those of `ids` that are not completed yet. */
  function Deliver(ws: map<nat, Waiter>, ids: seq<nat>, outcome: Outcome): map<nat, Waiter> {
    map w | w in ws :: if w in ids && ws[w].outcome == Waiting then ws[w].(outcome := outcome) else ws[w]
  }

  predicate At(s: State, t: nat, pcs: set<Pc>) {
    t in s.tasks && s.tasks[t].pc in pcs && !s.tasks[t].due
  }

  predicate Enabled(s: State, a: Action) {
    match a
    case Request(w, t, _) => w !in s.waiters && t !in s.tasks
    case CancelBegin(c) => c !in s.cancels
    case CancelAgain(c) =>
      c in s.cancels && s.cancels[c].Some? && s.cancels[c].value in s.tasks && s.tasks[s.cancels[c].value].pc != Done
    case CancelEnd(c) =>
      c in s.cancels && (s.cancels[c].Some? ==> s.cancels[c].value in s.tasks && s.tasks[s.cancels[c].value].pc == Done)
    case Begin(t) => At(s, t, {Start, NotifyQueue})
    case Succeed(t) => At(s, t, {Executing})
    case Fail(t) => At(s, t, {Executing})
    case FailureNotified(t) => At(s, t, {NotifyFailure})
    case CancelNotified(t) => At(s, t, {NotifyCancelled})
    case TakeNext(t) => At(s, t, {AwaitLock})
    case Finish(t) => At(s, t, {AwaitFinally})
    case RaiseCancel(t) => t in s.tasks && s.tasks[t].pc != Done && s.tasks[t].due
  }

  function Requested(s: State, w: nat, t: nat, trigger: string): State {
    if s.cancelling then s
    else
      var next := s.(waiters := s.waiters[w := Waiter(s.clock, trigger, Waiting)]);
      if !s.Busy() then
        next.(active := [w], runner := Some(t)).Put(t, Task(Start, [w], {trigger}, 0, false, false))
      else next.(triggers := s.triggers + {trigger}, pending := s.pending + [w])
  }

  function Emptied(s: State): State {
    s.(triggers := {}, waiters := Deliver(s.waiters, s.active + s.pending, Cancelled), active := [], pending := [])
  }

  function CancelBegun(s: State, c: nat): State {
    var next := Emptied(s).(cancelling := true);
    if !s.Busy() then next.(cancels := s.cancels[c := None])
    else
      var r := s.runner.value;
      next.(cancels := s.cancels[c := s.runner]).Put(r, s.tasks[r].(due := true, cancelled := true))
  }

  /** The caller of `async_cancel` is itself cancelled while it waits: the wait passes
      the cancellation on to the runner and goes on until the runner has ended. */
  function CancelledAgain(s: State, c: nat): State
    requires Enabled(s, CancelAgain(c))
  {
    var r := s.cancels[c].value;
    s.Put(r, s.tasks[r].(due := true))
  }

  function CancelEnded(s: State, c: nat): State {
    Emptied(s).(cancelling := false, cancels := s.cancels - {c})
  }

  function NextTaken(s: State, t: nat): State
    requires t in s.tasks
  {
    var task := s.tasks[t];
    if s.pending == [] then s.(active := [], runner := None).Put(t, task.(pc := AwaitFinally))
    else
      s.(active := s.pending, pending := [], triggers := {})
       .Put(t, task.(pc := NotifyQueue, waiters := s.pending, triggers := s.triggers))
  }

  function Finished(s: State, t: nat): State
    requires t in s.tasks
  {
    var next := s.Put(t, s.tasks[t].(pc := Done));
    if s.runner == Some(t) then next.(active := [], runner := None) else next
  }

  /** Where a cancellation raised at `pc` leads: a task that has not started just
      ends, a scan reports it, a wait for the lock in `finally` gives up clearing. */
  function AfterCancel(pc: Pc): Pc {
    match pc
    case Start => Done
    case Executing => NotifyCancelled
    case AwaitFinally => Done
    case _ => AwaitFinally
  }

  function Next(s: State, a: Action): State
    requires Enabled(s, a)
  {
    var after :=
      match a
      case Request(w, t, trigger) => Requested(s, w, t, trigger)
      case CancelBegin(c) => CancelBegun(s, c)
      case CancelAgain(c) => CancelledAgain(s, c)
      case CancelEnd(c) => CancelEnded(s, c)
      case Begin(t) => s.Put(t, s.tasks[t].(pc := Executing, began := s.clock))
      case Succeed(t) =>
        s.(waiters := Deliver(s.waiters, s.tasks[t].waiters, Result(s.tasks[t].began, s.tasks[t].triggers)))
         .Put(t, s.tasks[t].(pc := AwaitLock))
      case Fail(t) => s.Put(t, s.tasks[t].(pc := NotifyFailure))
      case FailureNotified(t) =>
        s.(waiters := Deliver(s.waiters, s.tasks[t].waiters, Failed)).Put(t, s.tasks[t].(pc := AwaitLock))
      case CancelNotified(t) =>
        s.(waiters := Deliver(s.waiters, s.tasks[t].waiters, Cancelled)).Put(t, s.tasks[t].(pc := AwaitFinally))
      case TakeNext(t) => NextTaken(s, t)
      case Finish(t) => Finished(s, t)
      case RaiseCancel(t) => s.Put(t, s.tasks[t].(pc := AfterCancel(s.tasks[t].pc), due := false));
    after.(clock := s.clock + 1)
  }

  /** What a task can do next depends on where it is suspended: one thing, except that
      a scan may succeed or fail; once a cancellation is due, nothing but that. */
  lemma TasksMayDo(s: State, t: nat, a: Action)
    requires t in s.tasks && !a.Request? && !a.CancelBegin? && !a.CancelAgain? && !a.CancelEnd? && a.t == t
    ensures Enabled(s, a) <==>
      if s.tasks[t].due then a.RaiseCancel? && s.tasks[t].pc != Done
      else match s.tasks[t].pc
           case Start => a.Begin?
           case Executing => a.Succeed? || a.Fail?
           case NotifyFailure => a.FailureNotified?
           case NotifyCancelled => a.CancelNotified?
           case AwaitLock => a.TakeNext?
           case NotifyQueue => a.Begin?
           case AwaitFinally => a.Finish?
           case Done => false
  {}

  /** Callers may come at any time; a cancel returns when the runner it waits for has
      ended, and can be cancelled until then. */
  lemma CallersMayDo(s: State, c: nat, w: nat, t: nat, trigger: string)
    ensures Enabled(s, Request(w, t, trigger)) <==> w !in s.waiters && t !in s.tasks
    ensures Enabled(s, CancelBegin(c)) <==> c !in s.cancels
    ensures c in s.cancels && s.cancels[c].None? ==> Enabled(s, CancelEnd(c)) && !Enabled(s, CancelAgain(c))
    ensures c in s.cancels && s.cancels[c].Some? && s.cancels[c].value in s.tasks ==>
      (Enabled(s, CancelEnd(c)) <==> s.tasks[s.cancels[c].value].pc == Done)
      && (Enabled(s, CancelAgain(c)) <==> s.tasks[s.cancels[c].value].pc != Done)
  {}

  // ---- The invariant -----------------------------------------------------------

  ghost predicate IsWaiting(s: State, w: nat) {
    w in s.waiters && s.waiters[w].outcome == Waiting
  }

  /** Only the runner can be running; who is not served by it is served by nobody. */
  ghost predicate OneRunner(s: State) {
    (s.runner.Some? ==> s.runner.value in s.tasks)
    && (forall t :: t in s.tasks && s.tasks[t].Live() ==> s.runner == Some(t))
    && (s.runner.None? ==> s.active == [])
    && (s.runner.Some? ==>
          var task := s.tasks[s.runner.value];
          (!task.Live() ==> task.cancelled)
          && (task.cancelled ==> s.active == [])
          && (forall w :: w in s.active ==> w in task.waiters))
  }

  ghost predicate Served(s: State) {
    (forall w :: w in s.active ==> w in s.waiters)
    && (forall w :: w in s.pending ==> IsWaiting(s, w) && w !in s.active && s.waiters[w].trigger in s.triggers)
    && (forall w :: IsWaiting(s, w) ==> w in s.active || w in s.pending)
    && (forall w :: w in s.waiters ==> s.waiters[w].registered < s.clock)
  }

  ghost predicate TaskOk(s: State, t: nat)
    requires t in s.tasks
  {
    var task := s.tasks[t];
    (forall w :: w in task.waiters ==> w in s.waiters && w !in s.pending && s.waiters[w].trigger in task.triggers)
    && (task.pc == Executing ==> forall w :: w in task.waiters ==> s.waiters[w].registered < task.began)
    && (task.pc == AwaitLock ==> forall w :: w in task.waiters ==> !IsWaiting(s, w))
    && (task.due ==> task.cancelled)
    && (task.cancelled && !task.due ==> task.pc in {NotifyCancelled, AwaitFinally, Done})
    && (task.pc == NotifyCancelled ==> task.cancelled)
    && (task.cancelled && task.pc != Done ==> exists c :: c in s.cancels && s.cancels[c] == Some(t))
  }

  ghost predicate Answered(s: State) {
    forall w :: w in s.waiters && s.waiters[w].outcome.Result? ==>
      s.waiters[w].registered < s.waiters[w].outcome.began && s.waiters[w].trigger in s.waiters[w].outcome.triggers
  }

  /** Somebody will still complete whoever is waiting: a runner that nobody has
      cancelled, or a cancel that has not returned. */
  ghost predicate Attended(s: State) {
    (forall w :: !IsWaiting(s, w))
    || s.cancels.Keys != {}
    || (s.runner.Some? && s.runner.value in s.tasks
        && s.tasks[s.runner.value].Live() && !s.tasks[s.runner.value].cancelled)
  }

  /** Whom a cancel waits for, it has cancelled. */
  ghost predicate CancelsOk(s: State) {
    forall c :: c in s.cancels && s.cancels[c].Some? ==>
      s.cancels[c].value in s.tasks && s.tasks[s.cancels[c].value].cancelled
  }

  ghost predicate Inv(s: State) {
    OneRunner(s) && Served(s) && Answered(s) && Attended(s) && CancelsOk(s) && forall t :: t in s.tasks ==> TaskOk(s, t)
  }

  lemma InitialInv()
    ensures Inv(Initial)
  {}

  /** Waiters keep who they are, and only ever go from waiting to answered. */
  ghost predicate Keeps(s: State, n: State) {
    n.clock == s.clock + 1
    && forall w :: w in s.waiters ==>
         w in n.waiters && n.waiters[w].registered == s.waiters[w].registered
         && n.waiters[w].trigger == s.waiters[w].trigger && (!IsWaiting(s, w) ==> n.waiters[w] == s.waiters[w])
  }

  lemma TaskStays(s: State, n: State, t: nat)
    requires t in s.tasks && t in n.tasks && n.tasks[t] == s.tasks[t] && TaskOk(s, t) && Keeps(s, n)
    requires forall w :: w in s.tasks[t].waiters ==> w !in n.pending
    requires s.tasks[t].pc != Done ==> forall c :: c in s.cancels && s.cancels[c] == Some(t) ==>
      c in n.cancels && n.cancels[c] == Some(t)
    ensures TaskOk(n, t)
  {
    assert forall w :: w in s.tasks[t].waiters ==> w in s.waiters;
  }

  predicate Cancels(a: Action) {
    a.CancelBegin? || a.CancelAgain? || a.CancelEnd?
  }

  predicate FromCaller(a: Action) {
    a.Request? || Cancels(a)
  }

  predicate Delivers(a: Action) {
    a.Succeed? || a.FailureNotified? || a.CancelNotified?
  }

  predicate Moves(a: Action) {
    !FromCaller(a) && !Delivers(a) && !a.TakeNext?
  }

  lemma CallersKeepIdentity(s: State, a: Action)
    requires Enabled(s, a) && FromCaller(a)
    ensures Keeps(s, Next(s, a))
  {}

  lemma TasksKeepIdentity(s: State, a: Action)
    requires Enabled(s, a) && !FromCaller(a)
    ensures Keeps(s, Next(s, a))
  {}

  lemma KeepsIdentity(s: State, a: Action)
    requires Enabled(s, a)
    ensures Keeps(s, Next(s, a))
  {
    if FromCaller(a) { CallersKeepIdentity(s, a); } else { TasksKeepIdentity(s, a); }
  }

  lemma RunnerByRequest(s: State, a: Action)
    requires Inv(s) && Enabled(s, a) && a.Request?
    ensures OneRunner(Next(s, a))
  {
    forall t | t in s.tasks ensures TaskOk(s, t) {}
  }

  lemma RunnerByCancel(s: State, a: Action)
    requires Inv(s) && Enabled(s, a) && Cancels(a)
    ensures OneRunner(Next(s, a))
  {
    forall t | t in s.tasks ensures TaskOk(s, t) {}
  }

  lemma RunnerByDelivery(s: State, a: Action)
    requires Inv(s) && Enabled(s, a) && Delivers(a)
    ensures OneRunner(Next(s, a))
  {
    forall t | t in s.tasks ensures TaskOk(s, t) {}
  }

  lemma RunnerByTakeNext(s: State, a: Action)
    requires Inv(s) && Enabled(s, a) && a.TakeNext?
    ensures OneRunner(Next(s, a))
  {
    forall t | t in s.tasks ensures TaskOk(s, t) {}
  }

  lemma RunnerByMove(s: State, a: Action)
    requires Inv(s) && Enabled(s, a) && Moves(a)
    ensures OneRunner(Next(s, a))
  {
    forall t | t in s.tasks ensures TaskOk(s, t) {}
  }

  lemma RunnerKept(s: State, a: Action)
    requires Inv(s) && Enabled(s, a)
    ensures OneRunner(Next(s, a))
  {
    if a.Request? { RunnerByRequest(s, a); }
    else if Cancels(a) { RunnerByCancel(s, a); }
    else if Delivers(a) { RunnerByDelivery(s, a); }
    else if a.TakeNext? { RunnerByTakeNext(s, a); }
    else { RunnerByMove(s, a); }
  }

  lemma ServedByRequest(s: State, a: Action)
    requires Inv(s) && Enabled(s, a) && a.Request?
    ensures Served(Next(s, a))
  {
    forall t | t in s.tasks ensures TaskOk(s, t) {}
  }

  lemma ServedByCancel(s: State, a: Action)
    requires Inv(s) && Enabled(s, a) && Cancels(a)
    ensures Served(Next(s, a))
  {
    forall t | t in s.tasks ensures TaskOk(s, t) {}
  }

  lemma ServedByDelivery(s: State, a: Action)
    requires Inv(s) && Enabled(s, a) && Delivers(a)
    ensures Served(Next(s, a))
  {
    forall t | t in s.tasks ensures TaskOk(s, t) {}
  }

  lemma ServedByTakeNext(s: State, a: Action)
    requires Inv(s) && Enabled(s, a) && a.TakeNext?
    ensures Served(Next(s, a))
  {
    forall t | t in s.tasks ensures TaskOk(s, t) {}
  }

  lemma ServedByMove(s: State, a: Action)
    requires Inv(s) && Enabled(s, a) && Moves(a)
    ensures Served(Next(s, a))
  {
    forall t | t in s.tasks ensures TaskOk(s, t) {}
  }

  lemma ServedKept(s: State, a: Action)
    requires Inv(s) && Enabled(s, a)
    ensures Served(Next(s, a))
  {
    if a.Request? { ServedByRequest(s, a); }
    else if Cancels(a) { ServedByCancel(s, a); }
    else if Delivers(a) { ServedByDelivery(s, a); }
    else if a.TakeNext? { ServedByTakeNext(s, a); }
    else { ServedByMove(s, a); }
  }

  lemma AnsweredByRequest(s: State, a: Action)
    requires Inv(s) && Enabled(s, a) && a.Request?
    ensures Answered(Next(s, a))
  {
    forall t | t in s.tasks ensures TaskOk(s, t) {}
  }

  lemma AnsweredByCancel(s: State, a: Action)
    requires Inv(s) && Enabled(s, a) && Cancels(a)
    ensures Answered(Next(s, a))
  {
    forall t | t in s.tasks ensures TaskOk(s, t) {}
  }

  lemma AnsweredByDelivery(s: State, a: Action)
    requires Inv(s) && Enabled(s, a) && Delivers(a)
    ensures Answered(Next(s, a))
  {
    forall t | t in s.tasks ensures TaskOk(s, t) {}
  }

  lemma AnsweredByTakeNext(s: State, a: Action)
    requires Inv(s) && Enabled(s, a) && a.TakeNext?
    ensures Answered(Next(s, a))
  {
    forall t | t in s.tasks ensures TaskOk(s, t) {}
  }

  lemma AnsweredByMove(s: State, a: Action)
    requires Inv(s) && Enabled(s, a) && Moves(a)
    ensures Answered(Next(s, a))
  {
    forall t | t in s.tasks ensures TaskOk(s, t) {}
  }

  lemma AnsweredKept(s: State, a: Action)
    requires Inv(s) && Enabled(s, a)
    ensures Answered(Next(s, a))
  {
    if a.Request? { AnsweredByRequest(s, a); }
    else if Cancels(a) { AnsweredByCancel(s, a); }
    else if Delivers(a) { AnsweredByDelivery(s, a); }
    else if a.TakeNext? { AnsweredByTakeNext(s, a); }
    else { AnsweredByMove(s, a); }
  }

  lemma AttendedByRequest(s: State, a: Action)
    requires Inv(s) && Enabled(s, a) && a.Request?
    ensures Attended(Next(s, a))
  {
    forall t | t in s.tasks ensures TaskOk(s, t) {}
  }

  lemma AttendedByCancel(s: State, a: Action)
    requires Inv(s) && Enabled(s, a) && Cancels(a)
    ensures Attended(Next(s, a))
  {
    forall t | t in s.tasks ensures TaskOk(s, t) {}
  }

  lemma AttendedByDelivery(s: State, a: Action)
    requires Inv(s) && Enabled(s, a) && Delivers(a)
    ensures Attended(Next(s, a))
  {
    forall t | t in s.tasks ensures TaskOk(s, t) {}
  }

  lemma AttendedByTakeNext(s: State, a: Action)
    requires Inv(s) && Enabled(s, a) && a.TakeNext?
    ensures Attended(Next(s, a))
  {
    forall t | t in s.tasks ensures TaskOk(s, t) {}
  }

  lemma AttendedByMove(s: State, a: Action)
    requires Inv(s) && Enabled(s, a) && Moves(a)
    ensures Attended(Next(s, a))
  {
    forall t | t in s.tasks ensures TaskOk(s, t) {}
  }

  lemma AttendedKept(s: State, a: Action)
    requires Inv(s) && Enabled(s, a)
    ensures Attended(Next(s, a))
  {
    if a.Request? { AttendedByRequest(s, a); }
    else if Cancels(a) { AttendedByCancel(s, a); }
    else if Delivers(a) { AttendedByDelivery(s, a); }
    else if a.TakeNext? { AttendedByTakeNext(s, a); }
    else { AttendedByMove(s, a); }
  }

  lemma TasksGrow(s: State, a: Action)
    requires Enabled(s, a)
    ensures forall t :: t in s.tasks ==>
      t in Next(s, a).tasks && (s.tasks[t].cancelled ==> Next(s, a).tasks[t].cancelled)
  {}

  lemma CancelsWere(s: State, a: Action)
    requires Enabled(s, a)
    ensures forall c :: c in Next(s, a).cancels && (a.CancelBegin? ==> c != a.c) ==>
      c in s.cancels && Next(s, a).cancels[c] == s.cancels[c]
  {}

  lemma NewCancelWaitsForCancelled(s: State, c: nat)
    requires Enabled(s, CancelBegin(c))
    ensures var n := Next(s, CancelBegin(c));
      c in n.cancels && (n.cancels[c].Some? ==> n.cancels[c].value in n.tasks && n.tasks[n.cancels[c].value].cancelled)
  {}

  lemma CancelsKept(s: State, a: Action)
    requires Inv(s) && Enabled(s, a)
    ensures CancelsOk(Next(s, a))
  {
    TasksGrow(s, a);
    CancelsWere(s, a);
    if a.CancelBegin? { NewCancelWaitsForCancelled(s, a.c); }
  }

  lemma PendingFrom(s: State, a: Action)
    requires Enabled(s, a)
    ensures forall w :: w in Next(s, a).pending ==> w in s.pending || w !in s.waiters
  {}

  lemma CancelsFrom(s: State, a: Action, t: nat)
    requires Enabled(s, a) && t in s.tasks && s.tasks[t].pc != Done
    ensures forall c :: c in s.cancels && s.cancels[c] == Some(t) ==>
      c in Next(s, a).cancels && Next(s, a).cancels[c] == Some(t)
  {}

  lemma OtherTaskKept(s: State, a: Action, t: nat)
    requires Inv(s) && Enabled(s, a) && t in s.tasks && t in Next(s, a).tasks && Next(s, a).tasks[t] == s.tasks[t]
    ensures TaskOk(Next(s, a), t)
  {
    var n := Next(s, a);
    assert TaskOk(s, t);
    KeepsIdentity(s, a);
    PendingFrom(s, a);
    assert forall w :: w in s.tasks[t].waiters ==> w in s.waiters && w !in s.pending && w !in n.pending;
    if s.tasks[t].pc != Done { CancelsFrom(s, a, t); }
    TaskStays(s, n, t);
  }

  lemma TaskByRequest(s: State, a: Action, t: nat)
    requires Inv(s) && Enabled(s, a) && a.Request? && t in Next(s, a).tasks
    requires t in s.tasks ==> Next(s, a).tasks[t] != s.tasks[t]
    ensures TaskOk(Next(s, a), t)
  {}

  lemma CancelledTask(s: State, a: Action, t: nat)
    requires Inv(s) && Enabled(s, a) && Cancels(a) && t in Next(s, a).tasks
    requires t in s.tasks ==> Next(s, a).tasks[t] != s.tasks[t]
    ensures t in s.tasks && Next(s, a).tasks[t] == s.tasks[t].(due := true, cancelled := true)
    ensures exists c :: c in Next(s, a).cancels && Next(s, a).cancels[c] == Some(t)
  {
    assert a.c in Next(s, a).cancels;
  }

  lemma TaskByCancel(s: State, a: Action, t: nat)
    requires Inv(s) && Enabled(s, a) && Cancels(a) && t in Next(s, a).tasks
    requires t in s.tasks ==> Next(s, a).tasks[t] != s.tasks[t]
    ensures TaskOk(Next(s, a), t)
  {
    CancelledTask(s, a, t);
    assert TaskOk(s, t);
    KeepsIdentity(s, a);
  }

  lemma TaskByDelivery(s: State, a: Action)
    requires Inv(s) && Enabled(s, a) && Delivers(a)
    ensures TaskOk(Next(s, a), a.t)
  {
    assert TaskOk(s, a.t);
    KeepsIdentity(s, a);
  }

  lemma TaskByMove(s: State, a: Action)
    requires Inv(s) && Enabled(s, a) && Moves(a)
    ensures TaskOk(Next(s, a), a.t)
  {
    assert TaskOk(s, a.t);
    KeepsIdentity(s, a);
  }

  lemma TaskByTakeNext(s: State, t: nat)
    requires Inv(s) && Enabled(s, TakeNext(t))
    ensures TaskOk(Next(s, TakeNext(t)), t)
  {
    assert TaskOk(s, t);
    assert forall w :: w in s.tasks[t].waiters ==> w in s.waiters;
  }

  lemma StepKeepsInv(s: State, a: Action)
    requires Inv(s) && Enabled(s, a)
    ensures Inv(Next(s, a))
  {
    RunnerKept(s, a);
    ServedKept(s, a);
    AnsweredKept(s, a);
    AttendedKept(s, a);
    CancelsKept(s, a);
    forall t | t in Next(s, a).tasks ensures TaskOk(Next(s, a), t) { TaskKept(s, a, t); }
  }

  lemma OnlyOwnTaskChanges(s: State, a: Action, t: nat)
    requires Enabled(s, a) && !FromCaller(a) && t in Next(s, a).tasks
    ensures t in s.tasks && (t != a.t ==> Next(s, a).tasks[t] == s.tasks[t])
  {}

  lemma TaskKept(s: State, a: Action, t: nat)
    requires Inv(s) && Enabled(s, a) && t in Next(s, a).tasks
    ensures TaskOk(Next(s, a), t)
  {
    if FromCaller(a) {
      if t in s.tasks && Next(s, a).tasks[t] == s.tasks[t] { OtherTaskKept(s, a, t); }
      else if a.Request? { TaskByRequest(s, a, t); }
      else { TaskByCancel(s, a, t); }
    } else {
      OnlyOwnTaskChanges(s, a, t);
      if t != a.t { OtherTaskKept(s, a, t); }
      else if Delivers(a) { TaskByDelivery(s, a); }
      else if a.TakeNext? { TaskByTakeNext(s, t); }
      else { TaskByMove(s, a); }
    }
  }

  // ---- Runs -----------------------------------------------------------------------

  /** The state after any interleaving, or nothing if the actions are not one. */
  function After(acts: seq<Action>): Option<State> {
    if acts == [] then Some(Initial)
    else
      var before := After(acts[..|acts| - 1]);
      var a := acts[|acts| - 1];
      if before.Some? && Enabled(before.value, a) then Some(Next(before.value, a)) else None
  }

  lemma OneMore(acts: seq<Action>, a: Action)
    requires After(acts).Some? && Enabled(After(acts).value, a)
    ensures After(acts + [a]) == Some(Next(After(acts).value, a))
  {
    assert (acts + [a])[..|acts|] == acts;
  }

  lemma {:induction false} Reachable(acts: seq<Action>)
    requires After(acts).Some?
    ensures Inv(After(acts).value) && After(acts).value.clock == |acts|
  {
    if acts == [] {
      InitialInv();
    } else {
      Reachable(acts[..|acts| - 1]);
      StepKeepsInv(After(acts[..|acts| - 1]).value, acts[|acts| - 1]);
    }
  }

  lemma SingleFlight(acts: seq<Action>, t: nat, u: nat)
    requires After(acts).Some? && t in After(acts).value.tasks && u in After(acts).value.tasks
    requires After(acts).value.tasks[t].pc == Executing == After(acts).value.tasks[u].pc
    ensures t == u
  {
    Reachable(acts);
  }

  /** Times are positions in the run: who registered when, which scan began when. */
  ghost predicate Dated(acts: seq<Action>, s: State) {
    WaitersDated(acts, s) && ScansDated(acts, s) && ResultsDated(acts, s)
  }

  ghost predicate WaitersDated(acts: seq<Action>, s: State) {
    forall w :: w in s.waiters ==>
      s.waiters[w].registered < |acts| && acts[s.waiters[w].registered].Request?
      && acts[s.waiters[w].registered].w == w && acts[s.waiters[w].registered].trigger == s.waiters[w].trigger
  }

  ghost predicate ScansDated(acts: seq<Action>, s: State) {
    forall t :: t in s.tasks && s.tasks[t].pc == Executing ==>
      s.tasks[t].began < |acts| && acts[s.tasks[t].began] == Begin(t)
  }

  ghost predicate ResultsDated(acts: seq<Action>, s: State) {
    forall w :: w in s.waiters && s.waiters[w].outcome.Result? ==>
      s.waiters[w].outcome.began < |acts| && acts[s.waiters[w].outcome.began].Begin?
  }

  lemma NewWaiters(s: State, a: Action)
    requires Enabled(s, a)
    ensures forall w :: w in Next(s, a).waiters && w !in s.waiters ==>
      a.Request? && a.w == w && Next(s, a).waiters[w] == Waiter(s.clock, a.trigger, Waiting)
  {}

  lemma NewScans(s: State, a: Action)
    requires Enabled(s, a)
    ensures forall t :: t in Next(s, a).tasks && Next(s, a).tasks[t].pc == Executing ==>
      if t in s.tasks && s.tasks[t].pc == Executing then Next(s, a).tasks[t].began == s.tasks[t].began
      else a == Begin(t) && Next(s, a).tasks[t].began == s.clock
  {}

  lemma NewResults(s: State, a: Action)
    requires Enabled(s, a)
    ensures forall w :: w in s.waiters && w in Next(s, a).waiters && Next(s, a).waiters[w].outcome.Result? ==>
      Next(s, a).waiters[w].outcome == s.waiters[w].outcome
      || (a.Succeed? && Next(s, a).waiters[w].outcome.began == s.tasks[a.t].began)
  {}

  lemma {:induction false} RunsAreDated(acts: seq<Action>)
    requires After(acts).Some?
    ensures Dated(acts, After(acts).value)
  {
    if acts != [] {
      var before, a := acts[..|acts| - 1], acts[|acts| - 1];
      RunsAreDated(before);
      Reachable(before);
      DatedStep(before, After(before).value, a);
      assert acts == before + [a];
    }
  }

  lemma DatedStep(acts: seq<Action>, s: State, a: Action)
    requires Dated(acts, s) && s.clock == |acts| && Enabled(s, a)
    ensures Dated(acts + [a], Next(s, a))
  {
    DateWaiters(acts, s, a);
    DateScans(acts, s, a);
    DateResults(acts, s, a);
  }

  lemma DateWaiters(acts: seq<Action>, s: State, a: Action)
    requires WaitersDated(acts, s) && s.clock == |acts| && Enabled(s, a)
    ensures WaitersDated(acts + [a], Next(s, a))
  {
    KeepsIdentity(s, a);
    NewWaiters(s, a);
  }

  lemma DateScans(acts: seq<Action>, s: State, a: Action)
    requires ScansDated(acts, s) && s.clock == |acts| && Enabled(s, a)
    ensures ScansDated(acts + [a], Next(s, a))
  {
    NewScans(s, a);
  }

  lemma DateResults(acts: seq<Action>, s: State, a: Action)
    requires ScansDated(acts, s) && ResultsDated(acts, s) && s.clock == |acts| && Enabled(s, a)
    ensures ResultsDated(acts + [a], Next(s, a))
  {
    NewWaiters(s, a);
    NewResults(s, a);
  }

  /** Whoever gets a result gets it from a scan that began after the request was
      registered, and that answers for the trigger the request came with. */
  lemma EveryResultIsFresh(acts: seq<Action>, w: nat)
    requires After(acts).Some? && w in After(acts).value.waiters && After(acts).value.waiters[w].outcome.Result?
    ensures exists r, b :: 0 <= r < b < |acts| && acts[r].Request? && acts[r].w == w && acts[b].Begin?
              && b == After(acts).value.waiters[w].outcome.began
              && acts[r].trigger in After(acts).value.waiters[w].outcome.triggers
  {
    Reachable(acts);
    RunsAreDated(acts);
    var waiter := After(acts).value.waiters[w];
    assert acts[waiter.registered].Request? && acts[waiter.outcome.began].Begin?;
  }

  /** A scan requested after the last write of a repair cannot have begun before it. */
  lemma ScanFollowsRepair(acts: seq<Action>, written: nat, w: nat)
    requires After(acts).Some? && written <= |acts| && After(acts[..written]).Some?
    requires w in After(acts).value.waiters && w !in After(acts[..written]).value.waiters
    requires After(acts).value.waiters[w].outcome.Result?
    ensures After(acts).value.waiters[w].outcome.began > written
  {
    Reachable(acts);
    RegisteredLater(acts, written, w);
  }

  lemma Whole(acts: seq<Action>, k: nat)
    requires k <= |acts|
    ensures k == |acts| ==> acts[..k] == acts
  {}

  lemma {:induction false} RegisteredLater(acts: seq<Action>, k: nat, w: nat)
    requires After(acts).Some? && k <= |acts| && After(acts[..k]).Some?
    requires w in After(acts).value.waiters && w !in After(acts[..k]).value.waiters
    ensures After(acts).value.waiters[w].registered >= k
  {
    Whole(acts, k);
    var before := acts[..|acts| - 1];
    assert before[..k] == acts[..k];
    Reachable(before);
    KeepsIdentity(After(before).value, acts[|acts| - 1]);
    NewWaiters(After(before).value, acts[|acts| - 1]);
    if w in After(before).value.waiters { RegisteredLater(before, k, w); }
  }

  /** Until it is answered a waiter is in exactly one of the two queues, and there
      is somebody to answer it. */
  lemma NobodyIsStranded(acts: seq<Action>, w: nat)
    requires After(acts).Some? && IsWaiting(After(acts).value, w)
    ensures w in After(acts).value.active <==> w !in After(acts).value.pending
    ensures var s := After(acts).value;
      s.cancels.Keys != {}
      || (s.runner.Some? && s.runner.value in s.tasks
          && s.tasks[s.runner.value].Live() && !s.tasks[s.runner.value].cancelled)
  {
    Reachable(acts);
  }

  /** An answer is final. */
  lemma {:induction false} AnsweredOnce(acts: seq<Action>, k: nat, w: nat)
    requires After(acts).Some? && k <= |acts|
    ensures After(acts[..k]).Some?
    ensures w in After(acts[..k]).value.waiters && !IsWaiting(After(acts[..k]).value, w) ==>
      w in After(acts).value.waiters && After(acts).value.waiters[w] == After(acts[..k]).value.waiters[w]
  {
    if k == |acts| {
      assert acts[..k] == acts;
    } else {
      var before := acts[..|acts| - 1];
      assert before[..k] == acts[..k];
      AnsweredOnce(before, k, w);
      Reachable(before);
      KeepsIdentity(After(before).value, acts[|acts| - 1]);
    }
  }

  /** When `async_cancel` returns, everyone who was accepted has an answer. */
  lemma CancelLeavesNobodyWaiting(acts: seq<Action>, c: nat, w: nat)
    requires After(acts + [CancelEnd(c)]).Some?
    ensures !IsWaiting(After(acts + [CancelEnd(c)]).value, w)
  {
    assert (acts + [CancelEnd(c)])[..|acts|] == acts;
    Reachable(acts);
  }

  /** A failed scan answers those it ran for and costs nobody else anything. */
  lemma FailureSparesThePending(acts: seq<Action>, t: nat, w: nat)
    requires After(acts + [FailureNotified(t)]).Some? && After(acts).Some? && IsWaiting(After(acts).value, w)
    ensures After(acts + [FailureNotified(t)]).value.waiters[w].outcome
         == if w in After(acts).value.pending then Waiting else Failed
  {
    assert (acts + [FailureNotified(t)])[..|acts|] == acts;
    Reachable(acts);
    assert TaskOk(After(acts).value, t);
  }

  /** What becomes of a request. During a cancel it is refused and leaves no trace; else
      it waits from then on under its own trigger, in the batch that a new runner is
      started with if nothing ran, in the merged one behind the runner if something did. */
  lemma RequestIsQueued(acts: seq<Action>, w: nat, t: nat, trigger: string)
    requires After(acts).Some? && After(acts + [Request(w, t, trigger)]).Some?
    ensures var s, n := After(acts).value, After(acts + [Request(w, t, trigger)]).value;
      if s.cancelling then n == s.(clock := s.clock + 1)
      else
        n.waiters == s.waiters[w := Waiter(|acts|, trigger, Waiting)] && w !in s.waiters
        && if s.runner.Some? && s.runner.value in s.tasks && s.tasks[s.runner.value].pc != Done
           then n.pending == s.pending + [w] && n.triggers == s.triggers + {trigger} && n.active == s.active
                && n.runner == s.runner && n.tasks == s.tasks
           else n.active == [w] && n.pending == s.pending && n.runner == Some(t) && t in n.tasks
                && n.tasks[t].pc == Start && n.tasks[t].waiters == [w] && n.tasks[t].triggers == {trigger} && !n.tasks[t].due
  {
    assert (acts + [Request(w, t, trigger)])[..|acts|] == acts;
    Reachable(acts);
    RequestedIs(After(acts).value, w, t, trigger);
  }

  lemma RequestedIs(s: State, w: nat, t: nat, trigger: string)
    requires Enabled(s, Request(w, t, trigger))
    ensures var n := Next(s, Request(w, t, trigger));
      if s.cancelling then n == s.(clock := s.clock + 1)
      else
        n.waiters == s.waiters[w := Waiter(s.clock, trigger, Waiting)] && w !in s.waiters
        && if s.runner.Some? && s.runner.value in s.tasks && s.tasks[s.runner.value].pc != Done
           then n.pending == s.pending + [w] && n.triggers == s.triggers + {trigger} && n.active == s.active
                && n.runner == s.runner && n.tasks == s.tasks
           else n.active == [w] && n.pending == s.pending && n.runner == Some(t)
                && n.tasks == s.tasks[t := Task(Start, [w], {trigger}, 0, false, false)]
  {}

  /** A cancel has begun since the last one returned. */
  ghost predicate InCancel(acts: seq<Action>) {
    exists i :: 0 <= i < |acts| && acts[i].CancelBegin? && forall j :: i < j < |acts| ==> !acts[j].CancelEnd?
  }

  lemma InCancelNext(acts: seq<Action>, a: Action)
    ensures InCancel(acts + [a]) <==> a.CancelBegin? || (InCancel(acts) && !a.CancelEnd?)
  {
    var more := acts + [a];
    if InCancel(more) && !a.CancelBegin? {
      var i :| 0 <= i < |more| && more[i].CancelBegin? && forall j :: i < j < |more| ==> !more[j].CancelEnd?;
      assert acts[i].CancelBegin? && more[|acts|] == a && forall j :: i < j < |acts| ==> acts[j] == more[j];
    }
    if a.CancelBegin? { assert more[|acts|].CancelBegin?; }
    if InCancel(acts) && !a.CancelEnd? {
      var i :| 0 <= i < |acts| && acts[i].CancelBegin? && forall j :: i < j < |acts| ==> !acts[j].CancelEnd?;
      assert more[i].CancelBegin?;
    }
  }

  /** Requests are refused exactly from a cancel's beginning until the next return of
      one. */
  lemma {:induction false} CancellingIff(acts: seq<Action>)
    requires After(acts).Some?
    ensures After(acts).value.cancelling <==> InCancel(acts)
  {
    if acts != [] {
      var before, a := acts[..|acts| - 1], acts[|acts| - 1];
      assert acts == before + [a];
      CancellingIff(before);
      CancellingNext(After(before).value, a);
      InCancelNext(before, a);
    }
  }

  lemma CancellingNext(s: State, a: Action)
    requires Enabled(s, a)
    ensures Next(s, a).cancelling <==> a.CancelBegin? || (s.cancelling && !a.CancelEnd?)
  {}

  /** While cancelling, whatever still runs has been cancelled. */
  ghost predicate Stopping(s: State) {
    s.cancelling ==> forall t :: t in s.tasks && s.tasks[t].Live() ==> s.tasks[t].cancelled
  }

  lemma StepStopping(s: State, a: Action)
    requires Inv(s) && Enabled(s, a) && Stopping(s)
    ensures Stopping(Next(s, a))
  {}

  lemma {:induction false} RunsStop(acts: seq<Action>)
    requires After(acts).Some?
    ensures Stopping(After(acts).value)
  {
    if acts != [] {
      var before := acts[..|acts| - 1];
      RunsStop(before);
      Reachable(before);
      StepStopping(After(before).value, acts[|acts| - 1]);
    }
  }

  /** Nothing comes of a scan while a cancel is under way: none begins, none succeeds
      or fails, and no next batch is taken. */
  lemma NothingRunsThroughCancel(acts: seq<Action>, a: Action)
    requires After(acts).Some? && InCancel(acts) && After(acts + [a]).Some?
    ensures !a.Begin? && !a.Succeed? && !a.Fail? && !a.FailureNotified? && !a.TakeNext?
  {
    assert (acts + [a])[..|acts|] == acts;
    Reachable(acts);
    RunsStop(acts);
    CancellingIff(acts);
    var s := After(acts).value;
    forall t | t in s.tasks ensures TaskOk(s, t) {}
  }

  /** The beginning and the return of a cancel both turn away whoever waits, and
      leave both batches empty. */
  lemma CancelAnswersEveryone(acts: seq<Action>, a: Action, w: nat)
    requires After(acts).Some? && (a.CancelBegin? || a.CancelEnd?) && After(acts + [a]).Some?
    ensures var s, n := After(acts).value, After(acts + [a]).value;
      n.active == [] && n.pending == [] && n.triggers == {}
      && (IsWaiting(s, w) ==> w in n.waiters && n.waiters[w].outcome == Cancelled)
      && (!IsWaiting(s, w) ==> (w in n.waiters <==> w in s.waiters) && (w in s.waiters ==> n.waiters[w] == s.waiters[w]))
  {
    assert (acts + [a])[..|acts|] == acts;
    Reachable(acts);
  }

  /** The scan a result comes from is the one that just ran: the latest beginning of
      its runner. */
  ghost predicate BeganLast(acts: seq<Action>, t: nat, b: nat) {
    b < |acts| && acts[b] == Begin(t) && forall j :: b < j < |acts| ==> acts[j] != Begin(t)
  }

  ghost predicate RunningSince(acts: seq<Action>, s: State) {
    forall t :: t in s.tasks && s.tasks[t].pc == Executing ==> BeganLast(acts, t, s.tasks[t].began)
  }

  lemma SinceNext(acts: seq<Action>, s: State, a: Action)
    requires RunningSince(acts, s) && s.clock == |acts| && Enabled(s, a)
    ensures RunningSince(acts + [a], Next(s, a))
  {
    NewScans(s, a);
    forall t | t in Next(s, a).tasks && Next(s, a).tasks[t].pc == Executing
      ensures BeganLast(acts + [a], t, Next(s, a).tasks[t].began)
    {
      if t in s.tasks && s.tasks[t].pc == Executing {
        assert BeganLast(acts, t, s.tasks[t].began) && a != Begin(t);
      }
    }
  }

  lemma {:induction false} RunsSince(acts: seq<Action>)
    requires After(acts).Some?
    ensures RunningSince(acts, After(acts).value)
  {
    if acts != [] {
      var before, a := acts[..|acts| - 1], acts[|acts| - 1];
      assert acts == before + [a];
      RunsSince(before);
      Reachable(before);
      assert After(acts) == Some(Next(After(before).value, a));
      SinceNext(before, After(before).value, a);
    }
  }

  /** Triggers are collected for those who wait behind the runner and for nobody else,
      and a batch runs under the triggers of those it runs for. */
  ghost predicate NamesItsBatches(s: State) {
    NamesBatch(s, s.pending, s.triggers) && forall t :: t in s.tasks ==> NamesBatch(s, s.tasks[t].waiters, s.tasks[t].triggers)
  }

  ghost predicate NamesBatch(s: State, batch: seq<nat>, triggers: set<string>) {
    (forall w :: w in batch ==> w in s.waiters) && triggers == (set w | w in batch && w in s.waiters :: s.waiters[w].trigger)
  }

  lemma BatchStaysNamed(s: State, n: State, batch: seq<nat>, triggers: set<string>)
    requires NamesBatch(s, batch, triggers) && Keeps(s, n)
    ensures NamesBatch(n, batch, triggers)
  {}

  lemma BatchGrowsNamed(s: State, n: State, batch: seq<nat>, triggers: set<string>, w: nat)
    requires NamesBatch(s, batch, triggers) && Keeps(s, n) && w in n.waiters
    ensures NamesBatch(n, batch + [w], triggers + {n.waiters[w].trigger})
  {}

  lemma PendingBatchFrom(s: State, a: Action)
    requires Enabled(s, a)
    ensures var n := Next(s, a);
      (n.pending == s.pending && n.triggers == s.triggers) || (n.pending == [] && n.triggers == {})
      || (a.Request? && n.pending == s.pending + [a.w] && n.triggers == s.triggers + {a.trigger} && a.w in n.waiters
          && n.waiters[a.w].trigger == a.trigger)
  {}

  lemma TaskBatchByCaller(s: State, a: Action, t: nat)
    requires Enabled(s, a) && FromCaller(a) && t in Next(s, a).tasks
    ensures var n := Next(s, a);
      (t in s.tasks && n.tasks[t].waiters == s.tasks[t].waiters && n.tasks[t].triggers == s.tasks[t].triggers)
      || (a.Request? && n.tasks[t].waiters == [a.w] && n.tasks[t].triggers == {a.trigger} && a.w in n.waiters
          && n.waiters[a.w].trigger == a.trigger)
  {}

  lemma TaskBatchFrom(s: State, a: Action, t: nat)
    requires Enabled(s, a) && t in Next(s, a).tasks
    ensures var n := Next(s, a);
      (t in s.tasks && n.tasks[t].waiters == s.tasks[t].waiters && n.tasks[t].triggers == s.tasks[t].triggers)
      || (a == TakeNext(t) && n.tasks[t].waiters == s.pending && n.tasks[t].triggers == s.triggers)
      || (a.Request? && n.tasks[t].waiters == [a.w] && n.tasks[t].triggers == {a.trigger} && a.w in n.waiters
          && n.waiters[a.w].trigger == a.trigger)
  {
    if FromCaller(a) { TaskBatchByCaller(s, a, t); }
  }

  lemma PendingNamed(s: State, a: Action)
    requires Enabled(s, a) && NamesItsBatches(s)
    ensures NamesBatch(Next(s, a), Next(s, a).pending, Next(s, a).triggers)
  {
    var n := Next(s, a);
    KeepsIdentity(s, a);
    PendingBatchFrom(s, a);
    BatchStaysNamed(s, n, s.pending, s.triggers);
    if a.Request? && a.w in n.waiters { BatchGrowsNamed(s, n, s.pending, s.triggers, a.w); }
  }

  lemma TaskNamed(s: State, a: Action, t: nat)
    requires Enabled(s, a) && NamesItsBatches(s) && t in Next(s, a).tasks
    ensures NamesBatch(Next(s, a), Next(s, a).tasks[t].waiters, Next(s, a).tasks[t].triggers)
  {
    var n := Next(s, a);
    KeepsIdentity(s, a);
    TaskBatchFrom(s, a, t);
    BatchStaysNamed(s, n, s.pending, s.triggers);
    if t in s.tasks { BatchStaysNamed(s, n, s.tasks[t].waiters, s.tasks[t].triggers); }
  }

  lemma StepNames(s: State, a: Action)
    requires Enabled(s, a) && NamesItsBatches(s)
    ensures NamesItsBatches(Next(s, a))
  {
    PendingNamed(s, a);
    forall t | t in Next(s, a).tasks ensures NamesBatch(Next(s, a), Next(s, a).tasks[t].waiters, Next(s, a).tasks[t].triggers) {
      TaskNamed(s, a, t);
    }
  }

  lemma {:induction false} BatchesAreNamed(acts: seq<Action>)
    requires After(acts).Some?
    ensures NamesItsBatches(After(acts).value)
  {
    if acts != [] {
      BatchesAreNamed(acts[..|acts| - 1]);
      StepNames(After(acts[..|acts| - 1]).value, acts[|acts| - 1]);
    }
  }

  /** A scan that succeeds answers everyone it ran for with the result of that very
      scan, which names their triggers and no other, and costs nobody else anything. */
  lemma SuccessAnswersTheBatch(acts: seq<Action>, t: nat, w: nat) returns (b: nat)
    requires After(acts).Some? && After(acts + [Succeed(t)]).Some? && IsWaiting(After(acts).value, w)
    ensures BeganLast(acts, t, b)
    ensures var s, n := After(acts).value, After(acts + [Succeed(t)]).value;
      w in n.waiters
      && if w in s.pending then n.waiters[w] == s.waiters[w]
         else n.waiters[w].outcome.Result? && n.waiters[w].outcome.began == b
              && s.waiters[w].registered < b && w in s.tasks[t].waiters
              && n.waiters[w].outcome.triggers == (set v | v in s.tasks[t].waiters && v in s.waiters :: s.waiters[v].trigger)
  {
    assert (acts + [Succeed(t)])[..|acts|] == acts;
    Reachable(acts);
    RunsSince(acts);
    BatchesAreNamed(acts);
    b := After(acts).value.tasks[t].began;
    BatchIsAnswered(After(acts).value, t, w);
  }

  lemma BatchIsAnswered(s: State, t: nat, w: nat)
    requires Inv(s) && Enabled(s, Succeed(t)) && IsWaiting(s, w)
    ensures var n := Next(s, Succeed(t));
      w in n.waiters
      && if w in s.pending then n.waiters[w] == s.waiters[w]
         else n.waiters[w].outcome == Result(s.tasks[t].began, s.tasks[t].triggers)
              && s.waiters[w].registered < s.tasks[t].began && w in s.tasks[t].waiters
  {
    assert TaskOk(s, t);
  }

  /** A scan that fails is reported before anybody learns of it. */
  lemma FailureIsReported(acts: seq<Action>, t: nat)
    requires After(acts).Some? && After(acts + [Fail(t)]).Some?
    ensures var s, n := After(acts).value, After(acts + [Fail(t)]).value;
      t in s.tasks && n == s.(clock := s.clock + 1, tasks := s.tasks[t := s.tasks[t].(pc := NotifyFailure)])
  {
    assert (acts + [Fail(t)])[..|acts|] == acts;
  }

  /** When a batch is over, the merged one behind it is served whole; with none the
      runner retires. */
  lemma NextBatchIsWhole(acts: seq<Action>, t: nat)
    requires After(acts).Some? && After(acts + [TakeNext(t)]).Some?
    ensures var s, n := After(acts).value, After(acts + [TakeNext(t)]).value;
      n.waiters == s.waiters && n.pending == [] && n.active == s.pending && t in n.tasks
      && if s.pending == [] then n.runner == None && !n.tasks[t].Live()
         else n.runner == Some(t) && n.tasks[t].pc == NotifyQueue && n.tasks[t].waiters == s.pending
  {
    assert (acts + [TakeNext(t)])[..|acts|] == acts;
    Reachable(acts);
    assert TaskOk(After(acts).value, t);
  }

  /** The last thing a runner does is to clear itself away, and never a newer runner. */
  lemma FinishSparesNewerRunner(acts: seq<Action>, t: nat)
    requires After(acts + [Finish(t)]).Some? && After(acts).Some?
    ensures var s, n := After(acts).value, After(acts + [Finish(t)]).value;
      t in n.tasks && n.tasks[t].pc == Done && n.waiters == s.waiters && n.pending == s.pending
      && if s.runner == Some(t) then n.runner == None && n.active == []
         else n.runner == s.runner && n.active == s.active
  {
    assert (acts + [Finish(t)])[..|acts|] == acts;
  }

  /** A cancel reaches the runner, if there is one, and will wait for it; so does every
      further cancellation while it waits. */
  lemma CancelReachesRunner(acts: seq<Action>, a: Action)
    requires After(acts).Some? && After(acts + [a]).Some? && (a.CancelBegin? || a.CancelAgain?)
    ensures var s, n := After(acts).value, After(acts + [a]).value;
      a.c in n.cancels && n.runner == s.runner
      && (a.CancelBegin? ==>
            n.cancels[a.c] == if s.runner.Some? && s.runner.value in s.tasks && s.tasks[s.runner.value].pc != Done
                              then s.runner else None)
      && (n.cancels[a.c].Some? && (a.CancelAgain? || n.cancels[a.c] == s.runner) ==>
            n.cancels[a.c].value in n.tasks && n.tasks[n.cancels[a.c].value].due && n.tasks[n.cancels[a.c].value].cancelled)
  {
    assert (acts + [a])[..|acts|] == acts;
    Reachable(acts);
  }

  /** Where a cancellation arrives: a runner that has not started never will, a scan
      in the making is reported as cancelled first, and nothing of it is an answer. */
  lemma CancelArrives(acts: seq<Action>, t: nat)
    requires After(acts).Some? && After(acts + [RaiseCancel(t)]).Some?
    ensures var s, n := After(acts).value, After(acts + [RaiseCancel(t)]).value;
      t in s.tasks && t in n.tasks && !n.tasks[t].due && n.waiters == s.waiters && n.runner == s.runner
      && (n.tasks[t].pc == NotifyCancelled <==> s.tasks[t].pc == Executing)
      && (n.tasks[t].pc == Done <==> s.tasks[t].pc in {Start, AwaitFinally})
      && n.tasks[t].pc in {NotifyCancelled, AwaitFinally, Done}
  {
    assert (acts + [RaiseCancel(t)])[..|acts|] == acts;
  }

  ghost function Rank(pc: Pc): nat {
    match pc
    case Start => 4 case NotifyQueue => 4 case Executing => 3 case NotifyFailure => 2 case AwaitLock => 1 case _ => 0
  }

  function RunnerMove(t: nat, pc: Pc): Action {
    match pc
    case Start => Begin(t)
    case NotifyQueue => Begin(t)
    case Executing => Succeed(t)
    case NotifyFailure => FailureNotified(t)
    case _ => TakeNext(t)
  }

  ghost predicate Serving(s: State, t: nat) {
    s.cancels.Keys == {} && s.runner == Some(t) && t in s.tasks && s.tasks[t].Live() && !s.tasks[t].cancelled
  }

  ghost function Effort(s: State, t: nat): nat
    requires t in s.tasks
  {
    (if s.pending == [] then 0 else 5) + Rank(s.tasks[t].pc)
  }

  lemma RunnerCanMove(s: State, t: nat)
    requires Inv(s) && Serving(s, t)
    ensures var a := RunnerMove(t, s.tasks[t].pc);
      Enabled(s, a)
      && (if a.TakeNext? && s.pending == [] then forall w :: !IsWaiting(s, w)
          else Serving(Next(s, a), t) && Effort(Next(s, a), t) < Effort(s, t))
  {
    assert TaskOk(s, t);
  }

  /** Where a state gets by a sequence of actions, if they can be taken. */
  function From(s: State, acts: seq<Action>): Option<State>
    decreases |acts|
  {
    if acts == [] then Some(s)
    else if Enabled(s, acts[0]) then From(Next(s, acts[0]), acts[1..])
    else None
  }

  lemma {:induction false} RunGoesOn(acts: seq<Action>, more: seq<Action>)
    requires After(acts).Some?
    ensures After(acts + more) == From(After(acts).value, more)
    decreases |more|
  {
    if more == [] {
      assert acts + more == acts;
    } else {
      assert acts + more == acts + [more[0]] + more[1..];
      if Enabled(After(acts).value, more[0]) {
        OneMore(acts, more[0]);
        RunGoesOn(acts + [more[0]], more[1..]);
      } else {
        StuckStays(acts, more);
      }
    }
  }

  lemma {:induction false} StuckStays(acts: seq<Action>, more: seq<Action>)
    requires After(acts).Some? && more != [] && !Enabled(After(acts).value, more[0])
    ensures After(acts + more).None?
    decreases |more|
  {
    var n := |more| - 1;
    var all := acts + more;
    assert all[..|all| - 1] == acts + more[..n] && all[|all| - 1] == more[n];
    if n == 0 {
      assert acts + more[..n] == acts;
    } else {
      StuckStays(acts, more[..n]);
    }
  }

  lemma OneFirst(s: State, a: Action, rest: seq<Action>)
    requires Enabled(s, a)
    ensures From(s, [a] + rest) == From(Next(s, a), rest)
  {
    assert ([a] + rest)[1..] == rest;
  }

  /** Left alone, the runner answers everyone there is with a few steps of its own. */
  lemma EveryoneCanBeServed(s: State, t: nat) returns (more: seq<Action>)
    requires Inv(s) && Serving(s, t)
    ensures From(s, more).Some? && forall w :: !IsWaiting(From(s, more).value, w)
    decreases Effort(s, t)
  {
    var a := RunnerMove(t, s.tasks[t].pc);
    RunnerCanMove(s, t);
    if a.TakeNext? && s.pending == [] { return []; }
    StepKeepsInv(s, a);
    var rest := EveryoneCanBeServed(Next(s, a), t);
    OneFirst(s, a, rest);
    more := [a] + rest;
  }

  // ---- Every cancel comes to its end -----------------------------------------------

  function CancelledMove(t: nat, task: Task): Action {
    if task.due then RaiseCancel(t)
    else if task.pc == NotifyCancelled then CancelNotified(t)
    else Finish(t)
  }

  ghost function Remaining(task: Task): nat {
    if task.pc == Done then 0
    else (if task.due then 4 else 0) + (if task.pc == AwaitFinally then 1 else if task.pc == NotifyCancelled then 2 else 3)
  }

  ghost function ToGo(s: State, c: nat): nat
    requires c in s.cancels
  {
    if s.cancels[c].Some? && s.cancels[c].value in s.tasks then Remaining(s.tasks[s.cancels[c].value]) else 0
  }

  lemma CancelledCanMove(s: State, c: nat, t: nat)
    requires Inv(s) && c in s.cancels && s.cancels[c] == Some(t) && t in s.tasks && s.tasks[t].pc != Done
    ensures var a := CancelledMove(t, s.tasks[t]);
      Enabled(s, a) && c in Next(s, a).cancels && Next(s, a).cancels[c] == Some(t) && t in Next(s, a).tasks
      && ToGo(Next(s, a), c) < ToGo(s, c)
  {
    assert TaskOk(s, t);
  }

  lemma CancelReturns(s: State, c: nat)
    requires Inv(s) && Enabled(s, CancelEnd(c))
    ensures c !in Next(s, CancelEnd(c)).cancels && forall w :: !IsWaiting(Next(s, CancelEnd(c)), w)
  {}

  /** A cancel that has begun can always be brought to its end by steps of the runner
      it waits for, however often it is itself cancelled; then nobody waits. */
  lemma CancelCanEnd(s: State, c: nat) returns (more: seq<Action>)
    requires Inv(s) && c in s.cancels
    ensures From(s, more).Some? && c !in From(s, more).value.cancels
    ensures forall w :: !IsWaiting(From(s, more).value, w)
    decreases ToGo(s, c)
  {
    var a, rest := CancelEnd(c), [];
    if Enabled(s, a) {
      CancelReturns(s, c);
    } else {
      var t := s.cancels[c].value;
      a := CancelledMove(t, s.tasks[t]);
      CancelledCanMove(s, c, t);
      StepKeepsInv(s, a);
      rest := CancelCanEnd(Next(s, a), c);
    }
    OneFirst(s, a, rest);
    more := [a] + rest;
  }

  /** From every reachable state some continuation answers everyone there is. */
  lemma EveryoneCanBeAnswered(acts: seq<Action>) returns (more: seq<Action>)
    requires After(acts).Some?
    ensures After(acts + more).Some? && forall w :: !IsWaiting(After(acts + more).value, w)
  {
    Reachable(acts);
    more := AnswerEveryone(After(acts).value);
    RunGoesOn(acts, more);
  }

  lemma AnswerEveryone(s: State) returns (more: seq<Action>)
    requires Inv(s)
    ensures From(s, more).Some? && forall w :: !IsWaiting(From(s, more).value, w)
  {
    if c :| c in s.cancels.Keys {
      more := CancelCanEnd(s, c);
    } else if w :| IsWaiting(s, w) {
      more := EveryoneCanBeServed(s, s.runner.value);
    } else {
      more := [];
    }
  }

  lemma DeliverOneMore(ws: map<nat, Waiter>, ids: seq<nat>, w: nat, outcome: Outcome)
    requires w in ws
    ensures var done := Deliver(ws, ids, outcome);
      Deliver(ws, ids + [w], outcome)
      == if done[w].outcome == Waiting then done[w := done[w].(outcome := outcome)] else done
  {}

  // ---- The coordinator -----------------------------------------------------------------

  /** Names that are used are known; the part of the invariant the code relies on. */
  ghost predicate Known(s: State) {
    (s.runner.Some? ==> s.runner.value in s.tasks)
    && (forall w :: w in s.active || w in s.pending ==> w in s.waiters)
    && forall t, w :: t in s.tasks && w in s.tasks[t].waiters ==> w in s.waiters
  }

  lemma InvKnown(s: State)
    requires Inv(s)
    ensures Known(s)
  {
    forall t | t in s.tasks ensures TaskOk(s, t) {}
  }

  /** The object itself. Each method is the code between two suspension points; the
      event loop's own books, tasks and futures, are kept beside its fields. */
  class Coordinator {
    var runner: Option<nat>
    var active: seq<nat>
    var pending: seq<nat>
    var triggers: set<string>
    var cancelling: bool

    var tasks: map<nat, Task>
    var waiters: map<nat, Waiter>
    var cancels: map<nat, Option<nat>>
    var clock: nat

    function View(): State
      reads this
    {
      State(runner, active, pending, triggers, cancelling, tasks, waiters, cancels, clock)
    }

    constructor ()
      ensures View() == Initial && Inv(View())
    {
      runner, active, pending, triggers, cancelling := None, [], [], {}, false;
      tasks, waiters, cancels, clock := map[], map[], map[], 0;
    }

    /** Completes every future in `ids` that is still open. */
    method Complete(ids: seq<nat>, outcome: Outcome)
      requires forall w :: w in ids ==> w in waiters
      modifies this`waiters
      ensures waiters == Deliver(old(waiters), ids, outcome)
    {
      var i := 0;
      assert ids[..0] == [];
      while i < |ids|
        invariant 0 <= i <= |ids| && waiters.Keys == old(waiters).Keys
        invariant waiters == Deliver(old(waiters), ids[..i], outcome)
      {
        var w := ids[i];
        assert ids[..i + 1] == ids[..i] + [w];
        DeliverOneMore(old(waiters), ids[..i], w, outcome);
        if waiters[w].outcome == Waiting { waiters := waiters[w := waiters[w].(outcome := outcome)]; }
        i := i + 1;
      }
      assert ids[..|ids|] == ids;
    }

    method RequestScan(w: nat, t: nat, trigger: string) returns (accepted: bool)
      requires Known(View()) && Enabled(View(), Request(w, t, trigger))
      modifies this
      ensures View() == Next(old(View()), Request(w, t, trigger))
      ensures accepted == !old(cancelling)
      ensures accepted ==> w in waiters && waiters[w] == Waiter(old(clock), trigger, Waiting) && w in active + pending
      ensures !accepted ==> waiters == old(waiters) && active == old(active) && pending == old(pending)
    {
      accepted := !cancelling;
      if accepted {
        waiters := waiters[w := Waiter(clock, trigger, Waiting)];
        if runner.None? || tasks[runner.value].pc == Done {
          active := [w];
          runner := Some(t);
          tasks := tasks[t := Task(Start, [w], {trigger}, 0, false, false)];
        } else {
          triggers := triggers + {trigger};
          pending := pending + [w];
        }
      }
      clock := clock + 1;
    }

    /** From the entry of `async_cancel` to its wait for the runner. */
    method BeginCancel(c: nat)
      requires Known(View()) && Enabled(View(), CancelBegin(c))
      modifies this
      ensures View() == Next(old(View()), CancelBegin(c))
    {
      cancelling := true;
      triggers := {};
      var all := active + pending;
      active, pending := [], [];
      Complete(all, Cancelled);
      if runner.Some? && tasks[runner.value].pc != Done {
        var r := runner.value;
        tasks := tasks[r := tasks[r].(due := true, cancelled := true)];
        cancels := cancels[c := runner];
      } else {
        cancels := cancels[c := None];
      }
      clock := clock + 1;
    }

    /** Its `finally`, once the runner has ended. */
    method EndCancel(c: nat)
      requires Known(View()) && Enabled(View(), CancelEnd(c))
      modifies this
      ensures View() == Next(old(View()), CancelEnd(c))
    {
      var late := active + pending;
      active, pending, triggers, cancelling := [], [], {}, false;
      Complete(late, Cancelled);
      cancels := cancels - {c};
      clock := clock + 1;
    }

    /** The end of an execution that returned or raised. */
    method DeliverOutcome(t: nat, result: bool)
      requires Known(View()) && Enabled(View(), if result then Succeed(t) else FailureNotified(t))
      modifies this
      ensures View() == Next(old(View()), if result then Succeed(t) else FailureNotified(t))
    {
      var task := tasks[t];
      Complete(task.waiters, if result then Result(task.began, task.triggers) else Failed);
      tasks := tasks[t := task.(pc := AwaitLock)];
      clock := clock + 1;
    }

    /** A batch is about to be executed. */
    method BeginScan(t: nat)
      requires Known(View()) && Enabled(View(), Begin(t))
      modifies this
      ensures View() == Next(old(View()), Begin(t))
    {
      tasks := tasks[t := tasks[t].(pc := Executing, began := clock)];
      clock := clock + 1;
    }

    /** The cancelled branch of `_run_loop`, after its notification: it cancels the
        batch it ran for and raises on. */
    method DeliverCancelled(t: nat)
      requires Known(View()) && Enabled(View(), CancelNotified(t))
      modifies this
      ensures View() == Next(old(View()), CancelNotified(t))
    {
      var task := tasks[t];
      Complete(task.waiters, Cancelled);
      tasks := tasks[t := task.(pc := AwaitFinally)];
      clock := clock + 1;
    }

    /** The locked section of `_run_loop`: stop, or take the merged batch. */
    method TakePending(t: nat) returns (more: bool)
      requires Known(View()) && Enabled(View(), TakeNext(t))
      modifies this
      ensures View() == Next(old(View()), TakeNext(t))
      ensures more <==> old(pending) != []
    {
      more := pending != [];
      if !more {
        active, runner := [], None;
        tasks := tasks[t := tasks[t].(pc := AwaitFinally)];
      } else {
        tasks := tasks[t := tasks[t].(pc := NotifyQueue, waiters := pending, triggers := triggers)];
        active, pending, triggers := pending, [], {};
      }
      clock := clock + 1;
    }

    /** The locked section of the `finally` of `_run_loop`. */
    method LeaveRunLoop(t: nat)
      requires Known(View()) && Enabled(View(), Finish(t))
      modifies this
      ensures View() == Next(old(View()), Finish(t))
    {
      tasks := tasks[t := tasks[t].(pc := Done)];
      if runner == Some(t) { active, runner := [], None; }
      clock := clock + 1;
    }
  }
}
