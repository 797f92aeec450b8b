/** What leases, waits and fences mean in time, and what each transaction does when nothing stands in its way. */
module OutboxLeases {
  import opened Options
  import opened Ordering
  import opened Outbox
  import opened OutboxSafety

  // ----- One claiming transaction -----

  /** A row whose lease is held is not taken over, whoever claims. */
  lemma {:induction false} LiveLeaseIsKept(cfg: Config, w: World, a: Action, i: nat, claim: Claim)
    requires i < |w.effects| && a.ClaimDue? && IsOwned(w.effects[i].row, claim, w.now)
    ensures i < |Step(cfg, w, a).effects| && Step(cfg, w, a).effects[i] == w.effects[i]
  {
    hide CountFree, ClaimedEffect;
  }

  /** A failed dispatch was put off until later. */
  predicate IsWaiting(row: Row, now: nat) { row.state.Pending? && row.nextAt.Some? && row.nextAt.value > now }

  function CountChanged(before: seq<Effect>, after: seq<Effect>, n: nat): nat
    requires n <= |before| == |after|
  {
    if n == 0 then 0 else CountChanged(before, after, n - 1) + if after[n - 1] != before[n - 1] then 1 else 0
  }

  /** The row is a projection that is not ended, not put off, and under nobody's lease. */
  ghost predicate IsOpenToClaims(row: Row, now: nat) {
    && row.intent.kind == KNOWLEDGE_INDEX && IsLive(row) && !IsWaiting(row, now)
    && forall claim :: !IsOwned(row, claim, now)
  }

  lemma {:induction false} DueMeansOpen(cfg: Config, e: Effect, now: nat)
    requires Tracked(cfg, e)
    ensures IsDue(e.row, now) <==> IsOpenToClaims(e.row, now)
  {
    hide Count, Pairwise, Within, ClosedRightly, Tallied, Untouched;
    if e.row.state.Dispatching? && e.row.expires.value > now {
      assert e.row.intent.kind == KNOWLEDGE_INDEX ==> IsOwned(e.row, Claim(e.row.token, e.row.owner.value), now);
    }
  }

  lemma {:induction false} ChangedAreCounted(w: World, worker: string, limit: int, lease: int, locked: set<nat>, n: nat)
    requires n <= |w.effects|
    ensures CountChanged(w.effects, AllClaimed(w, worker, limit, lease, locked), n)
         == Min(CountFree(w.effects, w.now, locked, n), AtLeastOne(limit))
  {
    hide IsFree, AtLeastOne;
    if n == 0 {
      assert AtLeastOne(limit) >= 0;
    } else {
      ChangedAreCounted(w, worker, limit, lease, locked, n - 1);
      assert ClaimedEffect(w.effects[n - 1], w.now, worker, lease) != w.effects[n - 1];
    }
  }

  /**
   * A row is claimed exactly when it is claimable, not locked by another transaction, and fewer rows than the limit are
   * claimed before it. It then belongs to the claimer alone, under the next token, up to the end of the lease.
   */
  lemma {:induction false} ClaimedExactlyWhen(cfg: Config, w: World, worker: string, limit: int, lease: int, locked: set<nat>, i: nat)
    requires AllTracked(cfg, w) && i < |w.effects|
    ensures var next := Step(cfg, w, ClaimDue(worker, limit, lease, locked)).effects;
      |next| == |w.effects|
      && (next[i] != w.effects[i] <==>
            && IsOpenToClaims(w.effects[i].row, w.now) && i !in locked
            && CountChanged(w.effects, next, i) < (if limit < 1 then 1 else limit))
      && (next[i] != w.effects[i] ==> IsTakenBy(w.effects[i], next[i], worker, w.now, w.now + if lease < 1 then 1 else lease))
  {
    hide Tracked, IsDue, IsOpenToClaims, CountFree, CountChanged;
    DueMeansOpen(cfg, w.effects[i], w.now);
    ChangedAreCounted(w, worker, limit, lease, locked, i);
    assert ClaimedEffect(w.effects[i], w.now, worker, lease) != w.effects[i];
  }

  /** One more attempt under the next token, recorded with its lease, and owned by the worker until the lease ends. */
  ghost predicate IsTakenBy(before: Effect, after: Effect, worker: string, now: nat, until: nat) {
    var token := before.row.token + 1;
    && after.past == before.past + [Claimed(token, worker, now, until)] && after.row.attempts == before.row.attempts + 1
    && SameBinding(before, after) && after.row.nextAt == None && after.row.completedAt == before.row.completedAt
    && forall claim, t: nat :: IsOwned(after.row, claim, t) <==> claim == Claim(token, worker) && t < until
  }

  // ----- Leases and waits over whole runs -----

  ghost predicate PutOffBetween(past: seq<Event>, j: nat, k: nat) {
    exists m :: j < m < k && m < |past| && past[m].Rescheduled?
  }

  /** Until a claim's lease ends, the row is not claimed again unless its owner has put it off. */
  ghost predicate LeasesKept(past: seq<Event>) {
    forall j, k :: 0 <= j < k < |past| && past[j].Claimed? && past[k].Claimed? ==>
      past[k].at >= past[j].expires || PutOffBetween(past, j, k)
  }

  /** A row that was put off is not claimed before the recorded wait is over. */
  ghost predicate WaitsKept(past: seq<Event>) {
    forall j, k :: 0 <= j < k < |past| && past[j].Rescheduled? && past[k].Claimed? ==> past[k].at >= past[j].at + past[j].delay
  }

  ghost predicate IsInLease(past: seq<Event>, k: nat, worker: string, at: nat, expires: nat) {
    exists j :: 0 <= j < k && j < |past| && past[j].Claimed? && past[j].worker == worker && past[j].at <= at && past[j].expires == expires
  }

  /** A call is made by a worker that had claimed the row, within the lease of that claim. */
  ghost predicate CallsInLease(past: seq<Event>) {
    forall k :: 0 <= k < |past| && past[k].Called? ==>
      past[k].at < past[k].expires && IsInLease(past, k, past[k].worker, past[k].at, past[k].expires)
  }

  /** A delivery is recorded right behind its call. */
  ghost predicate CalledFirst(past: seq<Event>) {
    forall k :: 0 <= k < |past| && past[k].Delivered? ==> k > 0 && past[k - 1].Called? && past[k - 1].token == past[k].token
  }

  ghost predicate InTime(past: seq<Event>) { LeasesKept(past) && WaitsKept(past) && CallsInLease(past) && CalledFirst(past) }

  ghost predicate NotLater(past: seq<Event>, now: nat) {
    forall k :: 0 <= k < |past| && (past[k].Claimed? || past[k].Called? || past[k].Rescheduled?) ==> past[k].at <= now
  }

  /** Every claim was given up, or its lease ends by the given time. */
  ghost predicate ClaimsEnd(past: seq<Event>, until: nat) {
    forall j :: 0 <= j < |past| && past[j].Claimed? ==> past[j].expires <= until || PutOffBetween(past, j, |past|)
  }

  ghost predicate WaitsEnd(past: seq<Event>, until: nat) {
    forall j :: 0 <= j < |past| && past[j].Rescheduled? ==> past[j].at + past[j].delay <= until
  }

  ghost predicate IsPutOff(past: seq<Event>) {
    forall j :: 0 <= j < |past| && past[j].Claimed? ==> PutOffBetween(past, j, |past|)
  }

  ghost predicate NeverPutOff(past: seq<Event>) { forall j :: 0 <= j < |past| ==> !past[j].Rescheduled? }

  /** The columns of a row carry the lease of its last claim, or the wait of its last failure. */
  ghost predicate Timed(e: Effect, now: nat) {
    && InTime(e.past) && NotLater(e.past, now)
    && (e.row.state.Pending? ==>
          IsPutOff(e.past) && (if e.row.nextAt.Some? then WaitsEnd(e.past, e.row.nextAt.value) else NeverPutOff(e.past)))
    && (e.row.state.Dispatching? ==>
          && e.row.expires.Some? && e.row.owner.Some? && ClaimsEnd(e.past, e.row.expires.value) && WaitsEnd(e.past, now)
          && IsInLease(e.past, |e.past|, e.row.owner.value, now, e.row.expires.value))
  }

  lemma {:induction false} PutOffStays(past: seq<Event>, event: Event)
    ensures forall j: nat, k: nat :: k <= |past| && PutOffBetween(past, j, k) ==> PutOffBetween(past + [event], j, k)
    ensures forall j: nat :: PutOffBetween(past, j, |past|) ==> PutOffBetween(past + [event], j, |past| + 1)
    ensures event.Rescheduled? ==> forall j: nat, k: nat :: j < |past| < k ==> PutOffBetween(past + [event], j, k)
  {
    var next := past + [event];
    assert forall m :: 0 <= m < |past| ==> next[m] == past[m];
    assert next[|past|] == event;
  }

  lemma {:induction false} InLeaseStays(past: seq<Event>, event: Event, k: nat, worker: string, at: nat, later: nat, expires: nat)
    requires k <= |past| && at <= later && IsInLease(past, k, worker, at, expires)
    ensures IsInLease(past + [event], k, worker, later, expires) && IsInLease(past + [event], |past| + 1, worker, later, expires)
  {
    var j :| 0 <= j < k && past[j].Claimed? && past[j].worker == worker && past[j].at <= at && past[j].expires == expires;
    assert (past + [event])[j] == past[j];
  }

  /** An event may be added when it keeps to the leases and waits so far. */
  lemma {:induction false} AddInTime(past: seq<Event>, event: Event)
    requires InTime(past)
    requires event.Claimed? ==> ClaimsEnd(past, event.at) && WaitsEnd(past, event.at)
    requires event.Called? ==> event.at < event.expires && IsInLease(past, |past|, event.worker, event.at, event.expires)
    requires event.Delivered? ==> past != [] && past[|past| - 1].Called? && past[|past| - 1].token == event.token
    ensures InTime(past + [event])
  {
    var next := past + [event];
    PutOffStays(past, event);
    assert forall k :: 0 <= k < |past| ==> next[k] == past[k];
    assert LeasesKept(next) by { hide WaitsKept, CallsInLease, CalledFirst, WaitsEnd, IsInLease; }
    assert WaitsKept(next) by { hide LeasesKept, CallsInLease, CalledFirst, ClaimsEnd, IsInLease, PutOffBetween; }
    assert CalledFirst(next) by { hide LeasesKept, CallsInLease, WaitsKept, ClaimsEnd, IsInLease, PutOffBetween; }
    assert CallsInLease(next) by {
      hide LeasesKept, WaitsKept, CalledFirst, ClaimsEnd, WaitsEnd, PutOffBetween, IsInLease;
      forall k | 0 <= k < |next| && next[k].Called?
        ensures next[k].at < next[k].expires && IsInLease(next, k, next[k].worker, next[k].at, next[k].expires)
      {
        InLeaseStays(past, event, k, next[k].worker, next[k].at, next[k].at, next[k].expires);
      }
    }
  }

  lemma {:induction false} TakeTimed(e: Effect, worker: string, lease: int, now: nat)
    requires Timed(e, now) && IsDue(e.row, now)
    ensures Timed(ClaimedEffect(e, now, worker, lease), now)
  {
    hide InTime, AtLeastOne, PutOffBetween;
    var until := now + AtLeastOne(lease);
    var event := Claimed(e.row.token + 1, worker, now, until);
    var next := ClaimedEffect(e, now, worker, lease);
    assert ClaimsEnd(e.past, now) && WaitsEnd(e.past, now);
    AddInTime(e.past, event);
    PutOffStays(e.past, event);
    assert next.past[|e.past|] == event && forall k :: 0 <= k < |e.past| ==> next.past[k] == e.past[k];
  }

  lemma {:induction false} EndTimed(e: Effect, row: Row, event: Event, now: nat)
    requires Timed(e, now) && !IsLive(row) && !event.Claimed? && !event.Called? && !event.Rescheduled?
    requires event.Delivered? ==> e.past != [] && e.past[|e.past| - 1].Called? && e.past[|e.past| - 1].token == event.token
    ensures Timed(e.(row := row, past := e.past + [event]), now)
  {
    hide InTime, PutOffBetween, IsInLease, ClaimsEnd, WaitsEnd;
    AddInTime(e.past, event);
    assert forall k :: 0 <= k < |e.past| ==> (e.past + [event])[k] == e.past[k];
  }

  lemma {:induction false} CallTimed(e: Effect, claim: Claim, now: nat)
    requires Timed(e, now) && IsOwned(e.row, claim, now)
    ensures Timed(e.(past := e.past + [CallOf(e.row, claim, now)]), now)
  {
    hide InTime, PutOffBetween, IsInLease;
    var call := CallOf(e.row, claim, now);
    AddInTime(e.past, call);
    PutOffStays(e.past, call);
    InLeaseStays(e.past, call, |e.past|, claim.worker, now, now, e.row.expires.value);
    assert forall k :: 0 <= k < |e.past| ==> (e.past + [call])[k] == e.past[k];
  }

  lemma {:induction false} PutOffTimed(e: Effect, event: Event, now: nat)
    requires Timed(e, now) && e.row.state.Dispatching? && event.Rescheduled? && event.at == now
    ensures Timed(e.(row := Settled(e.row, Pending).(nextAt := Some(now + event.delay)), past := e.past + [event]), now)
  {
    hide InTime, PutOffBetween, IsInLease;
    AddInTime(e.past, event);
    PutOffStays(e.past, event);
    assert forall k :: 0 <= k < |e.past| ==> (e.past + [event])[k] == e.past[k];
  }

  lemma {:induction false} HoldingTimed(e: Effect, open: set<Claim>, failed: set<Claim>, token: nat, now: nat)
    requires Timed(e, now)
    ensures Timed(e.(open := open, failed := failed), now) && Timed(e.(row := e.row.(token := token)), now)
  {
    hide InTime, PutOffBetween, IsInLease, ClaimsEnd, WaitsEnd;
  }

  lemma {:induction false} SendTimed(e: Effect, claim: Claim, outcome: Outcome, now: nat)
    requires Timed(e, now)
    ensures Timed(DispatchedEffect(e, claim, outcome, now), now)
  {
    hide Timed;
    var failed := e.failed + {claim};
    HoldingTimed(e, e.open - {claim}, e.failed, 0, now);
    HoldingTimed(e, e.open - {claim}, failed, 0, now);
    if IsOwned(e.row, claim, now) {
      CallTimed(e, claim, now);
      var called := e.(past := e.past + [CallOf(e.row, claim, now)]);
      HoldingTimed(called, e.open - {claim}, e.failed, 0, now);
      HoldingTimed(called, e.open - {claim}, failed, 0, now);
      EndTimed(called.(open := e.open - {claim}), Settled(e.row, Completed).(completedAt := Some(now)), Delivered(claim.token), now);
      assert called.past + [Delivered(claim.token)] == e.past + [CallOf(e.row, claim, now), Delivered(claim.token)];
    }
  }

  lemma {:induction false} GiveBackTimed(cfg: Config, e: Effect, claim: Claim, now: nat)
    requires Timed(e, now)
    ensures Timed(RetriedEffect(cfg, e, claim, now), now)
  {
    hide Timed, Delay;
    HoldingTimed(e, e.open, e.failed - {claim}, 0, now);
    if IsOwned(e.row, claim, now) {
      var held := e.(failed := e.failed - {claim});
      EndTimed(held, Settled(e.row, DeadLetter), Buried(claim.token), now);
      PutOffTimed(held, Rescheduled(e.row.attempts, Delay(cfg, e.row.attempts), now), now);
    }
  }

  lemma {:induction false} ChangeKeepsTimed(cfg: Config, e: Effect, change: Change, now: nat)
    requires Timed(e, now) && IsPossible(e, change, now)
    ensures Timed(Changed(cfg, e, change, now), now)
  {
    hide Timed, IsDue, Delay;
    match change
    case Nothing =>
    case Fence(token) => HoldingTimed(e, e.open, e.failed, token, now);
    case Execute(worker, token) => EndTimed(e, Changed(cfg, e, change, now).row, Executed(token, worker, now), now);
    case Accept(worker, token) => EndTimed(e, Changed(cfg, e, change, now).row, Accepted(token, worker), now);
    case Take(worker, lease) => TakeTimed(e, worker, lease, now);
    case Send(claim, outcome) => SendTimed(e, claim, outcome, now);
    case GiveBack(claim) => GiveBackTimed(cfg, e, claim, now);
  }

  lemma {:induction false} NewIsTimed(w: World, a: Action, e: Effect)
    requires NewOf(w, a, e)
    ensures Timed(e, w.now)
  {
    hide PutOffBetween, IsInLease;
  }

  lemma {:induction false} TimedLater(e: Effect, now: nat, later: nat)
    requires Timed(e, now) && now <= later
    ensures Timed(e, later)
  {
    hide InTime, PutOffBetween;
  }

  ghost predicate AllTimed(w: World) { forall i :: 0 <= i < |w.effects| ==> Timed(w.effects[i], w.now) }

  lemma {:induction false} TimeGrows(cfg: Config, w: World, a: Action)
    ensures Step(cfg, w, a).now >= w.now
  {
    hide SqlExecuted, Prepared, AllClaimed, DispatchedEffect, RetriedEffect;
  }

  lemma {:induction false} StepKeepsTimed(cfg: Config, w: World, a: Action)
    requires AllTimed(w)
    ensures AllTimed(Step(cfg, w, a))
  {
    hide Step, Timed, Changed, ChangeOf, IsPossible;
    var next := Step(cfg, w, a);
    StepChanges(cfg, w, a);
    TimeGrows(cfg, w, a);
    forall i | 0 <= i < |next.effects| ensures Timed(next.effects[i], next.now) {
      if i < |w.effects| {
        ChangesArePossible(w, a, i);
        ChangeKeepsTimed(cfg, w.effects[i], ChangeOf(w, a, i), w.now);
      } else {
        NewIsTimed(w, a, next.effects[i]);
      }
      TimedLater(next.effects[i], w.now, next.now);
    }
  }

  lemma {:induction false} RunsKeepTimed(cfg: Config, w: World, actions: seq<Action>)
    requires AllTimed(w)
    ensures AllTimed(Run(cfg, w, actions))
    decreases |actions|
  {
    hide Step, AllTimed;
    if actions != [] {
      StepKeepsTimed(cfg, w, actions[0]);
      RunsKeepTimed(cfg, Step(cfg, w, actions[0]), actions[1..]);
    }
  }

  /**
   * In every run from empty tables, whatever the schedule: no row is claimed again within a lease that its owner has not
   * given back, nor before a recorded wait is over; every call falls into a lease of its worker, and every delivery
   * stands right behind its call.
   */
  lemma {:induction false} LeasesHoldInEveryRun(cfg: Config, w: World, actions: seq<Action>, i: nat)
    requires IsInitial(w) && i < |Run(cfg, w, actions).effects|
    ensures var past := Run(cfg, w, actions).effects[i].past;
      LeasesKept(past) && WaitsKept(past) && CallsInLease(past) && CalledFirst(past)
  {
    hide Step, Run, LeasesKept, WaitsKept, CallsInLease, CalledFirst;
    assert AllTimed(w);
    RunsKeepTimed(cfg, w, actions);
    assert Timed(Run(cfg, w, actions).effects[i], Run(cfg, w, actions).now);
  }

  // ----- Task leases -----

  /** A task under a current lease is not leased again. */
  lemma {:induction false} TaskLeaseIsKept(cfg: Config, w: World, id: TaskId, worker: string, token: nat, other: string, lease: nat)
    requires IsCurrent(w.tasks, w.now, id, worker, token)
    ensures Step(cfg, w, ClaimTask(id, other, lease)) == w
  {
  }

  /**
   * A task is leased exactly when it has retries left and waits or was left behind by a lease that has run out. The lease
   * is then the only current one, under the next token, up to its end.
   */
  lemma {:induction false} TaskIsLeasedExactlyWhen(cfg: Config, w: World, id: TaskId, worker: string, lease: nat)
    requires id in w.tasks
    ensures var task, next := w.tasks[id], Step(cfg, w, ClaimTask(id, worker, lease));
      && (next.tasks != w.tasks <==>
            && task.retries < task.maxRetries
            && (task.status.Waiting? || (task.status.Running? && task.expires.Some? && task.expires.value < w.now)))
      && (next.tasks != w.tasks ==>
            forall t: nat, holder, token :: IsCurrent(next.tasks, t, id, holder, token)
              <==> holder == worker && token == task.token + 1 && t < w.now + lease)
  {
    assert IsClaimable(w.tasks[id], w.now) ==> Leased(w.tasks[id], w.now, worker, lease) != w.tasks[id];
    assert IsClaimable(w.tasks[id], w.now) ==> Step(cfg, w, ClaimTask(id, worker, lease)).tasks[id] != w.tasks[id];
  }

  /** A renewed lease is held by the same worker under the same token, up to its new end. */
  lemma {:induction false} RenewedLeaseLasts(cfg: Config, w: World, id: TaskId, worker: string, token: nat, lease: nat)
    requires IsCurrent(w.tasks, w.now, id, worker, token)
    ensures var next := Step(cfg, w, RenewTask(id, worker, token, lease));
      && (forall t: nat, holder, held :: IsCurrent(next.tasks, t, id, holder, held)
            <==> holder == worker && held == token && t < w.now + lease)
      && next.effects == w.effects
  {
  }

  /** A task that its holder has ended is terminal, nobody holds it, and nobody can claim it again. */
  lemma {:induction false} SucceededTaskIsOver(cfg: Config, w: World, id: TaskId, worker: string, token: nat, other: string, lease: nat)
    requires IsCurrent(w.tasks, w.now, id, worker, token)
    ensures var next := Step(cfg, w, SucceedTask(id, worker, token));
      && IsTerminal(next.tasks, id) && next.tasks[id].status.Succeeded?
      && (forall t: nat, holder, held :: !IsCurrent(next.tasks, t, id, holder, held))
      && Step(cfg, next, ClaimTask(id, other, lease)) == next
  {
  }

  /** A failure ends the lease; with retries left the task can be leased at once, and otherwise never again. */
  lemma {:induction false} FailedTaskIsLeasedAgain(cfg: Config, w: World, id: TaskId, worker: string, token: nat, other: string, lease: nat)
    requires IsCurrent(w.tasks, w.now, id, worker, token) && lease > 0
    ensures var failed := Step(cfg, w, FailTask(id, worker, token));
      var again := Step(cfg, failed, ClaimTask(id, other, lease));
      && (forall t: nat, holder, held :: !IsCurrent(failed.tasks, t, id, holder, held))
      && (if w.tasks[id].retries + 1 < w.tasks[id].maxRetries
          then IsCurrent(again.tasks, w.now, id, other, token + 1) && again.tasks[id].retries == w.tasks[id].retries + 1
          else IsTerminal(failed.tasks, id) && again == failed)
  {
  }

  // ----- Business effects -----

  /** No row binds the key to another payload; `open` also excludes a row that is complete. */
  ghost predicate IsFreeFor(effects: seq<Effect>, id: TaskId, intent: Intent, open: bool) {
    forall k :: 0 <= k < |effects| && effects[k].row.task == id && effects[k].row.intent.key == intent.key ==>
      effects[k].row.intent == intent && (open ==> !effects[k].row.state.Completed?)
  }

  ghost predicate IsFreshlyExecuted(w: World, a: Action, next: World, i: nat)
    requires a.ExecuteSql?
  {
    && i < |next.effects| && |w.effects| <= |next.effects|
    && next.effects[i].row.task == a.id && next.effects[i].row.intent == a.intent && next.effects[i].row.state.Completed?
    && next.effects[i].row.completedAt == Some(w.now)
    && next.effects[i].past == (if i < |w.effects| then w.effects[i].past else []) + [Executed(a.token, a.worker, w.now)]
  }

  /**
   * A callback that commits under the current lease is recorded, and its row complete, exactly when the key is new or
   * bound to this payload and not complete; otherwise nothing changes at all.
   */
  lemma {:induction false} ExecutionHappensExactlyWhen(cfg: Config, w: World, a: Action)
    requires a.ExecuteSql? && KeysDiffer(w.effects)
    ensures var next := Step(cfg, w, a);
      if a.commits && IsCurrent(w.tasks, w.now, a.id, a.worker, a.token) && IsFreeFor(w.effects, a.id, a.intent, true)
      then exists i :: IsFreshlyExecuted(w, a, next, i)
      else next == w
  {
    hide IsCurrent;
    var next, i := Step(cfg, w, a), FindRow(w.effects, a.id, a.intent.key);
    FoundIsFree(w.effects, a.id, a.intent);
    if a.commits && IsCurrent(w.tasks, w.now, a.id, a.worker, a.token) && IsFreeFor(w.effects, a.id, a.intent, true) {
      assert [] + [Executed(a.token, a.worker, w.now)] == [Executed(a.token, a.worker, w.now)];
      assert IsFreshlyExecuted(w, a, next, i);
    } else if i < |w.effects| {
      assert w.effects[i := w.effects[i]] == w.effects;
    }
  }

  lemma {:induction false} FoundIsFree(effects: seq<Effect>, id: TaskId, intent: Intent)
    requires KeysDiffer(effects)
    ensures var i := FindRow(effects, id, intent.key);
      && (IsFreeFor(effects, id, intent, false) <==> i == |effects| || effects[i].row.intent == intent)
      && (IsFreeFor(effects, id, intent, true) <==>
            i == |effects| || (effects[i].row.intent == intent && !effects[i].row.state.Completed?))
  {
    var i := FindRow(effects, id, intent.key);
    assert forall k :: 0 <= k < |effects| && effects[k].row.task == id && effects[k].row.intent.key == intent.key ==> k == i;
  }

  /** The row of a prepared intent: a new pending one, or the old one under this fence unless it is complete. */
  ghost predicate IsPrepared(w: World, a: Action, next: World, i: nat)
    requires a.PrepareExternal?
  {
    && i < |next.effects| && |w.effects| <= |next.effects|
    && next.effects[i].row.task == a.id && next.effects[i].row.intent == a.intent
    && (next.effects[i].row.state.Completed? || next.effects[i].row.token == a.token)
    && (if i < |w.effects| then next.effects[i] == w.effects[i].(row := w.effects[i].row.(token := next.effects[i].row.token))
        else next.effects[i].row.state.Pending? && next.effects[i].past == [] && next.effects[i].row.nextAt.None?)
    && (i < |w.effects| && w.effects[i].row.state.Completed? ==> next.effects[i] == w.effects[i])
  }

  /** An intent is persisted exactly under a current lease whose key is new or bound to this payload; otherwise nothing changes. */
  lemma {:induction false} PreparationHappensExactlyWhen(cfg: Config, w: World, a: Action)
    requires a.PrepareExternal? && KeysDiffer(w.effects)
    ensures var next := Step(cfg, w, a);
      if IsCurrent(w.tasks, w.now, a.id, a.worker, a.token) && IsFreeFor(w.effects, a.id, a.intent, false)
      then exists i :: IsPrepared(w, a, next, i)
      else next == w
  {
    hide IsCurrent;
    var next, i := Step(cfg, w, a), FindRow(w.effects, a.id, a.intent.key);
    FoundIsFree(w.effects, a.id, a.intent);
    if IsCurrent(w.tasks, w.now, a.id, a.worker, a.token) && IsFreeFor(w.effects, a.id, a.intent, false) {
      assert IsPrepared(w, a, next, i);
    }
  }

  /** A completion of an external effect is accepted exactly under a current lease of its own task; otherwise nothing changes. */
  lemma {:induction false} AcceptanceHappensExactlyWhen(cfg: Config, w: World, a: Action)
    requires a.AcceptExternal?
    ensures var next := Step(cfg, w, a);
      if IsCurrent(w.tasks, w.now, a.id, a.worker, a.token) && a.effect < |w.effects| && w.effects[a.effect].row.task == a.id
      then
        var before, after := w.effects[a.effect], next.effects[a.effect];
        && |next.effects| == |w.effects| && after.row.state.Completed? && after.row.completedAt == Some(w.now)
        && SameBinding(before, after) && after.past == before.past + [Accepted(a.token, a.worker)]
        && forall k :: 0 <= k < |w.effects| && k != a.effect ==> next.effects[k] == w.effects[k]
      else next == w
  {
    hide IsCurrent;
  }

  /** A claim that owns its row and meets no failure calls the index and completes the row, which nobody owns afterwards. */
  lemma {:induction false} OwnedDispatchDelivers(cfg: Config, w: World, i: nat, claim: Claim)
    requires i < |w.effects| && claim in w.effects[i].open && IsOwned(w.effects[i].row, claim, w.now)
    ensures var next := Step(cfg, w, Dispatch(i, claim, Succeeds));
      && i < |next.effects| && next.effects[i].row.state.Completed? && next.effects[i].row.completedAt == Some(w.now)
      && next.effects[i].past == w.effects[i].past + [Called(claim.token, claim.worker, w.now, w.effects[i].row.expires.value)]
                                                   + [Delivered(claim.token)]
      && forall other, t: nat :: !IsOwned(next.effects[i].row, other, t)
  {
  }

  /** A failed claim that still owns its row puts it off below the limit and gives it up at the limit; nobody owns it then. */
  lemma {:induction false} OwnedFailureIsHandled(cfg: Config, w: World, i: nat, claim: Claim)
    requires i < |w.effects| && claim in w.effects[i].failed && IsOwned(w.effects[i].row, claim, w.now)
    ensures var before := w.effects[i];
      var next := Step(cfg, w, Retry(i, claim));
      && i < |next.effects| && (forall other, t: nat :: !IsOwned(next.effects[i].row, other, t))
      && (if before.row.attempts < cfg.Max()
          then var delay := Delay(cfg, before.row.attempts);
            && IsLive(next.effects[i].row) && next.effects[i].past == before.past + [Rescheduled(before.row.attempts, delay, w.now)]
            && forall t: nat :: IsWaiting(next.effects[i].row, t) <==> t < w.now + delay
          else next.effects[i].row.state.DeadLetter? && next.effects[i].past == before.past + [Buried(claim.token)])
  {
    hide Delay;
  }
}
