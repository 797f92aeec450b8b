/** What every run of the workers keeps. */
module OutboxSafety {
  import opened Options
  import opened Ordering
  import opened Outbox

  // ----- Counting events -----

  function Count(past: seq<Event>, kind: Event -> bool): nat {
    if past == [] then 0 else Count(past[..|past| - 1], kind) + if kind(past[|past| - 1]) then 1 else 0
  }

  predicate IsClaim(e: Event) { e.Claimed? }
  predicate IsReschedule(e: Event) { e.Rescheduled? }
  predicate IsExecution(e: Event) { e.Executed? }
  predicate IsFenced(e: Event) { e.Executed? || e.Accepted? }
  predicate Closes(e: Event) { e.Delivered? || e.Buried? || e.Executed? || e.Accepted? }

  lemma {:induction false} CountNext(past: seq<Event>, event: Event, kind: Event -> bool)
    ensures Count(past + [event], kind) == Count(past, kind) + if kind(event) then 1 else 0
  {
    assert (past + [event])[..|past|] == past;
  }

  // ----- At most one SQL execution, whatever the schedule -----

  /** The callback of an effect has been committed at most once, and then the effect is complete for good. */
  ghost predicate OnceOnly(e: Effect) {
    Count(e.past, IsExecution) <= 1 && (Count(e.past, IsExecution) == 1 ==> e.row.state.Completed?)
  }

  /** A key names one row of its task. */
  ghost predicate KeysDiffer(effects: seq<Effect>) {
    forall i, j :: 0 <= i < j < |effects| ==>
      effects[i].row.task != effects[j].row.task || effects[i].row.intent.key != effects[j].row.intent.key
  }

  ghost predicate SqlSafe(w: World) {
    KeysDiffer(w.effects) && forall i :: 0 <= i < |w.effects| ==> OnceOnly(w.effects[i])
  }

  /** The same task and intent. */
  predicate SameBinding(a: Effect, b: Effect) { a.row.task == b.row.task && a.row.intent == b.row.intent }

  /** What one action does to one row. */
  datatype Change =
    | Nothing
    | Fence(token: nat)
    | Execute(worker: string, token: nat)
    | Accept(worker: string, token: nat)
    | Take(worker: string, lease: int)
    | Send(claim: Claim, outcome: Outcome)
    | GiveBack(claim: Claim)

  function Changed(cfg: Config, e: Effect, change: Change, now: nat): Effect {
    match change
    case Nothing => e
    case Fence(token) => Refenced(e, token)
    case Execute(worker, token) => ExecutedEffect(Refenced(e, token), now, worker, token)
    case Accept(worker, token) => AcceptedEffect(e, now, worker, token)
    case Take(worker, lease) => ClaimedEffect(e, now, worker, lease)
    case Send(claim, outcome) => DispatchedEffect(e, claim, outcome, now)
    case GiveBack(claim) => RetriedEffect(cfg, e, claim, now)
  }

  /** The action takes the intent of row `i` under the current fence of its task. */
  predicate TakesIntent(w: World, a: Action, i: nat)
    requires a.PrepareExternal? || a.ExecuteSql?
    requires i < |w.effects|
  {
    && IsCurrent(w.tasks, w.now, a.id, a.worker, a.token)
    && FindRow(w.effects, a.id, a.intent.key) == i && w.effects[i].row.intent == a.intent
  }

  function ChangeOf(w: World, a: Action, i: nat): Change
    requires i < |w.effects|
  {
    match a
    case PrepareExternal(_, _, token, _) => if TakesIntent(w, a, i) then Fence(token) else Nothing
    case ExecuteSql(_, worker, token, _, commits) =>
      if TakesIntent(w, a, i) && !w.effects[i].row.state.Completed? && commits then Execute(worker, token) else Nothing
    case AcceptExternal(id, worker, token, effect) =>
      if IsCurrent(w.tasks, w.now, id, worker, token) && effect == i && w.effects[i].row.task == id
      then Accept(worker, token) else Nothing
    case ClaimDue(worker, limit, seconds, locked) =>
      if IsPicked(w.effects, w.now, locked, limit, i) then Take(worker, seconds) else Nothing
    case Dispatch(effect, claim, outcome) =>
      if effect == i && claim in w.effects[i].open then Send(claim, outcome) else Nothing
    case Retry(effect, claim) => if effect == i && claim in w.effects[i].failed then GiveBack(claim) else Nothing
    case _ => Nothing
  }

  /** A row that an action adds: a new intent under the current fence, perhaps executed at once. */
  ghost predicate NewOf(w: World, a: Action, e: Effect) {
    && (a.PrepareExternal? || a.ExecuteSql?)
    && IsCurrent(w.tasks, w.now, a.id, a.worker, a.token)
    && FindRow(w.effects, a.id, a.intent.key) == |w.effects|
    && (|| e == NewEffect(a.id, a.token, a.intent)
        || (a.ExecuteSql? && a.commits && e == ExecutedEffect(NewEffect(a.id, a.token, a.intent), w.now, a.worker, a.token)))
  }

  /** Rows are never removed or reordered, and every action changes each of them as described. */
  lemma {:induction false} StepChanges(cfg: Config, w: World, a: Action)
    ensures var next := Step(cfg, w, a);
      && |w.effects| <= |next.effects| <= |w.effects| + 1
      && (forall i :: 0 <= i < |w.effects| ==> next.effects[i] == Changed(cfg, w.effects[i], ChangeOf(w, a, i), w.now))
      && (|next.effects| > |w.effects| ==> NewOf(w, a, next.effects[|w.effects|]))
  {
    hide DispatchedEffect, RetriedEffect, IsPicked, ClaimedEffect, ExecutedEffect, AcceptedEffect, IsCurrent,
      SqlExecuted, Prepared, NewOf;
    if a.ExecuteSql? {
      ExecuteChanges(cfg, w, a);
    } else if a.PrepareExternal? {
      PrepareChanges(cfg, w, a);
    }
  }

  lemma {:induction false} ExecuteChanges(cfg: Config, w: World, a: Action)
    requires a.ExecuteSql?
    ensures var next := SqlExecuted(w, a.id, a.worker, a.token, a.intent, a.commits);
      && |w.effects| <= |next| <= |w.effects| + 1
      && (forall i :: 0 <= i < |w.effects| ==> next[i] == Changed(cfg, w.effects[i], ChangeOf(w, a, i), w.now))
      && (|next| > |w.effects| ==> NewOf(w, a, next[|w.effects|]))
  {
    hide DispatchedEffect, RetriedEffect, IsPicked, ClaimedEffect, ExecutedEffect, AcceptedEffect, IsCurrent, Step;
  }

  lemma {:induction false} PrepareChanges(cfg: Config, w: World, a: Action)
    requires a.PrepareExternal?
    ensures var next := Prepared(w, a.id, a.worker, a.token, a.intent);
      && |w.effects| <= |next| <= |w.effects| + 1
      && (forall i :: 0 <= i < |w.effects| ==> next[i] == Changed(cfg, w.effects[i], ChangeOf(w, a, i), w.now))
      && (|next| > |w.effects| ==> NewOf(w, a, next[|w.effects|]))
  {
    hide DispatchedEffect, RetriedEffect, IsPicked, ClaimedEffect, ExecutedEffect, AcceptedEffect, IsCurrent, Step;
  }

  lemma {:induction false} ChangeKeepsOnce(cfg: Config, e: Effect, change: Change, now: nat)
    requires OnceOnly(e) && (change.Execute? ==> !e.row.state.Completed?) && (change.Take? ==> IsDue(e.row, now))
    ensures var next := Changed(cfg, e, change, now);
      OnceOnly(next) && SameBinding(next, e) && (e.row.state.Completed? ==> next.row.state.Completed?)
  {
    hide Count, Delay;
    match change
    case Nothing =>
    case Fence(token) =>
    case Execute(worker, token) => CountNext(e.past, Executed(token, worker, now), IsExecution);
    case Accept(worker, token) => CountNext(e.past, Accepted(token, worker), IsExecution);
    case Take(worker, lease) => CountNext(e.past, Claimed(e.row.token + 1, worker, now, now + AtLeastOne(lease)), IsExecution);
    case Send(claim, outcome) =>
      if IsOwned(e.row, claim, now) {
        var call := CallOf(e.row, claim, now);
        CountNext(e.past, call, IsExecution);
        CountNext(e.past + [call], Delivered(claim.token), IsExecution);
        assert e.past + [call, Delivered(claim.token)] == e.past + [call] + [Delivered(claim.token)];
      }
    case GiveBack(claim) =>
      CountNext(e.past, Buried(claim.token), IsExecution);
      CountNext(e.past, Rescheduled(e.row.attempts, Delay(cfg, e.row.attempts), now), IsExecution);
  }

  lemma {:induction false} NewIsOnce(w: World, a: Action, e: Effect)
    requires NewOf(w, a, e)
    ensures OnceOnly(e) && e.row.task == a.id && e.row.intent == a.intent
  {
    CountNext([], Executed(a.token, a.worker, w.now), IsExecution);
    assert [] + [Executed(a.token, a.worker, w.now)] == [Executed(a.token, a.worker, w.now)];
  }

  lemma {:induction false} StepKeepsSqlSafe(cfg: Config, w: World, a: Action)
    requires SqlSafe(w)
    ensures SqlSafe(Step(cfg, w, a)) && Extends(w, Step(cfg, w, a))
  {
    hide Step, OnceOnly, Changed;
    var next := Step(cfg, w, a);
    StepChanges(cfg, w, a);
    forall i | 0 <= i < |w.effects|
      ensures OnceOnly(next.effects[i]) && SameBinding(next.effects[i], w.effects[i])
      ensures w.effects[i].row.state.Completed? ==> next.effects[i].row.state.Completed?
    {
      ChangeKeepsOnce(cfg, w.effects[i], ChangeOf(w, a, i), w.now);
    }
    if |next.effects| > |w.effects| { NewIsOnce(w, a, next.effects[|w.effects|]); }
  }

  /** The same rows with the same bindings come first, and those that were complete still are. */
  ghost predicate Extends(before: World, after: World) {
    && |before.effects| <= |after.effects|
    && forall i :: 0 <= i < |before.effects| ==>
         && SameBinding(after.effects[i], before.effects[i])
         && (before.effects[i].row.state.Completed? ==> after.effects[i].row.state.Completed?)
  }

  /**
   * Over any run: each key of a task has one row, its callback is committed at most once, completion is final, and
   * the kind and payload hash of a key never change.
   */
  lemma {:induction false} SqlCommitsAtMostOnce(cfg: Config, w: World, actions: seq<Action>)
    requires SqlSafe(w)
    ensures SqlSafe(Run(cfg, w, actions)) && Extends(w, Run(cfg, w, actions))
    decreases |actions|
  {
    hide Step, SqlSafe;
    if actions != [] {
      StepKeepsSqlSafe(cfg, w, actions[0]);
      SqlCommitsAtMostOnce(cfg, Step(cfg, w, actions[0]), actions[1..]);
    }
  }

  /** A callback is committed only under the current owner, token and lease of a running task. */
  lemma {:induction false} ExecutionIsFenced(cfg: Config, w: World, a: Action, i: nat, event: Event)
    requires i < |Step(cfg, w, a).effects| && event.Executed?
    requires event in Step(cfg, w, a).effects[i].past
    requires i < |w.effects| ==> event !in w.effects[i].past
    ensures a.ExecuteSql? && a.commits && event == Executed(a.token, a.worker, w.now)
    ensures Step(cfg, w, a).effects[i].row.task == a.id && IsCurrent(w.tasks, w.now, a.id, a.worker, a.token)
  {
    hide Step, IsPicked, IsCurrent, Delay;
    StepChanges(cfg, w, a);
  }

  // ----- Dispatch: what every run keeps -----

  predicate IsLive(row: Row) { row.state.Pending? || row.state.Dispatching? }

  /** How a later event of a row may follow an earlier one. */
  predicate Follows(a: Event, b: Event) {
    && (a.Rescheduled? && b.Rescheduled? ==> a.attempts < b.attempts && a.delay <= b.delay)
    && (Closes(a) ==> !b.Claimed? && !b.Called? && !b.Rescheduled?)
  }

  /** Later claims and later calls carry larger tokens. */
  predicate Outranks(a: Event, b: Event) {
    && (a.Claimed? && b.Claimed? ==> a.token < b.token)
    && (a.Called? && b.Called? ==> a.token < b.token)
  }

  /** A call is made before its lease runs out; a wait is the computed one, and at most an hour. */
  predicate WellMade(cfg: Config, e: Event) {
    && (e.Called? ==> e.at < e.expires)
    && (e.Rescheduled? ==> e.attempts < cfg.Max() && e.delay == Delay(cfg, e.attempts) && e.delay <= 3600)
  }

  /** A failure was put off at no more attempts than the row has now. */
  predicate Bounded(e: Event, row: Row) {
    e.Rescheduled? ==> e.attempts <= row.attempts && (row.state.Dispatching? ==> e.attempts < row.attempts)
  }

  ghost predicate Shape(cfg: Config, row: Row, claims: nat) {
    && (row.state.Pending? ==> row.attempts < cfg.Max() && row.attempts == claims && row.owner.None? && row.expires.None?)
    && (row.state.Dispatching? ==> row.attempts == claims > 0 && row.owner.Some? && row.expires.Some?)
    && (row.state.DeadLetter? ==> row.attempts == claims >= cfg.Max() && row.owner.None? && row.expires.None?)
  }

  /** Attempts are claims and completions under a task fence; failures are put off fewer than Max times. */
  ghost predicate Tallied(cfg: Config, e: Effect) {
    var claims, waits := Count(e.past, IsClaim), Count(e.past, IsReschedule);
    && e.row.attempts == claims + Count(e.past, IsFenced)
    && waits <= claims && (e.row.state.Dispatching? ==> waits < claims) && waits <= cfg.Max() - 1
  }

  ghost predicate Within(cfg: Config, e: Effect) {
    forall k :: 0 <= k < |e.past| ==> WellMade(cfg, e.past[k]) && Bounded(e.past[k], e.row)
  }

  ghost predicate HasClosed(past: seq<Event>) { exists k :: 0 <= k < |past| && Closes(past[k]) }

  ghost predicate ClosedRightly(e: Effect) { HasClosed(e.past) <==> !IsLive(e.row) }

  /** A row that was never claimed has been acted on by its task alone. */
  ghost predicate Untouched(e: Effect) {
    Count(e.past, IsClaim) == 0 ==> e.open == {} && e.failed == {} && forall k :: 0 <= k < |e.past| ==> IsFenced(e.past[k])
  }

  ghost predicate Tracked(cfg: Config, e: Effect) {
    && Shape(cfg, e.row, Count(e.past, IsClaim)) && Tallied(cfg, e) && Pairwise(e.past, Follows) && Within(cfg, e)
    && ClosedRightly(e) && Untouched(e)
  }

  /** What `ChangeOf` guarantees of a change. */
  predicate IsPossible(e: Effect, change: Change, now: nat) {
    && (change.Execute? ==> !e.row.state.Completed?)
    && (change.Take? ==> IsDue(e.row, now))
    && (change.Send? ==> change.claim in e.open)
    && (change.GiveBack? ==> change.claim in e.failed)
  }

  // ----- Waits -----

  lemma {:induction false} Pow2Grows(a: nat, b: nat)
    requires a <= b
    ensures 1 <= Pow2(a) <= Pow2(b)
  {
    if a < b { Pow2Grows(a, b - 1); } else if a > 0 { Pow2Grows(a - 1, b - 1); }
  }

  lemma {:induction false} ProductGrows(base: nat, x: nat, y: nat)
    requires x <= y
    ensures base * x <= base * y
  {
  }

  /** Waits never exceed an hour and never shrink. */
  lemma {:induction false} DelayGrows(cfg: Config, a: nat, b: nat)
    requires 1 <= a <= b
    ensures Delay(cfg, a) <= Delay(cfg, b) <= 3600
  {
    hide Pow2;
    Pow2Grows(Min(a - 1, 8), Min(b - 1, 8));
    ProductGrows(cfg.Base(), Pow2(Min(a - 1, 8)), Pow2(Min(b - 1, 8)));
  }

  /** The first wait is the base; each further attempt doubles it, eight times at most, and never beyond an hour. */
  lemma {:induction false} DelayDoubles(cfg: Config, attempts: nat)
    requires attempts >= 1
    ensures Delay(cfg, 1) == Min(3600, cfg.Base())
    ensures Delay(cfg, attempts + 1) == if attempts <= 8 then Min(3600, 2 * Delay(cfg, attempts)) else Delay(cfg, attempts)
  {
    var exponent := attempts - 1;
    if attempts <= 8 {
      assert Pow2(exponent + 1) == 2 * Pow2(exponent);
      assert cfg.Base() * Pow2(exponent + 1) == 2 * (cfg.Base() * Pow2(exponent));
    }
    assert Pow2(0) == 1;
  }

  lemma {:induction false} DelayFromStart(cfg: Config, attempts: nat)
    requires attempts >= 1
    ensures Delay(cfg, 0) <= Delay(cfg, attempts)
  {
    DelayGrows(cfg, 1, attempts);
  }

  // ----- One change at a time -----

  lemma {:induction false} AppendPairwise(past: seq<Event>, event: Event, rel: (Event, Event) -> bool)
    requires Pairwise(past, rel) && forall k :: 0 <= k < |past| ==> rel(past[k], event)
    ensures Pairwise(past + [event], rel)
  {
    assert Pairwise([event], rel);
    PairwiseConcat(past, [event], rel);
  }

  lemma {:induction false} ClosingNext(past: seq<Event>, event: Event)
    ensures HasClosed(past + [event]) <==> HasClosed(past) || Closes(event)
  {
    var next := past + [event];
    assert next[|past|] == event;
    if HasClosed(past) {
      var k :| 0 <= k < |past| && Closes(past[k]);
      assert next[k] == past[k];
    }
  }

  lemma {:induction false} CountsNext(past: seq<Event>, event: Event)
    ensures Count(past + [event], IsClaim) == Count(past, IsClaim) + if event.Claimed? then 1 else 0
    ensures Count(past + [event], IsReschedule) == Count(past, IsReschedule) + if event.Rescheduled? then 1 else 0
    ensures Count(past + [event], IsFenced) == Count(past, IsFenced) + if IsFenced(event) then 1 else 0
  {
    CountNext(past, event, IsClaim);
    CountNext(past, event, IsReschedule);
    CountNext(past, event, IsFenced);
  }

  lemma {:induction false} NotClosedMeans(e: Effect)
    requires ClosedRightly(e) && IsLive(e.row)
    ensures forall k :: 0 <= k < |e.past| ==> !Closes(e.past[k])
  {
  }

  lemma {:induction false} NoneFenced(past: seq<Event>)
    requires forall k :: 0 <= k < |past| ==> !Closes(past[k])
    ensures Count(past, IsFenced) == 0
  {
    if past != [] { NoneFenced(past[..|past| - 1]); }
  }

  lemma {:induction false} TakeTracked(cfg: Config, e: Effect, worker: string, lease: int, now: nat)
    requires Tracked(cfg, e) && IsDue(e.row, now)
    ensures Tracked(cfg, ClaimedEffect(e, now, worker, lease))
  {
    hide Count, Pairwise, Delay, AtLeastOne;
    var event := Claimed(e.row.token + 1, worker, now, now + AtLeastOne(lease));
    var next := ClaimedEffect(e, now, worker, lease);
    CountsNext(e.past, event);
    ClosingNext(e.past, event);
    NotClosedMeans(e);
    AppendPairwise(e.past, event, Follows);
    assert forall k :: 0 <= k < |e.past| ==> next.past[k] == e.past[k];
  }

  lemma {:induction false} FenceTracked(cfg: Config, e: Effect, token: nat)
    requires Tracked(cfg, e)
    ensures Tracked(cfg, Refenced(e, token))
  {
    hide Count, Pairwise, Delay;
  }

  lemma {:induction false} CompletionTracked(cfg: Config, e: Effect, event: Event, now: nat)
    requires Tracked(cfg, e) && IsFenced(event)
    ensures Tracked(cfg, e.(row := e.row.(state := Completed, completedAt := Some(now), attempts := e.row.attempts + 1),
                            past := e.past + [event]))
  {
    hide Count, Pairwise, Delay;
    CountsNext(e.past, event);
    ClosingNext(e.past, event);
    AppendPairwise(e.past, event, Follows);
    var past := e.past + [event];
    assert forall k :: 0 <= k < |e.past| ==> past[k] == e.past[k];
  }

  lemma {:induction false} HoldingTracked(cfg: Config, e: Effect, open: set<Claim>, failed: set<Claim>)
    requires Tracked(cfg, e) && (Count(e.past, IsClaim) > 0 || open == failed == {})
    ensures Tracked(cfg, e.(open := open, failed := failed))
  {
    hide Count, Pairwise, Delay;
  }

  lemma {:induction false} HeldMeansClaimed(cfg: Config, e: Effect, claim: Claim)
    requires Tracked(cfg, e) && (claim in e.open || claim in e.failed)
    ensures Count(e.past, IsClaim) > 0
  {
    hide Count, Pairwise, Delay;
  }

  lemma {:induction false} CallTracked(cfg: Config, e: Effect, claim: Claim, now: nat)
    requires Tracked(cfg, e) && IsOwned(e.row, claim, now)
    ensures Tracked(cfg, e.(past := e.past + [CallOf(e.row, claim, now)]))
  {
    hide Count, Pairwise, Delay;
    var event := CallOf(e.row, claim, now);
    CountsNext(e.past, event);
    ClosingNext(e.past, event);
    NotClosedMeans(e);
    AppendPairwise(e.past, event, Follows);
    var past := e.past + [event];
    assert forall k :: 0 <= k < |e.past| ==> past[k] == e.past[k];
  }

  /** The row after its owner has settled it, with the event that says how. */
  predicate IsSettling(cfg: Config, before: Row, row: Row, event: Event) {
    && row == Settled(before, row.state).(nextAt := row.nextAt, completedAt := row.completedAt)
    && (|| (event.Delivered? && row.state.Completed?)
        || (event.Buried? && row.state.DeadLetter? && before.attempts >= cfg.Max())
        || (&& row.state.Pending? && before.attempts < cfg.Max()
            && event.Rescheduled? && event.attempts == before.attempts && event.delay == Delay(cfg, before.attempts)))
  }

  lemma {:induction false} SettleTracked(cfg: Config, e: Effect, row: Row, event: Event)
    requires Tracked(cfg, e) && e.row.state.Dispatching? && IsSettling(cfg, e.row, row, event)
    ensures Tracked(cfg, e.(row := row, past := e.past + [event]))
  {
    hide Count, Pairwise, Delay;
    var next := e.(row := row, past := e.past + [event]);
    CountsNext(e.past, event);
    ClosingNext(e.past, event);
    NotClosedMeans(e);
    NoneFenced(e.past);
    DelayGrows(cfg, e.row.attempts, e.row.attempts);
    forall k | 0 <= k < |e.past| ensures Follows(e.past[k], event) && Bounded(e.past[k], row) {
      assert Bounded(e.past[k], e.row) && WellMade(cfg, e.past[k]);
      if e.past[k].Rescheduled? && e.past[k].attempts >= 1 { DelayGrows(cfg, e.past[k].attempts, e.row.attempts); }
      if e.past[k].Rescheduled? && e.past[k].attempts == 0 { DelayFromStart(cfg, e.row.attempts); }
    }
    AppendPairwise(e.past, event, Follows);
    assert forall k :: 0 <= k < |e.past| ==> next.past[k] == e.past[k];
  }

  lemma {:induction false} SendTracked(cfg: Config, e: Effect, claim: Claim, outcome: Outcome, now: nat)
    requires Tracked(cfg, e) && claim in e.open
    ensures Tracked(cfg, DispatchedEffect(e, claim, outcome, now))
  {
    hide Tracked, Delay;
    HeldMeansClaimed(cfg, e, claim);
    HoldingTracked(cfg, e, e.open - {claim}, e.failed);
    HoldingTracked(cfg, e, e.open - {claim}, e.failed + {claim});
    if IsOwned(e.row, claim, now) {
      var call := CallOf(e.row, claim, now);
      CountsNext(e.past, call);
      CallTracked(cfg, e, claim, now);
      var called := e.(past := e.past + [call]);
      HoldingTracked(cfg, called, e.open - {claim}, e.failed);
      HoldingTracked(cfg, called, e.open - {claim}, e.failed + {claim});
      var row := Settled(e.row, Completed).(completedAt := Some(now));
      SettleTracked(cfg, called.(open := e.open - {claim}), row, Delivered(claim.token));
      assert called.past + [Delivered(claim.token)] == e.past + [call, Delivered(claim.token)];
    }
  }

  lemma {:induction false} GiveBackTracked(cfg: Config, e: Effect, claim: Claim, now: nat)
    requires Tracked(cfg, e) && claim in e.failed
    ensures Tracked(cfg, RetriedEffect(cfg, e, claim, now))
  {
    hide Tracked, Delay;
    HeldMeansClaimed(cfg, e, claim);
    HoldingTracked(cfg, e, e.open, e.failed - {claim});
    if IsOwned(e.row, claim, now) {
      var held := e.(failed := e.failed - {claim});
      if e.row.attempts >= cfg.Max() {
        SettleTracked(cfg, held, Settled(e.row, DeadLetter), Buried(claim.token));
      } else {
        var delay := Delay(cfg, e.row.attempts);
        SettleTracked(cfg, held, Settled(e.row, Pending).(nextAt := Some(now + delay)), Rescheduled(e.row.attempts, delay, now));
      }
    }
  }

  lemma {:induction false} ChangeKeepsTracked(cfg: Config, e: Effect, change: Change, now: nat)
    requires Tracked(cfg, e) && IsPossible(e, change, now)
    ensures Tracked(cfg, Changed(cfg, e, change, now)) && SameBinding(Changed(cfg, e, change, now), e)
  {
    hide Tracked, IsDue, Delay;
    match change
    case Nothing =>
    case Fence(token) => FenceTracked(cfg, e, token);
    case Execute(worker, token) =>
      FenceTracked(cfg, e, token);
      CompletionTracked(cfg, Refenced(e, token), Executed(token, worker, now), now);
    case Accept(worker, token) => CompletionTracked(cfg, e, Accepted(token, worker), now);
    case Take(worker, lease) => TakeTracked(cfg, e, worker, lease, now);
    case Send(claim, outcome) => SendTracked(cfg, e, claim, outcome, now);
    case GiveBack(claim) => GiveBackTracked(cfg, e, claim, now);
  }

  lemma {:induction false} ChangesArePossible(w: World, a: Action, i: nat)
    requires i < |w.effects|
    ensures IsPossible(w.effects[i], ChangeOf(w, a, i), w.now)
  {
    hide IsDue;
  }

  lemma {:induction false} NewIsTracked(cfg: Config, w: World, a: Action, e: Effect)
    requires NewOf(w, a, e)
    ensures Tracked(cfg, e) && Count(e.past, IsClaim) == 0
  {
    hide Count, Pairwise, Delay;
    var added := NewEffect(a.id, a.token, a.intent);
    NothingCounted();
    assert Pairwise([], Follows) by { NothingPairwise(Follows); }
    assert Tracked(cfg, added);
    if e != added {
      CountsNext([], Executed(a.token, a.worker, w.now));
      assert [] + [Executed(a.token, a.worker, w.now)] == [Executed(a.token, a.worker, w.now)];
      CompletionTracked(cfg, added, Executed(a.token, a.worker, w.now), w.now);
    }
  }

  lemma {:induction false} NothingCounted()
    ensures Count([], IsClaim) == Count([], IsReschedule) == Count([], IsFenced) == 0
  {
  }

  lemma {:induction false} NothingPairwise(rel: (Event, Event) -> bool)
    ensures Pairwise([], rel)
  {
  }

  ghost predicate AllTracked(cfg: Config, w: World) { forall i :: 0 <= i < |w.effects| ==> Tracked(cfg, w.effects[i]) }

  lemma {:induction false} StepKeepsTracked(cfg: Config, w: World, a: Action)
    requires AllTracked(cfg, w)
    ensures AllTracked(cfg, Step(cfg, w, a))
  {
    hide Step, Tracked, Changed, ChangeOf, IsPossible;
    var next := Step(cfg, w, a);
    StepChanges(cfg, w, a);
    forall i | 0 <= i < |next.effects| ensures Tracked(cfg, next.effects[i]) {
      if i < |w.effects| {
        ChangesArePossible(w, a, i);
        ChangeKeepsTracked(cfg, w.effects[i], ChangeOf(w, a, i), w.now);
      } else {
        NewIsTracked(cfg, w, a, next.effects[i]);
      }
    }
  }

  /** Over any run, whatever the schedule, every row keeps its shape, its counts, and the order of its history. */
  lemma {:induction false} RunsKeepTracked(cfg: Config, w: World, actions: seq<Action>)
    requires AllTracked(cfg, w)
    ensures AllTracked(cfg, Run(cfg, w, actions))
    decreases |actions|
  {
    hide Step, AllTracked;
    if actions != [] {
      StepKeepsTracked(cfg, w, actions[0]);
      RunsKeepTracked(cfg, Step(cfg, w, actions[0]), actions[1..]);
    }
  }

  // ----- Tokens -----

  ghost predicate IsCalledAt(past: seq<Event>, token: nat) {
    exists k :: 0 <= k < |past| && past[k].Called? && past[k].token == token
  }

  /** No event names a generation beyond the row's; the claims on its generation are one, and it has not called. */
  ghost predicate ClaimsFresh(e: Effect) {
    && (forall k :: 0 <= k < |e.past| && (e.past[k].Claimed? || e.past[k].Called?) ==> e.past[k].token <= e.row.token)
    && (forall c :: c in e.open ==> c.token <= e.row.token && (c.token == e.row.token ==> !IsCalledAt(e.past, c.token)))
    && (forall c, d :: c in e.open && d in e.open && c.token == d.token ==> c == d)
  }

  ghost predicate Ordered(e: Effect) { Pairwise(e.past, Outranks) && (IsLive(e.row) ==> ClaimsFresh(e)) }

  /** The task's fence is put below the generation of a row that was claimed and has not ended. */
  ghost predicate Unsettles(e: Effect, change: Change) {
    change.Fence? && IsLive(e.row) && Count(e.past, IsClaim) > 0 && change.token < e.row.token
  }

  lemma {:induction false} TakeOrdered(e: Effect, worker: string, lease: int, now: nat)
    requires Ordered(e) && IsDue(e.row, now)
    ensures Ordered(ClaimedEffect(e, now, worker, lease))
  {
    hide Pairwise, AtLeastOne;
    var event := Claimed(e.row.token + 1, worker, now, now + AtLeastOne(lease));
    var next := ClaimedEffect(e, now, worker, lease);
    AppendPairwise(e.past, event, Outranks);
    assert forall k :: 0 <= k < |e.past| ==> next.past[k] == e.past[k];
  }

  lemma {:induction false} FenceOrdered(cfg: Config, e: Effect, token: nat)
    requires Ordered(e) && Tracked(cfg, e) && !Unsettles(e, Fence(token))
    ensures Ordered(Refenced(e, token))
  {
    hide Pairwise, Count;
  }

  lemma {:induction false} CompletionOrdered(e: Effect, row: Row, event: Event)
    requires Ordered(e) && row.state.Completed? && IsFenced(event)
    ensures Ordered(e.(row := row, past := e.past + [event]))
  {
    hide Pairwise;
    AppendPairwise(e.past, event, Outranks);
  }

  lemma {:induction false} HoldingOrdered(e: Effect, open: set<Claim>, failed: set<Claim>)
    requires Ordered(e) && open <= e.open
    ensures Ordered(e.(open := open, failed := failed))
  {
    hide Pairwise;
  }

  /** A call under the current generation: no other claim on that generation is left. */
  lemma {:induction false} CallOrdered(e: Effect, claim: Claim, now: nat)
    requires Ordered(e) && claim in e.open && IsOwned(e.row, claim, now)
    ensures Ordered(e.(open := e.open - {claim}, past := e.past + [CallOf(e.row, claim, now)]))
  {
    hide Pairwise;
    var event := CallOf(e.row, claim, now);
    var next := e.(open := e.open - {claim}, past := e.past + [event]);
    forall k | 0 <= k < |e.past| ensures Outranks(e.past[k], event) {
      assert e.past[k].Called? && e.past[k].token == claim.token ==> IsCalledAt(e.past, claim.token);
    }
    AppendPairwise(e.past, event, Outranks);
    assert forall k :: 0 <= k < |e.past| ==> next.past[k] == e.past[k];
    assert forall c :: c in next.open ==> c in e.open && c != claim;
  }

  lemma {:induction false} SettleOrdered(e: Effect, row: Row, event: Event)
    requires Ordered(e) && e.row.state.Dispatching? && row.token == e.row.token && !event.Claimed? && !event.Called?
    ensures Ordered(e.(row := row, past := e.past + [event]))
  {
    hide Pairwise;
    var next := e.(row := row, past := e.past + [event]);
    AppendPairwise(e.past, event, Outranks);
    assert forall k :: 0 <= k < |e.past| ==> next.past[k] == e.past[k];
  }

  lemma {:induction false} SendOrdered(e: Effect, claim: Claim, outcome: Outcome, now: nat)
    requires Ordered(e) && claim in e.open
    ensures Ordered(DispatchedEffect(e, claim, outcome, now))
  {
    hide Ordered;
    HoldingOrdered(e, e.open - {claim}, e.failed);
    HoldingOrdered(e, e.open - {claim}, e.failed + {claim});
    if IsOwned(e.row, claim, now) {
      var call := CallOf(e.row, claim, now);
      CallOrdered(e, claim, now);
      var called := e.(open := e.open - {claim}, past := e.past + [call]);
      HoldingOrdered(called, called.open, e.failed + {claim});
      SettleOrdered(called, Settled(e.row, Completed).(completedAt := Some(now)), Delivered(claim.token));
      assert called.past + [Delivered(claim.token)] == e.past + [call, Delivered(claim.token)];
    }
  }

  lemma {:induction false} GiveBackOrdered(cfg: Config, e: Effect, claim: Claim, now: nat)
    requires Ordered(e)
    ensures Ordered(RetriedEffect(cfg, e, claim, now))
  {
    hide Ordered, Delay;
    HoldingOrdered(e, e.open, e.failed - {claim});
    if IsOwned(e.row, claim, now) {
      var held := e.(failed := e.failed - {claim});
      SettleOrdered(held, Settled(e.row, DeadLetter), Buried(claim.token));
      var delay := Delay(cfg, e.row.attempts);
      SettleOrdered(held, Settled(e.row, Pending).(nextAt := Some(now + delay)), Rescheduled(e.row.attempts, delay, now));
    }
  }

  lemma {:induction false} ChangeKeepsOrdered(cfg: Config, e: Effect, change: Change, now: nat)
    requires Ordered(e) && Tracked(cfg, e) && IsPossible(e, change, now) && !Unsettles(e, change)
    ensures Ordered(Changed(cfg, e, change, now))
  {
    hide Tracked, IsDue, Delay, Ordered, Unsettles;
    match change
    case Nothing =>
    case Fence(token) => FenceOrdered(cfg, e, token);
    case Execute(worker, token) =>
      var next := Changed(cfg, e, change, now);
      CompletionOrdered(e, next.row, Executed(token, worker, now));
    case Accept(worker, token) => CompletionOrdered(e, Changed(cfg, e, change, now).row, Accepted(token, worker));
    case Take(worker, lease) => TakeOrdered(e, worker, lease, now);
    case Send(claim, outcome) => SendOrdered(e, claim, outcome, now);
    case GiveBack(claim) => GiveBackOrdered(cfg, e, claim, now);
  }

  lemma {:induction false} NewIsOrdered(cfg: Config, w: World, a: Action, e: Effect)
    requires NewOf(w, a, e)
    ensures Ordered(e)
  {
    hide Pairwise;
    NothingPairwise(Outranks);
    var added := NewEffect(a.id, a.token, a.intent);
    if e != added {
      AppendPairwise([], Executed(a.token, a.worker, w.now), Outranks);
      assert [] + [Executed(a.token, a.worker, w.now)] == [Executed(a.token, a.worker, w.now)];
    }
  }

  // ----- Every run that dispatches only after the task is terminal -----

  /** A claimed row's task is terminal and has not acted on it; a completed row has no owner left. */
  ghost predicate Apart(terminal: bool, e: Effect) {
    && (Count(e.past, IsClaim) > 0 ==> terminal && Count(e.past, IsFenced) == 0)
    && (e.row.state.Completed? ==> e.row.owner.None? && e.row.expires.None?)
  }

  ghost predicate Dispatchable(cfg: Config, terminal: bool, e: Effect) { Tracked(cfg, e) && Ordered(e) && Apart(terminal, e) }

  /** Projections are claimed only once their ingestion task is terminal; the claim query itself does not check this. */
  ghost predicate Disciplined(w: World, a: Action) {
    a.ClaimDue? ==> forall i :: 0 <= i < |w.effects| && IsPicked(w.effects, w.now, a.locked, a.limit, i) ==>
      IsTerminal(w.tasks, w.effects[i].row.task)
  }

  ghost predicate AllDisciplined(cfg: Config, w: World, actions: seq<Action>)
    decreases |actions|
  {
    actions == [] || (Disciplined(w, actions[0]) && AllDisciplined(cfg, Step(cfg, w, actions[0]), actions[1..]))
  }

  ghost predicate DispatchSafe(cfg: Config, w: World) {
    forall i :: 0 <= i < |w.effects| ==> Dispatchable(cfg, IsTerminal(w.tasks, w.effects[i].row.task), w.effects[i])
  }

  /** A terminal task stays terminal, and only the task's own actions touch the tasks. */
  lemma {:induction false} TasksStayTerminal(cfg: Config, w: World, a: Action, id: TaskId)
    ensures IsTerminal(w.tasks, id) ==> IsTerminal(Step(cfg, w, a).tasks, id)
    ensures !a.ClaimTask? && !a.RenewTask? && !a.SucceedTask? && !a.FailTask? ==> Step(cfg, w, a).tasks == w.tasks
  {
    hide SqlExecuted, Prepared, AllClaimed, DispatchedEffect, RetriedEffect;
  }

  lemma {:induction false} ChangeIsAllowed(w: World, a: Action, i: nat)
    requires i < |w.effects| && Disciplined(w, a)
    ensures var change, terminal := ChangeOf(w, a, i), IsTerminal(w.tasks, w.effects[i].row.task);
      && (change.Fence? || change.Execute? || change.Accept? ==> !terminal)
      && (change.Take? ==> terminal)
  {
    hide IsDue;
  }

  lemma {:induction false} ChangeKeepsApart(cfg: Config, terminal: bool, e: Effect, change: Change, now: nat)
    requires Dispatchable(cfg, terminal, e) && IsPossible(e, change, now)
    requires change.Fence? || change.Execute? || change.Accept? ==> !terminal
    requires change.Take? ==> terminal
    ensures Apart(terminal, Changed(cfg, e, change, now))
  {
    hide Count, Pairwise, Delay, Within, ClosedRightly, ClaimsFresh;
    match change
    case Execute(worker, token) => CountsNext(e.past, Executed(token, worker, now));
    case Accept(worker, token) => CountsNext(e.past, Accepted(token, worker));
    case Take(worker, lease) =>
      CountsNext(e.past, Claimed(e.row.token + 1, worker, now, now + AtLeastOne(lease)));
    case Send(claim, outcome) =>
      if IsOwned(e.row, claim, now) {
        var call := CallOf(e.row, claim, now);
        CountsNext(e.past, call);
        CountsNext(e.past + [call], Delivered(claim.token));
        assert e.past + [call, Delivered(claim.token)] == e.past + [call] + [Delivered(claim.token)];
      }
    case GiveBack(claim) =>
      CountsNext(e.past, Buried(claim.token));
      CountsNext(e.past, Rescheduled(e.row.attempts, Delay(cfg, e.row.attempts), now));
    case _ =>
  }

  lemma {:induction false} StepKeepsDispatchSafe(cfg: Config, w: World, a: Action)
    requires DispatchSafe(cfg, w) && Disciplined(w, a)
    ensures DispatchSafe(cfg, Step(cfg, w, a))
  {
    hide Step, Tracked, Ordered, Disciplined, Changed, ChangeOf, IsTerminal, Unsettles, IsPossible, Apart;
    var next := Step(cfg, w, a);
    StepChanges(cfg, w, a);
    forall i | 0 <= i < |next.effects| ensures Dispatchable(cfg, IsTerminal(next.tasks, next.effects[i].row.task), next.effects[i]) {
      if i < |w.effects| {
        var e, change := w.effects[i], ChangeOf(w, a, i);
        var terminal := IsTerminal(w.tasks, e.row.task);
        ChangeIsAllowed(w, a, i);
        ChangesArePossible(w, a, i);
        ClaimedIsNotUnsettled(cfg, terminal, e, change);
        ChangeKeepsTracked(cfg, e, change, w.now);
        ChangeKeepsOrdered(cfg, e, change, w.now);
        ChangeKeepsApart(cfg, terminal, e, change, w.now);
        TasksStayTerminal(cfg, w, a, e.row.task);
        ApartIsLater(next.effects[i], terminal, IsTerminal(next.tasks, e.row.task));
      } else {
        NewIsTracked(cfg, w, a, next.effects[i]);
        NewIsOrdered(cfg, w, a, next.effects[i]);
        NewIsApart(w, a, next.effects[i], IsTerminal(next.tasks, next.effects[i].row.task));
      }
    }
  }

  lemma {:induction false} ApartIsLater(e: Effect, before: bool, after: bool)
    requires Apart(before, e) && (before ==> after)
    ensures Apart(after, e)
  {
  }

  lemma {:induction false} NewIsApart(w: World, a: Action, e: Effect, terminal: bool)
    requires NewOf(w, a, e) && Count(e.past, IsClaim) == 0
    ensures Apart(terminal, e)
  {
    hide Count;
  }

  lemma {:induction false} ClaimedIsNotUnsettled(cfg: Config, terminal: bool, e: Effect, change: Change)
    requires Dispatchable(cfg, terminal, e) && (change.Fence? ==> !terminal)
    ensures !Unsettles(e, change)
  {
    hide Count, Tracked, Ordered;
  }

  /** Over any disciplined run every row keeps its tokens in order and stays apart from its task. */
  lemma {:induction false} RunsKeepDispatchSafe(cfg: Config, w: World, actions: seq<Action>)
    requires DispatchSafe(cfg, w) && AllDisciplined(cfg, w, actions)
    ensures DispatchSafe(cfg, Run(cfg, w, actions))
    decreases |actions|
  {
    hide Step, DispatchSafe, Disciplined;
    if actions != [] {
      StepKeepsDispatchSafe(cfg, w, actions[0]);
      RunsKeepDispatchSafe(cfg, Step(cfg, w, actions[0]), actions[1..]);
    }
  }
}
