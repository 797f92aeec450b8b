/** Consequences over whole runs: ownership of calls, superseded claims, finality, bounded retries, termination. */
module OutboxRuns {
  import opened Options
  import opened Ordering
  import opened Outbox
  import opened OutboxSafety
  import opened OutboxStore

  // ----- Calls -----

  /** Every index call is made by the claim that the row names at that moment, before its lease runs out. */
  lemma {:induction false} CallIsOwned(cfg: Config, w: World, a: Action, i: nat, event: Event)
    requires i < |Step(cfg, w, a).effects| && event.Called?
    requires event in Step(cfg, w, a).effects[i].past
    requires i < |w.effects| ==> event !in w.effects[i].past
    ensures i < |w.effects| && a.Dispatch? && a.effect == i && a.claim == Claim(event.token, event.worker)
    ensures var row := w.effects[i].row;
      && row.state.Dispatching? && row.owner == Some(event.worker) && row.token == event.token
      && row.expires == Some(event.expires) && event.at == w.now < event.expires
  {
    hide Step, IsPicked, IsCurrent, Delay;
    StepChanges(cfg, w, a);
  }

  /** The history and the columns of every row after any run from empty tables, whatever the schedule. */
  lemma {:induction false} HistoryOfEveryRow(cfg: Config, w: World, actions: seq<Action>, i: nat)
    requires IsInitial(w) && i < |Run(cfg, w, actions).effects|
    ensures var e := Run(cfg, w, actions).effects[i];
      var claims := Count(e.past, IsClaim);
      && Shape(cfg, e.row, claims) && Pairwise(e.past, Follows)
      && e.row.attempts == claims + Count(e.past, IsFenced)
      && Count(e.past, IsReschedule) <= cfg.Max() - 1
      && (HasClosed(e.past) <==> e.row.state.Completed? || e.row.state.DeadLetter?)
      && forall k :: 0 <= k < |e.past| ==> WellMade(cfg, e.past[k])
  {
    hide Step, Count, Pairwise, WellMade, Shape, HasClosed;
    assert AllTracked(cfg, w);
    RunsKeepTracked(cfg, w, actions);
    assert Tracked(cfg, Run(cfg, w, actions).effects[i]);
  }

  /** In a disciplined run the owner and the expiry are set exactly while the row is dispatched. */
  lemma {:induction false} OwnersOfEveryRow(cfg: Config, w: World, actions: seq<Action>, i: nat)
    requires IsInitial(w) && AllDisciplined(cfg, w, actions) && i < |Run(cfg, w, actions).effects|
    ensures var e := Run(cfg, w, actions).effects[i];
      && (e.row.owner.Some? <==> e.row.state.Dispatching?) && (e.row.expires.Some? <==> e.row.state.Dispatching?)
      && (Count(e.past, IsClaim) > 0 ==> e.row.attempts == Count(e.past, IsClaim))
  {
    hide Step, Count, Pairwise, Within, Ordered;
    assert DispatchSafe(cfg, w);
    RunsKeepDispatchSafe(cfg, w, actions);
    var end := Run(cfg, w, actions);
    assert Dispatchable(cfg, IsTerminal(end.tasks, end.effects[i].row.task), end.effects[i]);
  }

  // ----- The order of calls -----

  /** The transaction takes the intent of an incomplete row under a fence below the row's generation, and commits. */
  predicate LowersFence(w: World, a: Action, i: nat)
    requires i < |w.effects|
  {
    && (a.PrepareExternal? || (a.ExecuteSql? && a.commits)) && TakesIntent(w, a, i)
    && !w.effects[i].row.state.Completed? && a.token < w.effects[i].row.token
  }

  /** A transaction lowers the token of a row exactly when it takes the intent of an incomplete row under a smaller fence. */
  lemma {:induction false} FenceGoesDownExactlyWhen(cfg: Config, w: World, a: Action, i: nat)
    requires i < |w.effects| <= |Step(cfg, w, a).effects|
    ensures Step(cfg, w, a).effects[i].row.token < w.effects[i].row.token <==> LowersFence(w, a, i)
  {
    hide Step, IsPicked, IsCurrent, Delay;
    StepChanges(cfg, w, a);
  }

  /** A row that was claimed and has not ended is prepared under a fence below its generation. */
  ghost predicate UnsettlesRow(w: World, a: Action, i: nat) {
    && i < |w.effects| && a.PrepareExternal? && LowersFence(w, a, i)
    && IsLive(w.effects[i].row) && Count(w.effects[i].past, IsClaim) > 0
  }

  ghost predicate NeverUnsettled(cfg: Config, w: World, actions: seq<Action>, i: nat)
    decreases |actions|
  {
    actions == [] || (!UnsettlesRow(w, actions[0], i) && NeverUnsettled(cfg, Step(cfg, w, actions[0]), actions[1..], i))
  }

  ghost predicate OrderedAt(w: World, i: nat) { i < |w.effects| ==> Ordered(w.effects[i]) }

  lemma {:induction false} StepKeepsOrderedAt(cfg: Config, w: World, a: Action, i: nat)
    requires AllTracked(cfg, w) && OrderedAt(w, i) && !UnsettlesRow(w, a, i)
    ensures OrderedAt(Step(cfg, w, a), i)
  {
    hide Step, Tracked, Ordered, Changed, Count, IsCurrent, IsPicked, IsPossible;
    var next := Step(cfg, w, a);
    StepChanges(cfg, w, a);
    if i < |w.effects| {
      var change := ChangeOf(w, a, i);
      ChangesArePossible(w, a, i);
      assert !Unsettles(w.effects[i], change);
      ChangeKeepsOrdered(cfg, w.effects[i], change, w.now);
    } else if i < |next.effects| {
      NewIsOrdered(cfg, w, a, next.effects[i]);
    }
  }

  lemma {:induction false} RunsKeepOrderedAt(cfg: Config, w: World, actions: seq<Action>, i: nat)
    requires AllTracked(cfg, w) && OrderedAt(w, i) && NeverUnsettled(cfg, w, actions, i)
    ensures OrderedAt(Run(cfg, w, actions), i)
    decreases |actions|
  {
    hide Step, AllTracked, OrderedAt, UnsettlesRow;
    if actions != [] {
      StepKeepsOrderedAt(cfg, w, actions[0], i);
      StepKeepsTracked(cfg, w, actions[0]);
      RunsKeepOrderedAt(cfg, Step(cfg, w, actions[0]), actions[1..], i);
    }
  }

  /**
   * Two calls for one row, in any run in which the task's fence never unsettles this row: the later call has the larger
   * token, nothing is called after an end, and waits do not shrink.
   */
  lemma {:induction false} CallsInOrder(cfg: Config, w: World, actions: seq<Action>, i: nat, j: nat, k: nat)
    requires IsInitial(w) && NeverUnsettled(cfg, w, actions, i) && i < |Run(cfg, w, actions).effects|
    requires j < k < |Run(cfg, w, actions).effects[i].past|
    ensures var past := Run(cfg, w, actions).effects[i].past;
      && (past[j].Called? && past[k].Called? ==> past[j].token < past[k].token)
      && (Closes(past[j]) ==> !past[k].Called? && !past[k].Claimed?)
      && (past[j].Rescheduled? && past[k].Rescheduled? ==> past[j].delay <= past[k].delay <= 3600)
  {
    hide Step, Run, NeverUnsettled, Shape, Count, HasClosed;
    HistoryOfEveryRow(cfg, w, actions, i);
    RunsKeepOrderedAt(cfg, w, actions, i);
    var past := Run(cfg, w, actions).effects[i].past;
    PairwiseAt(past, Follows, j, k);
    PairwiseAt(past, Outranks, j, k);
    assert WellMade(cfg, past[k]);
  }

  /** When projections are claimed only after their task is terminal, no row is ever unsettled. */
  lemma {:induction false} DisciplineNeverUnsettles(cfg: Config, w: World, actions: seq<Action>, i: nat)
    requires DispatchSafe(cfg, w) && AllDisciplined(cfg, w, actions)
    ensures NeverUnsettled(cfg, w, actions, i)
    decreases |actions|
  {
    hide Step, Dispatchable, Disciplined, Count, IsLive;
    if actions != [] {
      var a := actions[0];
      if UnsettlesRow(w, a, i) {
        var terminal := IsTerminal(w.tasks, w.effects[i].row.task);
        ClaimedIsApart(cfg, terminal, w.effects[i]);
        assert false;
      }
      StepKeepsDispatchSafe(cfg, w, a);
      DisciplineNeverUnsettles(cfg, Step(cfg, w, a), actions[1..], i);
    }
  }

  lemma {:induction false} ClaimedIsApart(cfg: Config, terminal: bool, e: Effect)
    requires Dispatchable(cfg, terminal, e) && Count(e.past, IsClaim) > 0
    ensures terminal
  {
    hide Tracked, Ordered, Count;
  }

  // ----- Superseded claims and ended rows -----

  /** A claim that can no longer own its row: the row was claimed again since, or has ended. */
  ghost predicate IsSuperseded(e: Effect, claim: Claim) {
    Count(e.past, IsClaim) > 0 && (IsLive(e.row) ==> claim.token < e.row.token)
  }

  lemma {:induction false} SupersededChangesNothing(cfg: Config, e: Effect, claim: Claim, outcome: Outcome, now: nat)
    requires IsSuperseded(e, claim)
    ensures var sent, back := DispatchedEffect(e, claim, outcome, now), RetriedEffect(cfg, e, claim, now);
      sent.row == e.row && sent.past == e.past && back.row == e.row && back.past == e.past
  {
  }

  lemma {:induction false} ChangeKeepsSuperseded(cfg: Config, e: Effect, change: Change, now: nat, claim: Claim)
    requires IsPossible(e, change, now) && !Unsettles(e, change) && IsSuperseded(e, claim)
    ensures IsSuperseded(Changed(cfg, e, change, now), claim)
  {
    hide Count, Delay;
    match change
    case Execute(worker, token) => CountsNext(e.past, Executed(token, worker, now));
    case Accept(worker, token) => CountsNext(e.past, Accepted(token, worker));
    case Take(worker, lease) => CountsNext(e.past, Claimed(e.row.token + 1, worker, now, now + AtLeastOne(lease)));
    case Send(other, outcome) =>
      if IsOwned(e.row, other, now) {
        var call := CallOf(e.row, other, now);
        CountsNext(e.past, call);
        CountsNext(e.past + [call], Delivered(other.token));
        assert e.past + [call, Delivered(other.token)] == e.past + [call] + [Delivered(other.token)];
      }
    case GiveBack(other) =>
      CountsNext(e.past, Buried(other.token));
      CountsNext(e.past, Rescheduled(e.row.attempts, Delay(cfg, e.row.attempts), now));
    case _ =>
  }

  lemma {:induction false} StepKeepsSuperseded(cfg: Config, w: World, a: Action, i: nat, claim: Claim)
    requires i < |w.effects| && IsSuperseded(w.effects[i], claim) && !UnsettlesRow(w, a, i)
    ensures i < |Step(cfg, w, a).effects| && IsSuperseded(Step(cfg, w, a).effects[i], claim)
  {
    hide Step, Changed, Count, IsSuperseded, IsCurrent, IsPicked, IsPossible;
    StepChanges(cfg, w, a);
    ChangesArePossible(w, a, i);
    assert !Unsettles(w.effects[i], ChangeOf(w, a, i));
    ChangeKeepsSuperseded(cfg, w.effects[i], ChangeOf(w, a, i), w.now, claim);
  }

  /**
   * However a run goes on, as long as the task's fence does not unsettle the row, a superseded claim never changes a
   * column of the row nor adds to its history: neither by its dispatch nor by handling its failure.
   */
  lemma {:induction false} SupersededNeverActs(cfg: Config, w: World, actions: seq<Action>, i: nat, claim: Claim, outcome: Outcome)
    requires i < |w.effects| && IsSuperseded(w.effects[i], claim) && NeverUnsettled(cfg, w, actions, i)
    ensures i < |Run(cfg, w, actions).effects|
    ensures var end := Run(cfg, w, actions);
      var sent, back := Step(cfg, end, Dispatch(i, claim, outcome)).effects[i], Step(cfg, end, Retry(i, claim)).effects[i];
      && sent.row == end.effects[i].row && sent.past == end.effects[i].past
      && back.row == end.effects[i].row && back.past == end.effects[i].past
    decreases |actions|
  {
    hide Step, Count, IsSuperseded, UnsettlesRow;
    if actions == [] {
      LateActions(cfg, w, i, claim, outcome);
    } else {
      StepKeepsSuperseded(cfg, w, actions[0], i, claim);
      SupersededNeverActs(cfg, Step(cfg, w, actions[0]), actions[1..], i, claim, outcome);
    }
  }

  lemma {:induction false} LateActions(cfg: Config, w: World, i: nat, claim: Claim, outcome: Outcome)
    requires i < |w.effects| && IsSuperseded(w.effects[i], claim)
    ensures i < |Step(cfg, w, Dispatch(i, claim, outcome)).effects| && i < |Step(cfg, w, Retry(i, claim)).effects|
    ensures var sent, back := Step(cfg, w, Dispatch(i, claim, outcome)).effects[i], Step(cfg, w, Retry(i, claim)).effects[i];
      && sent.row == w.effects[i].row && sent.past == w.effects[i].past
      && back.row == w.effects[i].row && back.past == w.effects[i].past
  {
    hide IsSuperseded, DispatchedEffect, RetriedEffect;
    SupersededChangesNothing(cfg, w.effects[i], claim, outcome, w.now);
  }

  /** A claimed row that has ended. */
  ghost predicate IsFinal(e: Effect) { Count(e.past, IsClaim) > 0 && !IsLive(e.row) }

  lemma {:induction false} FinalStays(cfg: Config, e: Effect, change: Change, now: nat)
    requires IsFinal(e) && !change.Fence? && !change.Execute? && !change.Accept? && !change.Take?
    ensures Changed(cfg, e, change, now).row == e.row && Changed(cfg, e, change, now).past == e.past
  {
    hide Count, Delay;
  }

  lemma {:induction false} StepKeepsFinal(cfg: Config, w: World, a: Action, i: nat)
    requires DispatchSafe(cfg, w) && Disciplined(w, a) && i < |w.effects| && IsFinal(w.effects[i])
    ensures i < |Step(cfg, w, a).effects|
    ensures Step(cfg, w, a).effects[i].row == w.effects[i].row && Step(cfg, w, a).effects[i].past == w.effects[i].past
  {
    hide Step, Changed, ChangeOf, Dispatchable, Disciplined, IsTerminal, Count;
    var e := w.effects[i];
    StepChanges(cfg, w, a);
    ChangeIsAllowed(w, a, i);
    ChangesArePossible(w, a, i);
    ClaimedIsApart(cfg, IsTerminal(w.tasks, e.row.task), e);
    FinalStays(cfg, e, ChangeOf(w, a, i), w.now);
  }

  /** In a disciplined run a claimed row that was delivered or given up is never touched again. */
  lemma {:induction false} EndedRowsStay(cfg: Config, w: World, actions: seq<Action>, i: nat)
    requires DispatchSafe(cfg, w) && AllDisciplined(cfg, w, actions) && i < |w.effects| && IsFinal(w.effects[i])
    ensures i < |Run(cfg, w, actions).effects|
    ensures Run(cfg, w, actions).effects[i].row == w.effects[i].row && Run(cfg, w, actions).effects[i].past == w.effects[i].past
    decreases |actions|
  {
    hide Step, Dispatchable, DispatchSafe, Disciplined, Count, IsLive;
    if actions != [] {
      StepKeepsFinal(cfg, w, actions[0], i);
      StepKeepsDispatchSafe(cfg, w, actions[0]);
      EndedRowsStay(cfg, Step(cfg, w, actions[0]), actions[1..], i);
    }
  }

  // ----- Termination without takeovers -----

  /** Steps that a row may still make when nobody loses a claim. */
  function Work(cfg: Config, row: Row): nat {
    match row.state
    case Pending => if row.attempts < cfg.Max() then 2 * (cfg.Max() - row.attempts) else 0
    case Dispatching => if row.attempts <= cfg.Max() then 2 * (cfg.Max() - row.attempts) + 1 else 1
    case _ => 0
  }

  function TotalWork(cfg: Config, effects: seq<Effect>): nat {
    if effects == [] then 0 else TotalWork(cfg, effects[..|effects| - 1]) + Work(cfg, effects[|effects| - 1].row)
  }

  /** A dispatcher action that takes no claim over from a worker whose lease ran out. */
  ghost predicate IsUninterrupted(w: World, a: Action) {
    && (a.ClaimDue? || a.Dispatch? || a.Retry? || a.Pass?)
    && (a.ClaimDue? ==> forall i :: 0 <= i < |w.effects| && IsPicked(w.effects, w.now, a.locked, a.limit, i) ==>
          w.effects[i].row.state.Pending?)
  }

  lemma {:induction false} ChangeWorks(cfg: Config, e: Effect, change: Change, now: nat)
    requires change.Nothing? || change.Take? || change.Send? || change.GiveBack?
    requires change.Take? ==> e.row.state.Pending?
    requires e.row.state.Pending? ==> e.row.attempts < cfg.Max()
    ensures var next := Changed(cfg, e, change, now);
      && Work(cfg, next.row) <= Work(cfg, e.row)
      && (next.row != e.row ==> Work(cfg, next.row) < Work(cfg, e.row))
  {
    hide Delay;
  }

  lemma {:induction false} WorkOfEach(cfg: Config, before: seq<Effect>, after: seq<Effect>)
    requires |before| == |after|
    requires forall i :: 0 <= i < |before| ==> Work(cfg, after[i].row) <= Work(cfg, before[i].row)
    requires forall i :: 0 <= i < |before| && after[i].row != before[i].row ==> Work(cfg, after[i].row) < Work(cfg, before[i].row)
    ensures TotalWork(cfg, after) <= TotalWork(cfg, before)
    ensures (exists i :: 0 <= i < |before| && after[i].row != before[i].row) ==> TotalWork(cfg, after) < TotalWork(cfg, before)
    decreases |before|
  {
    hide Work;
    if before != [] {
      var n := |before| - 1;
      WorkOfEach(cfg, before[..n], after[..n]);
      if i :| 0 <= i < |before| && after[i].row != before[i].row {
        if i < n { assert after[..n][i].row != before[..n][i].row; }
      }
    }
  }

  ghost predicate ChangesRows(cfg: Config, w: World, a: Action) {
    var next := Step(cfg, w, a);
    exists i :: 0 <= i < |w.effects| && i < |next.effects| && next.effects[i].row != w.effects[i].row
  }

  /** Every dispatcher step that changes a row reduces the work that is left. */
  lemma {:induction false} StepReducesWork(cfg: Config, w: World, a: Action)
    requires AllTracked(cfg, w) && IsUninterrupted(w, a)
    ensures var next := Step(cfg, w, a);
      && |next.effects| == |w.effects| && TotalWork(cfg, next.effects) <= TotalWork(cfg, w.effects)
      && (ChangesRows(cfg, w, a) ==> TotalWork(cfg, next.effects) < TotalWork(cfg, w.effects))
  {
    hide Step, Changed, Tracked, Work, TotalWork, IsPicked;
    var next := Step(cfg, w, a);
    StepChanges(cfg, w, a);
    forall i | 0 <= i < |w.effects|
      ensures Work(cfg, next.effects[i].row) <= Work(cfg, w.effects[i].row)
      ensures next.effects[i].row != w.effects[i].row ==> Work(cfg, next.effects[i].row) < Work(cfg, w.effects[i].row)
    {
      PendingHasAttemptsLeft(cfg, w.effects[i]);
      ChangeWorks(cfg, w.effects[i], ChangeOf(w, a, i), w.now);
    }
    WorkOfEach(cfg, w.effects, next.effects);
  }

  lemma {:induction false} PendingHasAttemptsLeft(cfg: Config, e: Effect)
    requires Tracked(cfg, e)
    ensures e.row.state.Pending? ==> e.row.attempts < cfg.Max()
  {
    hide Count, Pairwise, Within, ClosedRightly, Tallied, Untouched;
  }

  ghost predicate AllUninterrupted(cfg: Config, w: World, actions: seq<Action>)
    decreases |actions|
  {
    actions == []
    || (IsUninterrupted(w, actions[0]) && AllUninterrupted(cfg, Step(cfg, w, actions[0]), actions[1..]))
  }

  ghost function CountChanges(cfg: Config, w: World, actions: seq<Action>): nat
    decreases |actions|
  {
    if actions == [] then 0
    else (if ChangesRows(cfg, w, actions[0]) then 1 else 0) + CountChanges(cfg, Step(cfg, w, actions[0]), actions[1..])
  }

  /** Without takeovers, the dispatcher changes rows only as often as there is work: it cannot go on for ever. */
  lemma {:induction false} UninterruptedRunsEnd(cfg: Config, w: World, actions: seq<Action>)
    requires AllTracked(cfg, w) && AllUninterrupted(cfg, w, actions)
    ensures CountChanges(cfg, w, actions) + TotalWork(cfg, Run(cfg, w, actions).effects) <= TotalWork(cfg, w.effects)
    decreases |actions|
  {
    hide Step, TotalWork, AllTracked, ChangesRows, IsUninterrupted;
    if actions != [] {
      StepReducesWork(cfg, w, actions[0]);
      StepKeepsTracked(cfg, w, actions[0]);
      UninterruptedRunsEnd(cfg, Step(cfg, w, actions[0]), actions[1..]);
    }
  }

  lemma {:induction false} WorkIsBounded(cfg: Config, effects: seq<Effect>)
    ensures TotalWork(cfg, effects) <= (2 * cfg.Max() + 1) * |effects|
    decreases |effects|
  {
    if effects != [] {
      var front := effects[..|effects| - 1];
      WorkIsBounded(cfg, front);
      assert Work(cfg, effects[|effects| - 1].row) <= 2 * cfg.Max() + 1;
      assert (2 * cfg.Max() + 1) * |effects| == (2 * cfg.Max() + 1) * |front| + (2 * cfg.Max() + 1);
    }
  }

  // ----- Rows that the task's fence unsettles -----

  /** Preparing a row whose dispatch is under way supersedes the claim without a successor: its dispatch then does nothing. */
  lemma {:induction false} PreparingLosesClaim(cfg: Config, w: World, a: Action, i: nat, claim: Claim, outcome: Outcome)
    requires i < |w.effects| && claim in w.effects[i].open && IsOwned(w.effects[i].row, claim, w.now)
    requires a.PrepareExternal? && TakesIntent(w, a, i) && a.token != claim.token
    ensures var after := Step(cfg, w, a);
      var lost := Step(cfg, after, Dispatch(i, claim, outcome));
      && i < |after.effects| && i < |lost.effects|
      && lost.effects[i].row == w.effects[i].row.(token := a.token) && lost.effects[i].row.state.Dispatching?
      && lost.effects[i].past == w.effects[i].past
  {
    var after := Step(cfg, w, a);
    PreparedRow(cfg, w, a, i);
    DispatchedRow(cfg, after, i, claim, outcome);
  }

  lemma {:induction false} PreparedRow(cfg: Config, w: World, a: Action, i: nat)
    requires i < |w.effects| && a.PrepareExternal? && TakesIntent(w, a, i)
    ensures |Step(cfg, w, a).effects| == |w.effects| && Step(cfg, w, a).now == w.now
    ensures Step(cfg, w, a).effects[i] == Refenced(w.effects[i], a.token)
  {
    hide IsCurrent;
  }

  lemma {:induction false} DispatchedRow(cfg: Config, w: World, i: nat, claim: Claim, outcome: Outcome)
    requires i < |w.effects| && claim in w.effects[i].open
    ensures |Step(cfg, w, Dispatch(i, claim, outcome)).effects| == |w.effects|
    ensures Step(cfg, w, Dispatch(i, claim, outcome)).effects[i] == DispatchedEffect(w.effects[i], claim, outcome, w.now)
  {
    hide DispatchedEffect;
  }

  /** The time until a row is due, when nobody settles it before. */
  function UntilDue(row: Row, now: nat): nat {
    var at := if row.state.Pending? then row.nextAt else row.expires;
    if at.None? || at.value <= now then 0 else at.value - now
  }

  function Indices(n: nat): (r: set<nat>)
    ensures forall k: nat :: k in r <==> k < n
  {
    if n == 0 then {} else Indices(n - 1) + {n - 1}
  }

  /** A claim of row `i` alone, with all other rows locked, followed by a call after which the worker crashes. */
  function ClaimAndCall(w: World, i: nat, worker: string): seq<Action>
    requires i < |w.effects|
  {
    [Pass(UntilDue(w.effects[i].row, w.now)), ClaimDue(worker, 1, 10, Indices(|w.effects|) - {i}),
     Dispatch(i, Claim(w.effects[i].row.token + 1, worker), CrashesAfterCall)]
  }

  lemma {:induction false} NoneFree(effects: seq<Effect>, now: nat, locked: set<nat>, n: nat)
    requires n <= |effects| && forall k :: 0 <= k < n ==> k in locked
    ensures CountFree(effects, now, locked, n) == 0
  {
    hide IsDue;
    if n > 0 { NoneFree(effects, now, locked, n - 1); }
  }

  /** A live projection can always be claimed and called by a worker of any name, once it is due. */
  lemma {:induction false} ClaimAndCallCalls(cfg: Config, w: World, i: nat, worker: string)
    requires AllTracked(cfg, w) && i < |w.effects| && IsLive(w.effects[i].row) && w.effects[i].row.intent.kind == KNOWLEDGE_INDEX
    ensures var end := Run(cfg, w, ClaimAndCall(w, i, worker));
      var at, token := w.now + UntilDue(w.effects[i].row, w.now), w.effects[i].row.token + 1;
      && |end.effects| == |w.effects| && end.tasks == w.tasks && end.now == at
      && end.effects[i].row == ClaimedRow(w.effects[i].row, at, worker, 10)
      && end.effects[i].past == w.effects[i].past + [Claimed(token, worker, at, at + 10)] + [Called(token, worker, at, at + 10)]
  {
    hide Step, Run, AllClaimed;
    var e, at := w.effects[i], w.now + UntilDue(w.effects[i].row, w.now);
    var claim := Claim(e.row.token + 1, worker);
    var locked := Indices(|w.effects|) - {i};
    RunOfThree(cfg, w, Pass(at - w.now), ClaimDue(worker, 1, 10, locked), Dispatch(i, claim, CrashesAfterCall));
    var w1 := w.(now := at);
    PassAlone(cfg, w, at - w.now);
    assert IsDue(e.row, at) by { WaitingIsDue(cfg, e, w.now); }
    NoneFree(w1.effects, at, locked, i);
    var w2 := Step(cfg, w1, ClaimDue(worker, 1, 10, locked));
    ClaimedOne(cfg, w1, worker, locked, i);
    DispatchedRow(cfg, w2, i, claim, CrashesAfterCall);
    DispatchOnly(cfg, w2, i, claim);
  }

  lemma {:induction false} WaitingIsDue(cfg: Config, e: Effect, now: nat)
    requires Tracked(cfg, e) && IsLive(e.row) && e.row.intent.kind == KNOWLEDGE_INDEX
    ensures IsDue(e.row, now + UntilDue(e.row, now))
  {
    hide Count, Pairwise, Within, ClosedRightly, Tallied, Untouched;
  }

  lemma {:induction false} ClaimedOne(cfg: Config, w: World, worker: string, locked: set<nat>, i: nat)
    requires i < |w.effects| && IsDue(w.effects[i].row, w.now) && i !in locked && CountFree(w.effects, w.now, locked, i) == 0
    ensures var next := Step(cfg, w, ClaimDue(worker, 1, 10, locked));
      && |next.effects| == |w.effects| && next.tasks == w.tasks && next.now == w.now
      && next.effects[i] == ClaimedEffect(w.effects[i], w.now, worker, 10)
  {
    hide IsDue, CountFree, ClaimedEffect;
  }

  lemma {:induction false} DispatchOnly(cfg: Config, w: World, i: nat, claim: Claim)
    ensures var next := Step(cfg, w, Dispatch(i, claim, CrashesAfterCall));
      next.tasks == w.tasks && next.now == w.now
  {
    hide DispatchedEffect;
  }

  /** A call of this row carries no larger token than an earlier one. */
  ghost predicate OutOfOrder(past: seq<Event>) {
    exists j, k :: 0 <= j < k < |past| && past[j].Called? && past[k].Called? && past[k].token <= past[j].token
  }

  /**
   * The condition of the order cannot be dropped: after any run, a live projection whose generation was put below the
   * token of one of its calls can be claimed and called out of order.
   */
  lemma {:induction false} UnsettledRowMayRepeat(cfg: Config, w: World, actions: seq<Action>, i: nat, j: nat, worker: string)
    requires IsInitial(w) && i < |Run(cfg, w, actions).effects|
    requires var e := Run(cfg, w, actions).effects[i];
      && IsLive(e.row) && e.row.intent.kind == KNOWLEDGE_INDEX
      && j < |e.past| && e.past[j].Called? && e.row.token < e.past[j].token
    ensures var reached := Run(cfg, w, actions);
      && i < |Run(cfg, w, actions + ClaimAndCall(reached, i, worker)).effects|
      && OutOfOrder(Run(cfg, w, actions + ClaimAndCall(reached, i, worker)).effects[i].past)
  {
    hide Step, Run, Tracked, IsLive, UntilDue;
    var reached := Run(cfg, w, actions);
    assert AllTracked(cfg, w);
    RunsKeepTracked(cfg, w, actions);
    RunJoins(cfg, w, actions, ClaimAndCall(reached, i, worker));
    ClaimAndCallCalls(cfg, reached, i, worker);
    var past := Run(cfg, reached, ClaimAndCall(reached, i, worker)).effects[i].past;
    var before := reached.effects[i].past;
    assert past[j] == before[j] && past[|before| + 1].Called?;
  }

  /** Where no fence unsettles the row, that situation does not arise: no call is above the generation of a live row. */
  lemma {:induction false} OrderedRowCannotRepeat(cfg: Config, w: World, actions: seq<Action>, i: nat, j: nat)
    requires IsInitial(w) && NeverUnsettled(cfg, w, actions, i) && i < |Run(cfg, w, actions).effects|
    requires IsLive(Run(cfg, w, actions).effects[i].row) && j < |Run(cfg, w, actions).effects[i].past|
    ensures var e := Run(cfg, w, actions).effects[i]; e.past[j].Called? ==> e.past[j].token <= e.row.token
  {
    hide Step, Run, NeverUnsettled, Pairwise;
    assert AllTracked(cfg, w);
    RunsKeepOrderedAt(cfg, w, actions, i);
  }

  /** The run that calls twice under one token: the row is prepared, claimed, called, and prepared again by its running task. */
  function CalledTwice(id: TaskId, owner: string, intent: Intent, b: string, c: string): seq<Action> {
    [PrepareExternal(id, owner, 1, intent)]
    + [Pass(0), ClaimDue(b, 1, 10, {}), Dispatch(0, Claim(2, b), CrashesAfterCall)]
    + [PrepareExternal(id, owner, 1, intent)]
    + [Pass(10), ClaimDue(c, 1, 10, {}), Dispatch(0, Claim(2, c), CrashesAfterCall)]
  }

  /** Claimed while its task still runs, a row can be called twice under one token, starting from empty tables. */
  lemma {:induction false} TokenRepeatsWhileTaskRuns(cfg: Config, w: World, id: TaskId, owner: string, intent: Intent, b: string, c: string)
    requires IsInitial(w) && IsCurrent(w.tasks, w.now, id, owner, 1) && intent.kind == KNOWLEDGE_INDEX
    ensures var end := Run(cfg, w, CalledTwice(id, owner, intent, b, c));
      && |end.effects| == 1
      && end.effects[0].past == [Claimed(2, b, w.now, w.now + 10), Called(2, b, w.now, w.now + 10),
                                 Claimed(2, c, w.now + 10, w.now + 20), Called(2, c, w.now + 10, w.now + 20)]
  {
    hide Step, Run, AllTracked, IsCurrent, ClaimedRow;
    var prepare := PrepareExternal(id, owner, 1, intent);
    var w1 := PrepareFirst(cfg, w, id, owner, intent);
    var first := ClaimAndCall(w1, 0, b);
    ClaimAndCallCalls(cfg, w1, 0, b);
    NoOthers(w1);
    var w2 := Run(cfg, w1, first);
    var w3 := PrepareAgain(cfg, w1, w2, id, owner, intent, b);
    var second := ClaimAndCall(w3, 0, c);
    StepsTracked(cfg, w1, first, prepare);
    ClaimAndCallCalls(cfg, w3, 0, c);
    NoOthers(w3);
    RunOne(cfg, w, prepare);
    RunOne(cfg, w2, prepare);
    RunJoins(cfg, w, [prepare], first);
    RunJoins(cfg, w, [prepare] + first, [prepare]);
    RunJoins(cfg, w, [prepare] + first + [prepare], second);
    assert CalledTwice(id, owner, intent, b, c) == [prepare] + first + [prepare] + second;
  }

  lemma {:induction false} NoOthers(w: World)
    requires |w.effects| == 1
    ensures Indices(|w.effects|) - {0} == {}
  {
  }

  lemma {:induction false} StepsTracked(cfg: Config, w: World, actions: seq<Action>, a: Action)
    requires AllTracked(cfg, w)
    ensures AllTracked(cfg, Step(cfg, Run(cfg, w, actions), a))
  {
    hide AllTracked, Step;
    RunsKeepTracked(cfg, w, actions);
    StepKeepsTracked(cfg, Run(cfg, w, actions), a);
  }

  lemma {:induction false} PrepareFirst(cfg: Config, w: World, id: TaskId, owner: string, intent: Intent) returns (next: World)
    requires IsInitial(w) && IsCurrent(w.tasks, w.now, id, owner, 1) && intent.kind == KNOWLEDGE_INDEX
    ensures next == Step(cfg, w, PrepareExternal(id, owner, 1, intent)) && AllTracked(cfg, next)
    ensures next == w.(effects := [NewEffect(id, 1, intent)])
    ensures UntilDue(next.effects[0].row, next.now) == 0
  {
    hide IsCurrent, AllTracked;
    next := Step(cfg, w, PrepareExternal(id, owner, 1, intent));
    assert AllTracked(cfg, w) by { NothingTracked(cfg, w); }
    StepKeepsTracked(cfg, w, PrepareExternal(id, owner, 1, intent));
  }

  lemma {:induction false} NothingTracked(cfg: Config, w: World)
    requires IsInitial(w)
    ensures AllTracked(cfg, w)
  {
    hide Tracked;
  }

  lemma {:induction false} PrepareAgain(cfg: Config, w1: World, w2: World, id: TaskId, owner: string, intent: Intent, b: string)
    returns (next: World)
    requires w2.tasks == w1.tasks && w2.now == w1.now && IsCurrent(w1.tasks, w1.now, id, owner, 1) && intent.kind == KNOWLEDGE_INDEX
    requires |w2.effects| == 1 && w2.effects[0].row == ClaimedRow(NewEffect(id, 1, intent).row, w1.now, b, 10)
    ensures next == Step(cfg, w2, PrepareExternal(id, owner, 1, intent)) && next.now == w1.now && |next.effects| == 1
    ensures var e := next.effects[0];
      && e.past == w2.effects[0].past && e.row.token == 1 && IsLive(e.row) && e.row.intent == intent && UntilDue(e.row, next.now) == 10
  {
    hide IsCurrent;
    var prepare := PrepareExternal(id, owner, 1, intent);
    assert TakesIntent(w2, prepare, 0);
    PreparedRow(cfg, w2, prepare, 0);
    next := Step(cfg, w2, prepare);
  }

  lemma {:induction false} PassAlone(cfg: Config, w: World, elapsed: nat)
    ensures Step(cfg, w, Pass(elapsed)) == w.(now := w.now + elapsed)
  {
  }

  lemma {:induction false} RunOfThree(cfg: Config, w: World, a: Action, b: Action, c: Action)
    ensures Run(cfg, w, [a, b, c]) == Step(cfg, Step(cfg, Step(cfg, w, a), b), c)
  {
    hide Step, Run;
    RunTwo(cfg, w, a, b);
    RunOne(cfg, Step(cfg, Step(cfg, w, a), b), c);
    RunJoins(cfg, w, [a, b], [c]);
    assert [a, b] + [c] == [a, b, c];
  }

  // ----- How a claim is settled -----

  /** What the turn of a claim that owns its row throughout leaves: delivered, called, put off until the wait is over, or given up. */
  ghost predicate IsSettledAs(cfg: Config, before: Effect, after: Effect, claim: Claim, fate: Fate, now: nat, settlement: Settlement) {
    var called := [Called(claim.token, claim.worker, now + fate.wait, if before.row.expires.Some? then before.row.expires.value else 0)];
    var later, delay := now + fate.wait + fate.lag, Delay(cfg, before.row.attempts);
    match fate.outcome
    case Succeeds => settlement.Sent? && after.row.state.Completed? && after.past == before.past + called + [Delivered(claim.token)]
    case CrashesAfterCall => settlement.Crashed? && after.row == before.row && after.past == before.past + called
    case _ =>
      var tried := before.past + if fate.outcome.IndexFails? then called else [];
      if before.row.attempts < cfg.Max() then
        && settlement.PutOff? && after.row.state.Pending? && after.row.nextAt == Some(later + delay)
        && after.past == tried + [Rescheduled(before.row.attempts, delay, later)]
      else settlement.GivenUp? && after.row.state.DeadLetter? && after.past == tried + [Buried(claim.token)]
  }

  lemma {:induction false} OwnedClaimIsSettled(cfg: Config, w: World, i: nat, claim: Claim, fate: Fate)
    requires i < |w.effects| && claim in w.effects[i].open && IsOwned(w.effects[i].row, claim, w.now + fate.wait + fate.lag)
    ensures var after := Run(cfg, w, TurnOf(w, i, claim, fate));
      && |after.effects| == |w.effects| && claim !in after.effects[i].open
      && IsSettledAs(cfg, w.effects[i], after.effects[i], claim, fate, w.now, SettlementOf(cfg, w, i, claim, fate))
  {
    hide Step, Run, Delay, TurnOf;
    RunOfTurn(cfg, w, i, claim, fate);
    PassAlone(cfg, w, fate.wait);
    var waited := w.(now := w.now + fate.wait);
    var sent := Step(cfg, waited, Dispatch(i, claim, fate.outcome));
    DispatchedRow(cfg, waited, i, claim, fate.outcome);
    DispatchKeepsTime(cfg, waited, i, claim, fate.outcome);
    if Fails(w, i, claim, fate) {
      PassAlone(cfg, sent, fate.lag);
      RetriedRow(cfg, sent.(now := sent.now + fate.lag), i, claim);
      assert w.effects[i].past + [] == w.effects[i].past;
    } else {
      var call := Called(claim.token, claim.worker, waited.now, w.effects[i].row.expires.value);
      assert w.effects[i].past + [call] + [Delivered(claim.token)] == w.effects[i].past + [call, Delivered(claim.token)];
    }
  }

  lemma {:induction false} DispatchKeepsTime(cfg: Config, w: World, i: nat, claim: Claim, outcome: Outcome)
    ensures Step(cfg, w, Dispatch(i, claim, outcome)).now == w.now
  {
    hide DispatchedEffect;
  }

  lemma {:induction false} RetriedRow(cfg: Config, w: World, i: nat, claim: Claim)
    requires i < |w.effects| && claim in w.effects[i].failed
    ensures |Step(cfg, w, Retry(i, claim)).effects| == |w.effects|
    ensures Step(cfg, w, Retry(i, claim)).effects[i] == RetriedEffect(cfg, w.effects[i], claim, w.now)
  {
    hide RetriedEffect;
  }

  /** The turn of a claim that has lost its row by then changes neither the row nor its history. */
  lemma {:induction false} LostClaimIsHarmless(cfg: Config, w: World, i: nat, claim: Claim, fate: Fate)
    requires i < |w.effects| && claim in w.effects[i].open && !IsOwned(w.effects[i].row, claim, w.now + fate.wait)
    ensures var after := Run(cfg, w, TurnOf(w, i, claim, fate));
      && |after.effects| == |w.effects| && SettlementOf(cfg, w, i, claim, fate).Lost?
      && after.effects[i].row == w.effects[i].row && after.effects[i].past == w.effects[i].past
  {
    hide Step, Run, Delay, TurnOf;
    RunOfTurn(cfg, w, i, claim, fate);
    PassAlone(cfg, w, fate.wait);
    var waited := w.(now := w.now + fate.wait);
    var sent := Step(cfg, waited, Dispatch(i, claim, fate.outcome));
    DispatchedRow(cfg, waited, i, claim, fate.outcome);
    DispatchKeepsTime(cfg, waited, i, claim, fate.outcome);
    if Fails(w, i, claim, fate) {
      PassAlone(cfg, sent, fate.lag);
      RetriedRow(cfg, sent.(now := sent.now + fate.lag), i, claim);
    }
  }

  /** Without crashes a pass that is not killed settles every claim. */
  lemma {:induction false} AllClaimsAreSettled(cfg: Config, w: World, claims: seq<(nat, Claim)>, fates: seq<Fate>)
    requires |fates| >= |claims| && forall k :: 0 <= k < |claims| ==> !fates[k].outcome.CrashesAfterCall?
    ensures |Settling(cfg, w, claims, fates).settlements| == |claims|
    decreases |claims|
  {
    hide Run, TurnOf, Fails, Owns;
    if claims != [] {
      assert forall k :: 0 <= k < |claims[1..]| ==> fates[1..][k] == fates[k + 1];
      AllClaimsAreSettled(cfg, Run(cfg, w, TurnOf(w, claims[0].0, claims[0].1, fates[0])), claims[1..], fates[1..]);
    }
  }

  /** The counters are the numbers of claims that were sent, put off and given up. */
  lemma {:induction false} TallyCounts(settlements: seq<Settlement>)
    ensures TallyOf(settlements).dispatched == multiset(settlements)[Sent]
    ensures TallyOf(settlements).retried == multiset(settlements)[PutOff]
    ensures TallyOf(settlements).deadLettered == multiset(settlements)[GivenUp]
  {
    if settlements != [] {
      var n := |settlements| - 1;
      TallyCounts(settlements[..n]);
      assert settlements == settlements[..n] + [settlements[n]];
    }
  }

  ghost function UnfinishedRows(rows: seq<Row>): set<nat> {
    set k: nat | k < |rows| && rows[k].intent.kind == KNOWLEDGE_INDEX && IsLive(rows[k])
  }

  /** The pending count is the number of projections that are live. */
  lemma {:induction false} PendingAreUnfinished(rows: seq<Row>)
    ensures CountPending(rows) == |UnfinishedRows(rows)|
  {
    hide UnfinishedRows;
    if rows == [] {
      NoRowsUnfinished();
    } else {
      PendingAreUnfinished(rows[..|rows| - 1]);
      UnfinishedNext(rows);
    }
  }

  lemma {:induction false} NoRowsUnfinished()
    ensures UnfinishedRows([]) == {}
  {
  }

  lemma {:induction false} UnfinishedNext(rows: seq<Row>)
    requires rows != []
    ensures var n := |rows| - 1;
      && n !in UnfinishedRows(rows[..n])
      && UnfinishedRows(rows) == UnfinishedRows(rows[..n]) + if IsUnfinished(rows[n]) then {n} else {}
  {
    var n := |rows| - 1;
    assert forall k: nat :: k < n ==> rows[..n][k] == rows[k];
  }

  // ----- A pass of the dispatcher -----

  /** The dispatcher's own loop makes no claims: only dispatches, retries and waits. */
  lemma {:induction false} PassIsDisciplined(cfg: Config, w: World, claims: seq<(nat, Claim)>, fates: seq<Fate>)
    ensures AllDisciplined(cfg, w, Settling(cfg, w, claims, fates).actions)
    decreases |claims|
  {
    hide Step, Run, SettlementOf, Fails, Disciplined;
    if claims != [] && fates != [] {
      var turn := TurnOf(w, claims[0].0, claims[0].1, fates[0]);
      var s := SettlementOf(cfg, w, claims[0].0, claims[0].1, fates[0]);
      var rest := if s.Crashed? then Turns([], []) else Settling(cfg, Run(cfg, w, turn), claims[1..], fates[1..]);
      if !s.Crashed? { PassIsDisciplined(cfg, Run(cfg, w, turn), claims[1..], fates[1..]); }
      DisciplineJoins(cfg, w, turn, rest.actions);
    }
  }

  lemma {:induction false} DisciplineJoins(cfg: Config, w: World, a: seq<Action>, b: seq<Action>)
    requires forall k :: 0 <= k < |a| ==> !a[k].ClaimDue?
    requires AllDisciplined(cfg, Run(cfg, w, a), b)
    ensures AllDisciplined(cfg, w, a + b)
    decreases |a|
  {
    hide Step;
    if a == [] {
      assert a + b == b;
    } else {
      assert Run(cfg, w, a) == Run(cfg, Step(cfg, w, a[0]), a[1..]);
      DisciplineJoins(cfg, Step(cfg, w, a[0]), a[1..], b);
      assert (a + b)[0] == a[0] && (a + b)[1..] == a[1..] + b;
    }
  }

  /** One call of `dispatch_due` whose due rows all belong to terminal tasks keeps every row safe. */
  lemma {:induction false} PassKeepsDispatchSafe(cfg: Config, w: World, worker: string, limit: int, lease: int, locked: set<nat>,
                                                 claims: seq<(nat, Claim)>, fates: seq<Fate>)
    requires DispatchSafe(cfg, w) && Disciplined(w, ClaimDue(worker, limit, lease, locked))
    ensures var claim := ClaimDue(worker, limit, lease, locked);
      DispatchSafe(cfg, Run(cfg, w, [claim] + Settling(cfg, Step(cfg, w, claim), claims, fates).actions))
  {
    hide Step, DispatchSafe, Disciplined, Settling;
    var claim := ClaimDue(worker, limit, lease, locked);
    var next := Step(cfg, w, claim);
    var actions := Settling(cfg, next, claims, fates).actions;
    PassIsDisciplined(cfg, next, claims, fates);
    assert ([claim] + actions)[1..] == actions;
    RunsKeepDispatchSafe(cfg, w, [claim] + actions);
  }
}
