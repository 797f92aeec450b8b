/** The shared tables, with one method per transaction of the workers. */
module OutboxStore {
  import opened Options
  import opened Outbox

  class Database {
    const cfg: Config
    var now: nat
    var tasks: map<TaskId, Task>
    var rows: seq<Row>
    /** The rows with their histories and with the claims that workers hold on them. */
    ghost var effects: seq<Effect>

    ghost predicate Valid()
      reads this
    {
      |effects| == |rows| && forall i :: 0 <= i < |rows| ==> effects[i].row == rows[i]
    }

    ghost function State(): World
      reads this
    {
      World(now, tasks, effects)
    }

    constructor (cfg: Config, tasks: map<TaskId, Task>)
      ensures Valid() && this.cfg == cfg && State() == World(0, tasks, [])
    {
      this.cfg, this.tasks := cfg, tasks;
      now, rows, effects := 0, [], [];
    }

    method Wait(elapsed: nat)
      requires Valid()
      modifies this`now
      ensures Valid() && State() == Step(cfg, old(State()), Pass(elapsed)) && now == old(now) + elapsed
    {
      now := now + elapsed;
    }

    // ----- Task leases -----

    method ClaimPending(id: TaskId, worker: string, lease: nat) returns (token: Option<nat>)
      requires Valid()
      modifies this`tasks
      ensures Valid() && State() == Step(cfg, old(State()), ClaimTask(id, worker, lease))
      ensures token.Some? <==> id in old(tasks) && IsClaimable(old(tasks)[id], now)
      ensures token.Some? && lease > 0 ==> IsCurrent(tasks, now, id, worker, token.value)
    {
      if id !in tasks || !IsClaimable(tasks[id], now) { return None; }
      tasks := tasks[id := Leased(tasks[id], now, worker, lease)];
      token := Some(tasks[id].token);
    }

    method RenewLease(id: TaskId, worker: string, token: nat, lease: nat) returns (ok: bool)
      requires Valid()
      modifies this`tasks
      ensures Valid() && State() == Step(cfg, old(State()), RenewTask(id, worker, token, lease))
      ensures ok <==> IsCurrent(old(tasks), now, id, worker, token)
    {
      ok := IsCurrent(tasks, now, id, worker, token);
      if ok { tasks := tasks[id := tasks[id].(expires := Some(now + lease))]; }
    }

    method CommitTask(id: TaskId, worker: string, token: nat) returns (ok: bool)
      requires Valid()
      modifies this`tasks
      ensures Valid() && State() == Step(cfg, old(State()), SucceedTask(id, worker, token))
      ensures ok <==> IsCurrent(old(tasks), now, id, worker, token)
    {
      ok := IsCurrent(tasks, now, id, worker, token);
      if ok { tasks := tasks[id := tasks[id].(status := Succeeded, owner := None, expires := None)]; }
    }

    method Fail(id: TaskId, worker: string, token: nat) returns (ok: bool)
      requires Valid()
      modifies this`tasks
      ensures Valid() && State() == Step(cfg, old(State()), FailTask(id, worker, token))
      ensures ok <==> IsCurrent(old(tasks), now, id, worker, token)
    {
      ok := IsCurrent(tasks, now, id, worker, token);
      if ok { tasks := tasks[id := FailedTask(tasks[id])]; }
    }

    // ----- Fenced effects -----

    method Find(id: TaskId, key: string) returns (i: nat)
      requires Valid()
      ensures i == FindRow(effects, id, key)
    {
      i := 0;
      while i < |rows| && !(rows[i].task == id && rows[i].intent.key == key)
        invariant i <= |rows|
        invariant i <= FindRow(effects, id, key)
      {
        i := i + 1;
      }
    }

    /** The intent's row under the current fence; absent when the key already binds another payload. */
    method TakeIntent(id: TaskId, token: nat, intent: Intent) returns (i: Option<nat>)
      requires Valid()
      modifies this`rows, this`effects
      ensures Valid()
      ensures i.None? <==> WithIntent(old(effects), id, token, intent).None?
      ensures i.None? ==> rows == old(rows) && effects == old(effects)
      ensures i.Some? ==> i.value == FindRow(old(effects), id, intent.key) < |effects|
      ensures i.Some? ==> effects == WithIntent(old(effects), id, token, intent).value
    {
      var at := Find(id, intent.key);
      if at == |rows| {
        var added := NewEffect(id, token, intent);
        rows := rows + [added.row];
        effects := effects + [added];
        return Some(at);
      }
      if rows[at].intent != intent { return None; }
      if !rows[at].state.Completed? {
        rows := rows[at := rows[at].(token := token)];
      }
      effects := effects[at := Refenced(effects[at], token)];
      i := Some(at);
    }

    /** `commits` is false when the callback raises. The result says whether the callback's work was committed. */
    method ExecuteSql(id: TaskId, worker: string, token: nat, intent: Intent, commits: bool) returns (done: bool)
      requires Valid()
      modifies this`rows, this`effects
      ensures Valid() && State() == Step(cfg, old(State()), Action.ExecuteSql(id, worker, token, intent, commits))
      ensures done ==> commits && IsCurrent(tasks, now, id, worker, token)
    {
      if !IsCurrent(tasks, now, id, worker, token) { return false; }
      var rowsBefore := rows;
      ghost var before := effects;
      var i := TakeIntent(id, token, intent);
      if i.None? || rows[i.value].state.Completed? { return false; }
      if !commits {
        rows, effects := rowsBefore, before;
        return false;
      }
      var row := rows[i.value];
      effects := effects[i.value := ExecutedEffect(effects[i.value], now, worker, token)];
      rows := rows[i.value := row.(state := Completed, completedAt := Some(now), attempts := row.attempts + 1)];
      done := true;
    }

    method PrepareExternal(id: TaskId, worker: string, token: nat, intent: Intent) returns (i: Option<nat>)
      requires Valid()
      modifies this`rows, this`effects
      ensures Valid() && State() == Step(cfg, old(State()), Action.PrepareExternal(id, worker, token, intent))
      ensures i.Some? ==> i.value < |rows| && rows[i.value].task == id && rows[i.value].intent == intent
    {
      if !IsCurrent(tasks, now, id, worker, token) { return None; }
      i := TakeIntent(id, token, intent);
    }

    method AcceptExternal(id: TaskId, worker: string, token: nat, i: nat) returns (ok: bool)
      requires Valid()
      modifies this`rows, this`effects
      ensures Valid() && State() == Step(cfg, old(State()), Action.AcceptExternal(id, worker, token, i))
      ensures ok ==> i < |rows| && rows[i].state.Completed?
    {
      if !IsCurrent(tasks, now, id, worker, token) || i >= |rows| || rows[i].task != id { return false; }
      effects := effects[i := AcceptedEffect(effects[i], now, worker, token)];
      rows := rows[i := rows[i].(state := Completed, completedAt := Some(now), attempts := rows[i].attempts + 1)];
      ok := true;
    }

    // ----- Dispatch -----

    method ClaimDueRows(worker: string, limit: int, lease: int, locked: set<nat>) returns (claims: seq<(nat, Claim)>)
      requires Valid()
      modifies this`rows, this`effects
      ensures Valid() && State() == Step(cfg, old(State()), ClaimDue(worker, limit, lease, locked))
      ensures claims == PickedClaims(old(State()), worker, limit, locked, |old(rows)|) && |claims| <= AtLeastOne(limit)
      ensures forall k :: 0 <= k < |claims| ==> claims[k].0 < |rows| && IsOwned(rows[claims[k].0], claims[k].1, now)
      ensures |effects| == |old(effects)| && AllHeld(claims, effects)
      ensures forall i :: 0 <= i < |rows| && !IsClaimedRow(claims, i) ==> effects[i] == old(effects)[i]
    {
      hide IsDue, AtLeastOne, IsOwned, ClaimedEffect, AllClaimed, MaybeClaimed;
      ghost var before := State();
      claims := [];
      assert AtLeastOne(limit) > 0 by { AtLeastOneIs(limit); }
      for i := 0 to |rows|
        invariant Valid() && |rows| == |before.effects| && now == before.now && tasks == before.tasks
        invariant |claims| == Min(CountFree(before.effects, now, locked, i), AtLeastOne(limit))
        invariant ClaimedUpTo(before, effects, worker, limit, lease, locked, i)
        invariant AllOwned(claims, rows, now, i)
        invariant AllHeld(claims, effects) && claims == PickedClaims(before, worker, limit, locked, i)
      {
        hide PickedClaims, CountFree, IsPicked, AllHeld, ClaimedUpTo, AllOwned;
        PickedNext(before, worker, limit, locked, i);
        PickedWhen(before.effects, now, locked, limit, i);
        ClaimedNext(before, effects, worker, limit, lease, locked, i);
        if |claims| < AtLeastOne(limit) && IsDue(rows[i], now) && i !in locked {
          ghost var effectsBefore, rowsBefore := effects, rows;
          var claim := ClaimRow(i, worker, lease);
          HeldNext(claims, effectsBefore, rowsBefore, rows, i, effects[i], claim, now);
          claims := claims + [(i, claim)];
        }
        assert AllOwned(claims, rows, now, i + 1) by { OwnedNext(claims, rows, now, i); }
      }
      assert effects == AllClaimed(before, worker, limit, lease, locked);
      ClaimsArePicked(before, worker, limit, locked, |rows|);
      OthersUnclaimed(before, effects, worker, limit, lease, locked, claims);
    }

    method ClaimRow(i: nat, worker: string, lease: int) returns (claim: Claim)
      requires Valid() && i < |rows|
      modifies this`rows, this`effects
      ensures Valid() && effects == old(effects)[i := ClaimedEffect(old(effects)[i], now, worker, lease)]
      ensures |rows| == |old(rows)| && forall k :: 0 <= k < |rows| && k != i ==> rows[k] == old(rows)[k]
      ensures claim == Claim(old(rows[i]).token + 1, worker) && claim in effects[i].open && IsOwned(rows[i], claim, now)
    {
      AtLeastOneIs(lease);
      effects := effects[i := ClaimedEffect(effects[i], now, worker, lease)];
      rows := rows[i := ClaimedRow(rows[i], now, worker, lease)];
      claim := Claim(rows[i].token, worker);
    }

    /** `_dispatch_claim` up to the end of its transaction; a failure leaves the claim to be rescheduled. */
    method DispatchClaim(i: nat, claim: Claim, outcome: Outcome) returns (result: Sending)
      requires Valid() && i < |rows| && claim in effects[i].open
      modifies this`rows, this`effects
      ensures Valid() && State() == Step(cfg, old(State()), Dispatch(i, claim, outcome))
      ensures result.Through? <==> IsOwned(old(rows[i]), claim, now) && outcome.Succeeds?
      ensures result.Through? ==> rows[i].state.Completed?
      ensures |effects| == |old(effects)| && forall k :: 0 <= k < |effects| && k != i ==> effects[k] == old(effects)[k]
      ensures result.Raised? <==>
        outcome.LoadFails? || (IsOwned(old(rows[i]), claim, now) && (outcome.ReloadFails? || outcome.IndexFails?))
      ensures result.Raised? ==> claim in effects[i].failed && rows == old(rows)
      ensures result.Stopped? ==> rows == old(rows)
    {
      ghost var next := DispatchedEffect(effects[i], claim, outcome, now);
      var owned := IsOwned(rows[i], claim, now);
      if owned && outcome.Succeeds? {
        rows := rows[i := Settled(rows[i], Completed).(completedAt := Some(now))];
      }
      effects := effects[i := next];
      if outcome.LoadFails? || (owned && (outcome.ReloadFails? || outcome.IndexFails?)) { return Raised; }
      if owned && outcome.Succeeds? { return Through; }
      result := Stopped;
    }

    method RetryClaim(i: nat, claim: Claim) returns (result: Settlement)
      requires Valid() && i < |rows| && claim in effects[i].failed
      modifies this`rows, this`effects
      ensures Valid() && State() == Step(cfg, old(State()), Retry(i, claim))
      ensures result == if !IsOwned(old(rows[i]), claim, now) then Lost
                        else if old(rows[i]).attempts >= cfg.Max() then GivenUp else PutOff
      ensures Fits(result, rows[i]) && (result.Lost? ==> rows == old(rows))
      ensures |effects| == |old(effects)| && forall k :: 0 <= k < |effects| && k != i ==> effects[k] == old(effects)[k]
    {
      ghost var next := RetriedEffect(cfg, effects[i], claim, now);
      effects := effects[i := next];
      var row := rows[i];
      if !IsOwned(row, claim, now) { return Lost; }
      if row.attempts >= cfg.Max() {
        rows := rows[i := Settled(row, DeadLetter)];
        return GivenUp;
      }
      rows := rows[i := Settled(row, Pending).(nextAt := Some(now + Delay(cfg, row.attempts)))];
      result := PutOff;
    }

    /** One turn of the loop in `dispatch_due`. */
    method SettleClaim(i: nat, claim: Claim, fate: Fate) returns (settlement: Settlement)
      requires Valid() && i < |rows| && claim in effects[i].open
      modifies this`now, this`rows, this`effects
      ensures Valid() && |effects| == |old(effects)|
      ensures State() == Run(cfg, old(State()), TurnOf(old(State()), i, claim, fate))
      ensures settlement == SettlementOf(cfg, old(State()), i, claim, fate) && Fits(settlement, rows[i])
      ensures forall k :: 0 <= k < |effects| && k != i ==> effects[k] == old(effects)[k]
    {
      hide Step, Run, TurnOf;
      RunOfTurn(cfg, State(), i, claim, fate);
      Wait(fate.wait);
      var result := DispatchClaim(i, claim, fate.outcome);
      if result.Through? { return Sent; }
      if result.Stopped? { return if IsOwned(rows[i], claim, now) then Crashed else Lost; }
      Wait(fate.lag);
      settlement := RetryClaim(i, claim);
    }

    /**
     * `dispatch_due`: claims the due rows and settles each claim in turn. `fates` says what happens to the k-th claim; the
     * process is killed where they end or crashes on the way. `actions` are the transactions after the claims.
     */
    method DispatchDue(worker: string, limit: int, lease: int, locked: set<nat>, fates: seq<Fate>)
      returns (tally: Tally, ghost claims: seq<(nat, Claim)>, ghost actions: seq<Action>, ghost settlements: seq<Settlement>)
      requires Valid()
      modifies this
      ensures Valid() && State() == Run(cfg, old(State()), [ClaimDue(worker, limit, lease, locked)] + actions)
      ensures claims == PickedClaims(old(State()), worker, limit, locked, |old(rows)|) && |claims| <= AtLeastOne(limit)
      ensures Turns(actions, settlements) == Settling(cfg, Step(cfg, old(State()), ClaimDue(worker, limit, lease, locked)), claims, fates)
      ensures tally == TallyOf(settlements) && AllFit(settlements, claims, rows)
      ensures tasks == old(tasks) && |rows| == |old(rows)|
      ensures forall i :: 0 <= i < |rows| && !IsClaimedRow(claims, i) ==> rows[i] == old(rows)[i]
    {
      hide AtLeastOne, Step, Run, IsOwned, TallyOf, PickedClaims, Settling, IsClaimedRow, TurnOf, SettlementOf, AllClaimed,
        Fits, Behind;
      NoTally();
      ghost var before := State();
      var held := ClaimDueRows(worker, limit, lease, locked);
      tally, claims, actions, settlements := Tally(0, 0, 0), held, [], [];
      ghost var start := State();
      RunOfNone(cfg, start);
      TurnsStart(Settling(cfg, start, held, fates));
      assert held[0..] == held && fates[0..] == fates;
      var k, going := 0, true;
      while going && k < |held| && k < |fates|
        invariant Valid() && k <= |held| && k <= |fates| && |effects| == |before.effects| && tasks == before.tasks
        invariant AllHeld(held[k..], effects) && Ascending(held, |rows|)
        invariant State() == Run(cfg, start, actions) && tally == TallyOf(settlements)
        invariant |settlements| == k && AllFit(settlements, held, rows)
        invariant Settling(cfg, start, held, fates)
          == Behind(actions, settlements, if going then Settling(cfg, State(), held[k..], fates[k..]) else Turns([], []))
        invariant forall i :: 0 <= i < |effects| && !IsClaimedRow(held, i) ==> effects[i] == before.effects[i]
      {
        ghost var was, rowsWere := State(), rows;
        HeldFirst(held[k..], effects);
        ghost var turn := TurnOf(was, held[k].0, held[k].1, fates[k]);
        var settlement := SettleClaim(held[k].0, held[k].1, fates[k]);
        AfterTurn(cfg, start, was, effects, rowsWere, rows, held, fates, k, actions, settlements, settlement);
        tally := Counted(tally, settlement);
        going := !settlement.Crashed?;
        actions, settlements, k := actions + turn, settlements + [settlement], k + 1;
      }
      TurnsEnd(cfg, State(), held, fates, k, actions, settlements, going);
      RunOne(cfg, before, ClaimDue(worker, limit, lease, locked));
      RunJoins(cfg, before, [ClaimDue(worker, limit, lease, locked)], actions);
    }

    /** The number of projections that are neither delivered nor given up. */
    method PendingCount() returns (n: nat)
      ensures n == CountPending(rows)
    {
      n := 0;
      for i := 0 to |rows|
        invariant n == CountPending(rows[..i])
      {
        assert rows[..i + 1][..i] == rows[..i];
        if IsUnfinished(rows[i]) { n := n + 1; }
      }
      assert rows[..|rows|] == rows;
    }
  }

  /** The claims are on different rows, in their order, and each is still open. */
  ghost predicate AllHeld(claims: seq<(nat, Claim)>, effects: seq<Effect>) {
    && (forall k :: 0 <= k < |claims| ==> claims[k].0 < |effects| && claims[k].1 in effects[claims[k].0].open)
    && (forall j, k :: 0 <= j < k < |claims| ==> claims[j].0 < claims[k].0)
  }

  ghost predicate Ascending(claims: seq<(nat, Claim)>, size: nat) {
    && (forall k :: 0 <= k < |claims| ==> claims[k].0 < size)
    && (forall j, k :: 0 <= j < k < |claims| ==> claims[j].0 < claims[k].0)
  }

  lemma {:induction false} HeldFirst(claims: seq<(nat, Claim)>, effects: seq<Effect>)
    requires claims != [] && AllHeld(claims, effects)
    ensures claims[0].0 < |effects| && claims[0].1 in effects[claims[0].0].open
  {
  }

  lemma {:induction false} HeldRest(claims: seq<(nat, Claim)>, before: seq<Effect>, after: seq<Effect>)
    requires claims != [] && AllHeld(claims, before) && |after| == |before|
    requires forall k :: 0 <= k < |after| && k != claims[0].0 ==> after[k] == before[k]
    ensures AllHeld(claims[1..], after)
  {
  }

  /** How the transaction of a dispatch ends; it is stopped when the claim is lost or the process crashes. */
  datatype Sending = Through | Raised | Stopped

  // ----- The claims of one pass -----

  /** The claims on the picked rows among the first `n`, in creation order. */
  function PickedClaims(w: World, worker: string, limit: int, locked: set<nat>, n: nat): seq<(nat, Claim)>
    requires n <= |w.effects|
  {
    if n == 0 then []
    else
      var rest := PickedClaims(w, worker, limit, locked, n - 1);
      if IsPicked(w.effects, w.now, locked, limit, n - 1)
      then rest + [(n - 1, Claim(w.effects[n - 1].row.token + 1, worker))] else rest
  }

  ghost predicate IsClaimedRow(claims: seq<(nat, Claim)>, i: nat) { exists k :: 0 <= k < |claims| && claims[k].0 == i }

  /** The claims name exactly the picked rows, each once and in creation order, under the next token of the row. */
  lemma {:induction false} ClaimsArePicked(w: World, worker: string, limit: int, locked: set<nat>, n: nat)
    requires n <= |w.effects|
    ensures var claims := PickedClaims(w, worker, limit, locked, n);
      && Ascending(claims, n)
      && (forall i :: 0 <= i < n ==> (IsClaimedRow(claims, i) <==> IsPicked(w.effects, w.now, locked, limit, i)))
      && (forall k :: 0 <= k < |claims| ==> claims[k].0 < n && claims[k].1 == Claim(w.effects[claims[k].0].row.token + 1, worker))
  {
    hide IsPicked;
    if n > 0 {
      ClaimsArePicked(w, worker, limit, locked, n - 1);
      var rest, claims := PickedClaims(w, worker, limit, locked, n - 1), PickedClaims(w, worker, limit, locked, n);
      forall i | 0 <= i < n ensures IsClaimedRow(claims, i) <==> IsPicked(w.effects, w.now, locked, limit, i) {
        if i < n - 1 && IsClaimedRow(rest, i) {
          var k :| 0 <= k < |rest| && rest[k].0 == i;
          assert claims[k].0 == i;
        }
        if i == n - 1 && IsPicked(w.effects, w.now, locked, limit, i) { assert claims[|rest|].0 == i; }
        if i < n - 1 && IsClaimedRow(claims, i) {
          var k :| 0 <= k < |claims| && claims[k].0 == i;
          assert rest[k].0 == i;
        }
      }
    }
  }

  lemma {:induction false} PickedWhen(effects: seq<Effect>, now: nat, locked: set<nat>, limit: int, i: nat)
    requires i < |effects|
    ensures IsPicked(effects, now, locked, limit, i)
      <==> Min(CountFree(effects, now, locked, i), AtLeastOne(limit)) < AtLeastOne(limit) && IsFree(effects, now, locked, i)
    ensures CountFree(effects, now, locked, i + 1)
      == CountFree(effects, now, locked, i) + if IsFree(effects, now, locked, i) then 1 else 0
  {
    hide IsFree, AtLeastOne;
  }

  lemma {:induction false} PickedNext(w: World, worker: string, limit: int, locked: set<nat>, i: nat)
    requires i < |w.effects|
    ensures PickedClaims(w, worker, limit, locked, i + 1) == PickedClaims(w, worker, limit, locked, i)
      + if IsPicked(w.effects, w.now, locked, limit, i) then [(i, Claim(w.effects[i].row.token + 1, worker))] else []
  {
    hide IsPicked;
  }

  // ----- Settling the claims in turn -----

  /** What happens to a claim: the time before its dispatch, the outcome, and the time before a failure is handled. */
  datatype Fate = Fate(wait: nat, outcome: Outcome, lag: nat)

  datatype Settlement = Sent | PutOff | GivenUp | Lost | Crashed

  /** The transactions of a pass after its claims, and how each claim was settled. */
  datatype Turns = Turns(actions: seq<Action>, settlements: seq<Settlement>)

  function Behind(actions: seq<Action>, settlements: seq<Settlement>, turns: Turns): Turns {
    Turns(actions + turns.actions, settlements + turns.settlements)
  }

  predicate Owns(w: World, i: nat, claim: Claim, now: nat) { i < |w.effects| && IsOwned(w.effects[i].row, claim, now) }

  /** The units cannot be read, or the owner's own attempt raises. */
  predicate Fails(w: World, i: nat, claim: Claim, fate: Fate) {
    || fate.outcome.LoadFails?
    || (Owns(w, i, claim, w.now + fate.wait) && (fate.outcome.ReloadFails? || fate.outcome.IndexFails?))
  }

  function TurnOf(w: World, i: nat, claim: Claim, fate: Fate): seq<Action> {
    if Fails(w, i, claim, fate) then [Pass(fate.wait), Dispatch(i, claim, fate.outcome), Pass(fate.lag), Retry(i, claim)]
    else [Pass(fate.wait), Dispatch(i, claim, fate.outcome)]
  }

  function SettlementOf(cfg: Config, w: World, i: nat, claim: Claim, fate: Fate): Settlement {
    if Fails(w, i, claim, fate) then
      if !Owns(w, i, claim, w.now + fate.wait + fate.lag) then Lost
      else if w.effects[i].row.attempts >= cfg.Max() then GivenUp
      else PutOff
    else if !Owns(w, i, claim, w.now + fate.wait) then Lost
    else if fate.outcome.CrashesAfterCall? then Crashed
    else Sent
  }

  /** The loop of `dispatch_due` over the claims, up to a crash or to where the fates end. */
  function Settling(cfg: Config, w: World, claims: seq<(nat, Claim)>, fates: seq<Fate>): Turns
    decreases |claims|
  {
    if claims == [] || fates == [] then Turns([], [])
    else
      var turn := TurnOf(w, claims[0].0, claims[0].1, fates[0]);
      var s := SettlementOf(cfg, w, claims[0].0, claims[0].1, fates[0]);
      Behind(turn, [s], if s.Crashed? then Turns([], []) else Settling(cfg, Run(cfg, w, turn), claims[1..], fates[1..]))
  }

  lemma {:induction false} TurnsStart(turns: Turns)
    ensures Behind([], [], turns) == turns
  {
  }

  lemma {:induction false} TurnsNext(cfg: Config, w: World, claims: seq<(nat, Claim)>, fates: seq<Fate>, k: nat,
                                     actions: seq<Action>, settlements: seq<Settlement>)
    requires k < |claims| && k < |fates|
    ensures var turn := TurnOf(w, claims[k].0, claims[k].1, fates[k]);
      var s := SettlementOf(cfg, w, claims[k].0, claims[k].1, fates[k]);
      Behind(actions, settlements, Settling(cfg, w, claims[k..], fates[k..]))
      == Behind(actions + turn, settlements + [s],
                if s.Crashed? then Turns([], []) else Settling(cfg, Run(cfg, w, turn), claims[k + 1..], fates[k + 1..]))
  {
    hide Run, TurnOf, SettlementOf;
    assert claims[k..][1..] == claims[k + 1..] && fates[k..][1..] == fates[k + 1..];
  }

  lemma {:induction false} TurnsEnd(cfg: Config, w: World, claims: seq<(nat, Claim)>, fates: seq<Fate>, k: nat,
                                    actions: seq<Action>, settlements: seq<Settlement>, going: bool)
    requires k <= |claims| && k <= |fates| && (going ==> k == |claims| || k == |fates|)
    ensures Behind(actions, settlements, if going then Settling(cfg, w, claims[k..], fates[k..]) else Turns([], []))
         == Turns(actions, settlements)
  {
  }

  /** What one turn of the loop keeps. */
  lemma {:induction false} AfterTurn(cfg: Config, start: World, was: World, effects: seq<Effect>, rowsWere: seq<Row>, rows: seq<Row>,
                                     held: seq<(nat, Claim)>, fates: seq<Fate>, k: nat,
                                     actions: seq<Action>, settlements: seq<Settlement>, s: Settlement)
    requires k < |held| && k < |fates| && |effects| == |was.effects| == |rows| == |rowsWere| && |settlements| == k
    requires AllHeld(held[k..], was.effects) && Ascending(held, |rows|) && AllFit(settlements, held, rowsWere)
    requires was == Run(cfg, start, actions) && s == SettlementOf(cfg, was, held[k].0, held[k].1, fates[k])
    requires held[k].0 < |rows| && Fits(s, rows[held[k].0])
    requires forall i :: 0 <= i < |effects| && i != held[k].0 ==> effects[i] == was.effects[i]
    requires forall i :: 0 <= i < |rows| && i != held[k].0 ==> rows[i] == rowsWere[i]
    ensures var turn := TurnOf(was, held[k].0, held[k].1, fates[k]);
      && Run(cfg, was, turn) == Run(cfg, start, actions + turn)
      && Behind(actions, settlements, Settling(cfg, was, held[k..], fates[k..]))
         == Behind(actions + turn, settlements + [s],
                   if s.Crashed? then Turns([], []) else Settling(cfg, Run(cfg, was, turn), held[k + 1..], fates[k + 1..]))
    ensures TallyOf(settlements + [s]) == Counted(TallyOf(settlements), s)
    ensures AllFit(settlements + [s], held, rows) && AllHeld(held[k + 1..], effects) && IsClaimedRow(held, held[k].0)
  {
    hide Run, TurnOf, SettlementOf, Settling, Behind, Fits, TallyOf, Counted;
    TurnsNext(cfg, was, held, fates, k, actions, settlements);
    RunJoins(cfg, start, actions, TurnOf(was, held[k].0, held[k].1, fates[k]));
    HeldRest(held[k..], was.effects, effects);
    assert held[k..][1..] == held[k + 1..];
    TallyNext(settlements, s);
    FitsNext(settlements, held, rowsWere, rows, s);
  }

  datatype Tally = Tally(dispatched: nat, retried: nat, deadLettered: nat)

  function Counted(tally: Tally, s: Settlement): Tally {
    match s
    case Sent => tally.(dispatched := tally.dispatched + 1)
    case PutOff => tally.(retried := tally.retried + 1)
    case GivenUp => tally.(deadLettered := tally.deadLettered + 1)
    case _ => tally
  }

  function TallyOf(settlements: seq<Settlement>): Tally {
    if settlements == [] then Tally(0, 0, 0)
    else Counted(TallyOf(settlements[..|settlements| - 1]), settlements[|settlements| - 1])
  }

  lemma {:induction false} NoTally()
    ensures TallyOf([]) == Tally(0, 0, 0)
  {
  }

  lemma {:induction false} TallyNext(settlements: seq<Settlement>, s: Settlement)
    ensures TallyOf(settlements + [s]) == Counted(TallyOf(settlements), s)
  {
    assert (settlements + [s])[..|settlements|] == settlements;
  }

  /** The row is as the settlement says; a lost claim says nothing about it. */
  predicate Fits(settlement: Settlement, row: Row) {
    match settlement
    case Sent => row.state.Completed?
    case PutOff => row.state.Pending?
    case GivenUp => row.state.DeadLetter?
    case Crashed => row.state.Dispatching?
    case Lost => true
  }

  ghost predicate AllFit(settlements: seq<Settlement>, claims: seq<(nat, Claim)>, rows: seq<Row>) {
    |settlements| <= |claims| && forall j :: 0 <= j < |settlements| ==> claims[j].0 < |rows| && Fits(settlements[j], rows[claims[j].0])
  }

  lemma {:induction false} FitsNext(settlements: seq<Settlement>, claims: seq<(nat, Claim)>, before: seq<Row>, after: seq<Row>, s: Settlement)
    requires |settlements| < |claims| && AllFit(settlements, claims, before) && Ascending(claims, |after|) && |before| == |after|
    requires forall k :: 0 <= k < |after| && k != claims[|settlements|].0 ==> after[k] == before[k]
    requires Ascending(claims, |after|) ==> claims[|settlements|].0 < |after| && Fits(s, after[claims[|settlements|].0])
    ensures AllFit(settlements + [s], claims, after)
  {
    hide Fits;
  }

  ghost predicate ClaimedUpTo(w: World, effects: seq<Effect>, worker: string, limit: int, lease: int, locked: set<nat>, n: nat) {
    && n <= |effects| == |w.effects|
    && (forall k :: 0 <= k < n ==> effects[k] == MaybeClaimed(w, worker, limit, lease, locked, k))
    && (forall k :: n <= k < |effects| ==> effects[k] == w.effects[k])
  }

  lemma {:induction false} ClaimedNext(w: World, effects: seq<Effect>, worker: string, limit: int, lease: int, locked: set<nat>, i: nat)
    requires ClaimedUpTo(w, effects, worker, limit, lease, locked, i) && i < |effects|
    ensures effects[i] == w.effects[i]
    ensures var picked := IsPicked(w.effects, w.now, locked, limit, i);
      && (picked ==> ClaimedUpTo(w, effects[i := ClaimedEffect(effects[i], w.now, worker, lease)], worker, limit, lease, locked, i + 1))
      && (!picked ==> ClaimedUpTo(w, effects, worker, limit, lease, locked, i + 1))
  {
    hide IsPicked, ClaimedEffect;
  }

  lemma {:induction false} OthersUnclaimed(w: World, effects: seq<Effect>, worker: string, limit: int, lease: int, locked: set<nat>,
                                           claims: seq<(nat, Claim)>)
    requires ClaimedUpTo(w, effects, worker, limit, lease, locked, |w.effects|)
    requires forall i :: 0 <= i < |w.effects| ==> (IsClaimedRow(claims, i) <==> IsPicked(w.effects, w.now, locked, limit, i))
    ensures forall i :: 0 <= i < |effects| && !IsClaimedRow(claims, i) ==> effects[i] == w.effects[i]
  {
    hide IsPicked, ClaimedEffect, IsClaimedRow;
  }

  /** The claims are on rows before `n`, and each owns its row. */
  ghost predicate AllOwned(claims: seq<(nat, Claim)>, rows: seq<Row>, now: nat, n: nat) {
    n <= |rows| && forall k :: 0 <= k < |claims| ==> claims[k].0 < n && IsOwned(rows[claims[k].0], claims[k].1, now)
  }

  lemma {:induction false} OwnedNext(claims: seq<(nat, Claim)>, rows: seq<Row>, now: nat, i: nat)
    requires i < |rows| && (AllOwned(claims, rows, now, i) || AllOwned(claims, rows, now, i + 1))
    ensures AllOwned(claims, rows, now, i + 1)
  {
    hide IsOwned;
  }

  lemma {:induction false} HeldNext(claims: seq<(nat, Claim)>, before: seq<Effect>, rowsBefore: seq<Row>, rows: seq<Row>,
                                    i: nat, e: Effect, claim: Claim, now: nat)
    requires AllHeld(claims, before) && i < |before| == |rows| == |rowsBefore| && claim in e.open
    requires AllOwned(claims, rowsBefore, now, i) && IsOwned(rows[i], claim, now)
    requires forall k :: 0 <= k < |rows| && k != i ==> rows[k] == rowsBefore[k]
    ensures AllHeld(claims + [(i, claim)], before[i := e]) && AllOwned(claims + [(i, claim)], rows, now, i + 1)
  {
    hide IsOwned;
  }

  lemma {:induction false} RunOne(cfg: Config, w: World, a: Action)
    ensures Run(cfg, w, [a]) == Step(cfg, w, a)
  {
    hide Step;
    assert [a][1..] == [] && Run(cfg, Step(cfg, w, a), []) == Step(cfg, w, a);
  }

  lemma {:induction false} RunOfNone(cfg: Config, w: World)
    ensures Run(cfg, w, []) == w
  {
  }

  lemma {:induction false} RunJoins(cfg: Config, w: World, a: seq<Action>, b: seq<Action>)
    ensures Run(cfg, w, a + b) == Run(cfg, Run(cfg, w, a), b)
    decreases |a|
  {
    hide Step;
    if a == [] {
      assert a + b == b;
    } else {
      RunJoins(cfg, Step(cfg, w, a[0]), a[1..], b);
      assert (a + b)[0] == a[0] && (a + b)[1..] == a[1..] + b;
    }
  }

  lemma {:induction false} RunTwo(cfg: Config, w: World, a: Action, b: Action)
    ensures Run(cfg, w, [a, b]) == Step(cfg, Step(cfg, w, a), b)
  {
    hide Step;
    assert [a, b][1..] == [b];
    RunOne(cfg, Step(cfg, w, a), b);
  }

  lemma {:induction false} RunOfTurn(cfg: Config, w: World, i: nat, claim: Claim, fate: Fate)
    ensures var sent := Step(cfg, Step(cfg, w, Pass(fate.wait)), Dispatch(i, claim, fate.outcome));
      Run(cfg, w, TurnOf(w, i, claim, fate))
      == if Fails(w, i, claim, fate) then Step(cfg, Step(cfg, sent, Pass(fate.lag)), Retry(i, claim)) else sent
  {
    hide Step, Run, Fails;
    var first, second := [Pass(fate.wait), Dispatch(i, claim, fate.outcome)], [Pass(fate.lag), Retry(i, claim)];
    RunTwo(cfg, w, first[0], first[1]);
    RunTwo(cfg, Run(cfg, w, first), second[0], second[1]);
    RunJoins(cfg, w, first, second);
    assert first + second == [Pass(fate.wait), Dispatch(i, claim, fate.outcome), Pass(fate.lag), Retry(i, claim)];
  }

  predicate IsUnfinished(row: Row) { row.intent.kind == KNOWLEDGE_INDEX && (row.state.Pending? || row.state.Dispatching?) }

  function CountPending(rows: seq<Row>): nat {
    if rows == [] then 0 else CountPending(rows[..|rows| - 1]) + if IsUnfinished(rows[|rows| - 1]) then 1 else 0
  }

  lemma {:induction false} AtLeastOneIs(n: int)
    ensures AtLeastOne(n) >= 1
  {
  }
}
