/**
 * Task leases, fenced business effects, and the leased dispatch of knowledge projections
 * (adapters/postgres/repositories/content_task_repository.py, application/fenced_effects.py,
 * application/knowledge_projection_dispatcher.py). Every transaction is one step on the shared tables.
 */
module Outbox {
  import opened Options

  type TaskId = string

  datatype TaskStatus = Waiting | Running | Succeeded | Failed

  datatype Task = Task(status: TaskStatus, owner: Option<string>, token: nat, expires: Option<nat>, retries: nat, maxRetries: nat)

  /** An intent binds its key to a kind and to the hash of an immutable payload. */
  datatype Intent = Intent(key: string, kind: string, hash: string)

  datatype RowState = Pending | Dispatching | Completed | DeadLetter

  datatype Row = Row(
    task: TaskId, intent: Intent, token: nat, state: RowState, owner: Option<string>, expires: Option<nat>,
    nextAt: Option<nat>, attempts: nat, completedAt: Option<nat>)

  /** A dispatch generation of one row, as held by the worker that claimed it. */
  datatype Claim = Claim(token: nat, worker: string)

  /** What has happened to one row, in order. */
  datatype Event =
    | Claimed(token: nat, worker: string, at: nat, expires: nat)
    | Called(token: nat, worker: string, at: nat, expires: nat)
    | Rescheduled(attempts: nat, delay: nat, at: nat)
    | Delivered(token: nat)
    | Buried(token: nat)
    | Executed(token: nat, worker: string, at: nat)
    | Accepted(token: nat, worker: string)

  /**
   * A row with its history and with the claims on it that workers still hold: those not yet dispatched, and those
   * whose dispatch failed and that still have to be rescheduled.
   */
  datatype Effect = Effect(row: Row, past: seq<Event>, open: set<Claim>, failed: set<Claim>)

  datatype World = World(now: nat, tasks: map<TaskId, Task>, effects: seq<Effect>)

  datatype Config = Config(maxAttempts: int, baseSeconds: int) {
    function Max(): nat { if maxAttempts < 1 then 1 else maxAttempts }

    function Base(): nat { if baseSeconds < 1 then 1 else baseSeconds }
  }

  const KNOWLEDGE_INDEX := "KNOWLEDGE_INDEX"

  // ----- Task leases -----

  predicate IsCurrent(tasks: map<TaskId, Task>, now: nat, id: TaskId, worker: string, token: nat) {
    && id in tasks && tasks[id].status.Running? && tasks[id].owner == Some(worker) && tasks[id].token == token
    && tasks[id].expires.Some? && tasks[id].expires.value > now
  }

  predicate IsTerminal(tasks: map<TaskId, Task>, id: TaskId) {
    id in tasks && (tasks[id].status.Succeeded? || tasks[id].status.Failed?)
  }

  predicate IsClaimable(task: Task, now: nat) {
    && task.retries < task.maxRetries
    && (task.status.Waiting? || (task.status.Running? && task.expires.Some? && task.expires.value < now))
  }

  function Leased(task: Task, now: nat, worker: string, lease: nat): Task {
    task.(status := Running, owner := Some(worker), expires := Some(now + lease), token := task.token + 1)
  }

  function FailedTask(task: Task): Task {
    task.(retries := task.retries + 1, status := if task.retries + 1 >= task.maxRetries then Failed else Waiting,
          owner := None, expires := None)
  }

  // ----- Fenced effects -----

  function FindRow(effects: seq<Effect>, id: TaskId, key: string): (i: nat)
    ensures i <= |effects|
    ensures i < |effects| ==> effects[i].row.task == id && effects[i].row.intent.key == key
    ensures forall k :: 0 <= k < i ==> effects[k].row.task != id || effects[k].row.intent.key != key
  {
    if effects == [] || (effects[0].row.task == id && effects[0].row.intent.key == key) then 0
    else 1 + FindRow(effects[1..], id, key)
  }

  function NewEffect(id: TaskId, token: nat, intent: Intent): Effect {
    Effect(Row(id, intent, token, Pending, None, None, None, 0, None), [], {}, {})
  }

  function Refenced(e: Effect, token: nat): Effect {
    if e.row.state.Completed? then e else e.(row := e.row.(token := token))
  }

  /** The intent row, created or taken over under the current fence; nothing when the key binds another payload. */
  function WithIntent(effects: seq<Effect>, id: TaskId, token: nat, intent: Intent): Option<seq<Effect>> {
    var i := FindRow(effects, id, intent.key);
    if i == |effects| then Some(effects + [NewEffect(id, token, intent)])
    else if effects[i].row.intent != intent then None
    else Some(effects[i := Refenced(effects[i], token)])
  }

  function ExecutedEffect(e: Effect, now: nat, worker: string, token: nat): Effect {
    e.(row := e.row.(state := Completed, completedAt := Some(now), attempts := e.row.attempts + 1),
       past := e.past + [Executed(token, worker, now)])
  }

  function AcceptedEffect(e: Effect, now: nat, worker: string, token: nat): Effect {
    e.(row := e.row.(state := Completed, completedAt := Some(now), attempts := e.row.attempts + 1),
       past := e.past + [Accepted(token, worker)])
  }

  // ----- Claims -----

  predicate IsDue(row: Row, now: nat) {
    && row.intent.kind == KNOWLEDGE_INDEX
    && (|| (row.state.Pending? && (row.nextAt.Some? ==> row.nextAt.value <= now))
        || (row.state.Dispatching? && row.expires.Some? && row.expires.value <= now))
  }

  predicate IsFree(effects: seq<Effect>, now: nat, locked: set<nat>, i: nat)
    requires i < |effects|
  {
    IsDue(effects[i].row, now) && i !in locked
  }

  /** How many of the first `n` rows are due and not locked by another transaction. */
  function CountFree(effects: seq<Effect>, now: nat, locked: set<nat>, n: nat): nat
    requires n <= |effects|
  {
    if n == 0 then 0 else CountFree(effects, now, locked, n - 1) + if IsFree(effects, now, locked, n - 1) then 1 else 0
  }

  function AtLeastOne(n: int): nat { if n < 1 then 1 else n }

  /** The first rows in creation order, up to the limit. */
  predicate IsPicked(effects: seq<Effect>, now: nat, locked: set<nat>, limit: int, i: nat)
    requires i < |effects|
  {
    IsFree(effects, now, locked, i) && CountFree(effects, now, locked, i) < AtLeastOne(limit)
  }

  function ClaimedRow(row: Row, now: nat, worker: string, lease: int): Row {
    row.(state := Dispatching, owner := Some(worker), expires := Some(now + AtLeastOne(lease)), nextAt := None,
         attempts := row.attempts + 1, token := row.token + 1)
  }

  function ClaimedEffect(e: Effect, now: nat, worker: string, lease: int): Effect {
    var token := e.row.token + 1;
    Effect(ClaimedRow(e.row, now, worker, lease), e.past + [Claimed(token, worker, now, now + AtLeastOne(lease))],
           e.open + {Claim(token, worker)}, e.failed)
  }

  // ----- Dispatch and retry -----

  predicate IsOwned(row: Row, claim: Claim, now: nat) {
    && row.state.Dispatching? && row.owner == Some(claim.worker) && row.expires.Some? && row.expires.value > now
    && row.token == claim.token
  }

  /** What happens while a claim is dispatched: reads or the index may fail, and the process may crash after the call. */
  datatype Outcome = LoadFails | ReloadFails | IndexFails | CrashesAfterCall | Succeeds

  function Settled(row: Row, state: RowState): Row { row.(state := state, owner := None, expires := None) }

  function CallOf(row: Row, claim: Claim, now: nat): Event
    requires IsOwned(row, claim, now)
  {
    Called(claim.token, claim.worker, now, row.expires.value)
  }

  function DispatchedEffect(e: Effect, claim: Claim, outcome: Outcome, now: nat): Effect {
    var held := e.(open := e.open - {claim});
    if outcome.LoadFails? then held.(failed := e.failed + {claim})
    else if !IsOwned(e.row, claim, now) then held
    else if outcome.ReloadFails? then held.(failed := e.failed + {claim})
    else if outcome.IndexFails? then held.(failed := e.failed + {claim}, past := e.past + [CallOf(e.row, claim, now)])
    else if outcome.CrashesAfterCall? then held.(past := e.past + [CallOf(e.row, claim, now)])
    else
      held.(row := Settled(e.row, Completed).(completedAt := Some(now)),
            past := e.past + [CallOf(e.row, claim, now), Delivered(claim.token)])
  }

  function Pow2(n: nat): nat { if n == 0 then 1 else 2 * Pow2(n - 1) }

  function Min(a: nat, b: nat): nat { if a <= b then a else b }

  /** The wait in seconds after the given number of attempts, of which there has been at least one. */
  function Delay(cfg: Config, attempts: nat): nat {
    Min(3600, cfg.Base() * Pow2(Min(if attempts == 0 then 0 else attempts - 1, 8)))
  }

  function RetriedEffect(cfg: Config, e: Effect, claim: Claim, now: nat): Effect {
    var held := e.(failed := e.failed - {claim});
    if !IsOwned(e.row, claim, now) then held
    else if e.row.attempts >= cfg.Max() then
      held.(row := Settled(e.row, DeadLetter), past := e.past + [Buried(claim.token)])
    else
      var delay := Delay(cfg, e.row.attempts);
      held.(row := Settled(e.row, Pending).(nextAt := Some(now + delay)), past := e.past + [Rescheduled(e.row.attempts, delay, now)])
  }

  // ----- The transition system -----

  datatype Action =
    | Pass(elapsed: nat)
    | ClaimTask(id: TaskId, worker: string, lease: nat)
    | RenewTask(id: TaskId, worker: string, token: nat, lease: nat)
    | SucceedTask(id: TaskId, worker: string, token: nat)
    | FailTask(id: TaskId, worker: string, token: nat)
    | ExecuteSql(id: TaskId, worker: string, token: nat, intent: Intent, commits: bool)
    | PrepareExternal(id: TaskId, worker: string, token: nat, intent: Intent)
    | AcceptExternal(id: TaskId, worker: string, token: nat, effect: nat)
    | ClaimDue(worker: string, limit: int, seconds: int, locked: set<nat>)
    | Dispatch(effect: nat, claim: Claim, outcome: Outcome)
    | Retry(effect: nat, claim: Claim)

  function Step(cfg: Config, w: World, a: Action): World {
    match a
    case Pass(elapsed) => w.(now := w.now + elapsed)
    case ClaimTask(id, worker, lease) =>
      if id in w.tasks && IsClaimable(w.tasks[id], w.now)
      then w.(tasks := w.tasks[id := Leased(w.tasks[id], w.now, worker, lease)]) else w
    case RenewTask(id, worker, token, lease) =>
      if IsCurrent(w.tasks, w.now, id, worker, token)
      then w.(tasks := w.tasks[id := w.tasks[id].(expires := Some(w.now + lease))]) else w
    case SucceedTask(id, worker, token) =>
      if IsCurrent(w.tasks, w.now, id, worker, token)
      then w.(tasks := w.tasks[id := w.tasks[id].(status := Succeeded, owner := None, expires := None)]) else w
    case FailTask(id, worker, token) =>
      if IsCurrent(w.tasks, w.now, id, worker, token)
      then w.(tasks := w.tasks[id := FailedTask(w.tasks[id])]) else w
    case ExecuteSql(id, worker, token, intent, commits) => w.(effects := SqlExecuted(w, id, worker, token, intent, commits))
    case PrepareExternal(id, worker, token, intent) => w.(effects := Prepared(w, id, worker, token, intent))
    case AcceptExternal(id, worker, token, i) =>
      if IsCurrent(w.tasks, w.now, id, worker, token) && i < |w.effects| && w.effects[i].row.task == id
      then w.(effects := w.effects[i := AcceptedEffect(w.effects[i], w.now, worker, token)]) else w
    case ClaimDue(worker, limit, seconds, locked) => w.(effects := AllClaimed(w, worker, limit, seconds, locked))
    case Dispatch(i, claim, outcome) =>
      if i < |w.effects| && claim in w.effects[i].open
      then w.(effects := w.effects[i := DispatchedEffect(w.effects[i], claim, outcome, w.now)]) else w
    case Retry(i, claim) =>
      if i < |w.effects| && claim in w.effects[i].failed
      then w.(effects := w.effects[i := RetriedEffect(cfg, w.effects[i], claim, w.now)]) else w
  }

  function Prepared(w: World, id: TaskId, worker: string, token: nat, intent: Intent): seq<Effect> {
    if !IsCurrent(w.tasks, w.now, id, worker, token) then w.effects
    else
      match WithIntent(w.effects, id, token, intent)
      case None => w.effects
      case Some(effects) => effects
  }

  /** An effect that is complete is not executed again; a callback that raises rolls everything back. */
  function SqlExecuted(w: World, id: TaskId, worker: string, token: nat, intent: Intent, commits: bool): seq<Effect> {
    if !IsCurrent(w.tasks, w.now, id, worker, token) then w.effects
    else
      match WithIntent(w.effects, id, token, intent)
      case None => w.effects
      case Some(effects) =>
        var i := FindRow(w.effects, id, intent.key);
        if effects[i].row.state.Completed? then effects
        else if !commits then w.effects
        else effects[i := ExecutedEffect(effects[i], w.now, worker, token)]
  }

  function AllClaimed(w: World, worker: string, limit: int, lease: int, locked: set<nat>): (r: seq<Effect>)
    ensures |r| == |w.effects|
    ensures forall i :: 0 <= i < |r| ==> r[i] == MaybeClaimed(w, worker, limit, lease, locked, i)
  {
    seq(|w.effects|, i requires 0 <= i < |w.effects| => MaybeClaimed(w, worker, limit, lease, locked, i))
  }

  function MaybeClaimed(w: World, worker: string, limit: int, lease: int, locked: set<nat>, i: nat): Effect
    requires i < |w.effects|
  {
    if IsPicked(w.effects, w.now, locked, limit, i) then ClaimedEffect(w.effects[i], w.now, worker, lease) else w.effects[i]
  }

  function Run(cfg: Config, w: World, actions: seq<Action>): World
    decreases |actions|
  {
    if actions == [] then w else Run(cfg, Step(cfg, w, actions[0]), actions[1..])
  }

  /** No effect has been created yet; the tasks are arbitrary. */
  predicate IsInitial(w: World) { w.effects == [] }
}
