/** The lifecycle of claim verification with retries (application/verification_service.py). */
module Verification {
  import opened Options

  type Id = string

  datatype Status =
    | Extracted | Pending | Verified | Contradicted | PartiallyVerified | NotVerifiable | Expired | ManualReview | NotRequired

  datatype Entry = Entered(status: Status) | RetryScheduled(retry: nat) | Exhausted | Resolved(status: Status)

  /** `calls` are the times at which the provider was asked about the claim; the service itself does not keep them. */
  datatype Item = Item(
    status: Status, retries: nat, nextAt: Option<nat>, result: Option<Status>, history: seq<Entry>, calls: seq<nat>)

  /** `order` is the order in which the claims were submitted. */
  datatype Service = Service(items: map<Id, Item>, order: seq<Id>, dlq: seq<Id>)

  /** The provider raises, or answers with a status. */
  datatype Response = Unavailable | Answer(status: Status)

  /** How an attempt ends; the last two are the errors that the source raises. */
  datatype Ending = Done | InvalidAnswer | UnknownClaim

  const SCHEDULE: seq<nat> := [60, 300, 1800, 7200, 43200]

  predicate IsTerminal(status: Status) {
    || status.Verified? || status.Contradicted? || status.PartiallyVerified? || status.NotVerifiable? || status.Expired?
    || status.ManualReview?
  }

  /** `validate_transition` does not raise. */
  predicate IsAllowed(current: Status, target: Status) {
    || current == target
    || (current.Extracted? && (target.Pending? || target.NotVerifiable?))
    || (current.Pending? && IsTerminal(target))
  }

  predicate IsDue(item: Item, now: nat) { item.status.Pending? && (item.nextAt.Some? ==> item.nextAt.value <= now) }

  // ----- Operations on one item -----

  function NewItem(quantVerifiable: bool): Item {
    var status := if quantVerifiable then Pending else NotVerifiable;
    Item(status, 0, None, None, [Entered(status)], [])
  }

  function Failed(item: Item, now: nat): Item {
    var retries := item.retries + 1;
    var noted := item.(retries := retries, calls := item.calls + [now], history := item.history + [RetryScheduled(retries)]);
    if retries > |SCHEDULE| then noted.(status := ManualReview, history := noted.history + [Exhausted])
    else noted.(nextAt := Some(now + SCHEDULE[retries - 1]))
  }

  /** An attempt whose answer is not a valid transition raises after the provider has been asked. */
  predicate AttemptRaises(item: Item, response: Response) {
    item.status.Pending? && response.Answer? && !IsAllowed(Pending, response.status)
  }

  function Attempted(item: Item, now: nat, response: Response): Item {
    if !item.status.Pending? then item
    else if response.Unavailable? then Failed(item, now)
    else
      var asked := item.(calls := item.calls + [now]);
      if AttemptRaises(item, response) then asked
      else asked.(status := response.status, result := Some(response.status), history := item.history + [Entered(response.status)])
  }

  predicate CanResolve(item: Item) { item.status.ManualReview? || item.status.Pending? || item.status.Extracted? }

  function ResolvedItem(item: Item, status: Status): Item {
    if CanResolve(item) then item.(status := status, result := Some(status), history := item.history + [Resolved(status)])
    else item
  }

  function ExpiredItem(item: Item): Item {
    if IsAllowed(item.status, Expired) then item.(status := Expired, history := item.history + [Entered(Expired)]) else item
  }

  // ----- Operations on the service -----

  function Submitted(s: Service, id: Id, quantVerifiable: bool): Service {
    if id in s.items then s else Service(s.items[id := NewItem(quantVerifiable)], s.order + [id], s.dlq)
  }

  function AttemptedIn(s: Service, id: Id, now: nat, response: Response): Service {
    if id !in s.items then s
    else
      var after := Attempted(s.items[id], now, response);
      s.(items := s.items[id := after], dlq := if NewlyExhausted(s.items[id], response) then s.dlq + [id] else s.dlq)
  }

  predicate NewlyExhausted(item: Item, response: Response) {
    item.status.Pending? && response.Unavailable? && item.retries + 1 > |SCHEDULE|
  }

  function DueIds(s: Service, order: seq<Id>, now: nat): (r: seq<Id>)
    ensures forall id :: id in r ==> id in s.items && IsDue(s.items[id], now)
  {
    if order == [] then []
    else
      var rest := DueIds(s, order[1..], now);
      if order[0] in s.items && IsDue(s.items[order[0]], now) then [order[0]] + rest else rest
  }

  /** The claims that were due at the start are attempted in turn, until one attempt raises. */
  function PassFrom(s: Service, ids: seq<Id>, now: nat, answers: Id -> Response): Service
    requires forall k :: 0 <= k < |ids| ==> ids[k] in s.items
    decreases |ids|
  {
    if ids == [] then s
    else
      var next := AttemptedIn(s, ids[0], now, answers(ids[0]));
      if AttemptRaises(s.items[ids[0]], answers(ids[0])) then next else PassFrom(next, ids[1..], now, answers)
  }

  function Passed(s: Service, now: nat, answers: Id -> Response): Service {
    PassFrom(s, DueIds(s, s.order, now), now, answers)
  }

  class VerificationService {
    var items: map<Id, Item>
    var order: seq<Id>
    var dlq: seq<Id>

    function State(): Service
      reads this
    {
      Service(items, order, dlq)
    }

    constructor ()
      ensures State() == Service(map[], [], [])
    {
      items, order, dlq := map[], [], [];
    }

    method Submit(id: Id, quantVerifiable: bool)
      modifies this
      ensures State() == Submitted(old(State()), id, quantVerifiable)
    {
      if id in items { return; }
      items := items[id := NewItem(quantVerifiable)];
      order := order + [id];
    }

    method DueItems(now: nat) returns (due: seq<Id>)
      ensures due == DueIds(State(), order, now)
    {
      due := [];
      for i := 0 to |order|
        invariant due + DueIds(State(), order[i..], now) == DueIds(State(), order, now)
      {
        assert order[i..][1..] == order[i + 1..];
        if order[i] in items && IsDue(items[order[i]], now) { due := due + [order[i]]; }
      }
      assert order[|order|..] == [];
    }

    method Attempt(id: Id, now: nat, response: Response) returns (ending: Ending)
      modifies this
      ensures State() == AttemptedIn(old(State()), id, now, response)
      ensures ending.UnknownClaim? <==> id !in old(items)
      ensures ending.InvalidAnswer? <==> id in old(items) && AttemptRaises(old(items)[id], response)
    {
      if id !in items { return UnknownClaim; }
      var item := items[id];
      if !item.status.Pending? {
        assert items[id := item] == items;
        return Done;
      }
      item := item.(calls := item.calls + [now]);
      ending := Done;
      match response {
        case Unavailable =>
          item := item.(retries := item.retries + 1, history := item.history + [RetryScheduled(item.retries + 1)]);
          if item.retries > |SCHEDULE| {
            item := item.(status := ManualReview, history := item.history + [Exhausted]);
            dlq := dlq + [id];
          } else {
            item := item.(nextAt := Some(now + SCHEDULE[item.retries - 1]));
          }
        case Answer(status) =>
          if IsAllowed(item.status, status) {
            item := item.(status := status, result := Some(status), history := item.history + [Entered(status)]);
          } else {
            ending := InvalidAnswer;
          }
      }
      items := items[id := item];
    }

    /** Both operations report false where the source raises. */
    method ManualResolve(id: Id, status: Status) returns (ok: bool)
      modifies this`items
      ensures ok <==> id in old(items) && CanResolve(old(items)[id])
      ensures items == if ok then old(items)[id := ResolvedItem(old(items)[id], status)] else old(items)
    {
      if id !in items || !CanResolve(items[id]) { return false; }
      var item := items[id];
      items := items[id := item.(status := status, result := Some(status), history := item.history + [Resolved(status)])];
      ok := true;
    }

    method Expire(id: Id) returns (ok: bool)
      modifies this`items
      ensures ok <==> id in old(items) && IsAllowed(old(items)[id].status, Expired)
      ensures items == if ok then old(items)[id := ExpiredItem(old(items)[id])] else old(items)
    {
      if id !in items || !IsAllowed(items[id].status, Expired) { return false; }
      items := items[id := items[id].(status := Expired, history := items[id].history + [Entered(Expired)])];
      ok := true;
    }

    method RunPass(now: nat, answers: Id -> Response)
      modifies this
      ensures State() == Passed(old(State()), now, answers)
    {
      hide AttemptRaises, AttemptedIn;
      var due := DueItems(now);
      ghost var start := State();
      for k := 0 to |due|
        invariant forall j :: 0 <= j < |due| ==> due[j] in items
        invariant PassFrom(State(), due[k..], now, answers) == PassFrom(start, due, now, answers)
      {
        assert due[k..][1..] == due[k + 1..];
        AttemptKeepsIds(State(), due[k], now, answers(due[k]));
        var ending := Attempt(due[k], now, answers(due[k]));
        if ending.InvalidAnswer? { return; }
      }
      assert due[|due|..] == [];
    }
  }

  lemma {:induction false} AttemptKeepsIds(s: Service, id: Id, now: nat, response: Response)
    ensures AttemptedIn(s, id, now, response).items.Keys == s.items.Keys
  {
  }

  // ----- Runs -----

  datatype Operation =
    | Submit(id: Id, quantVerifiable: bool)
    | Attempt(id: Id, now: nat, response: Response)
    | Pass(now: nat, answers: Id -> Response)
    | Resolve(id: Id, status: Status)
    | Expire(id: Id)

  function Step(s: Service, op: Operation): Service {
    match op
    case Submit(id, quantVerifiable) => Submitted(s, id, quantVerifiable)
    case Attempt(id, now, response) => AttemptedIn(s, id, now, response)
    case Pass(now, answers) => Passed(s, now, answers)
    case Resolve(id, status) => if id in s.items then s.(items := s.items[id := ResolvedItem(s.items[id], status)]) else s
    case Expire(id) => if id in s.items then s.(items := s.items[id := ExpiredItem(s.items[id])]) else s
  }

  function Run(s: Service, ops: seq<Operation>): Service
    decreases |ops|
  {
    if ops == [] then s else Run(Step(s, ops[0]), ops[1..])
  }

  /** Answers and manual resolutions are terminal statuses. */
  ghost predicate IsDecisive(op: Operation) {
    && (op.Pass? ==> forall id :: op.answers(id).Answer? ==> IsTerminal(op.answers(id).status))
    && (op.Attempt? && op.response.Answer? ==> IsTerminal(op.response.status))
    && (op.Resolve? ==> IsTerminal(op.status))
  }

  /** A direct attempt outside a pass waits until the claim is due. */
  predicate IsTimely(s: Service, op: Operation) {
    op.Attempt? && op.id in s.items && s.items[op.id].status.Pending? ==> IsDue(s.items[op.id], op.now)
  }

  predicate AllTimely(s: Service, ops: seq<Operation>)
    decreases |ops|
  {
    ops == [] || (IsTimely(s, ops[0]) && AllTimely(Step(s, ops[0]), ops[1..]))
  }

  /** Call `k` comes at least the scheduled wait after call `k - 1`. */
  ghost predicate Spaced(calls: seq<nat>) {
    forall k :: 0 < k < |calls| && k - 1 < |SCHEDULE| ==> calls[k] >= calls[k - 1] + SCHEDULE[k - 1]
  }

  /** The next attempt is scheduled after the last call. */
  ghost predicate Scheduled(item: Item) {
    && |item.calls| == item.retries <= |SCHEDULE|
    && item.nextAt == if item.retries == 0 then None else Some(item.calls[item.retries - 1] + SCHEDULE[item.retries - 1])
  }

  /** At most six calls, and no more failures than calls; when all attempts are timely, the calls keep to the schedule. */
  ghost predicate Sound(item: Item, timely: bool) {
    && |item.calls| <= 6 && item.retries <= |item.calls|
    && (item.status.Pending? ==> |item.calls| == item.retries <= |SCHEDULE|)
    && (item.status.Pending? || IsTerminal(item.status))
    && (timely ==> Spaced(item.calls) && (item.status.Pending? ==> Scheduled(item)))
  }

  /** The dead-letter list names each exhausted claim once. */
  ghost predicate DlqSound(s: Service) {
    forall id :: multiset(s.dlq)[id] == if id in s.items && s.items[id].retries > |SCHEDULE| then 1 else 0
  }

  ghost predicate ServiceSound(s: Service, timely: bool) { DlqSound(s) && forall id :: id in s.items ==> Sound(s.items[id], timely) }

  lemma {:induction false} AttemptKeepsSound(item: Item, timely: bool, now: nat, response: Response)
    requires Sound(item, timely) && item.status.Pending? && (timely ==> IsDue(item, now))
    requires response.Answer? ==> IsTerminal(response.status)
    ensures Sound(Attempted(item, now, response), timely) && !AttemptRaises(item, response)
    ensures Attempted(item, now, response).retries > |SCHEDULE| <==> NewlyExhausted(item, response)
    ensures item.retries <= |SCHEDULE|
  {
    var calls := item.calls + [now];
    assert timely ==> Spaced(calls) by {
      forall k | timely && 0 < k < |calls| && k - 1 < |SCHEDULE| ensures calls[k] >= calls[k - 1] + SCHEDULE[k - 1] {
        if k < |item.calls| { assert calls[k] == item.calls[k] && calls[k - 1] == item.calls[k - 1]; }
      }
    }
  }

  lemma {:induction false} AttemptInKeepsSound(s: Service, timely: bool, id: Id, now: nat, response: Response)
    requires ServiceSound(s, timely) && id in s.items && s.items[id].status.Pending? && (timely ==> IsDue(s.items[id], now))
    requires response.Answer? ==> IsTerminal(response.status)
    ensures ServiceSound(AttemptedIn(s, id, now, response), timely) && !AttemptRaises(s.items[id], response)
  {
    hide Sound, Attempted, NewlyExhausted, AttemptRaises;
    AttemptKeepsSound(s.items[id], timely, now, response);
    var next := AttemptedIn(s, id, now, response);
    forall other ensures multiset(next.dlq)[other] == if other in next.items && next.items[other].retries > |SCHEDULE| then 1 else 0 {
      assert multiset(s.dlq)[other] == if other in s.items && s.items[other].retries > |SCHEDULE| then 1 else 0;
      assert multiset(s.dlq + [id]) == multiset(s.dlq) + multiset{id};
    }
  }

  /** Each claim is in the order once. */
  ghost predicate OrderSound(s: Service) {
    (forall i, j :: 0 <= i < j < |s.order| ==> s.order[i] != s.order[j]) && forall id :: id in s.order <==> id in s.items
  }

  lemma {:induction false} DueOnce(s: Service, order: seq<Id>, now: nat)
    requires forall i, j :: 0 <= i < j < |order| ==> order[i] != order[j]
    ensures var due := DueIds(s, order, now);
      && (forall i, j :: 0 <= i < j < |due| ==> due[i] != due[j])
      && (forall id :: id in due <==> id in order && id in s.items && IsDue(s.items[id], now))
  {
    if order != [] {
      DueOnce(s, order[1..], now);
      assert order == [order[0]] + order[1..];
      var rest := DueIds(s, order[1..], now);
      forall k | 0 <= k < |rest| ensures rest[k] != order[0] { assert rest[k] in rest; }
    }
  }

  lemma {:induction false} PassKeepsSound(s: Service, timely: bool, ids: seq<Id>, now: nat, answers: Id -> Response)
    requires ServiceSound(s, timely) && OrderSound(s)
    requires forall k :: 0 <= k < |ids| ==> ids[k] in s.items && IsDue(s.items[ids[k]], now)
    requires forall i, j :: 0 <= i < j < |ids| ==> ids[i] != ids[j]
    requires forall id :: answers(id).Answer? ==> IsTerminal(answers(id).status)
    ensures ServiceSound(PassFrom(s, ids, now, answers), timely) && OrderSound(PassFrom(s, ids, now, answers))
    decreases |ids|
  {
    hide ServiceSound, IsDue, AttemptRaises, Attempted;
    if ids != [] {
      assert s.items[ids[0]].status.Pending? by { DueIsPending(s.items[ids[0]], now); }
      AttemptInKeepsSound(s, timely, ids[0], now, answers(ids[0]));
      PassKeepsSound(AttemptedIn(s, ids[0], now, answers(ids[0])), timely, ids[1..], now, answers);
    }
  }

  lemma {:induction false} DueIsPending(item: Item, now: nat)
    requires IsDue(item, now)
    ensures item.status.Pending?
  {
  }

  lemma {:induction false} SubmitKeepsSound(s: Service, timely: bool, id: Id, quantVerifiable: bool)
    requires ServiceSound(s, timely) && OrderSound(s)
    ensures ServiceSound(Submitted(s, id, quantVerifiable), timely) && OrderSound(Submitted(s, id, quantVerifiable))
  {
  }

  lemma {:induction false} EditKeepsSound(s: Service, timely: bool, id: Id, item: Item)
    requires ServiceSound(s, timely) && OrderSound(s) && id in s.items && Sound(item, timely) && item.retries == s.items[id].retries
    ensures ServiceSound(s.(items := s.items[id := item]), timely) && OrderSound(s.(items := s.items[id := item]))
  {
    hide Sound;
  }

  lemma {:induction false} StepKeepsSound(s: Service, timely: bool, op: Operation)
    requires ServiceSound(s, timely) && OrderSound(s) && IsDecisive(op) && (timely ==> IsTimely(s, op))
    ensures ServiceSound(Step(s, op), timely) && OrderSound(Step(s, op))
  {
    hide PassFrom, OrderSound, DlqSound;
    match op
    case Pass(now, answers) =>
      DueAreSound(s, now);
      PassKeepsSound(s, timely, DueIds(s, s.order, now), now, answers);
    case Attempt(id, now, response) =>
      AttemptKeepsOrder(s, id, now, response);
      if id in s.items && s.items[id].status.Pending? {
        AttemptInKeepsSound(s, timely, id, now, response);
      } else {
        assert AttemptedIn(s, id, now, response) == s by { IdleAttempt(s, id, now, response); }
      }
    case Submit(id, quantVerifiable) => SubmitKeepsSound(s, timely, id, quantVerifiable);
    case Resolve(id, status) => if id in s.items { EditKeepsSound(s, timely, id, ResolvedItem(s.items[id], status)); }
    case Expire(id) => if id in s.items { EditKeepsSound(s, timely, id, ExpiredItem(s.items[id])); }
  }

  lemma {:induction false} AttemptKeepsOrder(s: Service, id: Id, now: nat, response: Response)
    requires OrderSound(s)
    ensures OrderSound(AttemptedIn(s, id, now, response))
  {
    hide Attempted, NewlyExhausted;
  }

  /** An attempt on an unknown claim, or on one that is not pending, changes nothing. */
  lemma {:induction false} IdleAttempt(s: Service, id: Id, now: nat, response: Response)
    requires id !in s.items || !s.items[id].status.Pending?
    ensures AttemptedIn(s, id, now, response) == s
  {
    if id in s.items { assert s.items[id := s.items[id]] == s.items; }
  }

  lemma {:induction false} DueAreSound(s: Service, now: nat)
    requires OrderSound(s)
    ensures forall i, j :: 0 <= i < j < |DueIds(s, s.order, now)| ==> DueIds(s, s.order, now)[i] != DueIds(s, s.order, now)[j]
  {
    DueOnce(s, s.order, now);
  }

  /**
   * With decisive answers, over any run of passes and direct attempts: at most six provider calls for a claim, and the
   * dead-letter list names each exhausted claim exactly once. If direct attempts wait until the claim is due, as passes
   * do, each call comes at least the scheduled wait after the one before.
   */
  lemma {:induction false} CallsAreBounded(ops: seq<Operation>, s: Service, timely: bool)
    requires ServiceSound(s, timely) && OrderSound(s) && forall k :: 0 <= k < |ops| ==> IsDecisive(ops[k])
    requires timely ==> AllTimely(s, ops)
    ensures ServiceSound(Run(s, ops), timely) && OrderSound(Run(s, ops))
    decreases |ops|
  {
    hide Step, ServiceSound, OrderSound, IsDecisive, IsTimely;
    if ops != [] {
      StepKeepsSound(s, timely, ops[0]);
      CallsAreBounded(ops[1..], Step(s, ops[0]), timely);
    }
  }

  /** An attempt on a pending claim keeps the calls to the schedule exactly when the claim is due; a direct attempt does not check it. */
  lemma {:induction false} SpacedExactlyWhenDue(item: Item, now: nat, response: Response)
    requires Sound(item, true) && item.status.Pending?
    ensures Spaced(Attempted(item, now, response).calls) <==> IsDue(item, now)
  {
    var calls := item.calls + [now];
    assert Attempted(item, now, response).calls == calls;
    assert forall k :: 0 <= k < |item.calls| ==> calls[k] == item.calls[k];
    if item.retries > 0 {
      var k := item.retries;
      assert calls[k] == now && calls[k - 1] == item.calls[k - 1];
      assert IsDue(item, now) <==> calls[k] >= calls[k - 1] + SCHEDULE[k - 1];
    }
  }

  // ----- Terminal statuses -----

  predicate IsSettled(status: Status) { IsTerminal(status) && !status.ManualReview? }

  lemma {:induction false} PassKeepsSettled(s: Service, ids: seq<Id>, now: nat, answers: Id -> Response, id: Id)
    requires forall k :: 0 <= k < |ids| ==> ids[k] in s.items
    requires id in s.items && IsSettled(s.items[id].status)
    ensures var next := PassFrom(s, ids, now, answers); id in next.items && next.items[id] == s.items[id]
    decreases |ids|
  {
    if ids != [] && !AttemptRaises(s.items[ids[0]], answers(ids[0])) {
      PassKeepsSettled(AttemptedIn(s, ids[0], now, answers(ids[0])), ids[1..], now, answers, id);
    }
  }

  /** A settled status is kept by every operation, whatever it answers: no call, no result, no retry changes it. */
  lemma {:induction false} SettledIsFinal(s: Service, op: Operation, id: Id)
    requires id in s.items && IsSettled(s.items[id].status)
    ensures id in Step(s, op).items
    ensures var before, after := s.items[id], Step(s, op).items[id];
      after.status == before.status && after.result == before.result && after.retries == before.retries && after.calls == before.calls
  {
    hide PassFrom;
    if op.Pass? { PassKeepsSettled(s, DueIds(s, s.order, op.now), op.now, op.answers, id); }
  }

  lemma {:induction false} SettledStays(s: Service, ops: seq<Operation>, id: Id)
    requires id in s.items && IsSettled(s.items[id].status)
    ensures id in Run(s, ops).items
    ensures var before, after := s.items[id], Run(s, ops).items[id];
      after.status == before.status && after.result == before.result && after.calls == before.calls
    decreases |ops|
  {
    hide Step;
    if ops != [] {
      SettledIsFinal(s, ops[0], id);
      SettledStays(Step(s, ops[0]), ops[1..], id);
    }
  }

  // ----- What an attempt stores -----

  /**
   * An attempt on a pending claim is one call. A terminal answer becomes its status and its result; a failure schedules
   * the next wait, and after the last wait hands the claim to manual review.
   */
  lemma {:induction false} AttemptStores(s: Service, id: Id, now: nat, response: Response)
    requires id in s.items && s.items[id].status.Pending?
    ensures var before, after := s.items[id], Step(s, Operation.Attempt(id, now, response));
      && id in after.items && after.items[id].calls == before.calls + [now]
      && (response.Answer? ==> after.dlq == s.dlq && after.items[id].retries == before.retries)
      && (response.Answer? && !response.status.Extracted? && !response.status.NotRequired? ==>
            after.items[id].status == response.status && after.items[id].result == Some(response.status))
      && (response.Unavailable? ==> after.items[id].retries == before.retries + 1 && after.items[id].result == before.result)
      && (response.Unavailable? && before.retries < 5 ==>
            && after.items[id].status.Pending? && after.dlq == s.dlq
            && after.items[id].nextAt == Some(now + [60, 300, 1800, 7200, 43200][before.retries]))
      && (response.Unavailable? && before.retries >= 5 ==>
            after.items[id].status.ManualReview? && after.dlq == s.dlq + [id])
  {
  }

  /** The status was answered by the provider or decided by hand in this operation. */
  predicate Decides(op: Operation, id: Id, status: Status) {
    match op
    case Attempt(other, _, response) => other == id && response == Answer(status)
    case Pass(_, answers) => answers(id) == Answer(status)
    case Resolve(other, decided) => other == id && decided == status
    case _ => false
  }

  /** A verdict of the provider is only ever the stored result. */
  predicate IsVerdict(status: Status) { status.Verified? || status.Contradicted? || status.PartiallyVerified? }

  ghost predicate ResultFits(item: Item) { IsVerdict(item.status) ==> item.result == Some(item.status) }

  /** Nothing happened to the item, or its result is the same as before or what the operation decided. */
  ghost predicate IsTraced(before: Item, after: Item, op: Operation, id: Id) {
    && (after.result == before.result || (after.result.Some? && Decides(op, id, after.result.value)))
    && (ResultFits(before) ==> ResultFits(after))
  }

  lemma {:induction false} PassTraces(s: Service, ids: seq<Id>, now: nat, answers: Id -> Response, id: Id)
    requires (forall k :: 0 <= k < |ids| ==> ids[k] in s.items) && id in s.items
    ensures var next := PassFrom(s, ids, now, answers);
      id in next.items && IsTraced(s.items[id], next.items[id], Pass(now, answers), id)
    decreases |ids|
  {
    if ids != [] {
      var next := AttemptedIn(s, ids[0], now, answers(ids[0]));
      assert IsTraced(s.items[id], next.items[id], Pass(now, answers), id);
      if !AttemptRaises(s.items[ids[0]], answers(ids[0])) { PassTraces(next, ids[1..], now, answers, id); }
    }
  }

  lemma {:induction false} StepTraces(s: Service, op: Operation, id: Id)
    requires id in s.items
    ensures id in Step(s, op).items && IsTraced(s.items[id], Step(s, op).items[id], op, id)
  {
    hide PassFrom;
    if op.Pass? { PassTraces(s, DueIds(s, s.order, op.now), op.now, op.answers, id); }
  }

  /** The items of a run that begins with empty tables start without a result. */
  lemma {:induction false} ItemsStartFresh(s: Service, op: Operation, id: Id)
    requires id !in s.items && id in Step(s, op).items
    ensures Step(s, op).items[id].result == None && !IsVerdict(Step(s, op).items[id].status)
  {
    hide PassFrom;
    if op.Pass? { PassKeepsIds(s, DueIds(s, s.order, op.now), op.now, op.answers); }
  }

  lemma {:induction false} PassKeepsIds(s: Service, ids: seq<Id>, now: nat, answers: Id -> Response)
    requires forall k :: 0 <= k < |ids| ==> ids[k] in s.items
    ensures PassFrom(s, ids, now, answers).items.Keys == s.items.Keys
    decreases |ids|
  {
    hide AttemptRaises, Attempted, NewlyExhausted;
    if ids != [] && !AttemptRaises(s.items[ids[0]], answers(ids[0])) {
      PassKeepsIds(AttemptedIn(s, ids[0], now, answers(ids[0])), ids[1..], now, answers);
    }
  }

  ghost predicate AllFit(s: Service) { forall id :: id in s.items ==> ResultFits(s.items[id]) }

  /** Every stored result was answered by the provider or decided by hand in the run, and a verdict is its stored result. */
  lemma {:induction false} ResultsAreAnswers(s: Service, ops: seq<Operation>, id: Id)
    requires AllFit(s) && id in Run(s, ops).items
    ensures ResultFits(Run(s, ops).items[id])
    ensures var result := Run(s, ops).items[id].result;
      || (id in s.items && result == s.items[id].result) || (id !in s.items && result == None)
      || (result.Some? && exists k :: 0 <= k < |ops| && Decides(ops[k], id, result.value))
    decreases |ops|
  {
    hide Step, Decides, ResultFits;
    if ops != [] {
      var next, rest := Step(s, ops[0]), ops[1..];
      forall other | other in next.items ensures ResultFits(next.items[other]) { FitsAfterStep(s, ops[0], other); }
      ResultsAreAnswers(next, rest, id);
      if id in s.items {
        StepTraces(s, ops[0], id);
      } else if id in next.items {
        ItemsStartFresh(s, ops[0], id);
      }
      var result := Run(next, rest).items[id].result;
      if result.Some? {
        if k :| 0 <= k < |rest| && Decides(rest[k], id, result.value) { assert Decides(ops[k + 1], id, result.value); }
      }
    }
  }

  lemma {:induction false} FitsAfterStep(s: Service, op: Operation, id: Id)
    requires AllFit(s) && id in Step(s, op).items
    ensures ResultFits(Step(s, op).items[id])
  {
    hide Step;
    if id in s.items { StepTraces(s, op, id); } else { ItemsStartFresh(s, op, id); }
  }

  /** The other operations take effect where they are allowed, and change nothing elsewhere. */
  lemma {:induction false} OperationsTakeEffect(s: Service, id: Id, status: Status, quantVerifiable: bool)
    ensures var submitted := Step(s, Submit(id, quantVerifiable));
      if id in s.items then submitted == s
      else
        && id in submitted.items && submitted.order == s.order + [id] && submitted.items[id].calls == []
        && submitted.items[id].status == (if quantVerifiable then Pending else NotVerifiable)
        && (quantVerifiable ==> forall now: nat :: IsDue(submitted.items[id], now))
    ensures var resolved := Step(s, Resolve(id, status));
      if id in s.items && (s.items[id].status.ManualReview? || s.items[id].status.Pending? || s.items[id].status.Extracted?)
      then id in resolved.items && resolved.items[id].status == status && resolved.items[id].result == Some(status)
      else resolved == s
    ensures var expired := Step(s, Expire(id));
      if id in s.items && (s.items[id].status.Pending? || s.items[id].status.Expired?)
      then id in expired.items && expired.items[id].status.Expired? && expired.items[id].result == s.items[id].result
      else expired == s
  {
    if id in s.items { assert s.items[id := s.items[id]] == s.items; }
  }

  /** The provider answers with a status that no pending claim may get. */
  predicate IsInvalid(response: Response) { response.Answer? && (response.status.Extracted? || response.status.NotRequired?) }

  /** The claim is asked about: it is at some place, and no answer before that is invalid. */
  ghost predicate IsAsked(ids: seq<Id>, answers: Id -> Response, id: Id) {
    exists k :: 0 <= k < |ids| && ids[k] == id && forall j :: 0 <= j < k ==> !IsInvalid(answers(ids[j]))
  }

  lemma {:induction false} AskedInFront(ids: seq<Id>, answers: Id -> Response, id: Id)
    requires ids != []
    ensures IsAsked(ids, answers, id) <==> ids[0] == id || (!IsInvalid(answers(ids[0])) && IsAsked(ids[1..], answers, id))
  {
    hide IsInvalid;
    if ids[0] == id { assert IsAsked(ids, answers, id); }
    if k :| 0 <= k < |ids| && ids[k] == id && forall j :: 0 <= j < k ==> !IsInvalid(answers(ids[j])) {
      if k > 0 { assert ids[1..][k - 1] == id && forall j :: 0 <= j < k - 1 ==> ids[1..][j] == ids[j + 1]; }
    }
    if !IsInvalid(answers(ids[0])) && IsAsked(ids[1..], answers, id) {
      var k :| 0 <= k < |ids[1..]| && ids[1..][k] == id && forall j :: 0 <= j < k ==> !IsInvalid(answers(ids[1..][j]));
      forall j | 0 <= j < k + 1 ensures !IsInvalid(answers(ids[j])) {
        if j > 0 { assert ids[j] == ids[1..][j - 1]; }
      }
      assert ids[k + 1] == id;
    }
  }

  lemma {:induction false} PassCalls(s: Service, ids: seq<Id>, now: nat, answers: Id -> Response, id: Id)
    requires forall k :: 0 <= k < |ids| ==> ids[k] in s.items && s.items[ids[k]].status.Pending?
    requires forall i, j :: 0 <= i < j < |ids| ==> ids[i] != ids[j]
    requires id in s.items
    ensures var after := PassFrom(s, ids, now, answers);
      id in after.items
      && after.items[id] == if IsAsked(ids, answers, id) then Attempted(s.items[id], now, answers(id)) else s.items[id]
    decreases |ids|
  {
    if ids != [] {
      AskedInFront(ids, answers, id);
      assert AttemptRaises(s.items[ids[0]], answers(ids[0])) <==> IsInvalid(answers(ids[0]));
      hide Attempted, NewlyExhausted, IsAsked, IsInvalid, AttemptRaises;
      assert ids == [ids[0]] + ids[1..] && forall k :: 0 <= k < |ids[1..]| ==> ids[1..][k] == ids[k + 1] != ids[0];
      if !IsInvalid(answers(ids[0])) {
        PassCalls(AttemptedIn(s, ids[0], now, answers(ids[0])), ids[1..], now, answers, id);
        NotAskedTwice(ids, answers);
      }
    }
  }

  lemma {:induction false} NotAskedTwice(ids: seq<Id>, answers: Id -> Response)
    requires ids != [] && forall i, j :: 0 <= i < j < |ids| ==> ids[i] != ids[j]
    ensures !IsAsked(ids[1..], answers, ids[0])
  {
    assert forall k :: 0 <= k < |ids[1..]| ==> ids[1..][k] == ids[k + 1];
  }

  lemma {:induction false} DueOfConcat(s: Service, a: seq<Id>, b: seq<Id>, now: nat)
    ensures DueIds(s, a + b, now) == DueIds(s, a, now) + DueIds(s, b, now)
    decreases |a|
  {
    hide IsDue;
    if a == [] {
      assert a + b == b;
    } else {
      DueOfConcat(s, a[1..], b, now);
      assert (a + b)[1..] == a[1..] + b;
    }
  }

  /** The claim is pending, and the wait before the next try is over, if there is one. */
  predicate HasToBeAsked(s: Service, now: nat, id: Id) {
    id in s.items && s.items[id].status.Pending? && (s.items[id].nextAt == None || s.items[id].nextAt.value <= now)
  }

  lemma {:induction false} AttemptCalls(item: Item, now: nat, response: Response)
    requires item.status.Pending?
    ensures Attempted(item, now, response).calls == item.calls + [now]
  {
  }

  lemma {:induction false} NeverAsked(ids: seq<Id>, answers: Id -> Response, id: Id)
    requires id !in ids
    ensures !IsAsked(ids, answers, id)
  {
  }

  /** The claims to be asked about before the one at a place are in front of it. */
  lemma {:induction false} DueSplits(s: Service, p: nat, now: nat)
    requires p < |s.order| && HasToBeAsked(s, now, s.order[p])
    ensures DueIds(s, s.order[..p], now) + [s.order[p]] <= DueIds(s, s.order, now)
  {
    DueOfConcat(s, s.order[..p], s.order[p..], now);
    assert s.order == s.order[..p] + s.order[p..];
  }

  lemma {:induction false} DueBefore(s: Service, p: nat, now: nat)
    requires OrderSound(s) && p < |s.order|
    ensures forall id :: id in DueIds(s, s.order[..p], now) <==> exists q :: 0 <= q < p && s.order[q] == id && HasToBeAsked(s, now, s.order[q])
  {
    DueOnce(s, s.order[..p], now);
  }

  lemma {:induction false} AskedBehind(front: seq<Id>, ids: seq<Id>, answers: Id -> Response)
    requires |front| < |ids| && front == ids[..|front|] && forall i, j :: 0 <= i < j < |ids| ==> ids[i] != ids[j]
    ensures IsAsked(ids, answers, ids[|front|]) <==> forall id :: id in front ==> !IsInvalid(answers(id))
  {
    hide IsInvalid;
    if forall id :: id in front ==> !IsInvalid(answers(id)) {
      forall j | 0 <= j < |front| ensures !IsInvalid(answers(ids[j])) { assert front[j] == ids[j] && front[j] in front; }
    }
  }

  lemma {:induction false} AskedExactlyWhen(s: Service, now: nat, answers: Id -> Response, p: nat)
    requires OrderSound(s) && p < |s.order|
    ensures IsAsked(DueIds(s, s.order, now), answers, s.order[p]) <==>
      && HasToBeAsked(s, now, s.order[p])
      && forall q :: 0 <= q < p && HasToBeAsked(s, now, s.order[q]) ==> !IsInvalid(answers(s.order[q]))
  {
    hide IsInvalid, DueIds, IsAsked;
    var due, front := DueIds(s, s.order, now), DueIds(s, s.order[..p], now);
    DueOnce(s, s.order, now);
    if HasToBeAsked(s, now, s.order[p]) {
      DueSplits(s, p, now);
      DueBefore(s, p, now);
      hide HasToBeAsked, IsDue, OrderSound;
      AskedBehind(front, due, answers);
    } else {
      NeverAsked(due, answers, s.order[p]);
    }
  }

  /**
   * A pass asks about a pending claim exactly when its wait is over, and no claim that was submitted before it and whose wait
   * is over gets an invalid answer, with which the pass ends.
   */
  lemma {:induction false} PassCallsExactlyWhen(s: Service, now: nat, answers: Id -> Response, p: nat)
    requires OrderSound(s) && p < |s.order|
    ensures var id, after := s.order[p], Step(s, Pass(now, answers));
      && id in after.items
      && after.items[id].calls == s.items[id].calls +
           if HasToBeAsked(s, now, id) && forall q :: 0 <= q < p && HasToBeAsked(s, now, s.order[q]) ==> !IsInvalid(answers(s.order[q]))
           then [now] else []
  {
    hide PassFrom, IsInvalid, IsAsked, DueIds, Attempted;
    var id := s.order[p];
    DueOnce(s, s.order, now);
    PassCalls(s, DueIds(s, s.order, now), now, answers, id);
    AskedExactlyWhen(s, now, answers, p);
    if s.items[id].status.Pending? { AttemptCalls(s.items[id], now, answers(id)); }
    assert s.items[id].calls + [] == s.items[id].calls;
  }

  // ----- Answers that decide nothing -----

  /** An attempt leaves the claim due at the same time exactly when the provider answers without deciding. */
  lemma {:induction false} StaysDueExactlyWhen(item: Item, now: nat, response: Response)
    requires IsDue(item, now)
    ensures IsDue(Attempted(item, now, response), now)
       <==> response.Answer? && (response.status.Pending? || response.status.Extracted? || response.status.NotRequired?)
  {
  }

  function Repeated(op: Operation, n: nat): seq<Operation> { if n == 0 then [] else [op] + Repeated(op, n - 1) }

  function SameAnswer(response: Response): Id -> Response { _ => response }

  lemma {:induction false} UndecidedPass(s: Service, id: Id, now: nat, status: Status) returns (next: Service)
    requires s.order == [id] && id in s.items && IsDue(s.items[id], now) && !IsTerminal(status)
    ensures next == Passed(s, now, SameAnswer(Answer(status)))
    ensures next.order == [id] && id in next.items && IsDue(next.items[id], now)
    ensures |next.items[id].calls| == |s.items[id].calls| + 1
  {
    var answers := SameAnswer(Answer(status));
    next := AttemptedIn(s, id, now, Answer(status));
    assert s.order[1..] == [] && DueIds(s, [], now) == [];
    assert DueIds(s, s.order, now) == [id];
    StaysDueExactlyWhen(s.items[id], now, Answer(status));
    assert PassFrom(next, [], now, answers) == next;
  }

  /** Without decisive answers there is no bound: every pass calls the provider once more. */
  lemma {:induction false} UndecidedCallsHaveNoBound(s: Service, id: Id, now: nat, status: Status, n: nat)
    requires s.order == [id] && id in s.items && IsDue(s.items[id], now) && !IsTerminal(status)
    ensures var end := Run(s, Repeated(Pass(now, SameAnswer(Answer(status))), n));
      id in end.items && |end.items[id].calls| == |s.items[id].calls| + n
    decreases n
  {
    hide Passed, IsDue;
    if n > 0 {
      var next := UndecidedPass(s, id, now, status);
      RunRepeated(s, Pass(now, SameAnswer(Answer(status))), n);
      UndecidedCallsHaveNoBound(next, id, now, status, n - 1);
    }
  }

  lemma {:induction false} RunRepeated(s: Service, op: Operation, n: nat)
    requires n > 0
    ensures Run(s, Repeated(op, n)) == Run(Step(s, op), Repeated(op, n - 1))
  {
    hide Step;
    assert Repeated(op, n)[1..] == Repeated(op, n - 1);
  }
}
