/**
 * Atomic publication of a content snapshot (application/publication_unit_of_work.py, domain/publication_run.py,
 * adapters/postgres/repositories/publication_repository.py).
 */
module Publication {
  import opened Options

  datatype Identity = Identity(snapshotId: string, queryHash: string, policy: string)

  datatype State = Assembling | Projecting | Sealing | Ready | Publishing | Published | FailedRetryable | FailedTerminal

  datatype Run = Run(identity: Identity, state: State, manifestHash: Option<string>, version: nat)

  /** What a publication seals. */
  datatype Payload = Payload(manifest: string, signals: seq<string>, outbox: seq<string>)

  /** The tables, by publication. */
  datatype Store = Store(
    runs: map<Identity, Run>, snapshots: map<Identity, string>, manifests: map<Identity, string>,
    signals: map<Identity, seq<string>>, outbox: map<Identity, seq<string>>)

  /** Where a publication can fail, in the order in which it gets there. */
  datatype Point =
    | OnProjecting | InSnapshotWriter | InManifestWriter | AfterSnapshot | OnSealing | InSignalWriter | AfterSignals
    | InOutboxWriter | AfterOutbox | OnReady

  /** `Conflicting` is the publication conflict error, `Failing` any other exception. */
  datatype Result = Returned(run: Run) | Conflicting | Failing

  predicate IsAllowed(current: State, target: State) {
    match current
    case Assembling => target.Projecting? || target.FailedRetryable? || target.FailedTerminal?
    case Projecting => target.Sealing? || target.FailedRetryable? || target.FailedTerminal?
    case Sealing => target.Ready? || target.FailedRetryable? || target.FailedTerminal?
    case Ready => target.Publishing? || target.FailedRetryable?
    case Publishing => target.Published? || target.FailedRetryable?
    case FailedRetryable =>
      target.Assembling? || target.Projecting? || target.Sealing? || target.Publishing? || target.FailedTerminal?
    case Published => false
    case FailedTerminal => false
  }

  function OrElse(hash: Option<string>, other: Option<string>): Option<string> {
    if hash.Some? && hash.value != "" then hash else other
  }

  /** `ContentPublicationRun.transition`; nothing when it raises. */
  function Transition(run: Run, target: State, hash: Option<string>): Option<Run> {
    var kept := OrElse(hash, run.manifestHash);
    if target != run.state && !IsAllowed(run.state, target) then None
    else if target.Ready? && (kept.None? || kept.value == "") then None
    else Some(run.(state := target, manifestHash := kept, version := run.version + if target != run.state then 1 else 0))
  }

  function NewRun(identity: Identity): Run { Run(identity, Assembling, None, 1) }

  predicate IsNamed(identity: Identity) { identity.snapshotId != "" && identity.queryHash != "" && identity.policy != "" }

  function SignalSet(signals: seq<string>): set<string> { set s | s in signals }

  /** `verify_sealed_in_session` */
  predicate Verifies(store: Store, run: Run, payload: Payload, hash: string) {
    && run.identity in store.manifests && store.manifests[run.identity] == payload.manifest
    && run.identity in store.signals && SignalSet(store.signals[run.identity]) == SignalSet(payload.signals)
    && run.manifestHash == Some(hash)
  }

  /** The store with a complete publication. */
  function WithPublication(store: Store, identity: Identity, payload: Payload, hash: string): Store {
    Store(
      store.runs[identity := Run(identity, Ready, Some(hash), 4)], store.snapshots[identity := payload.manifest],
      store.manifests[identity := payload.manifest], store.signals[identity := payload.signals],
      store.outbox[identity := payload.outbox])
  }

  /**
   * The specification over a transactional repository. `fails` are the points that raise. `rival` is the payload that
   * a concurrent publisher of the same identity commits after this publication has found none.
   */
  function Publish(store: Store, identity: Identity, payload: Payload, digest: Payload -> string,
                   fails: set<Point>, rival: Option<Payload>): (Store, Result)
  {
    if !IsNamed(identity) then (store, Failing)
    else if identity in store.runs then
      (store,
       if store.runs[identity].manifestHash != Some(digest(payload)) then Conflicting
       else if Verifies(store, store.runs[identity], payload, digest(payload)) then Returned(store.runs[identity])
       else Failing)
    else if rival.Some? then
      var won := WithPublication(store, identity, rival.value, digest(rival.value));
      (won,
       if OnProjecting in fails then Failing
       else if digest(rival.value) == digest(payload) then Returned(won.runs[identity])
       else Conflicting)
    else if fails == {} then
      (WithPublication(store, identity, payload, digest(payload)), Returned(Run(identity, Ready, Some(digest(payload)), 4)))
    else (store, Failing)
  }

  class PublicationUnitOfWork {
    const digest: Payload -> string
    /** What other transactions can see. */
    var committed: Store

    constructor (digest: Payload -> string, store: Store)
      ensures this.digest == digest && committed == store
    {
      this.digest, committed := digest, store;
    }

    /** One transaction: `draft` is its view, and it becomes visible only at the end. */
    method PublishAtomically(identity: Identity, payload: Payload, fails: set<Point>, rival: Option<Payload>) returns (result: Result)
      requires digest(payload) != ""
      modifies this
      ensures (committed, result) == Publish(old(committed), identity, payload, digest, fails, rival)
    {
      if !IsNamed(identity) { return Failing; }
      var hash := digest(payload);
      var draft := committed;
      if identity in draft.runs {
        var existing := draft.runs[identity];
        if existing.manifestHash != Some(hash) { return Conflicting; }
        if !Verifies(draft, existing, payload, hash) { return Failing; }
        return Returned(existing);
      }
      if rival.Some? {
        committed := WithPublication(committed, identity, rival.value, digest(rival.value));
      }
      if OnProjecting in fails { return Failing; }
      if identity in committed.runs {
        // The insertion violates the unique identity.
        var existing := committed.runs[identity];
        return if existing.manifestHash == Some(hash) then Returned(existing) else Conflicting;
      }
      var run := Transition(NewRun(identity), Projecting, None).value;
      draft := draft.(runs := draft.runs[identity := run]);
      var written := WriteRows(draft, run, payload, hash, fails);
      if written.None? { return Failing; }
      assert committed.runs[identity := run][identity := Run(identity, Ready, Some(hash), 4)]
          == committed.runs[identity := Run(identity, Ready, Some(hash), 4)];
      committed := written.value;
      result := Returned(committed.runs[identity]);
    }

    /** The rows after the run has been inserted; absent when a writer or a hook raises. */
    static method WriteRows(start: Store, first: Run, payload: Payload, hash: string, fails: set<Point>) returns (written: Option<Store>)
      requires first.identity in start.runs && start.runs[first.identity] == first && OnProjecting !in fails && hash != ""
      requires first == Run(first.identity, Projecting, None, 2)
      ensures written == if fails == {} then Some(WithPublication(start, first.identity, payload, hash)) else None
    {
      var draft, run, identity := start, first, first.identity;
      if InSnapshotWriter in fails { return None; }
      draft := draft.(snapshots := draft.snapshots[identity := payload.manifest]);
      if InManifestWriter in fails { return None; }
      draft := draft.(manifests := draft.manifests[identity := payload.manifest]);
      if AfterSnapshot in fails || OnSealing in fails { return None; }
      run := Transition(run, Sealing, None).value;
      draft := draft.(runs := draft.runs[identity := run]);
      if InSignalWriter in fails { return None; }
      draft := draft.(signals := draft.signals[identity := payload.signals]);
      if AfterSignals in fails || InOutboxWriter in fails { return None; }
      draft := draft.(outbox := draft.outbox[identity := payload.outbox]);
      if AfterOutbox in fails || OnReady in fails { return None; }
      run := Transition(run, Ready, Some(hash)).value;
      draft := draft.(runs := draft.runs[identity := run]);
      NoPointFails(fails);
      assert start.runs[identity := Run(identity, Sealing, None, 3)][identity := run] == start.runs[identity := run];
      written := Some(draft);
    }
  }

  lemma {:induction false} NoPointFails(fails: set<Point>)
    requires OnProjecting !in fails && InSnapshotWriter !in fails && InManifestWriter !in fails && AfterSnapshot !in fails
    requires OnSealing !in fails && InSignalWriter !in fails && AfterSignals !in fails && InOutboxWriter !in fails
    requires AfterOutbox !in fails && OnReady !in fails
    ensures fails == {}
  {
    forall p ensures p !in fails {
      match p
      case OnProjecting => case InSnapshotWriter => case InManifestWriter => case AfterSnapshot => case OnSealing =>
      case InSignalWriter => case AfterSignals => case InOutboxWriter => case AfterOutbox => case OnReady =>
    }
  }

  // ----- All or nothing -----

  /** The publication is there with all its rows. */
  ghost predicate IsPublished(store: Store, identity: Identity, payload: Payload, hash: string) {
    && identity in store.runs && store.runs[identity].state.Ready? && store.runs[identity].manifestHash == Some(hash)
    && identity in store.snapshots && store.snapshots[identity] == payload.manifest
    && identity in store.manifests && store.manifests[identity] == payload.manifest
    && identity in store.signals && store.signals[identity] == payload.signals
    && identity in store.outbox && store.outbox[identity] == payload.outbox
  }

  /** The stores agree on every other publication. */
  ghost predicate SameElsewhere(a: Store, b: Store, identity: Identity) {
    forall other :: other != identity ==>
      && (other in a.runs <==> other in b.runs) && (other in a.runs ==> a.runs[other] == b.runs[other])
      && (other in a.snapshots <==> other in b.snapshots) && (other in a.snapshots ==> a.snapshots[other] == b.snapshots[other])
      && (other in a.manifests <==> other in b.manifests) && (other in a.manifests ==> a.manifests[other] == b.manifests[other])
      && (other in a.signals <==> other in b.signals) && (other in a.signals ==> a.signals[other] == b.signals[other])
      && (other in a.outbox <==> other in b.outbox) && (other in a.outbox ==> a.outbox[other] == b.outbox[other])
  }

  /**
   * Whatever fails: the store keeps its content and the caller learns of the failure, or one complete publication of
   * the identity is added, this one or the rival's, and nothing else changes.
   */
  lemma {:induction false} PublicationIsAllOrNothing(store: Store, identity: Identity, payload: Payload, digest: Payload -> string,
                                                     fails: set<Point>, rival: Option<Payload>)
    ensures var (after, result) := Publish(store, identity, payload, digest, fails, rival);
      && (after == store || (identity !in store.runs && SameElsewhere(store, after, identity)
            && exists p :: (p == payload || Some(p) == rival) && IsPublished(after, identity, p, digest(p))))
      && (result.Returned? ==> identity in after.runs && after.runs[identity] == result.run && result.run.manifestHash == Some(digest(payload)))
      && (rival.None? && fails != {} && identity !in store.runs ==> after == store && result == Failing)
  {
    hide SameElsewhere, IsPublished, IsNamed, Verifies, WithPublication;
    if identity !in store.runs {
      AddsOnePublication(store, identity, payload, digest(payload));
      if rival.Some? { AddsOnePublication(store, identity, rival.value, digest(rival.value)); }
    }
  }

  /**
   * Without a rival a publication of a new identity happens exactly when the identity is complete and nothing fails. After
   * a rival has won it returns the rival's run when both seal the same content, and is a conflict otherwise.
   */
  lemma {:induction false} PublicationHappensExactlyWhen(store: Store, identity: Identity, payload: Payload, digest: Payload -> string,
                                                         fails: set<Point>, rival: Option<Payload>)
    requires identity !in store.runs
    ensures var (after, result) := Publish(store, identity, payload, digest, fails, rival);
      var named := identity.snapshotId != "" && identity.queryHash != "" && identity.policy != "";
      if !named then after == store && result == Failing
      else if rival.None? then
        if fails == {}
        then IsPublished(after, identity, payload, digest(payload)) && result == Returned(after.runs[identity])
        else after == store && result == Failing
      else
        && IsPublished(after, identity, rival.value, digest(rival.value))
        && result == if OnProjecting in fails then Failing
                     else if digest(rival.value) == digest(payload) then Returned(after.runs[identity])
                     else Conflicting
  {
    hide WithPublication, Verifies, IsPublished;
    AddsOnePublication(store, identity, payload, digest(payload));
    if rival.Some? { AddsOnePublication(store, identity, rival.value, digest(rival.value)); }
  }

  /** An existing run is returned exactly when its hash, its manifest and its signals are those of the payload. */
  lemma {:induction false} ExistingIsReturnedExactlyWhen(store: Store, identity: Identity, payload: Payload, digest: Payload -> string,
                                                         fails: set<Point>, rival: Option<Payload>)
    requires identity in store.runs && store.runs[identity].identity == identity
    requires identity.snapshotId != "" && identity.queryHash != "" && identity.policy != ""
    ensures var (after, result) := Publish(store, identity, payload, digest, fails, rival);
      && after == store
      && (result.Conflicting? <==> store.runs[identity].manifestHash != Some(digest(payload)))
      && (result.Returned? <==>
            && store.runs[identity].manifestHash == Some(digest(payload))
            && identity in store.manifests && store.manifests[identity] == payload.manifest
            && identity in store.signals && forall s :: s in store.signals[identity] <==> s in payload.signals)
      && (result.Returned? ==> result.run == store.runs[identity])
  {
    if identity in store.signals { SameSignals(store.signals[identity], payload.signals); }
  }

  lemma {:induction false} SameSignals(a: seq<string>, b: seq<string>)
    ensures SignalSet(a) == SignalSet(b) <==> forall s :: s in a <==> s in b
  {
    if SignalSet(a) == SignalSet(b) {
      forall s ensures s in a <==> s in b { assert s in SignalSet(a) <==> s in SignalSet(b); }
    }
  }

  lemma {:induction false} AddsOnePublication(store: Store, identity: Identity, payload: Payload, hash: string)
    ensures var after := WithPublication(store, identity, payload, hash);
      && SameElsewhere(store, after, identity) && IsPublished(after, identity, payload, hash)
      && identity in after.runs && after.runs[identity] == Run(identity, Ready, Some(hash), 4)
  {
  }

  // ----- Publishing again -----

  ghost predicate Injective(digest: Payload -> string) { forall p, q :: digest(p) == digest(q) ==> p == q }

  /** The run, the manifest and the signals under an identity are those of one payload. */
  ghost predicate IsSealedAs(store: Store, identity: Identity, payload: Payload, digest: Payload -> string) {
    && identity in store.runs && store.runs[identity].identity == identity
    && store.runs[identity].manifestHash == Some(digest(payload))
    && identity in store.manifests && store.manifests[identity] == payload.manifest
    && identity in store.signals && store.signals[identity] == payload.signals
  }

  /** Every run in the store is sealed with what its hash says. */
  ghost predicate AllSealed(store: Store, digest: Payload -> string) {
    forall identity :: identity in store.runs ==> IsNamed(identity) && exists p :: IsSealedAs(store, identity, p, digest)
  }

  /** Publishing under a sealed identity changes nothing: it returns the run for the same content, and is a conflict otherwise. */
  lemma {:induction false} RepublishingExactly(store: Store, identity: Identity, sealed: Payload, payload: Payload,
                                               digest: Payload -> string, fails: set<Point>, rival: Option<Payload>)
    requires Injective(digest) && AllSealed(store, digest) && IsSealedAs(store, identity, sealed, digest)
    ensures Publish(store, identity, payload, digest, fails, rival)
         == (store, if payload == sealed then Returned(store.runs[identity]) else Conflicting)
  {
    assert digest(payload) == digest(sealed) <==> payload == sealed;
  }

  lemma {:induction false} PublicationKeepsSealed(store: Store, identity: Identity, payload: Payload, digest: Payload -> string,
                                                  fails: set<Point>, rival: Option<Payload>)
    requires AllSealed(store, digest)
    ensures AllSealed(Publish(store, identity, payload, digest, fails, rival).0, digest)
  {
    var after := Publish(store, identity, payload, digest, fails, rival).0;
    if after != store {
      var added := if rival.Some? then rival.value else payload;
      forall other | other in after.runs ensures IsNamed(other) && exists p :: IsSealedAs(after, other, p, digest) {
        if other == identity {
          assert IsSealedAs(after, other, added, digest);
        } else {
          assert other in store.runs;
          var p :| IsSealedAs(store, other, p, digest);
          assert IsSealedAs(after, other, p, digest);
        }
      }
    }
  }

  // ----- Runs of publishers and of the delivery that follows -----

  /** A publication with its mishaps, or the later progress of a sealed run. */
  datatype Action =
    | PublishAction(identity: Identity, payload: Payload, fails: set<Point>, rival: Option<Payload>)
    | Advance(identity: Identity, target: State)

  function Step(store: Store, a: Action, digest: Payload -> string): Store {
    match a
    case PublishAction(identity, payload, fails, rival) => Publish(store, identity, payload, digest, fails, rival).0
    case Advance(identity, target) =>
      if identity !in store.runs then store
      else
        match Transition(store.runs[identity], target, None)
        case None => store
        case Some(run) => store.(runs := store.runs[identity := run])
  }

  function Execute(store: Store, actions: seq<Action>, digest: Payload -> string): Store
    decreases |actions|
  {
    if actions == [] then store else Execute(Step(store, actions[0], digest), actions[1..], digest)
  }

  lemma {:induction false} StepKeepsSealed(store: Store, a: Action, digest: Payload -> string, identity: Identity, sealed: Payload)
    requires Injective(digest) && AllSealed(store, digest) && IsSealedAs(store, identity, sealed, digest)
    ensures AllSealed(Step(store, a, digest), digest) && IsSealedAs(Step(store, a, digest), identity, sealed, digest)
  {
    hide Transition, IsNamed;
    match a
    case PublishAction(other, payload, fails, rival) =>
      PublicationKeepsSealed(store, other, payload, digest, fails, rival);
      PublicationIsAllOrNothing(store, other, payload, digest, fails, rival);
    case Advance(other, target) => AdvanceKeepsSealed(store, other, target, digest, identity, sealed);
  }

  lemma {:induction false} AdvanceKeepsSealed(store: Store, other: Identity, target: State, digest: Payload -> string,
                                              identity: Identity, sealed: Payload)
    requires AllSealed(store, digest) && IsSealedAs(store, identity, sealed, digest)
    ensures var after := Step(store, Advance(other, target), digest);
      AllSealed(after, digest) && IsSealedAs(after, identity, sealed, digest)
  {
    hide IsNamed, IsAllowed;
    var after := Step(store, Advance(other, target), digest);
    forall id | id in after.runs ensures IsNamed(id) && exists p :: IsSealedAs(after, id, p, digest) {
      assert id in store.runs;
      var p :| IsSealedAs(store, id, p, digest);
      assert IsSealedAs(after, id, p, digest);
    }
  }

  /** No run of publishers, with any failures and races, removes a sealed run or alters what it sealed. */
  lemma {:induction false} SealedForGood(store: Store, actions: seq<Action>, digest: Payload -> string, identity: Identity, sealed: Payload)
    requires Injective(digest) && AllSealed(store, digest) && IsSealedAs(store, identity, sealed, digest)
    ensures IsSealedAs(Execute(store, actions, digest), identity, sealed, digest)
    decreases |actions|
  {
    hide Step, AllSealed, IsSealedAs, Injective;
    if actions != [] {
      StepKeepsSealed(store, actions[0], digest, identity, sealed);
      SealedForGood(Step(store, actions[0], digest), actions[1..], digest, identity, sealed);
    }
  }

  /** From empty tables every run that can be seen is sealed, so that publishing it again is always recognised. */
  lemma {:induction false} EverythingIsSealed(actions: seq<Action>, store: Store, digest: Payload -> string)
    requires AllSealed(store, digest)
    ensures AllSealed(Execute(store, actions, digest), digest)
    decreases |actions|
  {
    hide Step, AllSealed;
    if actions != [] {
      AnyStepKeepsSealed(store, actions[0], digest);
      EverythingIsSealed(actions[1..], Step(store, actions[0], digest), digest);
    }
  }

  lemma {:induction false} AnyStepKeepsSealed(store: Store, a: Action, digest: Payload -> string)
    requires AllSealed(store, digest)
    ensures AllSealed(Step(store, a, digest), digest)
  {
    hide IsNamed, IsAllowed;
    match a
    case PublishAction(identity, payload, fails, rival) =>
      PublicationKeepsSealed(store, identity, payload, digest, fails, rival);
    case Advance(other, target) =>
      if other in store.runs {
        var sealed :| IsSealedAs(store, other, sealed, digest);
        AdvanceKeepsSealed(store, other, target, digest, other, sealed);
      }
  }

  predicate IsEnded(state: State) { state.Published? || state.FailedTerminal? }

  /** A run that is published or has failed for good keeps its state, whatever is published or delivered. */
  lemma {:induction false} EndedRunsStay(store: Store, actions: seq<Action>, digest: Payload -> string, identity: Identity)
    requires identity in store.runs && IsEnded(store.runs[identity].state)
    ensures identity in Execute(store, actions, digest).runs
    ensures Execute(store, actions, digest).runs[identity].state == store.runs[identity].state
    decreases |actions|
  {
    hide Verifies, IsNamed;
    if actions != [] { EndedRunsStay(Step(store, actions[0], digest), actions[1..], digest, identity); }
  }

  /** A run gets ahead only along its states, counts its changes, never loses its hash, and is not ready without one. */
  lemma {:induction false} TransitionMeans(run: Run, target: State, hash: Option<string>)
    requires Transition(run, target, hash).Some?
    ensures var next := Transition(run, target, hash).value;
      && next.identity == run.identity && next.state == target
      && next.version == run.version + (if target == run.state then 0 else 1)
      && (target.Ready? ==> next.manifestHash.Some? && next.manifestHash.value != "")
      && (hash.None? ==> next.manifestHash == run.manifestHash)
      && (target.Ready? ==> run.state.Sealing? || run.state.Ready?)
      && (target.Published? ==> run.state.Publishing? || run.state.Published?)
      && (target.Sealing? ==> run.state.Projecting? || run.state.FailedRetryable? || run.state.Sealing?)
  {
  }

  /** Where a run can come from when it enters a state that it is not in; it gets ready only with a hash. */
  lemma {:induction false} TransitionExactlyWhen(run: Run, target: State, hash: Option<string>)
    requires target != run.state
    ensures Transition(run, target, hash).Some? <==>
      && (target.FailedRetryable? ==> !IsEnded(run.state))
      && (target.FailedTerminal? ==> !IsEnded(run.state) && !run.state.Ready? && !run.state.Publishing?)
      && (target.Assembling? ==> run.state.FailedRetryable?)
      && (target.Projecting? ==> run.state.Assembling? || run.state.FailedRetryable?)
      && (target.Sealing? ==> run.state.Projecting? || run.state.FailedRetryable?)
      && (target.Publishing? ==> run.state.Ready? || run.state.FailedRetryable?)
      && (target.Published? ==> run.state.Publishing?)
      && (target.Ready? ==> run.state.Sealing? && exists h :: h != "" && (hash == Some(h) || run.manifestHash == Some(h)))
  {
    if target.Ready? && Transition(run, target, hash).Some? {
      var h := OrElse(hash, run.manifestHash).value;
      assert h != "" && (hash == Some(h) || run.manifestHash == Some(h));
    }
  }

  // ----- The repository without transactions -----

  /** Writers act at once, and a failure only takes the unfinished run back. */
  class InMemoryPublication {
    const digest: Payload -> string
    var store: Store

    constructor (digest: Payload -> string, store: Store)
      ensures this.digest == digest && this.store == store
    {
      this.digest, this.store := digest, store;
    }

    /** The runs are all or nothing here too, but rows that were written before the failure stay. */
    method PublishInMemory(identity: Identity, payload: Payload, fails: set<Point>) returns (result: Result)
      requires digest(payload) != "" && InManifestWriter !in fails
      modifies this
      ensures result.Returned? ==> identity in store.runs && store.runs[identity] == result.run && result.run.manifestHash == Some(digest(payload))
      ensures !result.Returned? ==> store.runs == old(store.runs)
      ensures IsNamed(identity) && identity !in old(store.runs) ==> (result.Returned? <==> fails == {})
      ensures IsNamed(identity) && identity !in old(store.runs) ==>
        store == Kept(old(store), identity, payload, fails).(runs := store.runs)
      ensures IsNamed(identity) && identity !in old(store.runs) && fails == {} ==>
        store.runs == old(store.runs)[identity := Run(identity, Ready, Some(digest(payload)), 4)]
      ensures IsNamed(identity) && identity in old(store.runs) ==> store == old(store)
      ensures IsNamed(identity) && identity in old(store.runs) ==>
        result == if store.runs[identity].manifestHash == Some(digest(payload)) then Returned(store.runs[identity]) else Conflicting
    {
      if !IsNamed(identity) { return Failing; }
      var hash := digest(payload);
      if identity in store.runs {
        return if store.runs[identity].manifestHash == Some(hash) then Returned(store.runs[identity]) else Conflicting;
      }
      var done := WriteInPlace(identity, payload, hash, fails);
      if !done {
        OnlyRunRemoved(old(store.runs), store.runs, identity);
        store := store.(runs := store.runs - {identity});
        return Failing;
      }
      OnlyRunAdded(old(store.runs), store.runs, identity);
      result := Returned(store.runs[identity]);
    }

    method WriteInPlace(identity: Identity, payload: Payload, hash: string, fails: set<Point>) returns (done: bool)
      requires hash != "" && InManifestWriter !in fails
      requires identity !in store.runs
      modifies this
      ensures done <==> fails == {}
      ensures OnlyRun(old(store.runs), store.runs, identity)
      ensures done ==> identity in store.runs && store.runs[identity] == Run(identity, Ready, Some(hash), 4)
      ensures store == Kept(old(store), identity, payload, fails).(runs := store.runs)
    {
      done := false;
      var sealing := StartInPlace(identity, payload, fails);
      if sealing { done := SealInPlace(identity, payload, hash, fails); }
    }

    method StartInPlace(identity: Identity, payload: Payload, fails: set<Point>) returns (sealing: bool)
      requires InManifestWriter !in fails
      requires identity !in store.runs
      modifies this
      ensures sealing <==> OnProjecting !in fails && InSnapshotWriter !in fails && AfterSnapshot !in fails && OnSealing !in fails
      ensures OnlyRun(old(store.runs), store.runs, identity)
      ensures sealing ==> identity in store.runs && store.runs[identity] == Run(identity, Sealing, None, 3)
      ensures store == old(store).(runs := store.runs, snapshots := Kept(old(store), identity, payload, fails).snapshots)
    {
      hide Transition;
      sealing := false;
      StepsOfRun(identity, "");
      if OnProjecting in fails { return; }
      SaveRun(Transition(NewRun(identity), Projecting, None).value);
      if InSnapshotWriter in fails { return; }
      store := store.(snapshots := store.snapshots[identity := payload.manifest]);
      if AfterSnapshot in fails || OnSealing in fails { return; }
      SaveRun(Transition(store.runs[identity], Sealing, None).value);
      sealing := true;
    }

    method SealInPlace(identity: Identity, payload: Payload, hash: string, fails: set<Point>) returns (done: bool)
      requires hash != "" && InManifestWriter !in fails
      requires OnProjecting !in fails && InSnapshotWriter !in fails && AfterSnapshot !in fails && OnSealing !in fails
      requires identity in store.runs && store.runs[identity] == Run(identity, Sealing, None, 3)
      modifies this
      ensures done <==> fails == {}
      ensures OnlyRun(old(store.runs), store.runs, identity)
      ensures done ==> identity in store.runs && store.runs[identity] == Run(identity, Ready, Some(hash), 4)
      ensures store == Kept(old(store), identity, payload, fails).(runs := store.runs, snapshots := old(store).snapshots)
    {
      hide Transition;
      done := false;
      StepsOfRun(identity, hash);
      if InSignalWriter in fails { return; }
      store := store.(signals := store.signals[identity := payload.signals]);
      if AfterSignals in fails || InOutboxWriter in fails { return; }
      store := store.(outbox := store.outbox[identity := payload.outbox]);
      if AfterOutbox in fails || OnReady in fails { return; }
      SaveRun(Transition(store.runs[identity], Ready, Some(hash)).value);
      NoPointFails(fails);
      done := true;
    }

    method SaveRun(run: Run)
      modifies this
      ensures store == old(store).(runs := old(store).runs[run.identity := run])
    {
      store := store.(runs := store.runs[run.identity := run]);
    }
  }

  ghost predicate OnlyRun(before: map<Identity, Run>, after: map<Identity, Run>, identity: Identity) {
    forall other :: other != identity ==>
      (other in after <==> other in before) && (other in after ==> after[other] == before[other])
  }

  lemma {:induction false} OnlyRunRemoved(before: map<Identity, Run>, after: map<Identity, Run>, identity: Identity)
    requires OnlyRun(before, after, identity) && identity !in before
    ensures after - {identity} == before
  {
  }

  lemma {:induction false} OnlyRunAdded(before: map<Identity, Run>, after: map<Identity, Run>, identity: Identity)
    requires OnlyRun(before, after, identity) && identity in after
    ensures after == before[identity := after[identity]]
  {
  }

  /** A fresh run goes through projecting and sealing to ready. */
  lemma {:induction false} StepsOfRun(identity: Identity, hash: string)
    ensures Transition(NewRun(identity), Projecting, None) == Some(Run(identity, Projecting, None, 2))
    ensures Transition(Run(identity, Projecting, None, 2), Sealing, None) == Some(Run(identity, Sealing, None, 3))
    ensures hash != "" ==> Transition(Run(identity, Sealing, None, 3), Ready, Some(hash)) == Some(Run(identity, Ready, Some(hash), 4))
  {
  }

  predicate WritesSnapshot(fails: set<Point>) { OnProjecting !in fails && InSnapshotWriter !in fails }

  predicate WritesSignals(fails: set<Point>) {
    WritesSnapshot(fails) && AfterSnapshot !in fails && OnSealing !in fails && InSignalWriter !in fails
  }

  predicate WritesOutbox(fails: set<Point>) { WritesSignals(fails) && AfterSignals !in fails && InOutboxWriter !in fails }

  /** The place of a point in a publication. */
  function Place(point: Point): nat {
    match point
    case OnProjecting => 0
    case InSnapshotWriter => 1
    case InManifestWriter => 2
    case AfterSnapshot => 3
    case OnSealing => 4
    case InSignalWriter => 5
    case AfterSignals => 6
    case InOutboxWriter => 7
    case AfterOutbox => 8
    case OnReady => 9
  }

  /** What stays in memory is what was written before the first point that fails, and nothing of any other publication. */
  lemma {:induction false} KeptIsWhatWasWritten(store: Store, identity: Identity, payload: Payload, fails: set<Point>, first: Point)
    requires first in fails && InManifestWriter !in fails && forall p :: p in fails ==> Place(first) <= Place(p)
    ensures var kept := Kept(store, identity, payload, fails);
      && SameElsewhere(store, kept, identity) && kept.runs == store.runs && kept.manifests == store.manifests
      && kept.snapshots == (if Place(first) > Place(InSnapshotWriter) then store.snapshots[identity := payload.manifest] else store.snapshots)
      && kept.signals == (if Place(first) > Place(InSignalWriter) then store.signals[identity := payload.signals] else store.signals)
      && kept.outbox == (if Place(first) > Place(InOutboxWriter) then store.outbox[identity := payload.outbox] else store.outbox)
  {
    hide SameElsewhere;
    KeptElsewhere(store, identity, payload, fails);
  }

  lemma {:induction false} KeptElsewhere(store: Store, identity: Identity, payload: Payload, fails: set<Point>)
    ensures SameElsewhere(store, Kept(store, identity, payload, fails), identity)
  {
    hide WritesSnapshot, WritesSignals, WritesOutbox;
  }

  /** The rows that a publication in memory leaves behind: those of every writer that it got past. */
  function Kept(store: Store, identity: Identity, payload: Payload, fails: set<Point>): Store {
    store.(snapshots := if WritesSnapshot(fails) then store.snapshots[identity := payload.manifest] else store.snapshots,
           signals := if WritesSignals(fails) then store.signals[identity := payload.signals] else store.signals,
           outbox := if WritesOutbox(fails) then store.outbox[identity := payload.outbox] else store.outbox)
  }
}
