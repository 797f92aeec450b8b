/**
 * Retention sweeps that delete bytes only behind a durable intent (application/retention_service.py,
 * domain/retention.py, adapters/retention/sql_retention.py).
 */
module Retention {
  import opened Options

  datatype ArtifactClass = RawMedia | Subtitle | Transcript | Knowledge

  /** The facts that the tombstone id is computed from. */
  datatype Key = Key(artifactId: string, artifactClass: ArtifactClass, contentHash: string, lineage: string)

  datatype Candidate = Candidate(key: Key, sourceHash: string, createdAt: nat, legalHold: bool)

  datatype Tombstone = Tombstone(key: Key, sourceHash: string, expiredAt: nat)

  datatype ExecutionState = DeletePending | Deleted | DeleteFailed

  datatype Execution = Execution(tombstone: Tombstone, state: ExecutionState, attempts: nat)

  /** A call of the byte adapter for an artifact, under the tombstone id as its key. */
  datatype Call = Call(artifactId: string, id: string, at: nat)

  /** The durable executions by tombstone id, and the calls that the byte adapter has received. */
  datatype World = World(rows: map<string, Execution>, calls: seq<Call>)

  /** What becomes of one sweep of a candidate: the adapter succeeds or fails, or the process crashes on the way. */
  datatype Fate = Succeeds | AdapterFails | CrashesAfterTombstone | CrashesAfterPrepare | CrashesAfterDelete | FailsAndCrashes

  datatype Action = LegalHold | Keep | Planned | Recorded | Removed | Unremoved | Refused | Crashed

  const SECONDS_PER_DAY := 86400

  /** Days per class, each between 1 and 36500. */
  datatype Policy = Policy(rawMedia: nat, subtitle: nat, transcript: nat, knowledge: nat) {
    predicate Valid() {
      1 <= rawMedia <= 36500 && 1 <= subtitle <= 36500 && 1 <= transcript <= 36500 && 1 <= knowledge <= 36500
    }

    function Days(c: ArtifactClass): nat {
      match c
      case RawMedia => rawMedia
      case Subtitle => subtitle
      case Transcript => transcript
      case Knowledge => knowledge
    }

    function ExpiresAt(candidate: Candidate): nat { candidate.createdAt + Days(candidate.key.artifactClass) * SECONDS_PER_DAY }
  }

  function ClassName(c: ArtifactClass): string {
    match c
    case RawMedia => "raw_media"
    case Subtitle => "subtitle"
    case Transcript => "transcript"
    case Knowledge => "knowledge"
  }

  /** The text whose hash is the tombstone id; the hash is taken to be injective. */
  function TombstoneId(key: Key): string {
    key.artifactId + ("|" + (ClassName(key.artifactClass) + ("|" + (key.contentHash + ("|" + key.lineage)))))
  }

  function TombstoneFor(policy: Policy, candidate: Candidate): Tombstone {
    Tombstone(candidate.key, candidate.sourceHash, policy.ExpiresAt(candidate))
  }

  /** The candidate may be deleted: not held, and its class has expired. */
  predicate MayDelete(policy: Policy, candidate: Candidate, now: nat) {
    !candidate.legalHold && now >= policy.ExpiresAt(candidate)
  }

  /** Some tombstone already binds the artifact. */
  predicate IsBound(rows: map<string, Execution>, artifactId: string) {
    exists id :: id in rows && rows[id].tombstone.key.artifactId == artifactId
  }

  /** `prepare_execution`: the existing row, or a new pending one; nothing when the artifact is bound under another id. */
  function Prepared(rows: map<string, Execution>, tombstone: Tombstone): Option<map<string, Execution>> {
    if TombstoneId(tombstone.key) in rows then Some(rows)
    else if IsBound(rows, tombstone.key.artifactId) then None
    else Some(rows[TombstoneId(tombstone.key) := Execution(tombstone, DeletePending, 0)])
  }

  function Marked(rows: map<string, Execution>, id: string, state: ExecutionState): map<string, Execution>
    requires id in rows
  {
    if rows[id].state.Deleted? then rows else rows[id := rows[id].(state := state, attempts := rows[id].attempts + 1)]
  }

  /** One sweep of one candidate. */
  function Sweep(policy: Policy, w: World, candidate: Candidate, now: nat, dryRun: bool, fate: Fate): (World, Action) {
    if candidate.legalHold then (w, LegalHold)
    else if now < policy.ExpiresAt(candidate) then (w, Keep)
    else if dryRun then (w, Planned)
    else
      match Prepared(w.rows, TombstoneFor(policy, candidate))
      case None => (w, Refused)
      case Some(rows) =>
        var id := TombstoneId(candidate.key);
        var prepared := w.(rows := rows);
        var called := prepared.(calls := w.calls + [Call(candidate.key.artifactId, id, now)]);
        if fate.CrashesAfterTombstone? then (prepared, Crashed)
        else if rows[id].state.Deleted? then (prepared, Removed)
        else if fate.CrashesAfterPrepare? then (prepared, Crashed)
        else if fate.CrashesAfterDelete? || fate.FailsAndCrashes? then (called, Crashed)
        else if fate.AdapterFails? then (called.(rows := Marked(rows, id, DeleteFailed)), Unremoved)
        else (called.(rows := Marked(rows, id, Deleted)), Removed)
  }

  class RetentionService {
    const policy: Policy
    var rows: map<string, Execution>
    /** The calls that the byte adapter has received. */
    ghost var calls: seq<Call>

    constructor (policy: Policy)
      requires policy.Valid()
      ensures this.policy == policy && rows == map[] && calls == []
    {
      this.policy, rows, calls := policy, map[], [];
    }

    ghost function State(): World
      reads this
    {
      World(rows, calls)
    }

    /** `plan`; without a dry run it records the tombstone. */
    method Plan(candidate: Candidate, now: nat, dryRun: bool) returns (action: Action)
      modifies this`rows
      ensures action.LegalHold? <==> candidate.legalHold
      ensures action.Keep? <==> !candidate.legalHold && now < policy.ExpiresAt(candidate)
      ensures action.Planned? <==> MayDelete(policy, candidate, now) && dryRun
      ensures action.Recorded? || action.Refused? <==> MayDelete(policy, candidate, now) && !dryRun
      ensures action.Recorded? ==> Prepared(old(rows), TombstoneFor(policy, candidate)) == Some(rows)
      ensures action.Refused? ==> Prepared(old(rows), TombstoneFor(policy, candidate)) == None
      ensures !action.Recorded? ==> rows == old(rows)
    {
      if candidate.legalHold { return LegalHold; }
      if now < policy.ExpiresAt(candidate) { return Keep; }
      if dryRun { return Planned; }
      if TombstoneId(candidate.key) in rows { return Recorded; }
      var prepared := PrepareExecution(TombstoneFor(policy, candidate));
      return if prepared then Recorded else Refused;
    }

    method PrepareExecution(tombstone: Tombstone) returns (ok: bool)
      modifies this`rows
      ensures (if ok then Some(rows) else None) == Prepared(old(rows), tombstone)
      ensures !ok ==> rows == old(rows)
    {
      if TombstoneId(tombstone.key) !in rows {
        if IsBound(rows, tombstone.key.artifactId) { return false; }
        rows := rows[TombstoneId(tombstone.key) := Execution(tombstone, DeletePending, 0)];
      }
      ok := true;
    }

    method Execute(candidate: Candidate, now: nat, dryRun: bool, fate: Fate) returns (action: Action)
      modifies this
      ensures (State(), action) == Sweep(policy, old(State()), candidate, now, dryRun, fate)
    {
      hide TombstoneId;
      action := Plan(candidate, now, dryRun);
      if !action.Recorded? { return; }
      if fate.CrashesAfterTombstone? { return Crashed; }
      var _ := PrepareExecution(TombstoneFor(policy, candidate));
      var id := TombstoneId(candidate.key);
      if rows[id].state.Deleted? { return Removed; }
      if fate.CrashesAfterPrepare? { return Crashed; }
      calls := calls + [Call(candidate.key.artifactId, id, now)];
      if fate.CrashesAfterDelete? || fate.FailsAndCrashes? { return Crashed; }
      if fate.AdapterFails? {
        rows := Marked(rows, id, DeleteFailed);
        return Unremoved;
      }
      rows := Marked(rows, id, Deleted);
      action := Removed;
    }
  }

  // ----- One sweep -----

  /** A call needs an expired candidate without a hold, outside a dry run, and a pending intent in the durable rows. */
  lemma {:induction false} CallIsJustified(policy: Policy, w: World, candidate: Candidate, now: nat, dryRun: bool, fate: Fate)
    ensures var (after, action) := Sweep(policy, w, candidate, now, dryRun, fate);
      var id := TombstoneId(candidate.key);
      && (after.calls == w.calls || after.calls == w.calls + [Call(candidate.key.artifactId, id, now)])
      && (after.calls != w.calls ==>
            && MayDelete(policy, candidate, now) && !dryRun
            && id in after.rows && Prepared(w.rows, TombstoneFor(policy, candidate)).Some?
            && (id in w.rows ==> !w.rows[id].state.Deleted?))
      && (dryRun ==> after == w)
  {
    hide TombstoneId;
  }

  /** A sweep reports removal exactly when it leaves the tombstone marked as deleted, unless it crashed or refused. */
  lemma {:induction false} RemovedExactlyWhenMarked(policy: Policy, w: World, candidate: Candidate, now: nat, fate: Fate)
    ensures var (after, action) := Sweep(policy, w, candidate, now, false, fate);
      var id := TombstoneId(candidate.key);
      && (action.Removed? ==> id in after.rows && after.rows[id].state.Deleted?)
      && (MayDelete(policy, candidate, now) && !action.Refused? && !action.Crashed? ==>
            id in after.rows && (action.Removed? <==> after.rows[id].state.Deleted?))
  {
    hide TombstoneId;
  }

  /**
   * Whatever has been planned before, the adapter is called only once the days of the candidate's class have passed since
   * its creation, and a candidate without a hold may be deleted from then on for good.
   */
  lemma {:induction false} DeletedOnlyAfterItsDays(policy: Policy, w: World, candidate: Candidate, now: nat, dryRun: bool, fate: Fate)
    ensures var days := match candidate.key.artifactClass
                        case RawMedia => policy.rawMedia
                        case Subtitle => policy.subtitle
                        case Transcript => policy.transcript
                        case Knowledge => policy.knowledge;
      && (Sweep(policy, w, candidate, now, dryRun, fate).0.calls != w.calls ==> now >= candidate.createdAt + days * 86400)
      && (Sweep(policy, w, candidate, now, dryRun, fate).1.Keep? <==> !candidate.legalHold && now < candidate.createdAt + days * 86400)
      && (!candidate.legalHold ==>
            forall later: nat :: MayDelete(policy, candidate, later) <==> later >= candidate.createdAt + days * 86400)
      && policy.ExpiresAt(candidate) == candidate.createdAt + days * 86400
  {
    hide TombstoneId, Prepared, Marked;
  }

  /** The artifact is not bound, or bound under the id of these facts. */
  ghost predicate MayBind(rows: map<string, Execution>, key: Key) {
    TombstoneId(key) in rows || forall id :: id in rows ==> rows[id].tombstone.key.artifactId != key.artifactId
  }

  /**
   * A sweep that may delete and bind leaves its intent; if that is not deleted yet, the adapter is called unless the process
   * crashes before, and a success is recorded as deleted, a failure as failed, with one more attempt.
   */
  lemma {:induction false} SweepRecordsExactly(policy: Policy, w: World, candidate: Candidate, now: nat, fate: Fate)
    requires MayDelete(policy, candidate, now)
    ensures var (after, action) := Sweep(policy, w, candidate, now, false, fate);
      var id := TombstoneId(candidate.key);
      if !MayBind(w.rows, candidate.key) then after == w && action.Refused?
      else
        && id in after.rows
        && (id in w.rows ==> after.rows[id].tombstone == w.rows[id].tombstone)
        && (id !in w.rows ==>
              && after.rows[id].tombstone.key == candidate.key && after.rows[id].tombstone.sourceHash == candidate.sourceHash
              && after.rows[id].tombstone.expiredAt == policy.ExpiresAt(candidate))
        && (forall other :: other != id ==> (other in after.rows <==> other in w.rows))
        && (forall other :: other != id && other in w.rows ==> after.rows[other] == w.rows[other])
        && var attempts := if id in w.rows then w.rows[id].attempts else 0;
           if (id in w.rows && w.rows[id].state.Deleted?) || fate.CrashesAfterTombstone? || fate.CrashesAfterPrepare?
           then after.calls == w.calls && after.rows[id].attempts == attempts
                && (id in w.rows ==> after.rows == w.rows) && (id !in w.rows ==> after.rows[id].state.DeletePending?)
           else
             && after.calls == w.calls + [Call(candidate.key.artifactId, id, now)]
             && (fate.Succeeds? ==> action.Removed? && after.rows[id].state.Deleted? && after.rows[id].attempts == attempts + 1)
             && (fate.AdapterFails? ==> action.Unremoved? && after.rows[id].state.DeleteFailed? && after.rows[id].attempts == attempts + 1)
             && (fate.CrashesAfterDelete? || fate.FailsAndCrashes? ==> action.Crashed? && after.rows[id].attempts == attempts)
  {
    hide TombstoneId;
    assert MayBind(w.rows, candidate.key) <==> Prepared(w.rows, TombstoneFor(policy, candidate)).Some?;
  }

  // ----- Any sequence of sweeps -----

  datatype Attempt = Attempt(candidate: Candidate, now: nat, dryRun: bool, fate: Fate)

  function Sweeps(policy: Policy, w: World, attempts: seq<Attempt>): World
    decreases |attempts|
  {
    if attempts == [] then w
    else
      var a := attempts[0];
      Sweeps(policy, Sweep(policy, w, a.candidate, a.now, a.dryRun, a.fate).0, attempts[1..])
  }

  function CallsFor(calls: seq<Call>, id: string): nat {
    if calls == [] then 0
    else CallsFor(calls[..|calls| - 1], id) + if calls[|calls| - 1].id == id then 1 else 0
  }

  lemma {:induction false} CallsForNext(calls: seq<Call>, call: Call, id: string)
    ensures CallsFor(calls + [call], id) == CallsFor(calls, id) + if call.id == id then 1 else 0
  {
    assert (calls + [call])[..|calls|] == calls;
  }

  ghost predicate OnePerArtifact(rows: map<string, Execution>) {
    forall id, other :: id in rows && other in rows && rows[id].tombstone.key.artifactId == rows[other].tombstone.key.artifactId ==>
      id == other
  }

  /** A row has the id of its tombstone, an artifact has one tombstone, and a row never has more attempts than calls. */
  ghost predicate Sound(w: World) {
    && (forall id :: id in w.rows ==> TombstoneId(w.rows[id].tombstone.key) == id && w.rows[id].attempts <= CallsFor(w.calls, id))
    && OnePerArtifact(w.rows)
    && (forall id :: CallsFor(w.calls, id) > 0 ==> id in w.rows)
    && (forall id :: id in w.rows && w.rows[id].state.Deleted? ==> w.rows[id].attempts > 0)
  }

  lemma {:induction false} PrepareKeepsSound(w: World, tombstone: Tombstone)
    requires Sound(w)
    ensures Prepared(w.rows, tombstone).Some? ==>
      Sound(w.(rows := Prepared(w.rows, tombstone).value)) && TombstoneId(tombstone.key) in Prepared(w.rows, tombstone).value
  {
    hide CallsFor, TombstoneId;
  }

  lemma {:induction false} CallKeepsSound(w: World, call: Call)
    requires Sound(w) && call.id in w.rows
    ensures var after := w.(calls := w.calls + [call]);
      Sound(after) && after.rows[call.id].attempts < CallsFor(after.calls, call.id)
  {
    hide CallsFor, TombstoneId;
    forall other ensures CallsFor(w.calls + [call], other) == CallsFor(w.calls, other) + if call.id == other then 1 else 0 {
      CallsForNext(w.calls, call, other);
    }
  }

  lemma {:induction false} MarkKeepsSound(w: World, id: string, state: ExecutionState)
    requires Sound(w) && id in w.rows && w.rows[id].attempts < CallsFor(w.calls, id)
    ensures Sound(w.(rows := Marked(w.rows, id, state)))
  {
    hide CallsFor, TombstoneId, OnePerArtifact;
    var rows := Marked(w.rows, id, state);
    assert forall other :: other in w.rows <==> other in rows;
    assert forall other :: other in w.rows ==> rows[other].tombstone == w.rows[other].tombstone;
    SameTombstones(w.rows, rows);
  }

  lemma {:induction false} SameTombstones(before: map<string, Execution>, after: map<string, Execution>)
    requires OnePerArtifact(before)
    requires forall id :: id in before <==> id in after
    requires forall id :: id in before ==> after[id].tombstone == before[id].tombstone
    ensures OnePerArtifact(after)
  {
  }

  lemma {:induction false} SweepKeepsSound(policy: Policy, w: World, candidate: Candidate, now: nat, dryRun: bool, fate: Fate)
    requires Sound(w)
    ensures Sound(Sweep(policy, w, candidate, now, dryRun, fate).0)
  {
    hide Sound, Prepared, Marked, CallsFor, TombstoneId;
    var tombstone, id := TombstoneFor(policy, candidate), TombstoneId(candidate.key);
    PrepareKeepsSound(w, tombstone);
    if Prepared(w.rows, tombstone).Some? {
      var prepared := w.(rows := Prepared(w.rows, tombstone).value);
      var call := Call(candidate.key.artifactId, id, now);
      CallKeepsSound(prepared, call);
      var called := prepared.(calls := w.calls + [call]);
      MarkKeepsSound(called, id, DeleteFailed);
      MarkKeepsSound(called, id, Deleted);
    }
  }

  lemma {:induction false} SweepsKeepSound(policy: Policy, w: World, attempts: seq<Attempt>)
    requires Sound(w)
    ensures Sound(Sweeps(policy, w, attempts))
    decreases |attempts|
  {
    hide Sound, Sweep;
    if attempts != [] {
      var a := attempts[0];
      SweepKeepsSound(policy, w, a.candidate, a.now, a.dryRun, a.fate);
      SweepsKeepSound(policy, Sweep(policy, w, a.candidate, a.now, a.dryRun, a.fate).0, attempts[1..]);
    }
  }

  /** Once a tombstone is marked as deleted, its row stays as it is and the byte adapter is never called for it again. */
  lemma {:induction false} DeletedIsFinal(policy: Policy, w: World, attempts: seq<Attempt>, id: string)
    requires id in w.rows && w.rows[id].state.Deleted?
    ensures var end := Sweeps(policy, w, attempts);
      id in end.rows && end.rows[id] == w.rows[id] && CallsFor(end.calls, id) == CallsFor(w.calls, id)
    decreases |attempts|
  {
    hide CallsFor, TombstoneId;
    if attempts != [] {
      var a := attempts[0];
      CallsForNext(w.calls, Call(a.candidate.key.artifactId, TombstoneId(a.candidate.key), a.now), id);
      DeletedIsFinal(policy, Sweep(policy, w, a.candidate, a.now, a.dryRun, a.fate).0, attempts[1..], id);
    }
  }

  /** The tombstone of a recorded intent never changes. */
  lemma {:induction false} TombstonesStay(policy: Policy, w: World, attempts: seq<Attempt>, id: string)
    requires id in w.rows
    ensures id in Sweeps(policy, w, attempts).rows && Sweeps(policy, w, attempts).rows[id].tombstone == w.rows[id].tombstone
    decreases |attempts|
  {
    hide TombstoneId;
    if attempts != [] {
      var a := attempts[0];
      TombstonesStay(policy, Sweep(policy, w, a.candidate, a.now, a.dryRun, a.fate).0, attempts[1..], id);
    }
  }

  function CallsOf(calls: seq<Call>, artifactId: string): nat {
    if calls == [] then 0
    else CallsOf(calls[..|calls| - 1], artifactId) + if calls[|calls| - 1].artifactId == artifactId then 1 else 0
  }

  lemma {:induction false} CallsOfNext(calls: seq<Call>, call: Call, artifactId: string)
    ensures CallsOf(calls + [call], artifactId) == CallsOf(calls, artifactId) + if call.artifactId == artifactId then 1 else 0
  {
    assert (calls + [call])[..|calls|] == calls;
  }

  /** The attempt is one that binds the artifact: it is no dry run and may delete a candidate of it. */
  predicate Binds(policy: Policy, a: Attempt, artifactId: string) {
    a.candidate.key.artifactId == artifactId && !a.dryRun && MayDelete(policy, a.candidate, a.now)
  }

  /** An artifact whose candidates are held, unexpired or in dry runs never reaches the byte adapter, whatever happens to the others. */
  lemma {:induction false} HeldNeverDeleted(policy: Policy, w: World, attempts: seq<Attempt>, artifactId: string)
    requires forall k :: 0 <= k < |attempts| ==> !Binds(policy, attempts[k], artifactId)
    ensures CallsOf(Sweeps(policy, w, attempts).calls, artifactId) == CallsOf(w.calls, artifactId)
    decreases |attempts|
  {
    hide CallsOf, TombstoneId;
    if attempts != [] {
      var a := attempts[0];
      assert !Binds(policy, a, artifactId);
      CallsOfNext(w.calls, Call(a.candidate.key.artifactId, TombstoneId(a.candidate.key), a.now), artifactId);
      HeldNeverDeleted(policy, Sweep(policy, w, a.candidate, a.now, a.dryRun, a.fate).0, attempts[1..], artifactId);
    }
  }

  /** The attempt may delete a candidate with this tombstone id. */
  predicate MayCall(policy: Policy, a: Attempt, id: string) {
    TombstoneId(a.candidate.key) == id && !a.dryRun && MayDelete(policy, a.candidate, a.now)
  }

  /** Nor is the adapter ever called under the id of candidates that are held, unexpired or in dry runs. */
  lemma {:induction false} HeldIdNeverCalled(policy: Policy, w: World, attempts: seq<Attempt>, id: string)
    requires forall k :: 0 <= k < |attempts| ==> !MayCall(policy, attempts[k], id)
    ensures CallsFor(Sweeps(policy, w, attempts).calls, id) == CallsFor(w.calls, id)
    decreases |attempts|
  {
    hide CallsFor, TombstoneId;
    if attempts != [] {
      var a := attempts[0];
      assert !MayCall(policy, a, id);
      CallsForNext(w.calls, Call(a.candidate.key.artifactId, TombstoneId(a.candidate.key), a.now), id);
      HeldIdNeverCalled(policy, Sweep(policy, w, a.candidate, a.now, a.dryRun, a.fate).0, attempts[1..], id);
    }
  }

  // ----- Tombstone ids -----

  /** The facts that could be confused with the separators of the id are free of them; the lineage comes last. */
  predicate IsSeparated(key: Key) { '|' !in key.artifactId && '|' !in key.contentHash }

  lemma {:induction false} SplitsOnce(x: string, y: string, restX: string, restY: string)
    requires '|' !in x && '|' !in y && x + ("|" + restX) == y + ("|" + restY)
    ensures x == y && restX == restY
  {
    var joined := x + ("|" + restX);
    assert joined[|x|] == '|' && joined[|y|] == '|';
    assert forall k :: 0 <= k < |x| ==> x[k] == joined[k] != '|';
    assert forall k :: 0 <= k < |y| ==> joined[k] != '|' by {
      assert forall k :: 0 <= k < |y| ==> y[k] == joined[k] != '|';
    }
    assert x == joined[..|x|] && y == joined[..|y|];
    assert ("|" + restX)[1..] == restX && ("|" + restY)[1..] == restY;
    assert "|" + restX == joined[|x|..] && "|" + restY == joined[|y|..];
  }

  /** Separated facts are determined by their id. */
  lemma {:induction false} IdsDiffer(a: Key, b: Key)
    requires IsSeparated(a) && IsSeparated(b)
    ensures TombstoneId(a) == TombstoneId(b) <==> a == b
  {
    if TombstoneId(a) == TombstoneId(b) {
      var hashA, hashB := a.contentHash + ("|" + a.lineage), b.contentHash + ("|" + b.lineage);
      SplitsOnce(a.artifactId, b.artifactId, ClassName(a.artifactClass) + ("|" + hashA), ClassName(b.artifactClass) + ("|" + hashB));
      SplitsOnce(ClassName(a.artifactClass), ClassName(b.artifactClass), hashA, hashB);
      SplitsOnce(a.contentHash, b.contentHash, a.lineage, b.lineage);
    }
  }

  /** The fields that end up between two separators of the same class can be read as part of the id or of the hash. */
  lemma {:induction false} SharedId(a: string, b: string, c: string, d: string, kind: ArtifactClass)
    ensures var bar := "|" + (ClassName(kind) + "|");
      TombstoneId(Key(a, kind, b + (bar + c), d)) == TombstoneId(Key(a + (bar + b), kind, c, d))
  {
    hide ClassName;
    var name := ClassName(kind);
    var bar := "|" + (name + "|");
    var end := "|" + d;
    assert TombstoneId(Key(a, kind, b + (bar + c), d)) == a + bar + b + bar + c + end;
    assert TombstoneId(Key(a + (bar + b), kind, c, d)) == a + bar + b + bar + c + end;
  }

  /**
   * Two artifacts swept one after the other are both reported as removed; the byte adapter is called for the second
   * exactly when their ids differ. `SharedId` gives facts for which they do not.
   */
  lemma {:induction false} SecondIsCalledUnlessIdsMeet(policy: Policy, first: Candidate, second: Candidate, now: nat)
    requires MayDelete(policy, first, now) && MayDelete(policy, second, now) && first.key.artifactId != second.key.artifactId
    ensures var w := Sweeps(policy, World(map[], []), [Attempt(first, now, false, Succeeds)]);
      var (after, action) := Sweep(policy, w, second, now, false, Succeeds);
      && w.calls == [Call(first.key.artifactId, TombstoneId(first.key), now)] && action.Removed?
      && (CallsOf(after.calls, second.key.artifactId) > 0 <==> TombstoneId(first.key) != TombstoneId(second.key))
  {
    hide TombstoneId, Sweep, Sweeps, CallsOf;
    var w := FirstRemoval(policy, first, now);
    OneSweep(policy, World(map[], []), Attempt(first, now, false, Succeeds));
    CallsOfNext([], w.calls[0], second.key.artifactId);
    assert [] + [w.calls[0]] == w.calls;
    if TombstoneId(first.key) == TombstoneId(second.key) {
      RemovedAlready(policy, w, second, now);
      assert CallsOf([], second.key.artifactId) == 0 by { NoCalls(second.key.artifactId); }
    } else {
      var after := SecondRemoval(policy, w, first.key, second, now);
      CallsOfNext(w.calls, after.calls[1], second.key.artifactId);
    }
  }

  lemma {:induction false} NoCalls(artifactId: string)
    ensures CallsOf([], artifactId) == 0
  {
  }

  lemma {:induction false} SecondRemoval(policy: Policy, w: World, first: Key, second: Candidate, now: nat) returns (after: World)
    requires MayDelete(policy, second, now) && first.artifactId != second.key.artifactId && TombstoneId(first) != TombstoneId(second.key)
    requires w.rows.Keys == {TombstoneId(first)} && w.rows[TombstoneId(first)].tombstone.key == first
    ensures Sweep(policy, w, second, now, false, Succeeds) == (after, Removed)
    ensures after.calls == w.calls + [Call(second.key.artifactId, TombstoneId(second.key), now)]
  {
    hide TombstoneId;
    after := Sweep(policy, w, second, now, false, Succeeds).0;
    assert !IsBound(w.rows, second.key.artifactId);
  }

  lemma {:induction false} OneSweep(policy: Policy, w: World, a: Attempt)
    ensures Sweeps(policy, w, [a]) == Sweep(policy, w, a.candidate, a.now, a.dryRun, a.fate).0
  {
    hide Sweep;
    var after := Sweep(policy, w, a.candidate, a.now, a.dryRun, a.fate).0;
    assert [a][1..] == [] && Sweeps(policy, after, []) == after;
  }

  lemma {:induction false} FirstRemoval(policy: Policy, candidate: Candidate, now: nat) returns (w: World)
    requires MayDelete(policy, candidate, now)
    ensures w == Sweep(policy, World(map[], []), candidate, now, false, Succeeds).0
    ensures var id := TombstoneId(candidate.key);
      && w.rows.Keys == {id} && w.rows[id].tombstone.key == candidate.key && w.rows[id].state.Deleted?
      && w.calls == [Call(candidate.key.artifactId, id, now)]
  {
    hide TombstoneId;
    w := Sweep(policy, World(map[], []), candidate, now, false, Succeeds).0;
  }

  lemma {:induction false} RemovedAlready(policy: Policy, w: World, candidate: Candidate, now: nat)
    requires MayDelete(policy, candidate, now)
    requires TombstoneId(candidate.key) in w.rows && w.rows[TombstoneId(candidate.key)].state.Deleted?
    ensures Sweep(policy, w, candidate, now, false, Succeeds) == (w, Removed)
  {
    hide TombstoneId;
  }

  /** Ids, rows and calls speak of separated facts only. */
  ghost predicate Clear(w: World) {
    && (forall id :: id in w.rows ==> IsSeparated(w.rows[id].tombstone.key) && TombstoneId(w.rows[id].tombstone.key) == id)
    && (forall k :: 0 <= k < |w.calls| ==>
          w.calls[k].id in w.rows && w.rows[w.calls[k].id].tombstone.key.artifactId == w.calls[k].artifactId)
  }

  ghost predicate AllSeparated(attempts: seq<Attempt>) { forall k :: 0 <= k < |attempts| ==> IsSeparated(attempts[k].candidate.key) }

  lemma {:induction false} PrepareKeepsClear(w: World, tombstone: Tombstone)
    requires Clear(w) && IsSeparated(tombstone.key)
    ensures Prepared(w.rows, tombstone).Some? ==>
      Clear(w.(rows := Prepared(w.rows, tombstone).value)) && TombstoneId(tombstone.key) in Prepared(w.rows, tombstone).value
  {
    hide TombstoneId, IsBound;
  }

  lemma {:induction false} CallKeepsClear(w: World, key: Key, now: nat)
    requires Clear(w) && IsSeparated(key) && TombstoneId(key) in w.rows
    ensures Clear(w.(calls := w.calls + [Call(key.artifactId, TombstoneId(key), now)]))
  {
    hide TombstoneId, IsSeparated;
    IdsDiffer(key, w.rows[TombstoneId(key)].tombstone.key);
  }

  lemma {:induction false} MarkKeepsClear(w: World, id: string, state: ExecutionState)
    requires Clear(w) && id in w.rows
    ensures Clear(w.(rows := Marked(w.rows, id, state)))
  {
    hide TombstoneId, IsSeparated;
  }

  lemma {:induction false} SweepKeepsClear(policy: Policy, w: World, a: Attempt)
    requires Clear(w) && IsSeparated(a.candidate.key)
    ensures Clear(Sweep(policy, w, a.candidate, a.now, a.dryRun, a.fate).0)
  {
    hide Clear, Prepared, Marked, TombstoneId, IsSeparated;
    var tombstone, id := TombstoneFor(policy, a.candidate), TombstoneId(a.candidate.key);
    PrepareKeepsClear(w, tombstone);
    if Prepared(w.rows, tombstone).Some? {
      var prepared := w.(rows := Prepared(w.rows, tombstone).value);
      CallKeepsClear(prepared, a.candidate.key, a.now);
      var called := prepared.(calls := w.calls + [Call(a.candidate.key.artifactId, id, a.now)]);
      MarkKeepsClear(called, id, DeleteFailed);
      MarkKeepsClear(called, id, Deleted);
    }
  }

  lemma {:induction false} SweepsKeepClear(policy: Policy, w: World, attempts: seq<Attempt>)
    requires Clear(w) && AllSeparated(attempts)
    ensures Clear(Sweeps(policy, w, attempts))
    decreases |attempts|
  {
    hide Clear, Sweep, IsSeparated;
    if attempts != [] {
      var a := attempts[0];
      SweepKeepsClear(policy, w, a);
      SweepsKeepClear(policy, Sweep(policy, w, a.candidate, a.now, a.dryRun, a.fate).0, attempts[1..]);
    }
  }

  lemma {:induction false} CalledAt(calls: seq<Call>, id: string) returns (k: nat)
    requires CallsFor(calls, id) > 0
    ensures k < |calls| && calls[k].id == id
  {
    if calls[|calls| - 1].id == id {
      k := |calls| - 1;
    } else {
      k := CalledAt(calls[..|calls| - 1], id);
    }
  }

  /** With separated facts, a removal is reported only after the byte adapter was called for that artifact. */
  lemma {:induction false} RemovedMeansCalled(policy: Policy, attempts: seq<Attempt>, last: Attempt)
    requires AllSeparated(attempts) && IsSeparated(last.candidate.key)
    ensures var (after, action) := Sweep(policy, Sweeps(policy, World(map[], []), attempts), last.candidate, last.now, last.dryRun, last.fate);
      action.Removed? ==>
        exists k :: 0 <= k < |after.calls| && after.calls[k].artifactId == last.candidate.key.artifactId
                    && after.calls[k].id == TombstoneId(last.candidate.key)
  {
    hide Sweeps, TombstoneId, Sweep, CallsFor;
    var empty := World(map[], []);
    assert Sound(empty) && Clear(empty) by { EmptyIsSound(); }
    var w := Sweeps(policy, empty, attempts);
    SweepsKeepSound(policy, empty, attempts);
    SweepsKeepClear(policy, empty, attempts);
    var (after, action) := Sweep(policy, w, last.candidate, last.now, last.dryRun, last.fate);
    SweepKeepsSound(policy, w, last.candidate, last.now, last.dryRun, last.fate);
    SweepKeepsClear(policy, w, last);
    if action.Removed? {
      RemovedIsMarked(policy, w, last);
      var id := TombstoneId(last.candidate.key);
      var k := CalledAt(after.calls, id);
      IdsDiffer(last.candidate.key, after.rows[id].tombstone.key);
    }
  }

  lemma {:induction false} RemovedIsMarked(policy: Policy, w: World, a: Attempt)
    requires Sweep(policy, w, a.candidate, a.now, a.dryRun, a.fate).1.Removed?
    ensures var after, id := Sweep(policy, w, a.candidate, a.now, a.dryRun, a.fate).0, TombstoneId(a.candidate.key);
      id in after.rows && after.rows[id].state.Deleted?
  {
    hide TombstoneId;
  }

  lemma {:induction false} EmptyIsSound()
    ensures Sound(World(map[], [])) && Clear(World(map[], []))
  {
    forall id ensures CallsFor([], id) == 0 {}
  }

  // ----- Which tombstone an artifact gets -----

  /** The facts of the first attempt that binds the artifact. */
  function FirstBinding(policy: Policy, attempts: seq<Attempt>, artifactId: string): Option<Key>
    decreases |attempts|
  {
    if attempts == [] then None
    else if Binds(policy, attempts[0], artifactId) then Some(attempts[0].candidate.key)
    else FirstBinding(policy, attempts[1..], artifactId)
  }

  /** The artifact is bound by a tombstone of these facts. */
  predicate IsBoundTo(rows: map<string, Execution>, key: Key) {
    TombstoneId(key) in rows && rows[TombstoneId(key)].tombstone.key == key
  }

  lemma {:induction false} SweepBinds(policy: Policy, w: World, a: Attempt, key: Key)
    requires Clear(w) && IsSeparated(a.candidate.key) && IsSeparated(key)
    ensures var rows := Sweep(policy, w, a.candidate, a.now, a.dryRun, a.fate).0.rows;
      && (IsBound(rows, key.artifactId) <==> IsBound(w.rows, key.artifactId) || Binds(policy, a, key.artifactId))
      && (IsBoundTo(rows, key) <==>
            IsBoundTo(w.rows, key) || (!IsBound(w.rows, key.artifactId) && Binds(policy, a, key.artifactId) && a.candidate.key == key))
  {
    hide TombstoneId;
    IdsDiffer(a.candidate.key, key);
    var id := TombstoneId(a.candidate.key);
    if id in w.rows { IdsDiffer(a.candidate.key, w.rows[id].tombstone.key); }
    var after := Sweep(policy, w, a.candidate, a.now, a.dryRun, a.fate).0.rows;
    KeysAfterSweep(policy, w, a);
    if IsBound(w.rows, key.artifactId) {
      var other :| other in w.rows && w.rows[other].tombstone.key.artifactId == key.artifactId;
      assert other in after && after[other].tombstone == w.rows[other].tombstone;
    }
  }

  /** A sweep keeps every tombstone, and adds its own exactly when it is the first to bind its artifact. */
  lemma {:induction false} KeysAfterSweep(policy: Policy, w: World, a: Attempt)
    ensures var after, id := Sweep(policy, w, a.candidate, a.now, a.dryRun, a.fate).0.rows, TombstoneId(a.candidate.key);
      && (forall other :: other in w.rows ==> other in after && after[other].tombstone == w.rows[other].tombstone)
      && (forall other :: other in after && other !in w.rows ==> other == id && after[id].tombstone.key == a.candidate.key)
      && (id in after && id !in w.rows <==>
            id !in w.rows && Binds(policy, a, a.candidate.key.artifactId) && !IsBound(w.rows, a.candidate.key.artifactId))
  {
    hide TombstoneId, IsBound;
  }

  lemma {:induction false} SweepsBind(policy: Policy, w: World, attempts: seq<Attempt>, key: Key)
    requires Clear(w) && AllSeparated(attempts) && IsSeparated(key)
    ensures var rows, first := Sweeps(policy, w, attempts).rows, FirstBinding(policy, attempts, key.artifactId);
      && (IsBound(rows, key.artifactId) <==> IsBound(w.rows, key.artifactId) || first.Some?)
      && (IsBoundTo(rows, key) <==> IsBoundTo(w.rows, key) || (!IsBound(w.rows, key.artifactId) && first == Some(key)))
    decreases |attempts|
  {
    hide Clear, Sweep, IsSeparated, IsBound, IsBoundTo, Binds;
    if attempts != [] {
      var a := attempts[0];
      var next := Sweep(policy, w, a.candidate, a.now, a.dryRun, a.fate).0;
      SweepBinds(policy, w, a, key);
      SweepKeepsClear(policy, w, a);
      SweepsBind(policy, next, attempts[1..], key);
    }
  }

  /**
   * After any sweeps from empty tables, with any failures and crashes, a sweep that goes well removes the artifact
   * exactly when the first attempt that could bind it had the same facts, or there was none; otherwise it is refused.
   */
  lemma {:induction false} RetryCompletes(policy: Policy, attempts: seq<Attempt>, candidate: Candidate, now: nat)
    requires AllSeparated(attempts) && IsSeparated(candidate.key) && MayDelete(policy, candidate, now)
    ensures var w := Sweeps(policy, World(map[], []), attempts);
      var (after, action) := Sweep(policy, w, candidate, now, false, Succeeds);
      var first := FirstBinding(policy, attempts, candidate.key.artifactId);
      && (action.Removed? <==> first == None || first == Some(candidate.key))
      && (!action.Removed? ==> action.Refused? && after == w)
  {
    hide Sweeps, TombstoneId, IsBound, Marked;
    var empty := World(map[], []);
    assert Clear(empty) by { EmptyIsSound(); }
    assert !IsBound(empty.rows, candidate.key.artifactId) && !IsBoundTo(empty.rows, candidate.key) by { NothingBound(candidate.key); }
    var w := Sweeps(policy, empty, attempts);
    SweepsBind(policy, empty, attempts, candidate.key);
    SweepsKeepClear(policy, empty, attempts);
    BoundByOwnFacts(w, candidate.key);
  }

  lemma {:induction false} NothingBound(key: Key)
    ensures !IsBound(map[], key.artifactId) && !IsBoundTo(map[], key)
  {
  }

  lemma {:induction false} BoundByOwnFacts(w: World, key: Key)
    requires Clear(w) && IsSeparated(key)
    ensures TombstoneId(key) in w.rows <==> IsBoundTo(w.rows, key)
    ensures IsBoundTo(w.rows, key) ==> IsBound(w.rows, key.artifactId)
  {
    hide TombstoneId;
    if TombstoneId(key) in w.rows { IdsDiffer(key, w.rows[TombstoneId(key)].tombstone.key); }
  }
}
