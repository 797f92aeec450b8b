/** Crashes, failures and resumes of a deterministic pipeline end in the state of the uninterrupted run. */
module PipelineConvergence {
  import opened Options
  import opened Registry
  import opened PipelineResume

  /** What a run without interruptions holds after some of its stages. */
  datatype Point = Point(slots: Slots, store: Store)

  /** The uninterrupted run after `k` stages; absent when one of them fails. */
  function Uninterrupted(stages: seq<Stage>, base: Store, k: nat): Option<Point>
    requires k <= |stages|
  {
    if k == 0 then Some(Point(EMPTY, base))
    else
      match Uninterrupted(stages, base, k - 1)
      case None => None
      case Some(before) =>
        match Execute(stages[k - 1], before.slots)
        case Produced(outputs, slots) =>
          (match PutAll(before.store, outputs)
           case None => None
           case Some(store) => Some(Point(slots, store)))
        case _ => None
  }

  /** Distinct names, and no restorable stage declares the artifact that restoring ignores. */
  ghost predicate WellFormed(stages: seq<Stage>) {
    && (forall i, j :: 0 <= i < j < |stages| ==> stages[i].name != stages[j].name)
    && (forall i :: 0 <= i < |stages| && IsRestorable(stages[i].name) ==> VISUAL_EVIDENCE !in stages[i].outputTypes)
  }

  // ----- Facts about publishing and storing -----

  ghost predicate Holds(store: Store, artifacts: seq<Artifact>) {
    forall a :: a in artifacts ==> a.id in store && store[a.id] == a
  }

  lemma {:induction false} PutHolds(store: Store, artifacts: seq<Artifact>)
    requires PutAll(store, artifacts).Some?
    ensures Holds(PutAll(store, artifacts).value, artifacts)
    ensures forall id :: id in store ==> id in PutAll(store, artifacts).value && PutAll(store, artifacts).value[id] == store[id]
    decreases |artifacts|
  {
    if artifacts != [] {
      var next := store[artifacts[0].id := artifacts[0]];
      PutHolds(next, artifacts[1..]);
      assert artifacts == [artifacts[0]] + artifacts[1..];
      assert artifacts[0].id in next;
    }
  }

  lemma {:induction false} PublishedActive(slots: Slots, artifacts: seq<Artifact>, store: Store)
    requires PublishAll(slots, artifacts).Some?
    requires Holds(store, Artifacts(slots)) && Holds(store, artifacts)
    ensures Holds(store, Artifacts(PublishAll(slots, artifacts).value))
    decreases |artifacts|
  {
    hide Artifacts, Publish;
    if artifacts != [] {
      assert artifacts == [artifacts[0]] + artifacts[1..] && artifacts[0] in artifacts;
      PublishedOne(slots, artifacts[0], store);
      PublishedActive(Publish(slots, artifacts[0]).value, artifacts[1..], store);
    }
  }

  lemma {:induction false} PublishedOne(slots: Slots, artifact: Artifact, store: Store)
    requires Publish(slots, artifact).Some?
    requires Holds(store, Artifacts(slots)) && artifact.id in store && store[artifact.id] == artifact
    ensures Holds(store, Artifacts(Publish(slots, artifact).value))
  {
    hide Artifacts, IsActive;
    var next := Publish(slots, artifact).value;
    forall a | a in Artifacts(next) ensures a.id in store && store[a.id] == a {
      ActiveMembers(next, a);
      ActiveMembers(slots, a);
      OnlyPublishedIsNew(slots, artifact, a);
    }
  }

  lemma {:induction false} OnlyPublishedIsNew(slots: Slots, artifact: Artifact, a: Artifact)
    requires Publish(slots, artifact).Some? && IsActive(Publish(slots, artifact).value, a)
    ensures IsActive(slots, a) || a == artifact
  {
    hide Added, Assigned, IsActive;
    var name := VisualName(artifact.kind);
    if name.Some? {
      OnlyAddedIsNew(slots, name.value, artifact, a);
    } else if artifact.kind in LEGACY || artifact.kind in NEWER {
      OnlyNewIsNew(slots, artifact.kind, artifact, a);
    }
  }

  lemma {:induction false} NothingActive()
    ensures Artifacts(EMPTY) == []
  {
    NothingFilled(LEGACY);
    NothingFilled(NEWER);
  }

  lemma {:induction false} NothingFilled(names: seq<string>)
    ensures Filled(EMPTY, names) == []
  {
    if names != [] { NothingFilled(names[1..]); }
  }

  // ----- The uninterrupted run -----

  lemma {:induction false} UninterruptedBefore(stages: seq<Stage>, base: Store, j: nat, k: nat)
    requires j <= k <= |stages| && Uninterrupted(stages, base, k).Some?
    ensures Uninterrupted(stages, base, j).Some?
    decreases k
  {
    hide Execute, PutAll;
    if j < k { UninterruptedBefore(stages, base, j, k - 1); }
  }

  function PointAt(stages: seq<Stage>, base: Store, k: nat): Point
    requires k <= |stages| && Uninterrupted(stages, base, k).Some?
  {
    Uninterrupted(stages, base, k).value
  }

  /** The checkpoint that the uninterrupted run writes for stage `k`. */
  function Receipt(stages: seq<Stage>, base: Store, k: nat): Record
    requires k < |stages| && Uninterrupted(stages, base, k + 1).Some?
  {
    UninterruptedBefore(stages, base, k, k + 1);
    var slots := PointAt(stages, base, k).slots;
    Checkpoint(stages[k], Artifacts(slots), Execute(stages[k], slots).outputs, true)
  }

  /** Everything active or produced so far is stored. */
  lemma {:induction false} PointStores(stages: seq<Stage>, base: Store, k: nat, m: nat)
    requires k <= m <= |stages| && Uninterrupted(stages, base, m).Some?
    ensures Uninterrupted(stages, base, k).Some?
    ensures Holds(PointAt(stages, base, m).store, Artifacts(PointAt(stages, base, k).slots))
    ensures k < m ==> Execute(stages[k], PointAt(stages, base, k).slots).Produced?
    ensures k < m ==> Holds(PointAt(stages, base, m).store, Execute(stages[k], PointAt(stages, base, k).slots).outputs)
    decreases m
  {
    hide Artifacts, Execute;
    UninterruptedBefore(stages, base, k, m);
    if m == 0 {
      NothingActive();
    } else {
      var before := PointAt(stages, base, m - 1);
      var last := Execute(stages[m - 1], before.slots);
      PutHolds(before.store, last.outputs);
      if k < m {
        PointStores(stages, base, k, m - 1);
      } else {
        PointStores(stages, base, m - 1, m - 1);
        ExecutePublishes(stages[m - 1], before.slots);
        PublishedActive(before.slots, last.outputs, PointAt(stages, base, m).store);
      }
    }
  }

  lemma {:induction false} ExecutePublishes(stage: Stage, slots: Slots)
    ensures var e := Execute(stage, slots); e.Produced? ==>
      PublishAll(slots, e.outputs) == Some(e.slots) && forall a :: a in e.outputs ==> a.kind in stage.outputTypes
  {
    hide PublishAll;
  }

  // ----- The invariant of the durable state -----

  /**
   * The durable state after `m` stages have succeeded at some time: their receipts and artifacts, one row each in
   * stage order, and at most one further row of a failed stage. A row may have been overwritten by a later failure
   * only behind a stage that cannot be restored.
   */
  ghost predicate Progressed(db: Db, stages: seq<Stage>, base: Store, m: nat) {
    && m <= |stages| && Uninterrupted(stages, base, m).Some?
    && db.store == PointAt(stages, base, m).store
    && m <= |db.rows| <= |stages| && |db.rows| <= m + 1
    && (forall k :: 0 <= k < |db.rows| ==> db.rows[k].stage == stages[k].name)
    && (|db.rows| == m + 1 ==> !db.rows[m].succeeded)
    && (forall k :: 0 <= k < m ==> RowFits(db, stages, base, k))
    && (forall name :: name in db.receipts ==> exists k :: 0 <= k < m && stages[k].name == name)
  }

  ghost predicate RowFits(db: Db, stages: seq<Stage>, base: Store, k: nat) {
    && k < |stages| && k < |db.rows| && Uninterrupted(stages, base, k + 1).Some?
    && stages[k].name in db.receipts && db.receipts[stages[k].name] == Receipt(stages, base, k)
    && (db.rows[k] == Receipt(stages, base, k) || (!db.rows[k].succeeded && exists j :: 0 <= j <= k && !IsRestorable(stages[j].name)))
  }

  lemma {:induction false} RowOfStage(rows: seq<Record>, stages: seq<Stage>, k: nat)
    requires WellFormed(stages) && k < |stages| && |rows| <= |stages| && k <= |rows|
    requires forall i :: 0 <= i < |rows| ==> rows[i].stage == stages[i].name
    ensures RowIndex(rows, stages[k].name) == k
  {
    hide IsRestorable;
  }

  /** A recorded failure of stage `k` is harmless when it is the next one, or behind one that is not restorable. */
  lemma {:induction false} FailureFits(db: Db, stages: seq<Stage>, base: Store, m: nat, k: nat, inputs: seq<Artifact>)
    requires WellFormed(stages) && Progressed(db, stages, base, m) && k <= m && k < |stages|
    requires k < m ==> exists j :: 0 <= j <= k && !IsRestorable(stages[j].name)
    ensures Progressed(FailurePersisted(db, Checkpoint(stages[k], inputs, [], false)), stages, base, m)
  {
    hide IsRestorable, WellFormed, Receipt, Uninterrupted;
    var record := Checkpoint(stages[k], inputs, [], false);
    var next := FailurePersisted(db, record);
    RowOfStage(db.rows, stages, k);
    forall i | 0 <= i < m ensures RowFits(next, stages, base, i) {
      assert RowFits(db, stages, base, i);
      if i != k { assert next.rows[i] == db.rows[i]; }
    }
  }

  lemma {:induction false} SuccessFits(db: Db, stages: seq<Stage>, base: Store, m: nat, k: nat)
    requires WellFormed(stages) && Progressed(db, stages, base, m) && k <= m && k < |stages|
    requires Execute(stages[k], PointAtOrBefore(stages, base, m, k).slots).Produced?
    ensures var slots := PointAtOrBefore(stages, base, m, k).slots;
      var outputs := Execute(stages[k], slots).outputs;
      var next := SuccessPersisted(db, Checkpoint(stages[k], Artifacts(slots), outputs, true), outputs);
      && (next.Some? <==> Uninterrupted(stages, base, k + 1).Some?)
      && (next.Some? ==> Progressed(next.value, stages, base, if k == m then m + 1 else m))
  {
    hide IsRestorable, Execute, Artifacts;
    UninterruptedBefore(stages, base, k, m);
    if k < m {
      assert RowFits(db, stages, base, k);
    } else {
      NewSuccessFits(db, stages, base, m);
    }
  }

  function PointAtOrBefore(stages: seq<Stage>, base: Store, m: nat, k: nat): Point
    requires k <= m <= |stages| && Uninterrupted(stages, base, m).Some?
  {
    UninterruptedBefore(stages, base, k, m);
    PointAt(stages, base, k)
  }

  lemma {:induction false} NewSuccessFits(db: Db, stages: seq<Stage>, base: Store, m: nat)
    requires WellFormed(stages) && Progressed(db, stages, base, m) && m < |stages|
    requires Execute(stages[m], PointAt(stages, base, m).slots).Produced?
    ensures var slots := PointAt(stages, base, m).slots;
      var outputs := Execute(stages[m], slots).outputs;
      var next := SuccessPersisted(db, Checkpoint(stages[m], Artifacts(slots), outputs, true), outputs);
      && (next.Some? <==> Uninterrupted(stages, base, m + 1).Some?)
      && (next.Some? ==> Progressed(next.value, stages, base, m + 1))
  {
    hide IsRestorable, Execute, Artifacts, PutAll;
    var slots := PointAt(stages, base, m).slots;
    var outputs := Execute(stages[m], slots).outputs;
    var record := Checkpoint(stages[m], Artifacts(slots), outputs, true);
    assert stages[m].name !in db.receipts by { NoReceiptYet(db, stages, base, m); }
    RowOfStage(db.rows, stages, m);
    var next := SuccessPersisted(db, record, outputs);
    if next.Some? {
      assert record == Receipt(stages, base, m);
      NewReceiptFits(db, next.value, stages, base, m, record);
    }
  }

  lemma {:induction false} NoReceiptYet(db: Db, stages: seq<Stage>, base: Store, m: nat)
    requires WellFormed(stages) && Progressed(db, stages, base, m) && m < |stages|
    ensures stages[m].name !in db.receipts
  {
    hide IsRestorable, RowFits, Uninterrupted;
  }

  lemma {:induction false} NewReceiptFits(db: Db, next: Db, stages: seq<Stage>, base: Store, m: nat, record: Record)
    requires WellFormed(stages) && Progressed(db, stages, base, m) && m < |stages|
    requires Uninterrupted(stages, base, m + 1).Some? && record == Receipt(stages, base, m)
    requires next.store == PointAt(stages, base, m + 1).store
    requires next.receipts == db.receipts[stages[m].name := record]
    requires next.rows == Upserted(db.rows, record) && RowIndex(db.rows, stages[m].name) == m
    ensures Progressed(next, stages, base, m + 1)
  {
    hide IsRestorable, Uninterrupted, Receipt, WellFormed;
    assert record.stage == stages[m].name by { ReceiptStage(stages, base, m); }
    assert |next.rows| == m + 1 && next.rows[m] == record;
    forall i | 0 <= i < m + 1 ensures RowFits(next, stages, base, i) {
      if i < m {
        assert RowFits(db, stages, base, i);
        DistinctNames(stages, i, m);
        assert next.rows[i] == db.rows[i];
      }
    }
    forall name | name in next.receipts ensures exists k :: 0 <= k < m + 1 && stages[k].name == name {
      if name in db.receipts && name != stages[m].name {
        var k :| 0 <= k < m && stages[k].name == name;
        assert 0 <= k < m + 1 && stages[k].name == name;
      }
    }
  }

  lemma {:induction false} ReceiptStage(stages: seq<Stage>, base: Store, k: nat)
    requires k < |stages| && Uninterrupted(stages, base, k + 1).Some?
    ensures Receipt(stages, base, k).stage == stages[k].name
  {
  }

  // ----- Running from a point of the uninterrupted run -----

  ghost predicate EndsAs(slots: Slots, stages: seq<Stage>, base: Store) {
    Uninterrupted(stages, base, |stages|).Some? && slots == PointAt(stages, base, |stages|).slots
  }

  ghost predicate AllComplete(outcomes: seq<Outcome>) { forall i :: 0 <= i < |outcomes| ==> outcomes[i].Completes? }

  /** Whatever interrupts the rest of a run, it stays on the course of the uninterrupted one. */
  lemma {:induction false} RunStaysOnCourse(db: Db, stages: seq<Stage>, base: Store, outcomes: seq<Outcome>, m: nat, k: nat)
    returns (reached: nat)
    requires WellFormed(stages) && |outcomes| == |stages|
    requires Progressed(db, stages, base, m) && k <= m
    requires k < m ==> exists j :: 0 <= j <= k && !IsRestorable(stages[j].name)
    ensures var r := RunFrom(db, PointAtOrBefore(stages, base, m, k).slots, stages, outcomes, k);
      && m <= reached && Progressed(r.db, stages, base, reached)
      && (r.slots.Some? ==> reached == |stages| && EndsAs(r.slots.value, stages, base))
      && (Uninterrupted(stages, base, |stages|).Some? && AllComplete(outcomes) ==> r.slots.Some?)
    decreases |stages| - k
  {
    hide IsRestorable, Execute, Artifacts, WellFormed, Progressed, FailurePersisted, SuccessPersisted, Checkpoint, Uninterrupted;
    reached := m;
    MilestoneExists(db, stages, base, m);
    UninterruptedBefore(stages, base, k, m);
    var slots := PointAtOrBefore(stages, base, m, k).slots;
    if k < |stages| {
      FailureFits(db, stages, base, m, k, Artifacts(slots));
      NextPoint(stages, base, k);
      if Uninterrupted(stages, base, |stages|).Some? { UninterruptedBefore(stages, base, k + 1, |stages|); }
      var execution := Execute(stages[k], slots);
      if execution.Produced? && (outcomes[k].Completes? || outcomes[k].CrashesAfter?) {
        SuccessFits(db, stages, base, m, k);
        var next := SuccessPersisted(db, Checkpoint(stages[k], Artifacts(slots), execution.outputs, true), execution.outputs);
        if next.Some? {
          reached := if k == m then m + 1 else m;
          MilestoneExists(next.value, stages, base, reached);
          assert PointAtOrBefore(stages, base, reached, k + 1).slots == execution.slots;
          var later := RunStaysOnCourse(next.value, stages, base, outcomes, reached, k + 1);
          if outcomes[k].Completes? { reached := later; }
        }
      }
    }
  }

  lemma {:induction false} MilestoneExists(db: Db, stages: seq<Stage>, base: Store, m: nat)
    requires Progressed(db, stages, base, m)
    ensures m <= |stages| && Uninterrupted(stages, base, m).Some?
  {
  }

  lemma {:induction false} NextPoint(stages: seq<Stage>, base: Store, k: nat)
    requires k < |stages| && Uninterrupted(stages, base, k).Some?
    ensures var e := Execute(stages[k], PointAt(stages, base, k).slots);
      && (Uninterrupted(stages, base, k + 1).Some? ==> e.Produced? && PointAt(stages, base, k + 1).slots == e.slots)
  {
  }

  // ----- Restoring a point of the uninterrupted run -----

  /** The rows that can be restored are receipts of leading stages; what follows them blocks restoring for good. */
  lemma {:induction false} PrefixIsReceipts(db: Db, stages: seq<Stage>, base: Store, m: nat)
    requires Progressed(db, stages, base, m)
    ensures var p := |RestorablePrefix(db.rows)|;
      && p <= m
      && (forall k :: 0 <= k < p ==> IsRestorable(stages[k].name) && RowFits(db, stages, base, k)
                                     && db.rows[k] == Receipt(stages, base, k))
      && (p < m ==> exists j :: 0 <= j <= p && !IsRestorable(stages[j].name))
  {
    hide IsRestorable, Uninterrupted;
    var prefix := RestorablePrefix(db.rows);
    var p := |prefix|;
    RestorablePrefixIsLongest(db.rows);
    forall k | 0 <= k < p ensures IsRestorable(stages[k].name) && RowFits(db, stages, base, k) && db.rows[k] == Receipt(stages, base, k) {
      assert prefix[k] == db.rows[k];
      assert RowFits(db, stages, base, k);
    }
    if p < m {
      assert RowFits(db, stages, base, p);
      if IsRestorable(stages[p].name) { assert Receipt(stages, base, p).succeeded; }
    }
  }

  lemma {:induction false} RestoringPublishes(slots: Slots, artifacts: seq<Artifact>, store: Store)
    requires Holds(store, artifacts) && forall a :: a in artifacts ==> a.kind != VISUAL_EVIDENCE
    ensures RestoredIds(slots, Ids(artifacts), store) == PublishAll(slots, artifacts)
    decreases |artifacts|
  {
    hide Publish;
    if artifacts != [] {
      assert artifacts == [artifacts[0]] + artifacts[1..] && artifacts[0] in artifacts;
      assert Ids(artifacts)[1..] == Ids(artifacts[1..]);
      var next := Publish(slots, artifacts[0]);
      if next.Some? { RestoringPublishes(next.value, artifacts[1..], store); }
    }
  }

  function Outputs(stage: Stage, slots: Slots): seq<Artifact> {
    var e := Execute(stage, slots);
    if e.Produced? then e.outputs else []
  }

  /** Replaying the outputs of stage `k` from the store takes its slots to those after stage `k`. */
  lemma {:induction false} ReceiptRestores(stages: seq<Stage>, base: Store, m: nat, k: nat)
    requires k < m <= |stages| && Uninterrupted(stages, base, m).Some? && VISUAL_EVIDENCE !in stages[k].outputTypes
    ensures var slots := PointAtOrBefore(stages, base, m, k).slots;
      RestoredIds(slots, Ids(Outputs(stages[k], slots)), PointAt(stages, base, m).store)
      == Some(PointAtOrBefore(stages, base, m, k + 1).slots)
  {
    hide Execute, Artifacts, PublishAll, RestoredIds, Uninterrupted;
    UninterruptedBefore(stages, base, k, m);
    UninterruptedBefore(stages, base, k + 1, m);
    PointStores(stages, base, k, m);
    NextPoint(stages, base, k);
    var slots := PointAt(stages, base, k).slots;
    ExecutePublishes(stages[k], slots);
    RestoringPublishes(slots, Outputs(stages[k], slots), PointAt(stages, base, m).store);
  }

  lemma {:induction false} ReceiptOutputs(stages: seq<Stage>, base: Store, m: nat, k: nat)
    requires k < m <= |stages| && Uninterrupted(stages, base, m).Some?
    ensures Uninterrupted(stages, base, k + 1).Some?
    ensures Receipt(stages, base, k).outputIds == Ids(Outputs(stages[k], PointAtOrBefore(stages, base, m, k).slots))
  {
    hide Execute, Artifacts, Uninterrupted;
    UninterruptedBefore(stages, base, k, m);
    UninterruptedBefore(stages, base, k + 1, m);
    NextPoint(stages, base, k);
  }

  lemma {:induction false} RestorableDeclares(stages: seq<Stage>, k: nat)
    requires WellFormed(stages) && k < |stages| && IsRestorable(stages[k].name)
    ensures VISUAL_EVIDENCE !in stages[k].outputTypes
  {
    hide IsRestorable;
  }

  lemma {:induction false} DistinctNames(stages: seq<Stage>, i: nat, j: nat)
    requires WellFormed(stages) && i < |stages| && j < |stages| && i != j
    ensures stages[i].name != stages[j].name
  {
    hide IsRestorable;
  }

  lemma {:induction false} RestoresFrom(db: Db, stages: seq<Stage>, base: Store, m: nat, prefix: seq<Record>, k: nat)
    requires WellFormed(stages) && Progressed(db, stages, base, m) && k <= |prefix| <= m
    requires forall i :: 0 <= i < |prefix| ==> RowFits(db, stages, base, i) && IsRestorable(stages[i].name) && prefix[i] == Receipt(stages, base, i)
    ensures RestoredSlots(PointAtOrBefore(stages, base, m, k).slots, prefix[k..], db.store)
         == Some(PointAtOrBefore(stages, base, m, |prefix|).slots)
    decreases |prefix| - k
  {
    hide IsRestorable, WellFormed, Progressed, RowFits, Receipt, Uninterrupted, RestoredIds;
    MilestoneExists(db, stages, base, m);
    StoreIs(db, stages, base, m);
    if k < |prefix| {
      assert RowFits(db, stages, base, k);
      RestorableDeclares(stages, k);
      ReceiptOutputs(stages, base, m, k);
      ReceiptRestores(stages, base, m, k);
      assert prefix[k..][1..] == prefix[k + 1..];
      RestoresFrom(db, stages, base, m, prefix, k + 1);
    }
  }

  lemma {:induction false} StoreIs(db: Db, stages: seq<Stage>, base: Store, m: nat)
    requires Progressed(db, stages, base, m)
    ensures m <= |stages| && Uninterrupted(stages, base, m).Some? && db.store == PointAt(stages, base, m).store
  {
  }

  lemma {:induction false} MatchesWhenHeld(artifacts: seq<Artifact>, known: Store, store: Store)
    requires Holds(store, artifacts) && forall id :: id in store ==> id in known && known[id] == store[id]
    ensures Matches(Ids(artifacts), Hashes(artifacts), known)
  {
    forall k | 0 <= k < |artifacts| ensures Ids(artifacts)[k] in known && known[Ids(artifacts)[k]].hash == Hashes(artifacts)[k] {
      assert artifacts[k] in artifacts;
    }
  }

  lemma {:induction false} ReceiptIsFaithful(stages: seq<Stage>, base: Store, m: nat, k: nat, known: Store)
    requires k < m <= |stages| && Uninterrupted(stages, base, m).Some?
    requires var store := PointAt(stages, base, m).store; forall id :: id in store ==> id in known && known[id] == store[id]
    ensures Uninterrupted(stages, base, k + 1).Some? && Faithful(Receipt(stages, base, k), known)
  {
    hide Execute, Artifacts, Matches, Uninterrupted;
    UninterruptedBefore(stages, base, k + 1, m);
    PointStores(stages, base, k, m);
    var slots, store := PointAt(stages, base, k).slots, PointAt(stages, base, m).store;
    MatchesWhenHeld(Artifacts(slots), known, store);
    MatchesWhenHeld(Execute(stages[k], slots).outputs, known, store);
  }

  function Names(stages: seq<Stage>, from: nat, to: nat): (r: seq<string>)
    requires from <= to <= |stages|
    ensures |r| == to - from && forall k :: 0 <= k < to - from ==> r[k] == stages[from + k].name
  {
    seq(to - from, k requires 0 <= k < to - from => stages[from + k].name)
  }

  lemma {:induction false} ReceiptsValidate(db: Db, stages: seq<Stage>, base: Store, m: nat, prefix: seq<Record>, k: nat, known: Store)
    requires Progressed(db, stages, base, m) && k <= |prefix| <= m
    requires forall i :: 0 <= i < |prefix| ==> RowFits(db, stages, base, i) && prefix[i] == Receipt(stages, base, i)
    requires forall id :: id in db.store ==> id in known && known[id] == db.store[id]
    ensures |prefix| <= |stages| && Validated(prefix[k..], known) == Some(Names(stages, k, |prefix|))
    decreases |prefix| - k
  {
    hide Progressed, RowFits, Faithful, Uninterrupted;
    StoreIs(db, stages, base, m);
    if k < |prefix| {
      assert RowFits(db, stages, base, k);
      ReceiptIsFaithful(stages, base, m, k, known);
      assert prefix[k..][1..] == prefix[k + 1..];
      ReceiptsValidate(db, stages, base, m, prefix, k + 1, known);
      assert Names(stages, k, |prefix|) == [stages[k].name] + Names(stages, k + 1, |prefix|);
    }
  }

  lemma {:induction false} SkipsLeadingStages(stages: seq<Stage>, p: nat)
    requires WellFormed(stages) && p <= |stages|
    ensures SkipCount(stages, Names(stages, 0, p)) == p
  {
    hide IsRestorable;
    var names := Names(stages, 0, p);
    assert forall k :: 0 <= k < p ==> stages[k].name == names[k];
    assert p < |stages| ==> stages[p].name !in names;
  }

  // ----- Any number of attempts -----

  /** An attempt resumes at the point after the restorable receipts, and stays on course from there. */
  lemma {:induction false} AttemptStaysOnCourse(db: Db, stages: seq<Stage>, base: Store, outcomes: seq<Outcome>, m: nat)
    returns (reached: nat)
    requires WellFormed(stages) && |outcomes| == |stages| && Progressed(db, stages, base, m)
    ensures var r := Attempt(db, stages, outcomes);
      && m <= reached && Progressed(r.db, stages, base, reached)
      && (r.slots.Some? ==> reached == |stages| && EndsAs(r.slots.value, stages, base))
      && (Uninterrupted(stages, base, |stages|).Some? && AllComplete(outcomes) ==> r.slots.Some?)
  {
    hide IsRestorable, RestorablePrefix, Artifacts, WellFormed, Progressed, RestoredSlots, Validated, Receipt, RowFits, EndsAs, AllComplete,
      RunFrom, SkipCount, Uninterrupted, ById;
    var prefix := RestorablePrefix(db.rows);
    var p := |prefix|;
    RestorablePrefixIsLongest(db.rows);
    PrefixIsReceipts(db, stages, base, m);
    StoreIs(db, stages, base, m);
    StartPoint(stages, base, m);
    assert forall i :: 0 <= i < p ==> prefix[i] == db.rows[i];
    RestoresFrom(db, stages, base, m, prefix, 0);
    assert prefix[0..] == prefix;
    var slots := PointAtOrBefore(stages, base, m, p).slots;
    ReceiptsValidate(db, stages, base, m, prefix, 0, ById(Artifacts(slots)) + db.store);
    SkipsLeadingStages(stages, p);
    reached := RunStaysOnCourse(db, stages, base, outcomes, m, p);
  }

  lemma {:induction false} StartPoint(stages: seq<Stage>, base: Store, m: nat)
    requires m <= |stages| && Uninterrupted(stages, base, m).Some?
    ensures PointAtOrBefore(stages, base, m, 0).slots == EMPTY
  {
  }

  /** The durable state after a number of attempts, each with its own interruptions. */
  ghost function After(db: Db, stages: seq<Stage>, attempts: seq<seq<Outcome>>): Db
    requires forall i :: 0 <= i < |attempts| ==> |attempts[i]| == |stages|
    decreases |attempts|
  {
    if attempts == [] then db else After(Attempt(db, stages, attempts[0]).db, stages, attempts[1..])
  }

  lemma {:induction false} AttemptsStayOnCourse(db: Db, stages: seq<Stage>, base: Store, attempts: seq<seq<Outcome>>, m: nat)
    returns (reached: nat)
    requires WellFormed(stages) && Progressed(db, stages, base, m)
    requires forall i :: 0 <= i < |attempts| ==> |attempts[i]| == |stages|
    ensures m <= reached && Progressed(After(db, stages, attempts), stages, base, reached)
    decreases |attempts|
  {
    hide WellFormed, Progressed, Attempt;
    reached := m;
    if attempts != [] {
      var next := AttemptStaysOnCourse(db, stages, base, attempts[0], m);
      reached := AttemptsStayOnCourse(Attempt(db, stages, attempts[0]).db, stages, base, attempts[1..], next);
    }
  }

  /**
   * After any attempts, however interrupted: one more attempt that completes ends with the slots and the stored
   * artifacts of the uninterrupted run, and without interruptions it completes exactly when that run does.
   */
  lemma {:induction false} ResumedRunEndsAsUninterrupted(stages: seq<Stage>, base: Store, attempts: seq<seq<Outcome>>,
                                                         outcomes: seq<Outcome>)
    requires WellFormed(stages) && |outcomes| == |stages|
    requires forall i :: 0 <= i < |attempts| ==> |attempts[i]| == |stages|
    ensures var r := Attempt(After(Db([], map[], base), stages, attempts), stages, outcomes);
      && (r.slots.Some? ==> EndsAs(r.slots.value, stages, base) && r.db.store == PointAt(stages, base, |stages|).store)
      && (AllComplete(outcomes) ==> (r.slots.Some? <==> Uninterrupted(stages, base, |stages|).Some?))
  {
    hide WellFormed, Attempt, AllComplete;
    var start := Db([], map[], base);
    NothingProgressed(stages, base);
    var m := AttemptsStayOnCourse(start, stages, base, attempts, 0);
    var reached := AttemptStaysOnCourse(After(start, stages, attempts), stages, base, outcomes, m);
    StoreIs(Attempt(After(start, stages, attempts), stages, outcomes).db, stages, base, reached);
  }

  lemma {:induction false} NothingProgressed(stages: seq<Stage>, base: Store)
    ensures Progressed(Db([], map[], base), stages, base, 0)
  {
  }
}
