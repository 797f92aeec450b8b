/**
 * Running a stage pipeline with durable checkpoints, and resuming it after a failure or a crash
 * (application/pipeline.py, application/stage_runner.py, application/service.py, domain/checkpoint.py,
 * adapters/postgres/repositories/artifact_repository.py).
 */
module PipelineResume {
  import opened Options
  import opened Registry

  /** A checkpoint. `sealed` says that it carries no state checksum or the matching one. */
  datatype Record = Record(
    stage: string, succeeded: bool,
    inputIds: seq<Id>, inputHashes: seq<string>, outputIds: seq<Id>, outputHashes: seq<string>, sealed: bool)

  type Store = map<Id, Artifact>

  /** The durable state of one task: checkpoint rows in creation order, stage receipts, stored artifacts. */
  datatype Db = Db(rows: seq<Record>, receipts: map<string, Record>, store: Store)

  /** `run` is the deterministic work of the stage on the active slots; it is absent when the work raises. */
  datatype Stage = Stage(
    name: string, required: seq<string>, outputTypes: seq<string>, optional: seq<string>,
    run: Slots -> Option<seq<Artifact>>)

  /** What the environment does to one execution of a stage. */
  datatype Outcome = Completes | Fails | CrashesBefore | CrashesAfter

  // ----- Publishing artifacts into slots -----

  const VISUAL_EVIDENCE := "knowledge_visual_evidence"

  function VisualName(kind: string): Option<string> {
    if kind == "frame" then Some("frames") else if kind == "ocr" then Some("ocr") else if kind == "vision" then Some("vision")
    else None
  }

  function Publish(slots: Slots, artifact: Artifact): Option<Slots> {
    if VisualName(artifact.kind).Some? then Added(slots, VisualName(artifact.kind).value, artifact)
    else if artifact.kind in LEGACY || artifact.kind in NEWER then Assigned(slots, artifact.kind, artifact)
    else Some(slots)
  }

  function PublishAll(slots: Slots, artifacts: seq<Artifact>): Option<Slots>
    decreases |artifacts|
  {
    if artifacts == [] then Some(slots)
    else
      match Publish(slots, artifacts[0])
      case None => None
      case Some(next) => PublishAll(next, artifacts[1..])
  }

  /**
   * A frame, a text recognised in a frame and a description of a frame go to their lists, another known artifact into the
   * slot of its type, and an artifact of any other type nowhere.
   */
  lemma {:induction false} PublishedToItsSlot(slots: Slots, artifact: Artifact)
    ensures var after := Publish(slots, artifact);
      && (after.Some? ==>
            && (artifact.kind == "frame" ==> HasId(after.value.frames, artifact.id))
            && (artifact.kind == "ocr" ==> HasId(after.value.ocr, artifact.id))
            && (artifact.kind == "vision" ==> HasId(after.value.vision, artifact.id))
            && (artifact.kind in LEGACY || artifact.kind in NEWER ==>
                  after.value.single == slots.single[artifact.kind := artifact])
            && (artifact.kind !in LEGACY && artifact.kind !in NEWER ==> after.value.single == slots.single)
            && (artifact.kind != "frame" ==> after.value.frames == slots.frames)
            && (artifact.kind != "ocr" ==> after.value.ocr == slots.ocr)
            && (artifact.kind != "vision" ==> after.value.vision == slots.vision))
      && (after.None? ==> exists a :: a in Artifacts(slots) && a.id == artifact.id && a.hash != artifact.hash)
  {
    hide Artifacts, ClashesAny, HasId;
    var kind := artifact.kind;
    if kind == "frame" || kind == "ocr" || kind == "vision" {
      VisualIsKnownExactlyWhen(slots, if kind == "frame" then "frames" else kind, artifact);
    } else if kind in LEGACY || kind in NEWER {
      SlotIsFilledExactlyWhen(slots, kind, artifact);
      if kind in slots.single { ActiveMembers(slots, slots.single[kind]); }
      if Publish(slots, artifact).Some? { assert Publish(slots, artifact).value.single == slots.single[kind := artifact]; }
    }
  }

  // ----- Executing one stage -----

  datatype Execution = MissingInputs | Raised | Produced(outputs: seq<Artifact>, slots: Slots)

  predicate InputPresent(slots: Slots, name: string) {
    name in VISUAL || ((name in LEGACY || name in NEWER) && name in slots.single)
  }

  predicate OutputsMatch(stage: Stage, outputs: seq<Artifact>) {
    && (forall k :: 0 <= k < |outputs| ==> outputs[k].kind in stage.outputTypes)
    && (forall k :: 0 <= k < |stage.outputTypes| ==>
          stage.outputTypes[k] in stage.optional || exists j :: 0 <= j < |outputs| && outputs[j].kind == stage.outputTypes[k])
  }

  function Execute(stage: Stage, slots: Slots): Execution {
    if exists k :: 0 <= k < |stage.required| && !InputPresent(slots, stage.required[k]) then MissingInputs
    else
      match stage.run(slots)
      case None => Raised
      case Some(outputs) =>
        match PublishAll(slots, outputs)
        case None => Raised
        case Some(next) => if OutputsMatch(stage, outputs) then Produced(outputs, next) else Raised
  }

  function Ids(artifacts: seq<Artifact>): (r: seq<Id>)
    ensures |r| == |artifacts| && forall k :: 0 <= k < |artifacts| ==> r[k] == artifacts[k].id
  {
    seq(|artifacts|, k requires 0 <= k < |artifacts| => artifacts[k].id)
  }

  function Hashes(artifacts: seq<Artifact>): (r: seq<string>)
    ensures |r| == |artifacts| && forall k :: 0 <= k < |artifacts| ==> r[k] == artifacts[k].hash
  {
    seq(|artifacts|, k requires 0 <= k < |artifacts| => artifacts[k].hash)
  }

  function Checkpoint(stage: Stage, inputs: seq<Artifact>, outputs: seq<Artifact>, succeeded: bool): Record {
    Record(stage.name, succeeded, Ids(inputs), Hashes(inputs), Ids(outputs), Hashes(outputs), true)
  }

  // ----- Persisting -----

  function PutAll(store: Store, artifacts: seq<Artifact>): Option<Store>
    decreases |artifacts|
  {
    if artifacts == [] then Some(store)
    else if artifacts[0].id in store && store[artifacts[0].id] != artifacts[0] then None
    else PutAll(store[artifacts[0].id := artifacts[0]], artifacts[1..])
  }

  function RowIndex(rows: seq<Record>, stage: string): (i: nat)
    ensures i <= |rows|
    ensures i < |rows| ==> rows[i].stage == stage
    ensures forall k :: 0 <= k < i ==> rows[k].stage != stage
  {
    if rows == [] then 0 else if rows[0].stage == stage then 0 else 1 + RowIndex(rows[1..], stage)
  }

  /** The row of a stage is created once and then overwritten in its place. */
  function Upserted(rows: seq<Record>, record: Record): seq<Record> {
    var i := RowIndex(rows, record.stage);
    if i == |rows| then rows + [record] else rows[i := record]
  }

  function FailurePersisted(db: Db, record: Record): Db { db.(rows := Upserted(db.rows, record)) }

  /** A stage that already has its receipt is not written again; another content under it is an error. */
  function SuccessPersisted(db: Db, record: Record, outputs: seq<Artifact>): Option<Db> {
    if record.stage in db.receipts then if db.receipts[record.stage] == record then Some(db) else None
    else
      match PutAll(db.store, outputs)
      case None => None
      case Some(store) => Some(Db(Upserted(db.rows, record), db.receipts[record.stage := record], store))
  }

  // ----- One attempt -----

  predicate IsRestorable(stage: string) {
    stage in {
      "resolve", "download", "frame", "audio", "asr", "transcript_candidate", "transcript_selection", "transcript_quality",
      "diarization", "transcript_postprocess", "transcript", "chapter", "semantic_segmentation", "knowledge_frame", "ocr",
      "vision", "transcript_visual_crosscheck", "security_entity_alignment"
    }
  }

  function RestorablePrefix(rows: seq<Record>): seq<Record> {
    if rows == [] || !rows[0].succeeded || !IsRestorable(rows[0].stage) then []
    else [rows[0]] + RestorablePrefix(rows[1..])
  }

  /** It is the longest prefix of successful checkpoints of restorable stages. */
  lemma {:induction false} RestorablePrefixIsLongest(rows: seq<Record>)
    ensures var r := RestorablePrefix(rows);
      && r <= rows
      && (forall k :: 0 <= k < |r| ==> r[k].succeeded && IsRestorable(r[k].stage))
      && (|r| < |rows| ==> !rows[|r|].succeeded || !IsRestorable(rows[|r|].stage))
  {
    hide IsRestorable;
    if rows != [] && rows[0].succeeded && IsRestorable(rows[0].stage) {
      RestorablePrefixIsLongest(rows[1..]);
      assert rows == [rows[0]] + rows[1..];
    }
  }

  /** Restoring leaves the visual evidence slot alone, as no restorable stage fills it. */
  function Restored(slots: Slots, artifact: Artifact): Option<Slots> {
    if artifact.kind == VISUAL_EVIDENCE then Some(slots) else Publish(slots, artifact)
  }

  function RestoredIds(slots: Slots, ids: seq<Id>, store: Store): Option<Slots>
    decreases |ids|
  {
    if ids == [] then Some(slots)
    else if ids[0] !in store then None
    else
      match Restored(slots, store[ids[0]])
      case None => None
      case Some(next) => RestoredIds(next, ids[1..], store)
  }

  function RestoredSlots(slots: Slots, prefix: seq<Record>, store: Store): Option<Slots>
    decreases |prefix|
  {
    if prefix == [] then Some(slots)
    else
      match RestoredIds(slots, prefix[0].outputIds, store)
      case None => None
      case Some(next) => RestoredSlots(next, prefix[1..], store)
  }

  /** Nothing that is restored fills the visual evidence slot. */
  lemma {:induction false} RestoringLeavesEvidence(slots: Slots, prefix: seq<Record>, store: Store)
    ensures var restored := RestoredSlots(slots, prefix, store);
      restored.Some? ==>
        && (VISUAL_EVIDENCE in restored.value.single <==> VISUAL_EVIDENCE in slots.single)
        && (VISUAL_EVIDENCE in slots.single ==> restored.value.single[VISUAL_EVIDENCE] == slots.single[VISUAL_EVIDENCE])
    decreases |prefix|
  {
    if prefix != [] {
      IdsLeaveEvidence(slots, prefix[0].outputIds, store);
      var next := RestoredIds(slots, prefix[0].outputIds, store);
      if next.Some? { RestoringLeavesEvidence(next.value, prefix[1..], store); }
    }
  }

  lemma {:induction false} IdsLeaveEvidence(slots: Slots, ids: seq<Id>, store: Store)
    ensures var restored := RestoredIds(slots, ids, store);
      restored.Some? ==>
        && (VISUAL_EVIDENCE in restored.value.single <==> VISUAL_EVIDENCE in slots.single)
        && (VISUAL_EVIDENCE in slots.single ==> restored.value.single[VISUAL_EVIDENCE] == slots.single[VISUAL_EVIDENCE])
    decreases |ids|
  {
    hide Publish;
    if ids != [] && ids[0] in store {
      PublishedToItsSlot(slots, store[ids[0]]);
      var next := Restored(slots, store[ids[0]]);
      if next.Some? { IdsLeaveEvidence(next.value, ids[1..], store); }
    }
  }

  function ById(artifacts: seq<Artifact>): Store {
    if artifacts == [] then map[]
    else ById(artifacts[..|artifacts| - 1])[artifacts[|artifacts| - 1].id := artifacts[|artifacts| - 1]]
  }

  predicate Matches(ids: seq<Id>, hashes: seq<string>, known: Store) {
    forall k :: 0 <= k < |ids| && k < |hashes| ==> ids[k] in known && known[ids[k]].hash == hashes[k]
  }

  predicate Faithful(record: Record, known: Store) {
    && Matches(record.outputIds, record.outputHashes, known)
    && (record.inputHashes != [] ==>
          |record.inputIds| == |record.inputHashes| && Matches(record.inputIds, record.inputHashes, known))
    && record.sealed
  }

  /** The stages before the first unsuccessful checkpoint, or nothing when one of them fails its checks. */
  function Validated(checkpoints: seq<Record>, known: Store): Option<seq<string>> {
    if checkpoints == [] || !checkpoints[0].succeeded then Some([])
    else if !Faithful(checkpoints[0], known) then None
    else
      match Validated(checkpoints[1..], known)
      case None => None
      case Some(rest) => Some([checkpoints[0].stage] + rest)
  }

  /** How many stages may be skipped: the leading ones that are validated. */
  function SkipCount(stages: seq<Stage>, validated: seq<string>): (n: nat)
    ensures n <= |stages|
    ensures forall k :: 0 <= k < n ==> stages[k].name in validated
    ensures n < |stages| ==> stages[n].name !in validated
  {
    if stages == [] || stages[0].name !in validated then 0 else 1 + SkipCount(stages[1..], validated)
  }

  /** The state an attempt leaves; `slots` only when every stage completed. `executed` lists the stages it started. */
  datatype Attempted = Attempted(db: Db, slots: Option<Slots>, executed: seq<string>)

  function Started(stage: Stage, attempted: Attempted): Attempted {
    attempted.(executed := [stage.name] + attempted.executed)
  }

  function RunFrom(db: Db, slots: Slots, stages: seq<Stage>, outcomes: seq<Outcome>, k: nat): Attempted
    requires |outcomes| == |stages| && k <= |stages|
    decreases |stages| - k
  {
    if k == |stages| then Attempted(db, Some(slots), [])
    else
      var stage, inputs := stages[k], Artifacts(slots);
      var failed := FailurePersisted(db, Checkpoint(stage, inputs, [], false));
      var execution := Execute(stage, slots);
      if outcomes[k].CrashesBefore? || execution.MissingInputs? then Attempted(db, None, [stage.name])
      else if outcomes[k].Fails? || execution.Raised? then Attempted(failed, None, [stage.name])
      else
        match SuccessPersisted(db, Checkpoint(stage, inputs, execution.outputs, true), execution.outputs)
        case None => Attempted(db, None, [stage.name])
        case Some(next) =>
          if outcomes[k].CrashesAfter? then Attempted(next, None, [stage.name])
          else Started(stage, RunFrom(next, execution.slots, stages, outcomes, k + 1))
  }

  function Attempt(db: Db, stages: seq<Stage>, outcomes: seq<Outcome>): Attempted
    requires |outcomes| == |stages|
  {
    var prefix := RestorablePrefix(db.rows);
    match RestoredSlots(EMPTY, prefix, db.store)
    case None => Attempted(db, None, [])
    case Some(slots) =>
      if prefix == [] then RunFrom(db, EMPTY, stages, outcomes, 0)
      else
        match Validated(prefix, ById(Artifacts(slots)) + db.store)
        case None => Attempted(db, None, [])
        case Some(names) => RunFrom(db, slots, stages, outcomes, SkipCount(stages, names))
  }

  // ----- What one stage leaves behind -----

  /** The process survives up to the stage, and every required slot is filled; a list of visual artifacts may be empty. */
  ghost predicate CanStart(stage: Stage, slots: Slots, outcome: Outcome) {
    && !outcome.CrashesBefore?
    && forall name :: name in stage.required ==>
         name in ["frames", "ocr", "vision"] || ((name in LEGACY || name in NEWER) && name in slots.single)
  }

  /** The stage does not raise, its outputs fit their slots, and they are the declared ones. */
  ghost predicate Delivers(stage: Stage, slots: Slots, outcome: Outcome) {
    && CanStart(stage, slots, outcome) && !outcome.Fails? && stage.run(slots).Some?
    && PublishAll(slots, stage.run(slots).value).Some? && AreDeclared(stage, stage.run(slots).value)
  }

  /** Every output is of a declared type, and every declared type that is not optional has an output. */
  ghost predicate AreDeclared(stage: Stage, outputs: seq<Artifact>) {
    && (forall a :: a in outputs ==> a.kind in stage.outputTypes)
    && (forall kind :: kind in stage.outputTypes && kind !in stage.optional ==> exists a :: a in outputs && a.kind == kind)
  }

  /** One row is the given record, in the place of the stage's former row or behind all others; the rest is as it was. */
  ghost predicate IsRecordedIn(before: seq<Record>, after: seq<Record>, record: Record) {
    exists i :: 0 <= i < |after| && after[i] == record
      && (if i < |before| then |after| == |before| && before[i].stage == record.stage
          else |after| == |before| + 1 && forall k :: 0 <= k < |before| ==> before[k].stage != record.stage)
      && forall k :: 0 <= k < |before| && k != i ==> after[k] == before[k]
  }

  /** A failed row of this stage, with the artifacts that it was given; receipts and artifacts stay as they were. */
  ghost predicate LeavesFailure(before: Db, after: Db, stage: Stage, slots: Slots) {
    && after.receipts == before.receipts && after.store == before.store
    && exists record :: IsRecordedIn(before.rows, after.rows, record)
         && record.stage == stage.name && !record.succeeded && record.outputIds == []
         && record.inputIds == Ids(Artifacts(slots)) && record.inputHashes == Hashes(Artifacts(slots))
  }

  ghost predicate IsReceiptOf(record: Record, stage: Stage, slots: Slots, outputs: seq<Artifact>) {
    && record.stage == stage.name && record.succeeded && record.sealed
    && record.inputIds == Ids(Artifacts(slots)) && record.inputHashes == Hashes(Artifacts(slots))
    && record.outputIds == Ids(outputs) && record.outputHashes == Hashes(outputs)
  }

  /** The stage has a receipt of its outputs; a new one comes with its row and with the outputs, and nothing else. */
  ghost predicate LeavesReceipt(before: Db, after: Db, stage: Stage, slots: Slots) {
    && stage.run(slots).Some? && stage.name in after.receipts
    && IsReceiptOf(after.receipts[stage.name], stage, slots, stage.run(slots).value)
    && (if stage.name in before.receipts then after == before
        else
          && after.receipts == before.receipts[stage.name := after.receipts[stage.name]]
          && IsRecordedIn(before.rows, after.rows, after.receipts[stage.name])
          && AreStored(before.store, after.store, stage.run(slots).value))
  }

  /** The stage has another receipt, or one of its outputs is known, or produced twice, with another content. */
  ghost predicate IsRefused(db: Db, stage: Stage, slots: Slots)
    requires stage.run(slots).Some?
  {
    var outputs := stage.run(slots).value;
    if stage.name in db.receipts then !IsReceiptOf(db.receipts[stage.name], stage, slots, outputs)
    else !AgreeInContent(db.store, outputs)
  }

  ghost predicate AgreeInContent(store: Store, outputs: seq<Artifact>) {
    && (forall k :: 0 <= k < |outputs| && outputs[k].id in store ==> store[outputs[k].id] == outputs[k])
    && (forall j, k :: 0 <= j < k < |outputs| && outputs[j].id == outputs[k].id ==> outputs[j] == outputs[k])
  }

  ghost predicate AreStored(before: Store, after: Store, outputs: seq<Artifact>) {
    && (forall k :: 0 <= k < |outputs| ==> outputs[k].id in after && after[outputs[k].id] == outputs[k])
    && (forall id :: id in before ==> id in after && after[id] == before[id])
    && (forall id :: id in after && id !in before ==> exists k :: 0 <= k < |outputs| && outputs[k].id == id)
  }

  lemma {:induction false} UpsertRecords(rows: seq<Record>, record: Record)
    ensures IsRecordedIn(rows, Upserted(rows, record), record)
  {
    var i := RowIndex(rows, record.stage);
    assert Upserted(rows, record)[i] == record;
  }

  lemma {:induction false} PutAllStores(store: Store, outputs: seq<Artifact>)
    ensures PutAll(store, outputs).Some? <==> AgreeInContent(store, outputs)
    ensures PutAll(store, outputs).Some? ==> AreStored(store, PutAll(store, outputs).value, outputs)
    decreases |outputs|
  {
    if outputs != [] && !(outputs[0].id in store && store[outputs[0].id] != outputs[0]) {
      var first, rest := outputs[0], outputs[1..];
      var next := store[first.id := first];
      PutAllStores(next, rest);
      AgreementGoesOn(store, outputs);
      if PutAll(next, rest).Some? {
        var after := PutAll(next, rest).value;
        forall id | id in after && id !in store ensures exists k :: 0 <= k < |outputs| && outputs[k].id == id {
          if id in next {
            assert outputs[0].id == id;
          } else {
            var k :| 0 <= k < |rest| && rest[k].id == id;
            assert outputs[k + 1].id == id;
          }
        }
      }
    }
  }

  lemma {:induction false} AgreementGoesOn(store: Store, outputs: seq<Artifact>)
    requires outputs != [] && (outputs[0].id in store ==> store[outputs[0].id] == outputs[0])
    ensures AgreeInContent(store, outputs) <==> AgreeInContent(store[outputs[0].id := outputs[0]], outputs[1..])
  {
    var rest, next := outputs[1..], store[outputs[0].id := outputs[0]];
    assert forall k :: 0 <= k < |rest| ==> rest[k] == outputs[k + 1];
    assert forall k :: 0 < k < |outputs| ==> outputs[k] == rest[k - 1];
    if AgreeInContent(next, rest) {
      forall k | 0 < k < |outputs| ensures outputs[k].id == outputs[0].id ==> outputs[k] == outputs[0] {
        assert rest[k - 1].id in next ==> next[rest[k - 1].id] == rest[k - 1];
      }
      forall k | 0 <= k < |outputs| && outputs[k].id in store ensures store[outputs[k].id] == outputs[k] {
        if k > 0 { assert rest[k - 1].id in next; }
      }
    }
  }

  lemma {:induction false} ExecutionMeans(stage: Stage, slots: Slots, outcome: Outcome)
    ensures !outcome.CrashesBefore? ==> (CanStart(stage, slots, outcome) <==> !Execute(stage, slots).MissingInputs?)
    ensures CanStart(stage, slots, outcome) ==>
      (Delivers(stage, slots, outcome) <==> !outcome.Fails? && Execute(stage, slots).Produced?)
    ensures Execute(stage, slots).Produced? ==> stage.run(slots) == Some(Execute(stage, slots).outputs)
    ensures Delivers(stage, slots, outcome) ==> CanStart(stage, slots, outcome)
    ensures CanStart(stage, slots, outcome) ==> !outcome.CrashesBefore?
  {
    hide InputPresent, OutputsMatch, PublishAll, AreDeclared;
    assert CanStart(stage, slots, outcome) <==>
      !outcome.CrashesBefore? && forall k :: 0 <= k < |stage.required| ==> InputPresent(slots, stage.required[k])
    by { StartMeans(stage, slots); }
    if stage.run(slots).Some? { DeclaredMeans(stage, stage.run(slots).value); }
  }

  lemma {:induction false} StartMeans(stage: Stage, slots: Slots)
    ensures (forall k :: 0 <= k < |stage.required| ==> InputPresent(slots, stage.required[k])) <==>
      forall name :: name in stage.required ==>
        name in ["frames", "ocr", "vision"] || ((name in LEGACY || name in NEWER) && name in slots.single)
  {
  }

  lemma {:induction false} DeclaredMeans(stage: Stage, outputs: seq<Artifact>)
    ensures OutputsMatch(stage, outputs) <==> AreDeclared(stage, outputs)
  {
    if OutputsMatch(stage, outputs) {
      forall kind | kind in stage.outputTypes && kind !in stage.optional ensures exists a :: a in outputs && a.kind == kind {
        var k :| 0 <= k < |stage.outputTypes| && stage.outputTypes[k] == kind;
        var j :| 0 <= j < |outputs| && outputs[j].kind == stage.outputTypes[k];
        assert outputs[j] in outputs;
      }
    }
    if AreDeclared(stage, outputs) {
      forall k | 0 <= k < |stage.outputTypes| && stage.outputTypes[k] !in stage.optional
        ensures exists j :: 0 <= j < |outputs| && outputs[j].kind == stage.outputTypes[k]
      {
        var a :| a in outputs && a.kind == stage.outputTypes[k];
        var j :| 0 <= j < |outputs| && outputs[j] == a;
      }
    }
  }

  lemma {:induction false} FailureIsLeft(db: Db, stage: Stage, slots: Slots)
    ensures LeavesFailure(db, FailurePersisted(db, Checkpoint(stage, Artifacts(slots), [], false)), stage, slots)
  {
    hide Artifacts, Upserted, IsRecordedIn;
    UpsertRecords(db.rows, Checkpoint(stage, Artifacts(slots), [], false));
  }

  lemma {:induction false} ReceiptIsLeft(db: Db, stage: Stage, slots: Slots)
    requires stage.run(slots).Some?
    ensures var outputs := stage.run(slots).value;
      var after := SuccessPersisted(db, Checkpoint(stage, Artifacts(slots), outputs, true), outputs);
      && (after.Some? ==> LeavesReceipt(db, after.value, stage, slots))
      && (after.Some? <==> !IsRefused(db, stage, slots))
  {
    hide Artifacts, Upserted, IsRecordedIn, PutAll, AreStored, AgreeInContent;
    var outputs := stage.run(slots).value;
    UpsertRecords(db.rows, Checkpoint(stage, Artifacts(slots), outputs, true));
    PutAllStores(db.store, outputs);
  }

  /**
   * Whatever the first stage that is executed runs into decides what is left: nothing when it cannot start, its failed
   * row alone when it raises or delivers something else than it declares, and at least its receipt when it delivers.
   */
  lemma {:induction false} FirstStageDecides(db: Db, slots: Slots, stages: seq<Stage>, outcomes: seq<Outcome>, k: nat)
    requires |outcomes| == |stages| && k < |stages|
    ensures var after := RunFrom(db, slots, stages, outcomes, k);
      && after.executed != [] && after.executed[0] == stages[k].name
      && (!CanStart(stages[k], slots, outcomes[k]) ==> after == Attempted(db, None, [stages[k].name]))
      && (CanStart(stages[k], slots, outcomes[k]) && !Delivers(stages[k], slots, outcomes[k]) ==>
            after.slots == None && after.executed == [stages[k].name] && LeavesFailure(db, after.db, stages[k], slots))
      && (Delivers(stages[k], slots, outcomes[k]) && outcomes[k].CrashesAfter? ==>
            && after.slots == None
            && (if IsRefused(db, stages[k], slots) then after.db == db else LeavesReceipt(db, after.db, stages[k], slots)))
  {
    hide Execute, FailurePersisted, SuccessPersisted, Artifacts, CanStart, Delivers, LeavesFailure, LeavesReceipt, IsRefused;
    ExecutionMeans(stages[k], slots, outcomes[k]);
    FailureIsLeft(db, stages[k], slots);
    if Execute(stages[k], slots).Produced? { ReceiptIsLeft(db, stages[k], slots); }
  }

  /** From empty tables the first executed stage is the first of the pipeline. */
  lemma {:induction false} FirstFailureIsRecorded(db: Db, stages: seq<Stage>, outcomes: seq<Outcome>)
    requires |outcomes| == |stages| > 0 && db.rows == []
    requires CanStart(stages[0], EMPTY, outcomes[0]) && !Delivers(stages[0], EMPTY, outcomes[0])
    ensures var after := Attempt(db, stages, outcomes).db;
      && after.receipts == db.receipts && after.store == db.store
      && |after.rows| == 1 && after.rows[0].stage == stages[0].name && !after.rows[0].succeeded
  {
    hide RunFrom, CanStart, Delivers, Validated, SkipCount, IsReceiptOf;
    FirstStageDecides(db, EMPTY, stages, outcomes, 0);
    assert Attempt(db, stages, outcomes) == RunFrom(db, EMPTY, stages, outcomes, 0);
  }

  // ----- What is rejected on resuming -----

  /** The artifact is known and has this content. */
  predicate HasHash(known: Store, id: Id, hash: string) { id in known && known[id].hash == hash }

  /**
   * The leading successful checkpoints are accepted exactly when every recorded output, and every recorded input if input
   * hashes were recorded, is known with the recorded hash, the inputs are as many as their hashes, and the checksum fits.
   */
  lemma {:induction false} ValidatedExactlyWhen(checkpoints: seq<Record>, known: Store, n: nat)
    requires n <= |checkpoints| && (forall i :: 0 <= i < n ==> checkpoints[i].succeeded)
    requires n < |checkpoints| ==> !checkpoints[n].succeeded
    ensures Validated(checkpoints, known).Some? <==>
      forall i :: 0 <= i < n ==>
        && checkpoints[i].sealed
        && (forall j :: 0 <= j < |checkpoints[i].outputIds| && j < |checkpoints[i].outputHashes| ==>
              HasHash(known, checkpoints[i].outputIds[j], checkpoints[i].outputHashes[j]))
        && (checkpoints[i].inputHashes != [] ==> |checkpoints[i].inputIds| == |checkpoints[i].inputHashes|)
        && (forall j :: 0 <= j < |checkpoints[i].inputIds| && j < |checkpoints[i].inputHashes| ==>
              HasHash(known, checkpoints[i].inputIds[j], checkpoints[i].inputHashes[j]))
    ensures Validated(checkpoints, known).Some? ==>
      |Validated(checkpoints, known).value| == n
      && forall i :: 0 <= i < n ==> Validated(checkpoints, known).value[i] == checkpoints[i].stage
    decreases n
  {
    if n > 0 {
      FaithfulMeans(checkpoints[0], known);
      hide Faithful;
      var rest := checkpoints[1..];
      ValidatedExactlyWhen(rest, known, n - 1);
      assert forall i :: 0 <= i < n - 1 ==> rest[i] == checkpoints[i + 1];
      assert forall i :: 0 < i < n ==> checkpoints[i] == rest[i - 1];
    }
  }

  lemma {:induction false} FaithfulMeans(record: Record, known: Store)
    ensures Faithful(record, known) <==>
      && record.sealed
      && (forall j :: 0 <= j < |record.outputIds| && j < |record.outputHashes| ==>
            HasHash(known, record.outputIds[j], record.outputHashes[j]))
      && (record.inputHashes != [] ==> |record.inputIds| == |record.inputHashes|)
      && (forall j :: 0 <= j < |record.inputIds| && j < |record.inputHashes| ==>
            HasHash(known, record.inputIds[j], record.inputHashes[j]))
  {
  }

  /**
   * When the first checkpoint is a successful one of a restorable stage, and the content stored under one of its output
   * ids is missing or not the recorded one, the attempt executes no stage and changes nothing.
   */
  lemma {:induction false} TamperedOutputStopsAttempt(db: Db, stages: seq<Stage>, outcomes: seq<Outcome>, j: nat)
    requires |outcomes| == |stages|
    requires db.rows != [] && db.rows[0].succeeded && IsRestorable(db.rows[0].stage)
    requires j < |db.rows[0].outputIds| && j < |db.rows[0].outputHashes|
    requires !HasHash(db.store, db.rows[0].outputIds[j], db.rows[0].outputHashes[j])
    ensures Attempt(db, stages, outcomes) == Attempted(db, None, [])
  {
    hide RunFrom, IsRestorable, Restored, SkipCount, Artifacts, ById;
    var prefix := RestorablePrefix(db.rows);
    RestorablePrefixIsLongest(db.rows);
    assert prefix != [] && prefix[0] == db.rows[0];
    var restored := RestoredSlots(EMPTY, prefix, db.store);
    if restored.Some? {
      RestoredIdsAreStored(EMPTY, prefix[0].outputIds, db.store);
      var known := ById(Artifacts(restored.value)) + db.store;
      assert prefix[0].outputIds[j] in db.store;
      assert !HasHash(known, prefix[0].outputIds[j], prefix[0].outputHashes[j]);
      assert !Faithful(prefix[0], known);
      assert Validated(prefix, known) == None;
    }
  }

  lemma {:induction false} RestoredIdsAreStored(slots: Slots, ids: seq<Id>, store: Store)
    ensures RestoredIds(slots, ids, store).Some? ==> forall k :: 0 <= k < |ids| ==> ids[k] in store
    decreases |ids|
  {
    hide Restored;
    if ids != [] && ids[0] in store && Restored(slots, store[ids[0]]).Some? {
      RestoredIdsAreStored(Restored(slots, store[ids[0]]).value, ids[1..], store);
      assert forall k :: 0 < k < |ids| ==> ids[k] == ids[1..][k - 1];
    }
  }

  // ----- The worker that makes the attempt -----

  class Worker {
    var rows: seq<Record>
    var receipts: map<string, Record>
    var store: Store
    var slots: Slots
    var executed: seq<string>

    constructor (db: Db)
      ensures State() == db && slots == EMPTY && executed == []
    {
      rows, receipts, store := db.rows, db.receipts, db.store;
      slots, executed := EMPTY, [];
    }

    function State(): Db
      reads this
    {
      Db(rows, receipts, store)
    }

    /** `put_with_fenced_checkpoint` under a current lease, in one transaction. */
    method Persist(record: Record, outputs: seq<Artifact>) returns (ok: bool)
      modifies this`rows, this`receipts, this`store
      ensures record.succeeded ==> (if ok then Some(State()) else None) == SuccessPersisted(old(State()), record, outputs)
      ensures !record.succeeded ==> ok && State() == FailurePersisted(old(State()), record)
      ensures !ok ==> State() == old(State())
    {
      if record.succeeded {
        if record.stage in receipts { return receipts[record.stage] == record; }
        var stored := store;
        for i := 0 to |outputs|
          invariant rows == old(rows) && receipts == old(receipts) && store == old(store)
          invariant PutAll(stored, outputs[i..]) == PutAll(store, outputs)
        {
          if outputs[i].id in stored && stored[outputs[i].id] != outputs[i] { return false; }
          stored := stored[outputs[i].id := outputs[i]];
          assert outputs[i..][1..] == outputs[i + 1..];
        }
        store := stored;
        receipts := receipts[record.stage := record];
      }
      UpsertRow(record);
      ok := true;
    }

    method UpsertRow(record: Record)
      modifies this`rows
      ensures rows == Upserted(old(rows), record)
    {
      for i := 0 to |rows|
        invariant rows == old(rows)
        invariant forall k :: 0 <= k < i ==> rows[k].stage != record.stage
      {
        if rows[i].stage == record.stage {
          rows := rows[i := record];
          return;
        }
      }
      rows := rows + [record];
    }

    method Resume(stages: seq<Stage>, outcomes: seq<Outcome>) returns (done: bool)
      requires |outcomes| == |stages| && slots == EMPTY && executed == []
      requires forall i, j :: 0 <= i < j < |stages| ==> stages[i].name != stages[j].name
      modifies this
      ensures Attempted(State(), if done then Some(slots) else None, executed) == Attempt(old(State()), stages, outcomes)
    {
      hide RunFrom, RestoredSlots, Validated, RestorablePrefix, Artifacts, SkipCount;
      var checkpoints := Prefix();
      NothingToRestore(store);
      NothingToSkip(stages);
      var restored := RestoreSlots(checkpoints);
      if !restored { return false; }
      done := Process(stages, outcomes, checkpoints);
    }

    method Prefix() returns (prefix: seq<Record>)
      ensures prefix == RestorablePrefix(rows)
    {
      hide IsRestorable;
      prefix := [];
      for i := 0 to |rows|
        invariant prefix + RestorablePrefix(rows[i..]) == RestorablePrefix(rows)
      {
        if !rows[i].succeeded || !IsRestorable(rows[i].stage) { return; }
        prefix := prefix + [rows[i]];
        assert rows[i..][1..] == rows[i + 1..];
      }
      assert rows[|rows|..] == [];
    }

    method RestoreSlots(prefix: seq<Record>) returns (ok: bool)
      modifies this`slots
      ensures (if ok then Some(slots) else None) == RestoredSlots(old(slots), prefix, store)
    {
      for i := 0 to |prefix|
        invariant RestoredSlots(slots, prefix[i..], store) == RestoredSlots(old(slots), prefix, store)
      {
        var ids := prefix[i].outputIds;
        ghost var before := slots;
        for j := 0 to |ids|
          invariant RestoredIds(slots, ids[j..], store) == RestoredIds(before, ids, store)
        {
          hide Restored;
          if ids[j] !in store { return false; }
          assert ids[j..][1..] == ids[j + 1..];
          match Restored(slots, store[ids[j]]) {
            case None => return false;
            case Some(next) => slots := next;
          }
        }
        assert prefix[i..][1..] == prefix[i + 1..];
      }
      ok := true;
    }

    /** `ContentPipeline.process`: skips the validated leading stages and executes the others in order. */
    method Process(stages: seq<Stage>, outcomes: seq<Outcome>, checkpoints: seq<Record>) returns (done: bool)
      requires |outcomes| == |stages| && executed == []
      requires forall i, j :: 0 <= i < j < |stages| ==> stages[i].name != stages[j].name
      modifies this
      ensures var validated :=
          if checkpoints == [] then Some([]) else Validated(checkpoints, ById(Artifacts(old(slots))) + old(store));
        && (validated.None? ==> !done && State() == old(State()) && executed == [])
        && (validated.Some? ==>
              var skipped := SkipCount(stages, validated.value);
              && Attempted(State(), if done then Some(slots) else None, executed)
                 == RunFrom(old(State()), old(slots), stages, outcomes, skipped))
    {
      hide Artifacts, RunFrom;
      var completed: set<string> := {};
      ghost var names: seq<string>, n: nat := [], 0;
      NothingIsLeading(stages);
      if checkpoints != [] {
        var validated := ValidateResume(checkpoints, ById(Artifacts(slots)) + store);
        if validated.None? { return false; }
        names := validated.value;
        var i := 0;
        while i < |stages| && stages[i].name in validated.value
          invariant unchanged(this)
          invariant 0 <= i <= |stages| && completed == set k | 0 <= k < i :: stages[k].name
          invariant forall k :: 0 <= k < i ==> stages[k].name in names
        {
          completed := completed + {stages[i].name};
          i := i + 1;
        }
        n := i;
      }
      SkipsAreCompleted(stages, names, completed, n);
      done := ExecuteStages(stages, outcomes, completed, SkipCount(stages, names));
    }

    method ValidateResume(checkpoints: seq<Record>, known: Store) returns (validated: Option<seq<string>>)
      ensures validated == Validated(checkpoints, known)
    {
      hide Faithful;
      var completed: seq<string> := [];
      BehindNothing(Validated(checkpoints, known));
      assert checkpoints[0..] == checkpoints;
      for i := 0 to |checkpoints|
        invariant Validated(checkpoints, known) == Behind(completed, Validated(checkpoints[i..], known))
      {
        assert checkpoints[i..][1..] == checkpoints[i + 1..];
        assert completed + [] == completed;
        if !checkpoints[i].succeeded { return Some(completed); }
        if !Faithful(checkpoints[i], known) { return None; }
        BehindNext(completed, checkpoints[i].stage, Validated(checkpoints[i + 1..], known));
        completed := completed + [checkpoints[i].stage];
      }
      assert checkpoints[|checkpoints|..] == [] && completed + [] == completed;
      validated := Some(completed);
    }

    method ExecuteStages(stages: seq<Stage>, outcomes: seq<Outcome>, completed: set<string>, ghost skipped: nat)
      returns (done: bool)
      requires |outcomes| == |stages| && skipped <= |stages| && executed == []
      requires AreSkipped(stages, completed, skipped)
      modifies this
      ensures Attempted(State(), if done then Some(slots) else None, executed)
           == RunFrom(old(State()), old(slots), stages, outcomes, skipped)
    {
      hide OnCourse, AreSkipped, RunFrom;
      ghost var course := Course(State(), slots, stages, outcomes, skipped);
      CourseStarts(course);
      for i := 0 to |stages|
        invariant OnCourse(course, i, State(), slots, executed)
      {
        SkippedAt(stages, completed, skipped, i);
        if stages[i].name in completed {
          CourseSkips(course, i, State(), slots, executed);
        } else {
          var ended := ExecuteStage(stages[i], outcomes[i], course, i);
          if ended { return false; }
        }
      }
      CourseEnds(course, State(), slots, executed);
      done := true;
    }

    /** `StageRunner.execute` with the outcome that the environment gives it. */
    method ExecuteStage(stage: Stage, outcome: Outcome, ghost course: Course, ghost i: nat) returns (ended: bool)
      requires course.Valid() && course.skipped <= i < |course.stages|
      requires stage == course.stages[i] && outcome == course.outcomes[i]
      requires OnCourse(course, i, State(), slots, executed)
      modifies this
      ensures !ended ==> OnCourse(course, i + 1, State(), slots, executed)
      ensures ended ==> Attempted(State(), None, executed) == course.Result()
      ensures !CanStart(stage, old(slots), outcome) ==> ended && State() == old(State()) && slots == old(slots)
      ensures CanStart(stage, old(slots), outcome) && !Delivers(stage, old(slots), outcome) ==>
        ended && LeavesFailure(old(State()), State(), stage, old(slots))
      ensures Delivers(stage, old(slots), outcome) && ended ==>
        if IsRefused(old(State()), stage, old(slots)) then State() == old(State())
        else outcome.CrashesAfter? && LeavesReceipt(old(State()), State(), stage, old(slots))
      ensures !ended ==> Delivers(stage, old(slots), outcome) && LeavesReceipt(old(State()), State(), stage, old(slots))
    {
      hide Execute, FailurePersisted, SuccessPersisted, Artifacts, CanStart, Delivers, LeavesFailure, LeavesReceipt, IsRefused;
      ghost var before, slotsBefore := State(), slots;
      ExecutionMeans(stage, slots, outcome);
      FailureIsLeft(before, stage, slots);
      BeforeNothing(RunFrom(State(), slots, course.stages, course.outcomes, i));
      ghost var done := executed;
      var inputs := Artifacts(slots);
      executed := executed + [stage.name];
      ended := true;
      var execution := Execute(stage, slots);
      if outcome.CrashesBefore? || execution.MissingInputs? { return; }
      if outcome.Fails? || execution.Raised? {
        var _ := Persist(Checkpoint(stage, inputs, [], false), []);
        return;
      }
      var persisted := Persist(Checkpoint(stage, inputs, execution.outputs, true), execution.outputs);
      ReceiptIsLeft(before, stage, slotsBefore);
      if !persisted || outcome.CrashesAfter? { return; }
      slots := execution.slots;
      BeforeStarted(done, stage, RunFrom(State(), slots, course.stages, course.outcomes, i + 1));
      ended := false;
    }
  }

  /** Where a loop over the stages began, and which of them it skips. */
  datatype Course = Course(db: Db, slots: Slots, stages: seq<Stage>, outcomes: seq<Outcome>, skipped: nat) {
    predicate Valid() { |outcomes| == |stages| && skipped <= |stages| }

    function Result(): Attempted
      requires Valid()
    {
      RunFrom(db, slots, stages, outcomes, skipped)
    }
  }

  /** Nothing has happened before the first stage that is not skipped; from there on, only the rest is to come. */
  ghost predicate OnCourse(course: Course, i: nat, db: Db, slots: Slots, executed: seq<string>) {
    && course.Valid() && i <= |course.stages|
    && (i <= course.skipped ==> db == course.db && slots == course.slots && executed == [])
    && (i >= course.skipped ==>
          course.Result() == Before(executed, RunFrom(db, slots, course.stages, course.outcomes, i)))
  }

  lemma {:induction false} CourseStarts(course: Course)
    requires course.Valid()
    ensures OnCourse(course, 0, course.db, course.slots, [])
  {
    BeforeNothing(RunFrom(course.db, course.slots, course.stages, course.outcomes, 0));
  }

  lemma {:induction false} CourseSkips(course: Course, i: nat, db: Db, slots: Slots, executed: seq<string>)
    requires OnCourse(course, i, db, slots, executed) && i < course.skipped
    ensures OnCourse(course, i + 1, db, slots, executed)
  {
    hide RunFrom;
    BeforeNothing(course.Result());
  }

  lemma {:induction false} CourseEnds(course: Course, db: Db, slots: Slots, executed: seq<string>)
    requires course.Valid() && OnCourse(course, |course.stages|, db, slots, executed)
    ensures Attempted(db, Some(slots), executed) == course.Result()
  {
    assert executed + [] == executed;
  }

  lemma {:induction false} NothingToRestore(store: Store)
    ensures RestoredSlots(EMPTY, [], store) == Some(EMPTY)
  {
  }

  lemma {:induction false} NothingToSkip(stages: seq<Stage>)
    ensures SkipCount(stages, []) == 0
  {
  }

  function Behind(names: seq<string>, rest: Option<seq<string>>): Option<seq<string>> {
    if rest.Some? then Some(names + rest.value) else None
  }

  lemma {:induction false} BehindNothing(rest: Option<seq<string>>)
    ensures Behind([], rest) == rest
  {
    if rest.Some? { assert [] + rest.value == rest.value; }
  }

  lemma {:induction false} BehindNext(names: seq<string>, name: string, rest: Option<seq<string>>)
    ensures Behind(names, Behind([name], rest)) == Behind(names + [name], rest)
  {
    if rest.Some? { assert names + ([name] + rest.value) == names + [name] + rest.value; }
  }

  function Before(executed: seq<string>, attempted: Attempted): Attempted {
    attempted.(executed := executed + attempted.executed)
  }

  lemma {:induction false} BeforeNothing(attempted: Attempted)
    ensures Before([], attempted) == attempted
  {
    assert [] + attempted.executed == attempted.executed;
  }

  lemma {:induction false} BeforeStarted(executed: seq<string>, stage: Stage, attempted: Attempted)
    ensures Before(executed, Started(stage, attempted)) == Before(executed + [stage.name], attempted)
  {
    assert executed + ([stage.name] + attempted.executed) == executed + [stage.name] + attempted.executed;
  }

  function LeadingNames(stages: seq<Stage>, n: nat): set<string>
    requires n <= |stages|
  {
    set k | 0 <= k < n :: stages[k].name
  }

  /** `completed` holds the names of the first `n` stages, which are the leading ones among `names`. */
  ghost predicate AreLeading(stages: seq<Stage>, names: seq<string>, completed: set<string>, n: nat) {
    && n <= |stages| && completed == LeadingNames(stages, n)
    && (forall k :: 0 <= k < n ==> stages[k].name in names)
    && (n < |stages| ==> stages[n].name !in names)
  }

  ghost predicate AreSkipped(stages: seq<Stage>, completed: set<string>, skipped: nat) {
    forall k :: 0 <= k < |stages| ==> (stages[k].name in completed <==> k < skipped)
  }

  lemma {:induction false} SkippedAt(stages: seq<Stage>, completed: set<string>, skipped: nat, i: nat)
    requires AreSkipped(stages, completed, skipped) && i < |stages|
    ensures stages[i].name in completed <==> i < skipped
  {
  }

  lemma {:induction false} SkipsAreCompleted(stages: seq<Stage>, names: seq<string>, completed: set<string>, n: nat)
    requires forall i, j :: 0 <= i < j < |stages| ==> stages[i].name != stages[j].name
    requires AreLeading(stages, names, completed, n)
    ensures AreSkipped(stages, completed, SkipCount(stages, names))
  {
    assert n == SkipCount(stages, names);
    forall k | 0 <= k < |stages| ensures stages[k].name in completed <==> k < n { }
  }

  lemma {:induction false} NothingIsLeading(stages: seq<Stage>)
    ensures AreLeading(stages, [], {}, 0)
  {
    assert LeadingNames(stages, 0) == {};
  }
}
