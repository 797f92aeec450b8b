/** The active artifact slots of a pipeline run (ArtifactRegistry of domain/artifacts.py). */
module Registry {
  import opened Options

  type Id = string

  datatype Artifact = Artifact(id: Id, hash: string, kind: string)

  /** Single-valued slots by name, and the three lists of visual artifacts. */
  datatype Slots = Slots(single: map<string, Artifact>, frames: seq<Artifact>, ocr: seq<Artifact>, vision: seq<Artifact>)

  const EMPTY: Slots := Slots(map[], [], [], [])

  const LEGACY: seq<string> :=
    ["source", "media", "transcript", "evidence", "claims", "verification", "knowledge", "summary"]

  const NEWER: seq<string> :=
    ["semantic_segments", "occurrences", "lifecycle", "transcript_visual_crosscheck", "security_entity_alignment",
     "knowledge_visual_evidence"]

  const VISUAL: seq<string> := ["frames", "ocr", "vision"]

  function Filled(slots: Slots, names: seq<string>): seq<Artifact> {
    if names == [] then []
    else (if names[0] in slots.single then [slots.single[names[0]]] else []) + Filled(slots, names[1..])
  }

  /** All active artifacts: the legacy slots, the visual lists, the newer slots. */
  function Artifacts(slots: Slots): seq<Artifact> {
    Filled(slots, LEGACY) + (slots.frames + slots.ocr + slots.vision) + Filled(slots, NEWER)
  }

  predicate Clashes(a: Artifact, b: Artifact) { a.id == b.id && a.hash != b.hash }

  predicate ClashesAny(artifacts: seq<Artifact>, artifact: Artifact) {
    exists k :: 0 <= k < |artifacts| && Clashes(artifacts[k], artifact)
  }

  function VisualList(slots: Slots, name: string): seq<Artifact>
    requires name in VISUAL
  {
    if name == "frames" then slots.frames else if name == "ocr" then slots.ocr else slots.vision
  }

  function WithVisualList(slots: Slots, name: string, artifacts: seq<Artifact>): Slots
    requires name in VISUAL
  {
    if name == "frames" then slots.(frames := artifacts)
    else if name == "ocr" then slots.(ocr := artifacts)
    else slots.(vision := artifacts)
  }

  /** The artifact type that a visual list takes. */
  function VisualKind(name: string): string
    requires name in VISUAL
  {
    if name == "frames" then "frame" else name
  }

  predicate HasId(artifacts: seq<Artifact>, id: Id) { exists k :: 0 <= k < |artifacts| && artifacts[k].id == id }

  /** Appends an unknown visual artifact; nothing when the call raises. */
  function Added(slots: Slots, name: string, artifact: Artifact): Option<Slots> {
    if name !in VISUAL || artifact.kind != VisualKind(name) || ClashesAny(Artifacts(slots), artifact) then None
    else if HasId(VisualList(slots, name), artifact.id) then Some(slots)
    else Some(WithVisualList(slots, name, VisualList(slots, name) + [artifact]))
  }

  /** Fills a slot. A newer slot is compared with its own content only. */
  function Assigned(slots: Slots, name: string, artifact: Artifact): Option<Slots> {
    if name in NEWER then
      if (name in slots.single && Clashes(slots.single[name], artifact)) || artifact.kind != name then None
      else Some(slots.(single := slots.single[name := artifact]))
    else if ClashesAny(Artifacts(slots), artifact) then None
    else if name in VISUAL then Added(slots, name, artifact)
    else if name !in LEGACY then None
    else Some(slots.(single := slots.single[name := artifact]))
  }

  class ArtifactRegistry {
    var slots: Slots

    constructor ()
      ensures slots == EMPTY
    {
      slots := EMPTY;
    }

    method Add(name: string, artifact: Artifact) returns (ok: bool)
      modifies this
      ensures (if ok then Some(slots) else None) == Added(old(slots), name, artifact)
    {
      hide Artifacts;
      if name !in VISUAL || artifact.kind != VisualKind(name) { return false; }
      if ClashesAny(Artifacts(slots), artifact) { return false; }
      var own := VisualList(slots, name);
      for i := 0 to |own|
        invariant slots == old(slots)
        invariant forall k :: 0 <= k < i ==> own[k].id != artifact.id
      {
        VisualIsActive(slots, name, i);
        if Clashes(own[i], artifact) { return false; }
        if own[i].id == artifact.id { return true; }
      }
      slots := WithVisualList(slots, name, own + [artifact]);
      ok := true;
    }

    method Set(name: string, artifact: Artifact) returns (ok: bool)
      modifies this
      ensures (if ok then Some(slots) else None) == Assigned(old(slots), name, artifact)
    {
      hide Artifacts;
      if name in NEWER {
        if name in slots.single && Clashes(slots.single[name], artifact) { return false; }
        if artifact.kind != name { return false; }
        slots := slots.(single := slots.single[name := artifact]);
        return true;
      }
      if ClashesAny(Artifacts(slots), artifact) { return false; }
      if name in VISUAL {
        ok := Add(name, artifact);
        return;
      }
      if name !in LEGACY { return false; }
      slots := slots.(single := slots.single[name := artifact]);
      ok := true;
    }
  }

  // ----- What filling does -----

  /** A single slot takes an artifact exactly when nothing it is compared with has its id and another content; it then holds it. */
  lemma {:induction false} SlotIsFilledExactlyWhen(slots: Slots, name: string, artifact: Artifact)
    requires name !in VISUAL
    ensures var r := Assigned(slots, name, artifact);
      && (r.Some? <==>
            || (&& name in NEWER && artifact.kind == name
                && (name in slots.single && slots.single[name].id == artifact.id ==> slots.single[name].hash == artifact.hash))
            || (&& name in LEGACY && name !in NEWER
                && forall a :: a in Artifacts(slots) && a.id == artifact.id ==> a.hash == artifact.hash))
      && (r.Some? ==>
            && name in r.value.single && r.value.single[name] == artifact
            && (forall other :: other != name ==> (other in r.value.single <==> other in slots.single))
            && (forall other :: other != name && other in slots.single ==> r.value.single[other] == slots.single[other])
            && r.value.frames == slots.frames && r.value.ocr == slots.ocr && r.value.vision == slots.vision)
  {
    hide Artifacts;
    ClashesAnyMeaning(slots, artifact);
  }

  /** A visual artifact of the right type is known afterwards, exactly when no active artifact has its id and another content. */
  lemma {:induction false} VisualIsKnownExactlyWhen(slots: Slots, name: string, artifact: Artifact)
    requires name in VISUAL
    ensures var r := Added(slots, name, artifact);
      && (r.Some? <==> artifact.kind == (if name == "frames" then "frame" else name) && forall a :: a in Artifacts(slots) && a.id == artifact.id ==> a.hash == artifact.hash)
      && (r.Some? ==>
            var before, after := VisualList(slots, name), VisualList(r.value, name);
            && HasId(after, artifact.id) && r.value.single == slots.single
            && (if HasId(before, artifact.id) then r.value == slots else after == before + [artifact])
            && forall other :: other in VISUAL && other != name ==> VisualList(r.value, other) == VisualList(slots, other))
  {
    hide Artifacts;
    ClashesAnyMeaning(slots, artifact);
    var r := Added(slots, name, artifact);
    if r.Some? && !HasId(VisualList(slots, name), artifact.id) {
      var after := VisualList(r.value, name);
      assert after[|after| - 1] == artifact;
    }
  }

  // ----- One content per id -----

  /** No two active artifacts share an id and differ in content. */
  ghost predicate OneContentPerId(slots: Slots) {
    forall a, b :: a in Artifacts(slots) && b in Artifacts(slots) ==> !Clashes(a, b)
  }

  lemma {:induction false} FilledMembers(slots: Slots, names: seq<string>)
    ensures forall a :: a in Filled(slots, names) <==> exists k :: 0 <= k < |names| && names[k] in slots.single && a == slots.single[names[k]]
    decreases |names|
  {
    if names != [] {
      var rest := names[1..];
      FilledMembers(slots, rest);
      forall a ensures a in Filled(slots, names) <==>
        exists k :: 0 <= k < |names| && names[k] in slots.single && a == slots.single[names[k]]
      {
        if k :| 0 <= k < |rest| && rest[k] in slots.single && a == slots.single[rest[k]] { assert names[k + 1] == rest[k]; }
        if k :| 0 <= k < |names| && names[k] in slots.single && a == slots.single[names[k]] && k > 0 { assert rest[k - 1] == names[k]; }
      }
    }
  }

  ghost predicate IsActive(slots: Slots, a: Artifact) {
    || (exists name :: (name in LEGACY || name in NEWER) && name in slots.single && slots.single[name] == a)
    || a in slots.frames || a in slots.ocr || a in slots.vision
  }

  lemma {:induction false} ActiveMembers(slots: Slots, a: Artifact)
    ensures a in Artifacts(slots) <==> IsActive(slots, a)
  {
    FilledMembers(slots, LEGACY);
    FilledMembers(slots, NEWER);
    hide Filled;
    if name :| (name in LEGACY || name in NEWER) && name in slots.single && slots.single[name] == a {
      if name in LEGACY {
        var k :| 0 <= k < |LEGACY| && LEGACY[k] == name;
        assert a in Filled(slots, LEGACY);
      } else {
        var k :| 0 <= k < |NEWER| && NEWER[k] == name;
        assert a in Filled(slots, NEWER);
      }
    }
  }

  lemma {:induction false} VisualIsActive(slots: Slots, name: string, i: nat)
    requires name in VISUAL && i < |VisualList(slots, name)|
    ensures exists k :: 0 <= k < |Artifacts(slots)| && Artifacts(slots)[k] == VisualList(slots, name)[i]
  {
    var a := VisualList(slots, name)[i];
    assert a in VisualList(slots, name);
    ActiveMembers(slots, a);
    assert a in Artifacts(slots);
  }

  ghost predicate NoClash(slots: Slots, artifact: Artifact) { forall a :: a in Artifacts(slots) ==> !Clashes(a, artifact) }

  lemma {:induction false} ClashesAnyMeaning(slots: Slots, artifact: Artifact)
    ensures ClashesAny(Artifacts(slots), artifact) <==> !NoClash(slots, artifact)
  {
    hide Artifacts;
  }

  lemma {:induction false} OnlyNewIsNew(slots: Slots, name: string, artifact: Artifact, a: Artifact)
    requires Assigned(slots, name, artifact).Some?
    ensures IsActive(Assigned(slots, name, artifact).value, a) ==> IsActive(slots, a) || a == artifact
  {
    hide Artifacts, ClashesAny, Added;
    var next := Assigned(slots, name, artifact).value;
    if name in VISUAL && name !in NEWER {
      OnlyAddedIsNew(slots, name, artifact, a);
    } else if IsActive(next, a) && a != artifact {
      if other :| (other in LEGACY || other in NEWER) && other in next.single && next.single[other] == a {
        assert other in slots.single && slots.single[other] == a;
      }
    }
  }

  lemma {:induction false} OnlyAddedIsNew(slots: Slots, name: string, artifact: Artifact, a: Artifact)
    requires Added(slots, name, artifact).Some?
    ensures IsActive(Added(slots, name, artifact).value, a) ==> IsActive(slots, a) || a == artifact
  {
    hide Artifacts, ClashesAny;
    var next := Added(slots, name, artifact).value;
    if IsActive(next, a) && a != artifact {
      if other :| (other in LEGACY || other in NEWER) && other in next.single && next.single[other] == a {
        assert other in slots.single && slots.single[other] == a;
      }
    }
  }

  lemma {:induction false} AssignedChecks(slots: Slots, name: string, artifact: Artifact)
    requires Assigned(slots, name, artifact).Some? && name !in NEWER
    ensures !ClashesAny(Artifacts(slots), artifact)
  {
  }

  lemma {:induction false} NoClashKeepsOneContent(slots: Slots, name: string, artifact: Artifact)
    requires OneContentPerId(slots) && Assigned(slots, name, artifact).Some? && NoClash(slots, artifact)
    ensures OneContentPerId(Assigned(slots, name, artifact).value)
  {
    var next := Assigned(slots, name, artifact).value;
    hide Artifacts, Assigned, ClashesAny;
    forall a, b | a in Artifacts(next) && b in Artifacts(next) ensures !Clashes(a, b) {
      OnlyNewIsNew(slots, name, artifact, a);
      OnlyNewIsNew(slots, name, artifact, b);
      ActiveMembers(next, a);
      ActiveMembers(next, b);
      ActiveMembers(slots, a);
      ActiveMembers(slots, b);
    }
  }

  /** A clashing artifact that a newer slot accepts stays active beside the one it clashes with. */
  lemma {:induction false} ClashStays(slots: Slots, name: string, artifact: Artifact, a: Artifact)
    requires name in NEWER && Assigned(slots, name, artifact).Some?
    requires IsActive(slots, a) && Clashes(a, artifact)
    ensures IsActive(Assigned(slots, name, artifact).value, a) && IsActive(Assigned(slots, name, artifact).value, artifact)
  {
    hide Artifacts, ClashesAny;
    var next := Assigned(slots, name, artifact).value;
    assert next.single[name] == artifact;
    if other :| (other in LEGACY || other in NEWER) && other in slots.single && slots.single[other] == a {
      assert other in next.single && next.single[other] == a;
    }
  }

  /**
   * Filling a slot keeps one content per id exactly when nothing active clashes with the new artifact;
   * the newer slots do not check this.
   */
  lemma {:induction false} OneContentExactlyWhenNoClash(slots: Slots, name: string, artifact: Artifact)
    requires OneContentPerId(slots) && Assigned(slots, name, artifact).Some?
    ensures OneContentPerId(Assigned(slots, name, artifact).value) <==> NoClash(slots, artifact)
  {
    hide Artifacts, Assigned, ClashesAny, IsActive;
    var next := Assigned(slots, name, artifact).value;
    if NoClash(slots, artifact) {
      NoClashKeepsOneContent(slots, name, artifact);
    } else {
      var a :| a in Artifacts(slots) && Clashes(a, artifact);
      ActiveMembers(slots, a);
      ClashesAnyMeaning(slots, artifact);
      if name !in NEWER { AssignedChecks(slots, name, artifact); }
      ClashStays(slots, name, artifact, a);
      ActiveMembers(next, a);
      ActiveMembers(next, artifact);
    }
  }

  /** A newer slot accepts an artifact whose id is active elsewhere with other content. */
  lemma {:induction false} NewerSlotMayClash(source: Artifact, artifact: Artifact)
    requires source.id == artifact.id && source.hash != artifact.hash && artifact.kind == "occurrences"
    ensures var slots := EMPTY.(single := map["source" := source]);
      && OneContentPerId(slots)
      && Assigned(slots, "occurrences", artifact).Some?
      && !OneContentPerId(Assigned(slots, "occurrences", artifact).value)
  {
    var slots := EMPTY.(single := map["source" := source]);
    forall a | a in Artifacts(slots) ensures a == source { ActiveMembers(slots, a); }
    var next := slots.(single := slots.single["occurrences" := artifact]);
    assert "occurrences" in NEWER by { assert NEWER[1] == "occurrences"; }
    assert "source" in LEGACY by { assert LEGACY[0] == "source"; }
    assert next.single["occurrences"] == artifact && next.single["source"] == source;
    ActiveMembers(next, source);
    ActiveMembers(next, artifact);
  }
}
