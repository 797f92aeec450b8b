/** Content-addressed artifacts: set membership, identity profiles, and rows (domain/artifacts.py). */
module Artifacts {
  import opened Options
  import opened Ordering

  // ----- Stable membership -----

  /** A member value: its identifying fields when present, and its canonical JSON. */
  datatype Member = Member(
    claimId: Option<string>, occurrenceId: Option<string>, eventId: Option<string>, knowledgeUid: Option<string>, json: string)

  function MembershipKey(m: Member): string {
    if m.claimId.Some? then "claim_id:" + m.claimId.value
    else if m.occurrenceId.Some? then "occurrence_id:" + m.occurrenceId.value
    else if m.eventId.Some? then "lifecycle_event_id:" + m.eventId.value
    else if m.knowledgeUid.Some? then "knowledge_uid:" + m.knowledgeUid.value
    else m.json
  }

  function Json(m: Member): string { m.json }

  /** By key, then by canonical JSON. */
  function KeyedLe(key: Member -> string): (Member, Member) -> bool {
    (a: Member, b: Member) => if key(a) != key(b) then StringLe(key(a), key(b)) else StringLe(a.json, b.json)
  }

  function FirstOfEachKey(sorted: seq<Member>, key: Member -> string, seen: set<string>): seq<Member>
    decreases |sorted|
  {
    if sorted == [] then []
    else if key(sorted[0]) in seen then FirstOfEachKey(sorted[1..], key, seen)
    else [sorted[0]] + FirstOfEachKey(sorted[1..], key, seen + {key(sorted[0])})
  }

  function KeyOf(fieldIdentity: bool): Member -> string { if fieldIdentity then MembershipKey else Json }

  function StableMembers(values: seq<Member>, key: Member -> string): seq<Member> {
    FirstOfEachKey(SortBy(values, KeyedLe(key)), key, {})
  }

  method StableMembership(values: seq<Member>, fieldIdentity: bool) returns (result: seq<Member>)
    ensures result == StableMembers(values, KeyOf(fieldIdentity))
  {
    hide SortBy, KeyedLe, KeyOf, MembershipKey, FirstOfEachKey;
    var key := KeyOf(fieldIdentity);
    var candidates := SortBy(values, KeyedLe(key));
    var seen: set<string> := {};
    result := [];
    assert candidates[0..] == candidates;
    for i := 0 to |candidates|
      invariant result + FirstOfEachKey(candidates[i..], key, seen) == FirstOfEachKey(candidates, key, {})
    {
      FirstsNext(candidates, i, key, seen);
      if key(candidates[i]) !in seen {
        seen := seen + {key(candidates[i])};
        result := result + [candidates[i]];
      }
    }
    NoFirsts(candidates[|candidates|..], key, seen);
    assert result + [] == result;
  }

  lemma {:induction false} FirstsNext(candidates: seq<Member>, i: nat, key: Member -> string, seen: set<string>)
    requires i < |candidates|
    ensures FirstOfEachKey(candidates[i..], key, seen) ==
      if key(candidates[i]) in seen then FirstOfEachKey(candidates[i + 1..], key, seen)
      else [candidates[i]] + FirstOfEachKey(candidates[i + 1..], key, seen + {key(candidates[i])})
  {
    hide SortBy, KeyedLe, MembershipKey;
    assert candidates[i..][1..] == candidates[i + 1..];
  }

  lemma {:induction false} NoFirsts(candidates: seq<Member>, key: Member -> string, seen: set<string>)
    requires candidates == []
    ensures FirstOfEachKey(candidates, key, seen) == []
  {
  }

  lemma {:induction false} KeyedOrder(key: Member -> string)
    ensures TotalPreorder(KeyedLe(key))
  {
    forall x: string, y: string ensures StringLe(x, y) && StringLe(y, x) ==> x == y { StringLeTotal(x, y); }
    StringLeOrder();
  }

  /** Two members agree in key and JSON only when they are the same value. */
  ghost predicate JsonIdentifies(values: seq<Member>) {
    forall a, b :: a in values && b in values && a.json == b.json ==> a == b
  }

  ghost predicate Below(a: string, b: string) { a != b && StringLe(a, b) }

  ghost predicate StrictlyKeyed(s: seq<Member>, key: Member -> string) {
    forall i, j :: 0 <= i < j < |s| ==> Below(key(s[i]), key(s[j]))
  }

  /** No member with the same key has a smaller JSON. */
  ghost predicate IsLeast(m: Member, values: seq<Member>, key: Member -> string) {
    m in values && forall other :: other in values && key(other) == key(m) ==> StringLe(m.json, other.json)
  }

  lemma {:induction false} HeadComesFirst(sorted: seq<Member>, key: Member -> string, m: Member)
    requires sorted != [] && SortedBy(sorted, KeyedLe(key)) && m in sorted
    ensures if key(m) == key(sorted[0]) then StringLe(sorted[0].json, m.json) else Below(key(sorted[0]), key(m))
  {
    var k :| 0 <= k < |sorted| && sorted[k] == m;
    StringLeTotal(m.json, m.json);
    if k > 0 { assert KeyedLe(key)(sorted[0], sorted[k]); }
  }

  lemma {:induction false} RestIsSorted(sorted: seq<Member>, key: Member -> string)
    requires sorted != [] && SortedBy(sorted, KeyedLe(key))
    ensures SortedBy(sorted[1..], KeyedLe(key))
    ensures forall m :: m in sorted <==> m == sorted[0] || m in sorted[1..]
  {
    assert sorted == [sorted[0]] + sorted[1..];
  }

  lemma {:induction false} FirstsAreLeast(sorted: seq<Member>, key: Member -> string, seen: set<string>)
    requires SortedBy(sorted, KeyedLe(key))
    ensures forall m :: m in FirstOfEachKey(sorted, key, seen) ==> IsLeast(m, sorted, key) && key(m) !in seen
    decreases |sorted|
  {
    hide KeyedLe, SortedBy, StringLe;
    if sorted != [] {
      var first, rest := sorted[0], sorted[1..];
      RestIsSorted(sorted, key);
      var seen' := if key(first) in seen then seen else seen + {key(first)};
      FirstsAreLeast(rest, key, seen');
      forall m | m in FirstOfEachKey(sorted, key, seen) ensures IsLeast(m, sorted, key) && key(m) !in seen {
        if m in FirstOfEachKey(rest, key, seen') {
          assert IsLeast(m, rest, key);
        } else {
          forall other | other in sorted && key(other) == key(m) ensures StringLe(m.json, other.json) {
            HeadComesFirst(sorted, key, other);
          }
        }
      }
    }
  }

  ghost predicate HasKey(s: seq<Member>, key: Member -> string, k: string) { exists f :: f in s && key(f) == k }

  lemma {:induction false} FirstsCover(sorted: seq<Member>, key: Member -> string, seen: set<string>)
    ensures forall m :: m in sorted && key(m) !in seen ==> HasKey(FirstOfEachKey(sorted, key, seen), key, key(m))
    decreases |sorted|
  {
    if sorted != [] {
      var first, rest := sorted[0], sorted[1..];
      assert sorted == [first] + rest;
      var seen' := if key(first) in seen then seen else seen + {key(first)};
      FirstsCover(rest, key, seen');
      var r, r' := FirstOfEachKey(sorted, key, seen), FirstOfEachKey(rest, key, seen');
      forall m | m in sorted && key(m) !in seen ensures HasKey(r, key, key(m)) {
        if key(m) == key(first) {
          assert first in r;
        } else {
          assert HasKey(r', key, key(m));
          var f :| f in r' && key(f) == key(m);
          assert f in r;
        }
      }
    }
  }

  lemma {:induction false} FirstsStrict(sorted: seq<Member>, key: Member -> string, seen: set<string>)
    requires SortedBy(sorted, KeyedLe(key))
    ensures StrictlyKeyed(FirstOfEachKey(sorted, key, seen), key)
    decreases |sorted|
  {
    hide KeyedLe, SortedBy, Below;
    if sorted != [] {
      var first, rest := sorted[0], sorted[1..];
      RestIsSorted(sorted, key);
      var seen' := if key(first) in seen then seen else seen + {key(first)};
      FirstsStrict(rest, key, seen');
      FirstsAreLeast(rest, key, seen');
      var r := FirstOfEachKey(rest, key, seen');
      forall k | 0 <= k < |r| ensures key(first) !in seen ==> Below(key(first), key(r[k])) {
        assert r[k] in r && IsLeast(r[k], rest, key);
        HeadComesFirst(sorted, key, r[k]);
      }
    }
  }

  /** Strictly ascending keys, one member per key of the input, and each with the least JSON of its key. */
  lemma {:induction false} MembershipIsLeastPerKey(values: seq<Member>, key: Member -> string)
    ensures var r := StableMembers(values, key);
      && StrictlyKeyed(r, key)
      && (forall m :: m in r ==> IsLeast(m, values, key))
      && (forall m :: m in values ==> HasKey(r, key, key(m)))
  {
    hide SortBy, FirstOfEachKey, KeyedLe;
    var sorted := SortBy(values, KeyedLe(key));
    KeyedOrder(key);
    SortBySorted(values, KeyedLe(key));
    MultisetMembers(sorted, values);
    FirstsAreLeast(sorted, key, {});
    FirstsCover(sorted, key, {});
    FirstsStrict(sorted, key, {});
    forall m | m in StableMembers(values, key) ensures IsLeast(m, values, key) { assert IsLeast(m, sorted, key); }
  }

  /** Canonical JSON of a value never begins like a membership key by field. */
  predicate IsJson(m: Member) { m.json != "" && m.json[0] !in {'c', 'o', 'l', 'k'} }

  /** Values are one member when they agree in the first identifying field that either has, or, with none, in their JSON. */
  predicate IsSameMember(a: Member, b: Member) {
    if a.claimId.Some? || b.claimId.Some? then a.claimId == b.claimId
    else if a.occurrenceId.Some? || b.occurrenceId.Some? then a.occurrenceId == b.occurrenceId
    else if a.eventId.Some? || b.eventId.Some? then a.eventId == b.eventId
    else if a.knowledgeUid.Some? || b.knowledgeUid.Some? then a.knowledgeUid == b.knowledgeUid
    else a.json == b.json
  }

  lemma {:induction false} PrefixedDiffer(prefix: string, x: string, y: string)
    ensures prefix + x == prefix + y <==> x == y
  {
    assert (prefix + x)[|prefix|..] == x && (prefix + y)[|prefix|..] == y;
  }

  /** Keys are equal exactly for one member, so a normalised list has one value of each. */
  lemma {:induction false} KeyMeansMember(a: Member, b: Member)
    requires IsJson(a) && IsJson(b)
    ensures MembershipKey(a) == MembershipKey(b) <==> IsSameMember(a, b)
  {
    if a.claimId.Some? && b.claimId.Some? { PrefixedDiffer("claim_id:", a.claimId.value, b.claimId.value); }
    if a.occurrenceId.Some? && b.occurrenceId.Some? { PrefixedDiffer("occurrence_id:", a.occurrenceId.value, b.occurrenceId.value); }
    if a.eventId.Some? && b.eventId.Some? { PrefixedDiffer("lifecycle_event_id:", a.eventId.value, b.eventId.value); }
    if a.knowledgeUid.Some? && b.knowledgeUid.Some? { PrefixedDiffer("knowledge_uid:", a.knowledgeUid.value, b.knowledgeUid.value); }
    FirstCharacters(a);
    FirstCharacters(b);
  }

  lemma {:induction false} FirstCharacters(m: Member)
    requires IsJson(m)
    ensures MembershipKey(m) != ""
    ensures MembershipKey(m)[0] == if m.claimId.Some? then 'c' else if m.occurrenceId.Some? then 'o'
                                   else if m.eventId.Some? then 'l' else if m.knowledgeUid.Some? then 'k' else m.json[0]
  {
  }

  lemma {:induction false} BelowOrder(a: string, b: string, c: string)
    ensures !(Below(a, b) && Below(b, a))
    ensures Below(a, b) && Below(b, c) ==> Below(a, c)
  {
    StringLeTotal(a, b);
    StringLeOrder();
  }

  /** Strictly keyed sequences with the same members are the same. */
  lemma {:induction false} StrictlyKeyedUnique(s: seq<Member>, t: seq<Member>, key: Member -> string)
    requires StrictlyKeyed(s, key) && StrictlyKeyed(t, key) && forall m :: m in s <==> m in t
    ensures s == t
  {
    assert s != [] ==> s[0] in t;
    assert t != [] ==> t[0] in s;
    if s != [] && t != [] {
      assert s == [s[0]] + s[1..] && t == [t[0]] + t[1..];
      BelowOrder(key(s[0]), key(t[0]), key(s[0]));
      forall m ensures m in s[1..] <==> m in t[1..] {
        assert m in s[1..] <==> m in s && m != s[0];
        assert m in t[1..] <==> m in t && m != t[0];
      }
      StrictlyKeyedUnique(s[1..], t[1..], key);
    }
  }

  /** The result is determined by the set of members: order and repetitions of the input do not matter. */
  lemma {:induction false} MembershipIgnoresOrder(values: seq<Member>, others: seq<Member>, key: Member -> string)
    requires forall m :: m in values <==> m in others
    requires JsonIdentifies(values)
    ensures StableMembers(values, key) == StableMembers(others, key)
  {
    hide StableMembers, StrictlyKeyed;
    MembershipIsLeastPerKey(values, key);
    MembershipIsLeastPerKey(others, key);
    SameLeast(values, others, key);
    SameLeast(others, values, key);
    StrictlyKeyedUnique(StableMembers(values, key), StableMembers(others, key), key);
  }

  lemma {:induction false} LeastIsUnique(m: Member, f: Member, values: seq<Member>, key: Member -> string)
    requires IsLeast(m, values, key) && IsLeast(f, values, key) && key(m) == key(f) && JsonIdentifies(values)
    ensures m == f
  {
    StringLeTotal(f.json, m.json);
  }

  lemma {:induction false} LeastElsewhere(m: Member, values: seq<Member>, others: seq<Member>, key: Member -> string)
    requires IsLeast(m, values, key) && forall x :: x in values <==> x in others
    ensures IsLeast(m, others, key)
  {
  }

  lemma {:induction false} SameLeast(values: seq<Member>, others: seq<Member>, key: Member -> string)
    requires forall m :: m in values <==> m in others
    requires JsonIdentifies(values)
    ensures forall m :: m in StableMembers(values, key) ==> m in StableMembers(others, key)
  {
    MembershipIsLeastPerKey(values, key);
    MembershipIsLeastPerKey(others, key);
    forall m | m in StableMembers(values, key) ensures m in StableMembers(others, key) {
      assert IsLeast(m, values, key) && m in others;
      hide *;
      assert HasKey(StableMembers(others, key), key, key(m));
      var f := Keyed(StableMembers(others, key), key, key(m));
      LeastElsewhere(f, others, values, key);
      LeastIsUnique(m, f, values, key);
    }
  }

  lemma {:induction false} Keyed(s: seq<Member>, key: Member -> string, k: string) returns (f: Member)
    requires HasKey(s, key, k)
    ensures f in s && key(f) == k
  {
    f :| f in s && key(f) == k;
  }

  /** Normalising a normalised list changes nothing. */
  lemma {:induction false} MembershipIdempotent(values: seq<Member>, key: Member -> string)
    ensures StableMembers(StableMembers(values, key), key) == StableMembers(values, key)
  {
    hide FirstOfEachKey, SortBy;
    MembershipIsLeastPerKey(values, key);
    var r := StableMembers(values, key);
    assert SortedBy(r, KeyedLe(key)) by {
      forall i, j | 0 <= i < j < |r| ensures KeyedLe(key)(r[i], r[j]) { assert Below(key(r[i]), key(r[j])); }
    }
    SortByFixpoint(r, KeyedLe(key));
    FirstsKeepAll(r, key, {});
  }

  lemma {:induction false} FirstsKeepAll(s: seq<Member>, key: Member -> string, seen: set<string>)
    requires StrictlyKeyed(s, key) && forall k :: 0 <= k < |s| ==> key(s[k]) !in seen
    ensures FirstOfEachKey(s, key, seen) == s
    decreases |s|
  {
    if s != [] {
      FirstsKeepAll(s[1..], key, seen + {key(s[0])});
      assert s == [s[0]] + s[1..];
    }
  }

  // ----- Artifacts and their rows -----

  datatype Profile = Current | LegacyFrame | LegacyOcr | LegacyTranscript

  /** Which media and which recognition model the segments belong to. */
  datatype Manifest = Manifest(mediaId: string, model: string, modelVersion: string)

  /** `body` stands for the fields that no profile touches; `corrections` is empty by default. */
  datatype Segment = Segment(id: string, manifest: Manifest, body: string, corrections: string)
  datatype SegmentRow = SegmentRow(id: string, manifest: Manifest, body: string, corrections: Option<string>)

  datatype Content =
    | Frame(storageRef: string, plannerRequest: string)
    | Ocr(requestedDevice: string, actualDevice: string, runtimeIdentity: string)
    | Transcript(manifest: Manifest, segments: seq<Segment>)
    | Collection(kind: string, members: seq<Member>)
    | Other(kind: string)

  datatype RowContent =
    | FrameRow(storageRef: string, plannerRequest: Option<string>)
    | OcrRow(requestedDevice: Option<string>, actualDevice: Option<string>, runtimeIdentity: Option<string>)
    | TranscriptRow(manifest: Manifest, segments: seq<SegmentRow>)
    | CollectionRow(kind: string, members: seq<Member>)
    | OtherRow(kind: string)

  /** An artifact in memory, and the dictionary it is stored as. */
  datatype Artifact = Artifact(id: string, createdAt: string, body: string, content: Content, hash: string, profile: Profile)
  datatype Row = Row(id: string, createdAt: string, body: string, content: RowContent, hash: string)

  /** What the hash covers: no id, no creation time, and the storage reference of legacy frames only. */
  datatype Identity =
    | FrameIdentity(body: string, storageRef: Option<string>, plannerRequest: Option<string>)
    | OtherIdentity(body: string, content: RowContent)

  /** The content hash and the segment id function, which the model does not compute. */
  datatype Hashing = Hashing(digest: Identity -> string, segmentId: (Manifest, string) -> string)

  const KNOWN_TYPES: set<string> := {
    "source", "media", "evidence", "summary", "vision", "semantic_segments", "lifecycle", "transcript_visual_crosscheck",
    "security_entity_alignment"
  }

  /** Artifacts that are one set of members. */
  const COLLECTION_TYPES: set<string> := {"claims", "verification", "knowledge", "knowledge_visual_evidence", "occurrences"}

  /** Verification results and visual evidence are keyed by their whole payload, the others by their identifying fields. */
  function CollectionKey(kind: string): Member -> string {
    KeyOf(kind != "verification" && kind != "knowledge_visual_evidence")
  }

  /** What the constructor of a set-valued artifact makes of the members it is given. */
  function NewCollection(kind: string, values: seq<Member>): Content {
    Collection(kind, StableMembers(values, CollectionKey(kind)))
  }

  function SegmentToRow(s: Segment, legacy: bool): SegmentRow {
    SegmentRow(s.id, s.manifest, s.body, if legacy then None else Some(s.corrections))
  }

  function SegmentRows(segments: seq<Segment>, legacy: bool): (r: seq<SegmentRow>)
    ensures |r| == |segments| && forall k :: 0 <= k < |segments| ==> r[k] == SegmentToRow(segments[k], legacy)
  {
    seq(|segments|, k requires 0 <= k < |segments| => SegmentToRow(segments[k], legacy))
  }

  /** `to_dict`: each legacy profile leaves out the fields that its rows never had. */
  function ToRow(content: Content, profile: Profile): RowContent {
    match content
    case Frame(storageRef, plannerRequest) => FrameRow(storageRef, if profile.LegacyFrame? then None else Some(plannerRequest))
    case Ocr(requested, actual, runtime) =>
      if profile.LegacyOcr? then OcrRow(None, None, None) else OcrRow(Some(requested), Some(actual), Some(runtime))
    case Transcript(manifest, segments) => TranscriptRow(manifest, SegmentRows(segments, profile.LegacyTranscript?))
    case Collection(kind, members) => CollectionRow(kind, members)
    case Other(kind) => OtherRow(kind)
  }

  function Serialize(a: Artifact): Row { Row(a.id, a.createdAt, a.body, ToRow(a.content, a.profile), a.hash) }

  function IdentityOf(a: Artifact): Identity {
    var content := ToRow(a.content, a.profile);
    match content
    case FrameRow(storageRef, plannerRequest) =>
      FrameIdentity(a.body, if a.profile.LegacyFrame? then Some(storageRef) else None, plannerRequest)
    case _ => OtherIdentity(a.body, content)
  }

  function OrEmpty(value: Option<string>): string { if value.Some? then value.value else "" }

  predicate Mismatch(s: Segment, manifest: Manifest) { s.manifest.mediaId == "" || s.manifest != manifest }

  /** A segment under another manifest gets a new id; so does one without an id. */
  function NormalSegment(s: Segment, manifest: Manifest, h: Hashing): Segment {
    if Mismatch(s, manifest) then s.(manifest := manifest, id := h.segmentId(manifest, s.body))
    else if s.id == "" then s.(id := h.segmentId(s.manifest, s.body))
    else s
  }

  function NormalSegments(segments: seq<Segment>, manifest: Manifest, h: Hashing): (r: seq<Segment>)
    ensures |r| == |segments| && forall k :: 0 <= k < |segments| ==> r[k] == NormalSegment(segments[k], manifest, h)
  {
    seq(|segments|, k requires 0 <= k < |segments| => NormalSegment(segments[k], manifest, h))
  }

  function SegmentFromRow(s: SegmentRow): Segment { Segment(s.id, s.manifest, s.body, OrEmpty(s.corrections)) }

  function SegmentsFromRows(rows: seq<SegmentRow>): (r: seq<Segment>)
    ensures |r| == |rows| && forall k :: 0 <= k < |rows| ==> r[k] == SegmentFromRow(rows[k])
  {
    seq(|rows|, k requires 0 <= k < |rows| => SegmentFromRow(rows[k]))
  }

  /** Field presence decides the profile. */
  function ProfileOf(row: RowContent): Profile {
    match row
    case FrameRow(_, plannerRequest) => if plannerRequest.None? then LegacyFrame else Current
    case OcrRow(requested, actual, runtime) =>
      if requested.None? && actual.None? && runtime.None? then LegacyOcr else Current
    case TranscriptRow(_, segments) =>
      if exists k :: 0 <= k < |segments| && segments[k].corrections.None? then LegacyTranscript else Current
    case _ => Current
  }

  function FromRow(row: RowContent, h: Hashing): Option<Content> {
    match row
    case FrameRow(storageRef, plannerRequest) => Some(Frame(storageRef, OrEmpty(plannerRequest)))
    case OcrRow(requested, actual, runtime) => Some(Ocr(OrEmpty(requested), OrEmpty(actual), OrEmpty(runtime)))
    case TranscriptRow(manifest, segments) => Some(Transcript(manifest, NormalSegments(SegmentsFromRows(segments), manifest, h)))
    case CollectionRow(kind, members) => if kind in COLLECTION_TYPES then Some(NewCollection(kind, members)) else None
    case OtherRow(kind) => if kind in KNOWN_TYPES then Some(Other(kind)) else None
  }

  /** A stored hash is kept as it is; only a missing one is computed, under the profile of the row. */
  function Deserialize(row: Row, h: Hashing): Option<Artifact> {
    match FromRow(row.content, h)
    case None => None
    case Some(content) =>
      var a := Artifact(row.id, row.createdAt, row.body, content, row.hash, ProfileOf(row.content));
      Some(if row.hash == "" then a.(hash := h.digest(IdentityOf(a))) else a)
  }

  // ----- Round trips -----

  /** The identity that the present fields of a row spell out. */
  function RowIdentity(row: Row): Identity {
    match row.content
    case FrameRow(storageRef, plannerRequest) =>
      FrameIdentity(row.body, if plannerRequest.None? then Some(storageRef) else None, plannerRequest)
    case _ => OtherIdentity(row.body, row.content)
  }

  /** Either all fields that came later are there, or none. */
  ghost predicate Uniform(row: RowContent) {
    match row
    case FrameRow(_, _) => true
    case OcrRow(requested, actual, runtime) => requested.Some? == actual.Some? == runtime.Some?
    case TranscriptRow(_, segments) =>
      || (forall k :: 0 <= k < |segments| ==> segments[k].corrections.Some?)
      || (forall k :: 0 <= k < |segments| ==> segments[k].corrections.None?)
    case _ => true
  }

  /** A known type, with segments and members as the constructors leave them. */
  ghost predicate Written(row: RowContent, h: Hashing) {
    match row
    case TranscriptRow(manifest, segments) =>
      NormalSegments(SegmentsFromRows(segments), manifest, h) == SegmentsFromRows(segments)
    case CollectionRow(kind, members) => kind in COLLECTION_TYPES && StableMembers(members, CollectionKey(kind)) == members
    case OtherRow(kind) => kind in KNOWN_TYPES
    case _ => true
  }

  lemma {:induction false} NormalizationIsStable(segments: seq<Segment>, manifest: Manifest, h: Hashing)
    ensures NormalSegments(NormalSegments(segments, manifest, h), manifest, h) == NormalSegments(segments, manifest, h)
  {
    forall k | 0 <= k < |segments|
      ensures NormalSegment(NormalSegment(segments[k], manifest, h), manifest, h) == NormalSegment(segments[k], manifest, h)
    {
    }
  }

  /** A segment of a transcript ends up under its manifest; it keeps its id only if it was there before, with an id. */
  lemma {:induction false} NormalizedSegments(segments: seq<Segment>, manifest: Manifest, h: Hashing)
    ensures forall k :: 0 <= k < |segments| ==>
      var s, r := segments[k], NormalSegments(segments, manifest, h)[k];
      && r.manifest == manifest && r.body == s.body && r.corrections == s.corrections
      && r.id == if s.manifest == manifest && manifest.mediaId != "" && s.id != "" then s.id else h.segmentId(manifest, s.body)
  {
  }

  lemma {:induction false} SegmentsThereAndBack(segments: seq<SegmentRow>, legacy: bool)
    ensures SegmentRows(SegmentsFromRows(segments), legacy) == segments
       <==> forall k :: 0 <= k < |segments| ==> segments[k].corrections.None? == legacy
  {
    var again := SegmentRows(SegmentsFromRows(segments), legacy);
    if forall k :: 0 <= k < |segments| ==> segments[k].corrections.None? == legacy {
      forall k | 0 <= k < |segments| ensures again[k] == segments[k] { }
    }
    if again == segments {
      forall k | 0 <= k < |segments| ensures segments[k].corrections.None? == legacy { assert again[k] == segments[k]; }
    }
  }

  lemma {:induction false} ContentThereAndBack(row: RowContent, h: Hashing)
    requires Written(row, h)
    ensures FromRow(row, h).Some?
    ensures ToRow(FromRow(row, h).value, ProfileOf(row)) == row <==> Uniform(row)
  {
    hide KNOWN_TYPES, COLLECTION_TYPES, StableMembers;
    if row.TranscriptRow? { SegmentsThereAndBack(row.segments, ProfileOf(row).LegacyTranscript?); }
  }

  /** Reading a stored row and writing it again reproduces it exactly when the row is of one age throughout. */
  lemma {:induction false} RowRoundTrip(row: Row, h: Hashing)
    requires Written(row.content, h) && row.hash != ""
    ensures Deserialize(row, h).Some?
    ensures Serialize(Deserialize(row, h).value) == row <==> Uniform(row.content)
    ensures Deserialize(row, h).value.hash == row.hash
    ensures Uniform(row.content) ==> IdentityOf(Deserialize(row, h).value) == RowIdentity(row)
  {
    hide ToRow, Uniform, Written, KNOWN_TYPES, COLLECTION_TYPES, StableMembers;
    ContentThereAndBack(row.content, h);
    if Uniform(row.content) { IdentityOfRow(row, h); }
  }

  lemma {:induction false} IdentityOfRow(row: Row, h: Hashing)
    requires Written(row.content, h) && row.hash != "" && Uniform(row.content)
    ensures Deserialize(row, h).Some? && IdentityOf(Deserialize(row, h).value) == RowIdentity(row)
  {
    hide KNOWN_TYPES, COLLECTION_TYPES, StableMembers;
    ContentThereAndBack(row.content, h);
  }

  /** A transcript of mixed age loses the corrections of its newer segments. */
  lemma {:induction false} MixedTranscriptLosesCorrections(early: SegmentRow, late: SegmentRow, h: Hashing, row: Row)
    requires early.corrections == None && late.corrections.Some?
    requires row.content == TranscriptRow(late.manifest, [early, late]) && row.hash != ""
    ensures Deserialize(row, h).Some?
    ensures var again := Serialize(Deserialize(row, h).value).content;
      again.TranscriptRow? && |again.segments| == 2 && again.segments[1].corrections == None && again != row.content
  {
    assert row.content.segments[0].corrections.None?;
    assert ProfileOf(row.content) == LegacyTranscript;
    var again := Serialize(Deserialize(row, h).value).content;
    assert again.segments[1].corrections == None && row.content.segments[1] == late;
  }

  /** A row is read exactly when its type is known; a hash that it has is kept, and one that it lacks is computed. */
  lemma {:induction false} ReadExactlyWhen(row: Row, h: Hashing)
    ensures Deserialize(row, h).None? <==>
      || (row.content.CollectionRow? && row.content.kind !in COLLECTION_TYPES)
      || (row.content.OtherRow? && row.content.kind !in KNOWN_TYPES)
    ensures Deserialize(row, h).Some? ==>
      var a := Deserialize(row, h).value;
      && a.id == row.id && a.createdAt == row.createdAt && a.body == row.body
      && (row.hash != "" ==> a.hash == row.hash) && (row.hash == "" ==> a.hash == h.digest(IdentityOf(a)))
  {
    hide KNOWN_TYPES, COLLECTION_TYPES, ProfileOf, NewCollection, NormalSegments;
  }

  /**
   * What a row looks like when it has been read and written again. A frame is as it was. An OCR row without any later field
   * stays without them; with one of them it gets all. The segments of a transcript keep their corrections exactly when none
   * of them lacks the field, and otherwise all lose it.
   */
  ghost predicate IsRewritten(before: RowContent, after: RowContent) {
    match before
    case FrameRow(_, _) => after == before
    case OcrRow(requested, actual, runtime) =>
      if requested == None && actual == None && runtime == None then after == before
      else after == OcrRow(Some(OrEmpty(requested)), Some(OrEmpty(actual)), Some(OrEmpty(runtime)))
    case TranscriptRow(manifest, segments) =>
      && after.TranscriptRow? && after.manifest == manifest && |after.segments| == |segments|
      && (forall k :: 0 <= k < |segments| ==> after.segments[k].manifest == manifest && after.segments[k].body == segments[k].body)
      && (if exists s :: s in segments && s.corrections == None
          then forall k :: 0 <= k < |segments| ==> after.segments[k].corrections == None
          else forall k :: 0 <= k < |segments| ==> after.segments[k].corrections == segments[k].corrections)
    case CollectionRow(kind, members) => after == CollectionRow(kind, StableMembers(members, CollectionKey(kind)))
    case OtherRow(_) => after == before
  }

  lemma {:induction false} RewrittenRow(row: Row, h: Hashing)
    requires Deserialize(row, h).Some?
    ensures IsRewritten(row.content, Serialize(Deserialize(row, h).value).content)
  {
    hide KNOWN_TYPES, COLLECTION_TYPES, StableMembers;
    if row.content.TranscriptRow? {
      LacksCorrections(row.content.segments);
      RewrittenSegments(row.content.segments, row.content.manifest, h);
    }
  }

  lemma {:induction false} RewrittenSegments(segments: seq<SegmentRow>, manifest: Manifest, h: Hashing)
    ensures var legacy := exists s :: s in segments && s.corrections == None;
      var again := SegmentRows(NormalSegments(SegmentsFromRows(segments), manifest, h), legacy);
      forall k :: 0 <= k < |segments| ==>
        && again[k].manifest == manifest && again[k].body == segments[k].body
        && again[k].corrections == if legacy then None else segments[k].corrections
  {
    NormalizedSegments(SegmentsFromRows(segments), manifest, h);
    assert forall k :: 0 <= k < |segments| ==> segments[k] in segments;
  }

  lemma {:induction false} LacksCorrections(segments: seq<SegmentRow>)
    ensures (exists k :: 0 <= k < |segments| && segments[k].corrections.None?) <==> exists s :: s in segments && s.corrections == None
  {
    if k :| 0 <= k < |segments| && segments[k].corrections.None? { assert segments[k] in segments; }
  }

  /** What the constructors guarantee of an artifact in memory. */
  ghost predicate Constructed(a: Artifact, h: Hashing) {
    && a.hash != ""
    && match a.content
       case Frame(_, plannerRequest) => a.profile.LegacyFrame? ==> plannerRequest == ""
       case Ocr(requested, actual, runtime) => a.profile.LegacyOcr? ==> requested == actual == runtime == ""
       case Transcript(manifest, segments) => NormalSegments(segments, manifest, h) == segments
       case Collection(kind, members) => kind in COLLECTION_TYPES && StableMembers(members, CollectionKey(kind)) == members
       case Other(kind) => kind in KNOWN_TYPES
  }

  /** The profile shows in the row: it is the current one, or the legacy one of the type with nothing to lose. */
  ghost predicate ProfileShows(a: Artifact) {
    match a.profile
    case Current => true
    case LegacyFrame => a.content.Frame?
    case LegacyOcr => a.content.Ocr?
    case LegacyTranscript =>
      && a.content.Transcript? && a.content.segments != []
      && forall k :: 0 <= k < |a.content.segments| ==> a.content.segments[k].corrections == ""
  }

  lemma {:induction false} SegmentsBackAndThere(segments: seq<Segment>, legacy: bool)
    ensures SegmentsFromRows(SegmentRows(segments, legacy)) == segments
       <==> (legacy ==> forall k :: 0 <= k < |segments| ==> segments[k].corrections == "")
  {
    var again := SegmentsFromRows(SegmentRows(segments, legacy));
    if legacy ==> forall k :: 0 <= k < |segments| ==> segments[k].corrections == "" {
      forall k | 0 <= k < |segments| ensures again[k] == segments[k] { }
    }
    if again == segments && legacy {
      forall k | 0 <= k < |segments| ensures segments[k].corrections == "" { assert again[k] == segments[k]; }
    }
  }

  /** Writing an artifact and reading it back gives it again, exactly when its profile shows in the row. */
  lemma {:induction false} ArtifactRoundTrip(a: Artifact, h: Hashing)
    requires Constructed(a, h)
    ensures Deserialize(Serialize(a), h) == Some(a) <==> ProfileShows(a)
  {
    hide KNOWN_TYPES, COLLECTION_TYPES, StableMembers;
    var row := Serialize(a).content;
    if a.content.Transcript? {
      TranscriptBackAndThere(a, h);
    }
  }

  lemma {:induction false} TranscriptBackAndThere(a: Artifact, h: Hashing)
    requires Constructed(a, h) && a.content.Transcript?
    ensures Deserialize(Serialize(a), h) == Some(a) <==> ProfileShows(a)
  {
    var segments, legacy := a.content.segments, a.profile.LegacyTranscript?;
    var rows := SegmentRows(segments, legacy);
    SegmentsBackAndThere(segments, legacy);
    assert ProfileOf(TranscriptRow(a.content.manifest, rows)) == if legacy && segments != [] then LegacyTranscript else Current by {
      if legacy && segments != [] { assert rows[0].corrections.None?; }
    }
    var again := SegmentsFromRows(rows);
    if legacy && segments != [] && again != segments {
      CorrectionsStayLost(segments, a.content.manifest, h);
    }
  }

  lemma {:induction false} CorrectionsStayLost(segments: seq<Segment>, manifest: Manifest, h: Hashing)
    requires SegmentsFromRows(SegmentRows(segments, true)) != segments
    ensures NormalSegments(SegmentsFromRows(SegmentRows(segments, true)), manifest, h) != segments
  {
    var again := SegmentsFromRows(SegmentRows(segments, true));
    SegmentsBackAndThere(segments, true);
    var k :| 0 <= k < |segments| && segments[k].corrections != "";
    assert NormalSegments(again, manifest, h)[k].corrections == "";
  }

  /** Where a current frame is stored does not change its identity; a legacy frame is bound to it. */
  lemma {:induction false} StorageOutsideIdentity(a: Artifact, storageRef: string)
    requires a.content.Frame?
    ensures IdentityOf(a.(content := a.content.(storageRef := storageRef))) == IdentityOf(a)
       <==> (a.profile.LegacyFrame? ==> storageRef == a.content.storageRef)
  {
  }

  // ----- The identity of a set-valued artifact -----

  /** The members that are kept are the least of their keys. */
  lemma {:induction false} KeptMeansLeast(values: seq<Member>, key: Member -> string, m: Member)
    requires JsonIdentifies(values)
    ensures m in StableMembers(values, key) <==> IsLeast(m, values, key)
  {
    hide StableMembers, StrictlyKeyed, JsonIdentifies;
    MembershipIsLeastPerKey(values, key);
    if IsLeast(m, values, key) {
      var f := Keyed(StableMembers(values, key), key, key(m));
      LeastIsUnique(m, f, values, key);
    }
  }

  lemma {:induction false} SameMembersExactly(values: seq<Member>, others: seq<Member>, key: Member -> string)
    requires JsonIdentifies(values) && JsonIdentifies(others)
    ensures StableMembers(values, key) == StableMembers(others, key)
       <==> forall m :: IsLeast(m, values, key) <==> IsLeast(m, others, key)
  {
    hide StableMembers, IsLeast, JsonIdentifies, StrictlyKeyed;
    forall m
      ensures m in StableMembers(values, key) <==> IsLeast(m, values, key)
      ensures m in StableMembers(others, key) <==> IsLeast(m, others, key)
    {
      KeptMeansLeast(values, key, m);
      KeptMeansLeast(others, key, m);
    }
    MembershipIsLeastPerKey(values, key);
    MembershipIsLeastPerKey(others, key);
    if forall m :: IsLeast(m, values, key) <==> IsLeast(m, others, key) {
      StrictlyKeyedUnique(StableMembers(values, key), StableMembers(others, key), key);
    }
  }

  /** Two set-valued artifacts that differ in their members alone have one identity exactly when they keep the same members. */
  lemma {:induction false} CollectionIdentity(a: Artifact, kind: string, values: seq<Member>, others: seq<Member>)
    requires JsonIdentifies(values) && JsonIdentifies(others)
    ensures var left, right := a.(content := NewCollection(kind, values)), a.(content := NewCollection(kind, others));
      IdentityOf(left) == IdentityOf(right)
      <==> forall m :: IsLeast(m, values, CollectionKey(kind)) <==> IsLeast(m, others, CollectionKey(kind))
  {
    hide StableMembers, IsLeast, JsonIdentifies, CollectionKey;
    SameMembersExactly(values, others, CollectionKey(kind));
  }

  /**
   * The order and the repetition of the members never change the identity; when members are keyed by their payload, only
   * the same members give the same identity.
   */
  lemma {:induction false} IdentityIsTheMemberSet(a: Artifact, kind: string, values: seq<Member>, others: seq<Member>)
    requires JsonIdentifies(values) && JsonIdentifies(others)
    ensures var left, right := a.(content := NewCollection(kind, values)), a.(content := NewCollection(kind, others));
      && ((forall m :: m in values <==> m in others) ==> IdentityOf(left) == IdentityOf(right))
      && (kind == "verification" || kind == "knowledge_visual_evidence" ==>
            (IdentityOf(left) == IdentityOf(right) <==> forall m :: m in values <==> m in others))
  {
    hide StableMembers, JsonIdentifies, NewCollection, IsLeast;
    CollectionIdentity(a, kind, values, others);
    var key := CollectionKey(kind);
    if forall m :: m in values <==> m in others {
      forall m ensures IsLeast(m, values, key) <==> IsLeast(m, others, key) {
        if IsLeast(m, values, key) { LeastElsewhere(m, values, others, key); }
        if IsLeast(m, others, key) { LeastElsewhere(m, others, values, key); }
      }
    }
    if kind == "verification" || kind == "knowledge_visual_evidence" {
      forall m
        ensures IsLeast(m, values, key) <==> m in values
        ensures IsLeast(m, others, key) <==> m in others
      {
        LeastOfPayload(m, values);
        LeastOfPayload(m, others);
      }
    }
  }

  lemma {:induction false} LeastOfPayload(m: Member, values: seq<Member>)
    ensures IsLeast(m, values, Json) <==> m in values
  {
    forall other | other in values && Json(other) == Json(m) ensures StringLe(m.json, other.json) {
      StringLeTotal(m.json, other.json);
    }
  }
}
