# Verification of the content pipeline

A Dafny model of the parts of the content service that decide something over many steps: leased and fenced dispatch,
transcript coverage and selection, editing a partition of topics, lineage, resuming a pipeline, content-addressed
artifacts, pruning of ambiguities, and the state machines for publication, verification and retention.
`dafny verify dfyconfig.toml` checks the whole project.

Methods and classes follow the code that changes state step by step; each is proved against a function or a
set-theoretic description, and the lemmas are about those. Times are whole milliseconds or seconds, and model answers,
clocks, crashes and the schedule are parameters: every statement holds for all of them.

## Components

- `Chapter` groups transcript segments into chapters greedily, and shows that no partition needs fewer.
- `TranscriptQuality` and `TranscriptSelection` measure coverage with one sweep and choose a transcript in tiers. The
  reported coverage is exact only while every segment starts within the recording: the sweep clips ends, not starts.
  The returned transcript does not depend on the order of the candidates; the language of the report that is raised when
  nothing can be selected does, unless the candidates it may name share one (`ReportIgnoresOrderExactlyWhen`).
- `Ambiguity` keeps the narrowest unresolved items and builds the review list.
- `TopicRepair` (the specification), `TopicDraft` (the list edits), `TopicEdits`, `TopicConservation`, `TopicEffect`
  and `TopicValidation` cover the repair of a knowledge preview and the validators around it.
- `Lineage` covers the two recursions with path-local cycle detection.
- `Registry`, `PipelineResume` and `PipelineConvergence` cover active slots, checkpoints, and resuming. A checkpoint
  that failed after its stage had once succeeded keeps its failed row, because the receipt of the stage suppresses the
  later write; this only happens behind a stage that is never restored, and does not change where a run ends.
- `Artifacts` covers set membership, what the identity of a set-valued artifact depends on, and the round trip of
  current and legacy rows.
- `Outbox` is the transition system of tasks, effects and dispatch; `OutboxStore` has one method per transaction,
  `OutboxSafety` what every run keeps, `OutboxLeases` what leases and waits mean in time and when each transaction
  happens, `OutboxRuns` what follows. The dispatcher's documentation says that projections
  are dispatched only after their task has completed. The claim query does not check this. Counts, limits and waits
  hold in every run (`RunsKeepTracked`); the order of the calls for a row needs only that the task's fence is never put
  below the generation of this row while it is claimed (`NeverUnsettled`), which follows when rows are claimed after
  their task (`Disciplined`). `UnsettledRowMayRepeat` and `TokenRepeatsWhileTaskRuns` show what is lost without it.
- `Verification`, `Publication` and `Retention` cover the three services of these names. The bound on provider calls
  needs answers that decide: an answer of pending, or one that is not required, leaves the claim due. Tombstone ids join
  their facts with a separator, so facts that contain it can share an id (`SharedId`).
- `Ordering` and `IndexSets` hold stable sorting, the order on strings, and ascending sequences of integers.

## Model

Rows that begin with "Supporting fact" are short consequences that connect the others.

| member | source | states |
|---|---|---|
| Chapter.GroupSegments | src/stock_content/domain/chapter.py:20-33 | The groups concatenate to the input, none is empty, no later segment of a group ends beyond the target measured from its first start, and a group is closed only because the next segment did not fit. |
| Chapter.SegmentChapters | src/stock_content/domain/chapter.py:34-47 | One chapter per group, in order: index, the first 240 characters of the joined text as the summary (all of a shorter one), start of the first and end of the last segment. |
| Chapter.GreedyIsOptimal | src/stock_content/domain/chapter.py:20-33 | For non-decreasing starts and ends, no other contiguous partition whose multi-segment chapters meet the target uses fewer chapters. |
| Chapter.GreedyIsUnique | src/stock_content/domain/chapter.py:20-33 | What the grouping promises determines the chapters: any two such partitions are equal. |
| Chapter.JoinOfParts | src/stock_content/domain/chapter.py:34-40 | Supporting fact: the joined text of a chapter is that of its parts with one blank between them. |
| TranscriptQuality.Sweep | src/stock_content/application/transcript_quality_service.py:40-52 | The one-pass union is the exact set of covered milliseconds, separated and ascending, and the counted overlap is what the clipped lengths exceed the union by. |
| TranscriptQuality.IsMonotonic | src/stock_content/application/transcript_quality_service.py:37-39 | The flag is set exactly for input in key order whose neighbours do not overlap. |
| TranscriptQuality.MeasureCoverage | src/stock_content/application/transcript_quality_service.py:40-59 | Covered plus overlap is the sum of the clipped lengths; with all starts inside the recording the largest gap is the longest uncovered run. |
| TranscriptQuality.HardFactsKept | src/stock_content/application/transcript_quality_service.py:60-69 | The preservation ratio is one exactly when the multiset of hard-fact tokens of the raw text is contained in that of the normalised text. |
| TranscriptQuality.OutOfBoundsReasons | src/stock_content/application/transcript_quality_service.py:41-44 | A segment is reported out of bounds exactly when some segment ends after the recording. |
| TranscriptQuality.Evaluate | src/stock_content/application/transcript_quality_service.py:19-91 | The whole report: figures, sorted reasons and status; a duration that is not positive is rejected. |
| TranscriptQuality.CoverageIsMeasure | src/stock_content/application/transcript_quality_service.py:41-53 | The reported coverage is the number of covered milliseconds exactly when every segment starts within the recording; only the end of an interval is clipped. |
| TranscriptQuality.LateStartExample | src/stock_content/application/transcript_quality_service.py:41-53 | Supporting fact: a segment behind the end of the recording makes the reported coverage negative. |
| TranscriptQuality.InBoundsAccounting | src/stock_content/application/transcript_quality_service.py:45-59 | In bounds: coverage is the exact measure, the sum of lengths is coverage plus overlap, and the largest gap is the longest uncovered run. |
| TranscriptQuality.GapsComplementUnion | src/stock_content/application/transcript_quality_service.py:53-59 | Coverage plus the sum of the gaps is the duration. |
| TranscriptQuality.MaxGapIsLongestRun | src/stock_content/application/transcript_quality_service.py:54-59 | The largest gap is an uncovered run and no uncovered run is longer. |
| TranscriptQuality.PreservedMeansMultiset | src/stock_content/application/transcript_quality_service.py:60-63 | Counting token by token is multiset containment. |
| TranscriptQuality.PassMeans | src/stock_content/application/transcript_quality_service.py:64-78 | The status is PASS exactly when the segments are ordered, disjoint, in bounds, cover at least 90% and keep every hard fact. |
| TranscriptQuality.ReasonsMean | src/stock_content/application/transcript_quality_service.py:36-78 | Each reason is reported exactly for its cause: an end behind the recording, a wrong order or overlap of neighbours, less than 90% coverage, a lost hard fact; only coverage alone asks for another recognition. |
| TranscriptQuality.KeyOrderMeans | src/stock_content/application/transcript_quality_service.py:23-37 | Supporting fact: segments are ordered by the first field in which they differ: start, end, artifact, raw text, normalised text. |
| TranscriptSelection.Gaps | src/stock_content/application/transcript_selection_service.py:88-98 | The loop returns the gap list of the specification. |
| TranscriptSelection.GapsAreComplement | src/stock_content/application/transcript_selection_service.py:88-98 | For ordered segments the gaps are ascending, disjoint and not empty, and hold exactly the uncovered milliseconds of the recording. |
| TranscriptSelection.AddedExactlyWhen | src/stock_content/application/transcript_selection_service.py:64-75 | A piece of speech is added exactly when no subtitle covers any part of it, and it does not go on past both the recording and the start of every subtitle. |
| TranscriptSelection.FillExtendsCoverage | src/stock_content/application/transcript_selection_service.py:64-80 | Filling keeps every subtitle segment and adds only whole pieces of the speech track; the result is ordered, disjoint and in bounds, and its coverage grows by exactly the lengths added. |
| TranscriptSelection.SelectFromGroup | src/stock_content/application/transcript_selection_service.py:45-54 | The search loop with its early returns takes the decision of the specification for one group. |
| TranscriptSelection.FillGaps | src/stock_content/application/transcript_selection_service.py:56-83 | The two nested loops over subtitles and aligned speech take the decision of the specification. |
| TranscriptSelection.Select | src/stock_content/application/transcript_selection_service.py:34-86 | The returned transcript or the raised report is that of the decision, which `DecisionFollowsTiers` describes by what passes and what does not. |
| TranscriptSelection.DecisionFollowsTiers | src/stock_content/application/transcript_selection_service.py:34-86 | From what fails of each candidate: the least official Chinese subtitle that passes or fails for more than coverage decides; without one the least passing Chinese automatic subtitle, then the least passing speech transcript, then the first passing fill; the failure is raised exactly when nothing passes, fills included, in the language of the first official Chinese candidate or else of the first one. |
| TranscriptSelection.GroupsByFields | src/stock_content/application/transcript_selection_service.py:35-43 | Supporting fact: the groups by source and by the first two letters of the language in either case. |
| TranscriptSelection.OfficialAuthority | src/stock_content/application/transcript_selection_service.py:35-54 | Returning anything but an unaugmented official subtitle implies that every official Chinese candidate failed for coverage alone. |
| TranscriptSelection.SelectedPasses | src/stock_content/application/transcript_selection_service.py:49-50 | A returned transcript has status PASS: it is ordered, disjoint, in bounds, at least 90% complete, and keeps every hard fact. |
| TranscriptSelection.OrderIndependence | src/stock_content/application/transcript_selection_service.py:45-86 | With distinct ids every order of the candidates returns the same transcript or rejects the same official candidate; when nothing passes, two orders raise the same report exactly when their first official Chinese candidates have one language, or, with none, their first candidates do. |
| TranscriptSelection.ReportIgnoresOrderExactlyWhen | src/stock_content/application/transcript_selection_service.py:84-86 | When nothing passes, the raised report is the same for every order exactly when all official Chinese candidates have one language, or, with none, all candidates do. |
| TranscriptSelection.TwoOfficialsExample | src/stock_content/application/transcript_selection_service.py:84-86 | Two official Chinese candidates without segments: the report names the language of whichever comes first. |
| Ambiguity.GranularUnresolvedItems | src/stock_content/domain/ambiguity_resolution.py:44-95 | The method computes the specification of the selection. |
| Ambiguity.CollectCandidates | src/stock_content/domain/ambiguity_resolution.py:54-69 | The valid items with their coordinates as ascending sets. |
| Ambiguity.SelectNarrowest | src/stock_content/domain/ambiguity_resolution.py:79-94 | The loop with its set of exact duplicates selects what the comparison with earlier items alone selects. |
| Ambiguity.SelectionIsMinimalCover | src/stock_content/domain/ambiguity_resolution.py:44-95 | No two selected items of a kind compare, each comes from a valid item, and every valid item is covered by a selected one. |
| Ambiguity.SelectedPairsAreMinimal | src/stock_content/domain/ambiguity_resolution.py:44-95 | A kind and coordinate set is selected exactly when it is inclusion-minimal among the valid items. |
| Ambiguity.SelectionIgnoresOrder | src/stock_content/domain/ambiguity_resolution.py:71-95 | The selected kinds and coordinate sets depend only on the set of items. |
| Ambiguity.GranularIdempotent | src/stock_content/domain/ambiguity_resolution.py:44-95 | Selecting from a selection returns it, item by item and in order. |
| Ambiguity.PendingAreSelected | src/stock_content/domain/ambiguity_resolution.py:53-95 | By the recorded status, kind and indices: every pending item has a selected one of its kind with no other indices, and every selected one is a pending one with ascending indices. |
| Ambiguity.SelectedHasLeastText | src/stock_content/domain/ambiguity_resolution.py:71-94 | Among items of one kind with the same indices the selected one has the least text. |
| Ambiguity.DeduplicatedItems | scripts/reconcile_local_knowledge_preview.py:52-76 | The method computes the specification of the review list. |
| Ambiguity.ReviewListParts | scripts/reconcile_local_knowledge_preview.py:52-76 | The unresolved part of the list is the selection, the resolved part the first item of every key in review order. |
| Ambiguity.DeduplicatedIdempotent | scripts/reconcile_local_knowledge_preview.py:52-76 | Deduplicating a review list returns it. |
| Ambiguity.ResolvedAreListedOnce | scripts/reconcile_local_knowledge_preview.py:52-70 | Every finished review of the input is in the list, those that say the same about the same indices once, and nothing else but the selection is. |
| Ambiguity.ReviewListIsOrdered | scripts/reconcile_local_knowledge_preview.py:69-76 | The list ascends by the least index, with pending before finished and then by kind. |
| TopicRepair.Validate | scripts/repair_local_coherent_knowledge_preview.py:157-216 | A repair specification is accepted exactly when positions, groups, merges and their exclusions are as required. |
| TopicRepair.ValidateDrops | scripts/repair_local_coherent_knowledge_preview.py:165-175 | Drops are in range, distinct, and none is repaired. |
| TopicRepair.ValidateSplits | scripts/repair_local_coherent_knowledge_preview.py:176-198 | Splits address different untouched cards and partition their topics into at least two groups. |
| TopicRepair.ValidateMerges | scripts/repair_local_coherent_knowledge_preview.py:199-212 | Merges take at least two ascending positions, disjoint from the drops and from each other. |
| TopicDraft.Draft.ApplyTopicRepairs | scripts/repair_local_coherent_knowledge_preview.py:221-243 | The in-place topic repairs end in the state of the specification, or report the error where it does. |
| TopicDraft.Draft.AcceptRepairedCards | scripts/repair_local_coherent_knowledge_preview.py:256-263 | Answers replace their cards only if they keep the topic coordinates. |
| TopicDraft.Draft.Drop | scripts/repair_local_coherent_knowledge_preview.py:280-285 | Popping in descending order leaves the list without the dropped positions and excludes exactly their topics. |
| TopicDraft.Draft.MergeAt | scripts/repair_local_coherent_knowledge_preview.py:287-319 | The pops at shifted positions remove the merged cards, and the answers come in by first topic. |
| TopicDraft.Draft.SplitAt | scripts/repair_local_coherent_knowledge_preview.py:339-345 | Each split card is replaced in place by its answers when these keep its topics. |
| TopicDraft.FileAnswers | scripts/repair_local_coherent_knowledge_preview.py:334-338 | Each answer stands in the slot of its split job, and other slots stay empty. |
| TopicDraft.FilingIgnoresOrder | scripts/repair_local_coherent_knowledge_preview.py:334-338 | Once all split jobs have completed every slot is filled, the same for every completion order. |
| TopicDraft.Draft.InsertGroups | scripts/repair_local_coherent_knowledge_preview.py:347-387 | Groups of excluded topics are checked, inserted in completion order, and taken off the exclusions. |
| TopicDraft.Draft.InsertBeforeLarger | scripts/repair_local_coherent_knowledge_preview.py:377-386 | The search and insertion put the card before the first larger first topic, and fail on a card without topics before that. |
| TopicDraft.Draft.Apply | scripts/repair_local_coherent_knowledge_preview.py:218-387 | All phases together end in the state of the specification, or fail where it does. |
| TopicEdits.EditAt | scripts/repair_local_coherent_knowledge_preview.py:280-345 | The card at the shifted index is the originally addressed one, and replacing it there edits its original position only. |
| TopicEdits.AdjustedPosition | scripts/repair_local_coherent_knowledge_preview.py:309-342 | When only drops precede a position, the position less the drops below it is its shifted index. |
| TopicDraft.PopAdjusted | scripts/repair_local_coherent_knowledge_preview.py:309-311 | Popping at the adjusted position removes exactly the originally addressed card. |
| TopicDraft.ReplaceAdjusted | scripts/repair_local_coherent_knowledge_preview.py:339-345 | Replacing at the adjusted position replaces exactly the originally addressed card. |
| TopicConservation.TopicRepairsConserve | scripts/repair_local_coherent_knowledge_preview.py:221-243 | Topic repairs move topics between cards and exclusions without losing or repeating one. |
| TopicConservation.MergeConserves | scripts/repair_local_coherent_knowledge_preview.py:287-319 | The merged cards hold exactly the topics of the cards they replace. |
| TopicConservation.SplitConserves | scripts/repair_local_coherent_knowledge_preview.py:339-345 | The split cards hold exactly the topics of the cards they replace. |
| TopicConservation.InsertsConserve | scripts/repair_local_coherent_knowledge_preview.py:347-387 | Inserted cards hold exactly the topics taken off the exclusions. |
| TopicConservation.RepairConserves | scripts/repair_local_coherent_knowledge_preview.py:157-387 | A run that ends without an error keeps the multiset of all topics, cards and exclusions together. |
| TopicConservation.RepairKeepsPartition | scripts/repair_local_coherent_knowledge_preview.py:157-387 | An exact partition of 0..n-1 stays an exact partition of 0..n-1. |
| TopicConservation.CompletionOrderIrrelevant | scripts/repair_local_coherent_knowledge_preview.py:244-387 | The result, and whether there is one, is the same for every completion order of the concurrent jobs, those of the splits as they are filed in their slots. |
| TopicConservation.SplitOrderIrrelevant | scripts/repair_local_coherent_knowledge_preview.py:320-345 | Split jobs that complete in another order are filed into the same cards. |
| TopicEdits.InsertionOrderIrrelevant | scripts/repair_local_coherent_knowledge_preview.py:363-387 | On any list, insertions with different first topics give one list in every order, and fail in every order or in none. |
| TopicConservation.InsertsStayInOrder | scripts/repair_local_coherent_knowledge_preview.py:347-387 | On a list sorted by first topic the phase succeeds exactly when groups and answers are valid, and the list stays sorted. |
| TopicEffect.RepairEditsTheList | scripts/repair_local_coherent_knowledge_preview.py:218-387 | The cards after a successful run are those of the old list with every repaired, dropped, merged and split card replaced by its answers, together with the merged and inserted answers; without merges and insertions they are that list in order; each repair answer has the topics it was asked for. |
| TopicEffect.ExcludedIsTheRest | scripts/repair_local_coherent_knowledge_preview.py:218-387 | Afterwards exactly the topics without a card are excluded. |
| TopicEffect.RepairSucceedsExactlyWhen | scripts/repair_local_coherent_knowledge_preview.py:218-387 | On cards with topics an accepted specification succeeds exactly when its topic repairs do, every answer has the topics asked for, split answers hold the topics of their cards, and insertions are proper, disjoint and made of excluded or dropped topics. |
| TopicEffect.TopicRepairMeans | scripts/repair_local_coherent_knowledge_preview.py:221-243 | A topic repair is allowed exactly for ascending topics of the card, or excluded ones within its range; it changes that card alone, and excludes exactly what is then without it. |
| TopicEffect.TopicRepairsJoin | scripts/repair_local_coherent_knowledge_preview.py:221-243 | Supporting fact: topic repairs in a row are one after the other. |
| TopicValidation.ValidateTopicMap | scripts/build_local_coherent_knowledge_preview.py:81-97 | A topic map is accepted exactly when hashes and count are as given and its non-empty topics follow one another and hold every row and no other; a wrong provenance is reported as such, and only a map of a proper prefix as not covering. |
| TopicValidation.RowHasOneTopic | scripts/build_local_coherent_knowledge_preview.py:89-97 | Supporting fact: in an accepted map a row has one topic. |
| TopicValidation.SortedRangeTest | scripts/build_local_coherent_knowledge_preview.py:1142-1143 | Comparing the sorted list with the range tests that every number occurs exactly once. |
| TopicValidation.ValidateGroupPlan | scripts/build_local_coherent_knowledge_preview_v2.py:91-113 | A plan is accepted exactly when its groups are proper, cover each topic once with the exclusions, and their first topics increase strictly. |
| TopicValidation.ValidateCoverage | scripts/build_local_coherent_knowledge_preview.py:1015-1143 | The coverage check accepts exactly the proper exact partitions. |
| TopicValidation.RepairedPreviewValidates | scripts/repair_local_coherent_knowledge_preview.py:218-387 | After a repair of a partition only an empty list or an unordered answer can still fail that check. |
| Lineage.LineageReader.ArtifactTree | src/stock_content/application/service.py:955-983 | The recursion ends on every store, returns the tree of the specification, and appends exactly the problems of the specification. |
| Lineage.LineageReader.ArtifactParentTrees | src/stock_content/application/service.py:971-979 | The loop over the parents collects all their trees or too few, and their problems in order. |
| Lineage.LineageReader.SnapshotTree | src/stock_content/application/service.py:991-1034 | The recursion over parent and superseded snapshots returns the tree of the same specification and appends its problems. |
| Lineage.LineageReader.SnapshotParentTrees | src/stock_content/application/service.py:1015-1027 | The loop over the two parents collects all their trees or too few, and reports a missing one. |
| Lineage.NoArtifactProblems | src/stock_content/application/service.py:955-983 | The artifact recursion reports a problem exactly when it returns no tree. |
| Lineage.NoSnapshotProblems | src/stock_content/application/service.py:991-1034 | The snapshot recursion reports a problem exactly when it returns no tree. |
| Lineage.LineageReader.GetSnapshotLineage | src/stock_content/application/service.py:948-1044 | The report is complete exactly when every descent through recorded parents from a slot, and every descent of the snapshot through its parent and superseded fields, stays among what is stored and never comes back; only then it shows trees, one per slot in the order of the names with the recorded parents of every node, and otherwise exactly the problems found. |
| Lineage.TreeExactlyWhenComplete | src/stock_content/application/service.py:955-983 | There is a tree exactly when everything reachable is stored and nothing reachable lies on a cycle. |
| Lineage.NodesAreReachable | src/stock_content/application/service.py:955-983 | The nodes of the tree are exactly the reachable ids. |
| Lineage.ParentsOfSnapshot | src/stock_content/application/service.py:1009-1014 | A snapshot descends exactly from what its parent and superseded fields name, each once, the parent first. |
| Lineage.ParentsOfArtifact | src/stock_content/application/service.py:971-974 | An artifact descends exactly from its recorded parents, each once and strictly ascending. |
| Lineage.TreeFollowsParents | src/stock_content/application/service.py:955-983 | Every node of a tree shows the recorded parents of its id, in their order. |
| Lineage.ArtifactBreaksAreReported | src/stock_content/application/service.py:955-983 | No problem is left out: each descent from a slot that comes back is reported as that cycle, and each that leaves the stored artifacts with the missing id and what names it. |
| Lineage.SnapshotBreaksAreReported | src/stock_content/application/service.py:991-1034 | The same for the descents of the snapshot. |
| Lineage.ArtifactProblemsAreReal | src/stock_content/application/service.py:955-983 | Conversely a reported cycle is a descent that comes back, and a reported missing artifact is not stored and named by the one reported with it. |
| Lineage.SnapshotProblemsAreReal | src/stock_content/application/service.py:991-1034 | The same for snapshots. |
| Registry.ArtifactRegistry.Add | src/stock_content/domain/artifacts.py:803-820 | Appends a visual artifact, ignores a known one, and raises for a clash, a wrong type or an unknown slot. |
| Registry.ArtifactRegistry.Set | src/stock_content/domain/artifacts.py:763-801 | Fills a slot with the checks of its kind. |
| Registry.SlotIsFilledExactlyWhen | src/stock_content/domain/artifacts.py:763-801 | A slot takes an artifact exactly when it is a newer one of that type whose own content does not clash, or a legacy one and no active content clashes; then it alone changes. |
| Registry.VisualIsKnownExactlyWhen | src/stock_content/domain/artifacts.py:803-820 | A visual list takes an artifact exactly when it has the type of the list and no active content clashes; it is appended once, and nothing else changes. |
| Registry.OneContentExactlyWhenNoClash | src/stock_content/domain/artifacts.py:763-801 | Filling a slot keeps one content per id exactly when nothing active clashes with the new artifact. |
| Registry.NewerSlotMayClash | src/stock_content/domain/artifacts.py:764-783 | A newer slot accepts an artifact whose id is active elsewhere with other content. |
| PipelineResume.Worker.Process | src/stock_content/application/pipeline.py:230-275 | With distinct names the validated leading stages are skipped and the others executed in order; a failed validation executes nothing. |
| PipelineResume.Worker.ExecuteStage | src/stock_content/application/stage_runner.py:66-158 | One stage with its checkpoint, for every outcome. It changes nothing when an input is missing or the process dies before it; when it raises or delivers something undeclared, exactly its failed row is left, with its input ids and hashes; when it delivers, its receipt, row and outputs are, unless another receipt or content stands in the way. |
| PipelineResume.FirstStageDecides | src/stock_content/application/stage_runner.py:66-125 | The same for the run from any stage on: what the first executed stage runs into decides what the tables are left with. |
| PipelineResume.FirstFailureIsRecorded | src/stock_content/application/stage_runner.py:88-101 | Supporting fact: from empty tables a first stage that raises leaves exactly its failed row. |
| PipelineResume.PublishedToItsSlot | src/stock_content/application/service.py:653-680 | An artifact goes to the list or slot of its type, and nowhere else; only active content under its id can prevent that. |
| PipelineResume.Worker.ValidateResume | src/stock_content/domain/checkpoint.py:163-206 | The stages before the first unsuccessful checkpoint, or an error when one fails its checks. |
| PipelineResume.ValidatedExactlyWhen | src/stock_content/domain/checkpoint.py:163-206 | The leading successful checkpoints are accepted exactly when every recorded output, and every input with a recorded hash, is known with that hash, inputs are as many as their hashes, and the checksum fits; then all of them are returned in order. |
| PipelineResume.TamperedOutputStopsAttempt | src/stock_content/application/pipeline.py:230-275 | An attempt whose first restorable checkpoint names an output that is not stored, or stored with other content, executes no stage and changes nothing. |
| PipelineResume.Worker.Persist | src/stock_content/adapters/postgres/repositories/artifact_repository.py:146-246 | A successful stage is written once under its receipt, a failed one overwrites its row, and an error leaves the tables as they were. |
| PipelineResume.UpsertRecords | src/stock_content/adapters/postgres/repositories/artifact_repository.py:146-246 | Supporting fact: the row of a stage is replaced in its place, or added behind the others, and no other row changes. |
| PipelineResume.PutAllStores | src/stock_content/adapters/postgres/repositories/artifact_repository.py:146-246 | Outputs are stored exactly when they agree with what is stored and with each other under every id; then they are there, the rest is kept, and nothing else is added. |
| PipelineResume.Worker.Resume | src/stock_content/application/service.py:610-680 | One attempt: restoring the prefix and its slots, then processing. |
| PipelineResume.RestoringLeavesEvidence | src/stock_content/application/service.py:653-680 | Supporting fact: restoring never fills the visual evidence slot. |
| PipelineResume.RestorablePrefixIsLongest | src/stock_content/application/service.py:648-652 | The restored prefix is the longest one of successful checkpoints of restorable stages. |
| PipelineConvergence.RunStaysOnCourse | src/stock_content/application/stage_runner.py:66-125 | However a run is interrupted, the tables stay those of a point of the uninterrupted run. |
| PipelineConvergence.RestoresFrom | src/stock_content/application/service.py:653-680 | Replaying the recorded outputs rebuilds the slots that the uninterrupted run had at that point. |
| PipelineConvergence.AttemptStaysOnCourse | src/stock_content/application/service.py:610-680 | An attempt resumes behind the restorable receipts and stays on course from there. |
| PipelineConvergence.ResumedRunEndsAsUninterrupted | src/stock_content/application/pipeline.py:230-275 | After any failed, crashed and resumed attempts, one that completes ends with the slots and stored artifacts of the uninterrupted run, and without interruptions it completes exactly when that run does. |
| Artifacts.StableMembership | src/stock_content/domain/artifacts.py:59-88 | The loop with its set of seen keys computes the specification. |
| Artifacts.KeyMeansMember | src/stock_content/domain/artifacts.py:48-56 | Members are the same exactly when their first recorded identifier is: claim, occurrence, lifecycle event, knowledge; without any, when their payloads are. |
| Artifacts.MembershipIsLeastPerKey | src/stock_content/domain/artifacts.py:59-88 | The keys ascend strictly, each key of the input occurs, and its representative has the least canonical JSON. |
| Artifacts.MembershipIgnoresOrder | src/stock_content/domain/artifacts.py:59-88 | The result depends only on the set of members. |
| Artifacts.MembershipIdempotent | src/stock_content/domain/artifacts.py:59-88 | Normalising a normalised list returns it. |
| Artifacts.CollectionIdentity | src/stock_content/domain/artifacts.py:59-110 | Two set-valued artifacts that differ in their members alone have one identity exactly when they have the same least member of every key. |
| Artifacts.IdentityIsTheMemberSet | src/stock_content/domain/artifacts.py:604-681 | Order and repetition of members never change the identity of a set-valued artifact; where members are keyed by their payload, two of them have one identity exactly when they have the same members. |
| Artifacts.RowRoundTrip | src/stock_content/domain/artifacts.py:857-960 | Supporting fact: reading a stored row and writing it again reproduces it exactly when all later fields are present or all are absent; then identity and hash are those of the row. |
| Artifacts.ArtifactRoundTrip | src/stock_content/domain/artifacts.py:857-960 | Writing an artifact and reading it back returns it exactly when its identity profile shows in the row. |
| Artifacts.RewrittenRow | src/stock_content/domain/artifacts.py:857-960 | What any row looks like after it has been read and written: frames as they were, OCR rows with none or all of the later fields, transcripts with all corrections or none, collections with their stable members. |
| Artifacts.ReadExactlyWhen | src/stock_content/domain/artifacts.py:863-938 | A row is read exactly when its type is known; its hash is kept, or computed when it has none. |
| Artifacts.MixedTranscriptLosesCorrections | src/stock_content/domain/artifacts.py:160-166 | A transcript row of mixed age loses the corrections of its newer segments. |
| Artifacts.NormalizationIsStable | src/stock_content/domain/artifacts.py:261-295 | Supporting fact: re-identifying the segments of a transcript a second time changes nothing. |
| Artifacts.NormalizedSegments | src/stock_content/domain/artifacts.py:261-295 | A segment ends up under the manifest of its transcript, and keeps its id exactly if it had one under that manifest. |
| Artifacts.StorageOutsideIdentity | src/stock_content/domain/artifacts.py:95-110 | Supporting fact: the storage reference is part of the identity of legacy frames only. |
| OutboxStore.Database.ClaimPending | src/stock_content/adapters/postgres/repositories/content_task_repository.py:85-116 | A waiting or expired task is leased under a larger token. |
| OutboxLeases.TaskIsLeasedExactlyWhen | src/stock_content/adapters/postgres/repositories/content_task_repository.py:85-116 | A task is leased exactly when it has retries left and waits, or its lease has run out; the new lease is then the only current one, under the next token, up to its end. |
| OutboxLeases.TaskLeaseIsKept | src/stock_content/adapters/postgres/repositories/content_task_repository.py:92-108 | A task under a current lease is not leased again. |
| OutboxStore.Database.RenewLease | src/stock_content/adapters/postgres/repositories/content_task_repository.py:139-146 | Only the current lease can be renewed. |
| OutboxLeases.RenewedLeaseLasts | src/stock_content/adapters/postgres/repositories/content_task_repository.py:139-146 | Supporting fact: a renewed lease is held by the same worker under the same token up to its new end. |
| OutboxStore.Database.CommitTask | src/stock_content/adapters/postgres/repositories/content_task_repository.py:167-185 | Only the current lease can end the task successfully. |
| OutboxLeases.SucceededTaskIsOver | src/stock_content/adapters/postgres/repositories/content_task_repository.py:167-185 | Supporting fact: a task that its holder has ended is terminal, nobody holds it, and nobody can claim it. |
| OutboxStore.Database.Fail | src/stock_content/adapters/postgres/repositories/content_task_repository.py:187-196 | Only the current lease can fail the task, which waits again until its retries are used up. |
| OutboxLeases.FailedTaskIsLeasedAgain | src/stock_content/adapters/postgres/repositories/content_task_repository.py:187-196 | A failure ends the lease; with retries left the task can be leased at once, under the next token, and otherwise never again. |
| OutboxStore.Database.TakeIntent | src/stock_content/application/fenced_effects.py:129-155 | The row of a key is created once, rejected for another payload, and re-fenced while incomplete. |
| OutboxStore.Database.ExecuteSql | src/stock_content/application/fenced_effects.py:44-61 | The callback is committed only under the current lease and never for a complete row; a raising callback rolls everything back. |
| OutboxLeases.ExecutionHappensExactlyWhen | src/stock_content/application/fenced_effects.py:44-61 | A callback that commits is recorded, with its row complete, exactly under a current lease and a key that is new or bound to this payload and not complete; otherwise nothing changes. |
| OutboxStore.Database.PrepareExternal | src/stock_content/application/fenced_effects.py:79-84 | The intent is persisted only under the current lease. |
| OutboxLeases.PreparationHappensExactlyWhen | src/stock_content/application/fenced_effects.py:79-155 | An intent is persisted exactly under a current lease and a key that is new or bound to this payload; otherwise nothing changes. |
| OutboxStore.Database.AcceptExternal | src/stock_content/application/fenced_effects.py:104-110 | The completion of an external call is accepted only under the current lease. |
| OutboxLeases.AcceptanceHappensExactlyWhen | src/stock_content/application/fenced_effects.py:102-110 | A completion is accepted exactly under a current lease of its own task, and changes that row alone. |
| OutboxStore.Database.ClaimDueRows | src/stock_content/application/knowledge_projection_dispatcher.py:94-127 | The claims are the first due unlocked rows up to the limit, in creation order, each under the next token and owning its row; no other row changes. `ClaimedExactlyWhen` says which rows these are. |
| OutboxStore.ClaimsArePicked | src/stock_content/application/knowledge_projection_dispatcher.py:94-127 | The claims of a pass name exactly the picked rows, each once and in creation order, under the next token of the row. |
| OutboxLeases.ClaimedExactlyWhen | src/stock_content/application/knowledge_projection_dispatcher.py:94-127 | By the columns: a row changes exactly when it is a projection that is not ended, not put off to later and under nobody's lease, not locked, and fewer rows than the limit change before it; it is then owned by the claimer alone, under the next token, to the end of the lease. |
| OutboxLeases.LiveLeaseIsKept | src/stock_content/application/knowledge_projection_dispatcher.py:105-108 | A row whose lease is held stays as it is, whoever claims. |
| OutboxLeases.LeasesHoldInEveryRun | src/stock_content/application/knowledge_projection_dispatcher.py:94-226 | In every run from empty tables, whatever the schedule: no row is claimed again within a lease that its owner has not given back, nor before a recorded wait is over; every call falls into a lease of its worker, and a delivery follows its call. |
| OutboxStore.Database.DispatchClaim | src/stock_content/application/knowledge_projection_dispatcher.py:172-198 | A claim that owns its row calls the index and completes it; any other changes nothing. |
| OutboxLeases.OwnedDispatchDelivers | src/stock_content/application/knowledge_projection_dispatcher.py:183-194 | A claim that owns its row and meets no failure calls the index and completes the row, which nobody owns afterwards. |
| OutboxStore.Database.RetryClaim | src/stock_content/application/knowledge_projection_dispatcher.py:210-226 | A failed claim that owns its row puts it off or gives it up at the attempt limit; any other changes nothing. |
| OutboxLeases.OwnedFailureIsHandled | src/stock_content/application/knowledge_projection_dispatcher.py:210-226 | A failure of a claim that owns its row puts it off for exactly the recorded delay below the limit, and gives it up at the limit. |
| OutboxStore.Database.SettleClaim | src/stock_content/application/knowledge_projection_dispatcher.py:55-75 | One turn of the loop: the transactions it makes, whether the claim was sent, put off, given up or lost, and a row that is as the settlement says. |
| OutboxRuns.OwnedClaimIsSettled | src/stock_content/application/knowledge_projection_dispatcher.py:55-75 | A claim that keeps its row for the turn is settled by what happens to it: sent, called without a receipt, put off or given up, and the history says so. |
| OutboxRuns.LostClaimIsHarmless | src/stock_content/application/knowledge_projection_dispatcher.py:74-75 | A claim that has lost its row by its dispatch changes neither the row nor its history. |
| OutboxStore.Database.DispatchDue | src/stock_content/application/knowledge_projection_dispatcher.py:51-81 | The state is that of the run of the claiming transaction and the transactions of the loop; the claims are the picked rows, settled in turn up to a crash or a kill; the counters count the settlements; rows without a claim and the tasks stay. |
| OutboxRuns.AllClaimsAreSettled | src/stock_content/application/knowledge_projection_dispatcher.py:56-75 | Without a crash the pass settles every claim. |
| OutboxRuns.TallyCounts | src/stock_content/application/knowledge_projection_dispatcher.py:68-75 | Supporting fact: each counter is how often its settlement occurs. |
| OutboxStore.Database.PendingCount | src/stock_content/application/knowledge_projection_dispatcher.py:83-92 | The number of projection rows that are pending or being dispatched. |
| OutboxRuns.PendingAreUnfinished | src/stock_content/application/knowledge_projection_dispatcher.py:83-92 | Supporting fact: the count is the number of rows of the kind that are pending or dispatching. |
| OutboxSafety.StepChanges | src/stock_content/application/knowledge_projection_dispatcher.py:94-226 | Supporting fact: rows are never removed or reordered, and every transaction changes each row in one of seven ways. |
| OutboxSafety.SqlCommitsAtMostOnce | src/stock_content/application/fenced_effects.py:44-61 | Over any run a key of a task has one row, its callback is committed at most once, completion is final, and kind and payload hash never change. |
| OutboxSafety.ExecutionIsFenced | src/stock_content/application/fenced_effects.py:53-61 | Supporting fact: every committed callback is under the current owner, token and lease of a running task. |
| OutboxSafety.DelayGrows | src/stock_content/application/knowledge_projection_dispatcher.py:222-223 | Waits never shrink with the attempts and never exceed an hour. |
| OutboxSafety.DelayDoubles | src/stock_content/application/knowledge_projection_dispatcher.py:222-223 | The first wait is the base, each further one twice the one before up to nine attempts and an hour. |
| OutboxSafety.StepKeepsTracked | src/stock_content/application/knowledge_projection_dispatcher.py:94-226 | Each transaction, whatever the schedule, keeps the shape, the counts and the order of the history of every row. |
| OutboxSafety.RunsKeepTracked | src/stock_content/application/knowledge_projection_dispatcher.py:94-226 | So does every run. |
| OutboxSafety.StepKeepsDispatchSafe | src/stock_content/application/knowledge_projection_dispatcher.py:94-226 | Each transaction of a disciplined run keeps counts, history, tokens and the separation from the task of every row. |
| OutboxSafety.RunsKeepDispatchSafe | src/stock_content/application/knowledge_projection_dispatcher.py:94-226 | So does every disciplined run. |
| OutboxRuns.CallIsOwned | src/stock_content/application/knowledge_projection_dispatcher.py:184-190 | Supporting fact: every index call is made by the claim that the row names at that moment, before its lease runs out. |
| OutboxRuns.HistoryOfEveryRow | src/stock_content/application/knowledge_projection_dispatcher.py:94-226 | In every run, whatever the schedule: owner and expiry are set while dispatching and unset while pending or dead, a row is pending only below the attempt limit and dead only at it, attempts are claims and fenced completions, fewer failures than the limit are put off, and an end is recorded exactly for ended rows. |
| OutboxRuns.OwnersOfEveryRow | src/stock_content/application/knowledge_projection_dispatcher.py:94-226 | Supporting fact: in a disciplined run owner and expiry are set exactly while dispatching, and attempts of a claimed row are its claims. |
| OutboxRuns.CallsInOrder | src/stock_content/application/knowledge_projection_dispatcher.py:172-226 | In every run in which no fence of the task is put below the generation of this row while it is claimed and has not ended: calls for the row carry strictly increasing tokens, none follows an end, and successive waits do not shrink. |
| OutboxRuns.DisciplineNeverUnsettles | src/stock_content/application/knowledge_projection_dispatcher.py:94-127 | A run that claims rows only after their task is terminal is such a run for every row. |
| OutboxRuns.UnsettledRowMayRepeat | src/stock_content/application/knowledge_projection_dispatcher.py:94-127 | The condition is needed: after any run, a live projection whose generation is below the token of one of its calls can be claimed and called out of order. |
| OutboxRuns.OrderedRowCannotRepeat | src/stock_content/application/knowledge_projection_dispatcher.py:94-127 | Supporting fact: under the condition that situation does not arise. |
| OutboxRuns.SupersededNeverActs | src/stock_content/application/knowledge_projection_dispatcher.py:210-246 | Under the same condition a superseded claim never again changes a row or its history, neither by its dispatch nor by handling its failure. |
| OutboxRuns.EndedRowsStay | src/stock_content/application/knowledge_projection_dispatcher.py:228-246 | In a disciplined run a claimed row that was delivered or given up is never touched again. |
| OutboxRuns.StepReducesWork | src/stock_content/application/knowledge_projection_dispatcher.py:94-226 | Without takeovers every dispatcher step that changes a row reduces the remaining work. |
| OutboxRuns.UninterruptedRunsEnd | src/stock_content/application/knowledge_projection_dispatcher.py:94-226 | Hence the number of such steps is bounded by the work at the start. |
| OutboxRuns.WorkIsBounded | src/stock_content/application/knowledge_projection_dispatcher.py:218-221 | The work is at most twice the attempt limit plus one for each row. |
| OutboxRuns.FenceGoesDownExactlyWhen | src/stock_content/application/fenced_effects.py:44-155 | A transaction lowers the token of a row exactly when it prepares, or executes and commits, the intent of that incomplete row under a current lease whose token is smaller. |
| OutboxRuns.PreparingLosesClaim | src/stock_content/application/fenced_effects.py:79-155 | Preparing a row under dispatch with another token supersedes its claim without a successor: the dispatch then makes no call and the row stays dispatching. |
| OutboxRuns.TokenRepeatsWhileTaskRuns | src/stock_content/application/knowledge_projection_dispatcher.py:94-127 | From empty tables: claimed while its task still runs, a row is called twice under one token. |
| OutboxRuns.PassKeepsDispatchSafe | src/stock_content/application/knowledge_projection_dispatcher.py:51-81 | A whole pass of the dispatcher over rows of terminal tasks keeps every row safe. |
| Verification.VerificationService.Submit | src/stock_content/application/verification_service.py:78-89 | A claim is submitted once, as pending or as not verifiable. |
| Verification.OperationsTakeEffect | src/stock_content/application/verification_service.py:78-146 | What submitting, resolving and expiring do to the claim, and exactly when they do nothing. |
| Verification.VerificationService.DueItems | src/stock_content/application/verification_service.py:91-97 | The pending claims whose wait is over, in submission order. |
| Verification.VerificationService.Attempt | src/stock_content/application/verification_service.py:99-126 | One attempt: answer, wait, or exhaustion; an invalid answer raises after the call, an unknown claim without one. |
| Verification.AttemptStores | src/stock_content/application/verification_service.py:99-126 | An answer that decides is stored as status and result; without an answer the claim waits the scheduled time, and after the fifth wait goes to manual review and the dead letters. |
| Verification.VerificationService.ManualResolve | src/stock_content/application/verification_service.py:128-137 | A manual decision is possible exactly from manual review, pending and extracted. |
| Verification.VerificationService.Expire | src/stock_content/application/verification_service.py:139-146 | A claim expires exactly from pending or expired. |
| Verification.VerificationService.RunPass | src/stock_content/application/verification_service.py:161-163 | A pass attempts the claims that were due at its start, until one raises. |
| Verification.PassCallsExactlyWhen | src/stock_content/application/verification_service.py:91-97 | A pass asks about a claim exactly when it is pending with its wait over, and no such claim that was submitted before it gets an invalid answer, with which the pass ends; it asks once. |
| Verification.ResultsAreAnswers | src/stock_content/application/verification_service.py:99-163 | Over every run, a result is one that an answer or a manual decision gave for this claim, and the status of a verdict is its result. |
| Verification.CallsAreBounded | src/stock_content/application/verification_service.py:99-163 | With decisive answers, over any run with passes and direct attempts, a claim gets at most six calls and the dead-letter list names each exhausted claim exactly once; if direct attempts wait until the claim is due, each call comes at least the scheduled wait after the one before. |
| Verification.SpacedExactlyWhenDue | src/stock_content/application/verification_service.py:99-121 | An attempt on a pending claim keeps the calls to the schedule exactly when the claim is due, which a direct attempt does not check. |
| Verification.SettledIsFinal | src/stock_content/application/verification_service.py:99-146 | Terminal statuses other than manual review are kept by every operation, direct attempts included, whatever is answered. |
| Verification.SettledStays | src/stock_content/application/verification_service.py:99-163 | They are kept over every run. |
| Verification.StaysDueExactlyWhen | src/stock_content/application/verification_service.py:108-126 | Supporting fact: an attempt leaves the claim due at the same time exactly when the provider answers without deciding. |
| Verification.UndecidedCallsHaveNoBound | src/stock_content/application/verification_service.py:108-126 | With undecided answers every pass calls the provider once more, without a bound. |
| Publication.PublicationUnitOfWork.PublishAtomically | src/stock_content/application/publication_unit_of_work.py:50-135 | The transaction with its failure points and races ends in the store and result of the specification, which the next rows describe by what is published when. |
| Publication.PublicationUnitOfWork.WriteRows | src/stock_content/application/publication_unit_of_work.py:92-115 | The rows after the first save are complete exactly when no point fails. |
| Publication.PublicationHappensExactlyWhen | src/stock_content/application/publication_unit_of_work.py:92-135 | Without a rival a new identity is published and its run returned exactly when it is complete and nothing fails; after a rival has won, its run is returned exactly for the same digest, and anything else conflicts. |
| Publication.ExistingIsReturnedExactlyWhen | src/stock_content/application/publication_unit_of_work.py:80-91 | An existing run is returned exactly when its hash, manifest and set of signals are those of the payload. |
| Publication.PublicationIsAllOrNothing | src/stock_content/application/publication_unit_of_work.py:50-135 | The store keeps its content, or gains one complete publication of the identity and nothing else; a failure without a rival leaves it unchanged. |
| Publication.RepublishingExactly | src/stock_content/application/publication_unit_of_work.py:80-91 | Supporting fact: publishing under a sealed identity changes nothing and returns the run for the same content, and conflicts for any other. |
| Publication.SealedForGood | src/stock_content/application/publication_unit_of_work.py:50-135 | No run of publishers and deliveries removes a sealed run or alters what it sealed. |
| Publication.EverythingIsSealed | src/stock_content/application/publication_unit_of_work.py:50-135 | Every visible run is sealed with what its hash says. |
| Publication.EndedRunsStay | src/stock_content/domain/publication_run.py:24-52 | A run that is published or has failed for good keeps its state, whatever is published or delivered. |
| Publication.TransitionExactlyWhen | src/stock_content/domain/publication_run.py:24-96 | For each state, exactly where a run can come from when it enters it; it gets ready only with a hash. |
| Publication.TransitionMeans | src/stock_content/domain/publication_run.py:84-96 | A transition keeps the identity, counts changes of state, and never loses a hash. |
| Publication.InMemoryPublication.PublishInMemory | src/stock_content/application/publication_unit_of_work.py:50-135 | Without transactions the runs are all or nothing, but snapshot, signal and outbox rows written before a failure stay, exactly those of the writers it got past. |
| Publication.KeptIsWhatWasWritten | src/stock_content/application/publication_unit_of_work.py:92-117 | What stays in memory after a failure is what was written before the first point that fails, and nothing of another publication. |
| Publication.StepsOfRun | src/stock_content/domain/publication_run.py:26-96 | Supporting fact: a fresh run goes through projecting and sealing to ready. |
| Retention.RetentionService.Plan | src/stock_content/application/retention_service.py:24-38 | Holds and unexpired candidates are kept, a dry run only plans, and otherwise the tombstone is recorded. |
| Retention.DeletedOnlyAfterItsDays | src/stock_content/domain/retention.py:20-64 | No byte is deleted before its creation time plus the days of its class, and exactly until then a candidate without a hold is kept. |
| Retention.RetentionService.PrepareExecution | src/stock_content/adapters/retention/sql_retention.py:29-53 | The existing row of the id, a new pending one, or a refusal when the artifact is bound under another id. |
| Retention.RetentionService.Execute | src/stock_content/application/retention_service.py:40-69 | One sweep with adapter failures and crashes ends in the state of the specification. |
| Retention.SweepRecordsExactly | src/stock_content/application/retention_service.py:40-69 | For an expired candidate: exactly its tombstone is recorded, with its facts, source and expiry; it is called once unless it is deleted or the process crashes before; and every fate ends in its own state and count. |
| Retention.CallIsJustified | src/stock_content/application/retention_service.py:40-69 | Supporting fact: a byte deletion needs an expired candidate without a hold, outside a dry run, behind a durable intent that is not yet deleted. |
| Retention.RemovedExactlyWhenMarked | src/stock_content/application/retention_service.py:58-69 | Supporting fact: removal is reported exactly when the tombstone is marked as deleted. |
| Retention.DeletedIsFinal | src/stock_content/application/retention_service.py:58-69 | Once marked as deleted, the row stays and the byte adapter is never called for it again. |
| Retention.TombstonesStay | src/stock_content/adapters/retention/sql_retention.py:29-75 | A recorded tombstone never changes. |
| Retention.HeldNeverDeleted | src/stock_content/application/retention_service.py:28-34 | An artifact whose candidates are all held, unexpired or in dry runs never reaches the byte adapter. |
| Retention.HeldIdNeverCalled | src/stock_content/application/retention_service.py:28-34 | Nor is it ever called under a tombstone id whose candidates are all held, unexpired or in dry runs. |
| Retention.RetryCompletes | src/stock_content/adapters/retention/sql_retention.py:29-53 | From empty tables, after any sweeps with any failures and crashes, a sweep that goes well reports removal exactly when the first attempt that could bind the artifact had the same facts, or there was none; otherwise it is refused and changes nothing. Ids and hashes are free of the separator. |
| Retention.IdsDiffer | src/stock_content/domain/retention.py:87-92 | Facts whose artifact id and content hash are free of the separator are determined by their tombstone id. |
| Retention.SharedId | src/stock_content/domain/retention.py:87-92 | With separators, different artifacts can share a tombstone id. |
| Retention.SecondIsCalledUnlessIdsMeet | src/stock_content/application/retention_service.py:40-69 | Of two artifacts swept one after the other both are reported as removed, and the byte adapter is called for the second exactly when their ids differ. |
| Retention.RemovedMeansCalled | src/stock_content/application/retention_service.py:58-69 | With separated facts, removal is reported only after the byte adapter was called for that artifact under that id. |
| Retention.SweepsKeepSound | src/stock_content/application/retention_service.py:40-69 | A row has the id of its tombstone, an artifact has one tombstone, and attempts never exceed the calls. |

## Left out

- The hard-fact tokenizer is a parameter; its regular expression is not part of this model, nor are chapter titles.
- Ratios are exact rationals: 90% is ten times the covered against nine times the duration; the reported source mix and its rounding are left out.
- Chapter.SegmentChapters: leaves out titles, with their clean-up, and the random chapter ids; times of segments are reals.
- TopicValidation.ValidateCoverage: leaves out the checks of the other card fields, of citations and of entities that share its loop.
- Texts of knowledge cards other than topic coordinates, prompts and notes on exclusions are left out.
- Type tests on decoded JSON are left out where the model's types already decide them; an ambiguity item with a field of a wrong type is one without that field.
- TopicDraft.Draft.SplitAt: takes the answers by position and group, as `TopicDraft.FileAnswers` files them once all jobs have completed.
- Topic repairs report an error without its text; a failed run writes no output, so the state after an error is not described.
- Lineage errors are a set of structured problems; their texts and the sorting of the texts are left out, and a tree shows ids instead of whole payloads.
- PipelineResume.Worker.ExecuteStage: leaves out the outputs of legacy adapters and the identity fields of a checkpoint.
- PipelineResume.Worker.Resume: leaves out media files, OCR probes, stage versions and the typed state beside the artifact slots; a stage is a function of the active slots that publishes its outputs.
- PipelineResume.Worker.Persist: does not model the lease check of the checkpoint transaction, which `OutboxStore` models for effects, nor the history of attempts inside a checkpoint.
- Rows created at the same instant are in creation order; a second task that writes the same artifact meanwhile is not modelled.
- Hashes and canonical JSON are parameters, injective where a statement needs it; artifact types that have no legacy form and are not one set of members are an opaque body, and the nested verification entries are not modelled.
- OutboxStore.Database.ClaimPending: takes the task as a parameter; the choice of the oldest claimable task of a kind is left out.
- OutboxStore.Database.DispatchDue: settles its claims without other workers in between; `Outbox.Run` has every interleaving of the single transactions.
- Claims are sets of token and worker name: two processes of one name that hold the same generation count as one holder. This needs an unsettled row.
- The token-less completion path, the unconfigured index, and the units read from SQL are left out; a failed read is an outcome.
- Running a callback of an external effect more than once is possible and not bounded: only its acceptance is fenced.
- Publication.PublicationUnitOfWork.PublishAtomically: a caller-owned session and signal rows with repeated ids are not modelled.
- Verification in SQL jobs is left out; the model is the in-memory service.
- Concurrent retention sweeps, error codes and the in-memory tombstone adapter are left out; sweeps follow one another and may crash anywhere.
- Source resolution, claim projection, conflicts, routes, security and command lines are left out.
