# Verification of the SELF knowledge workspace

SELF keeps a personal knowledge base in one workspace: SQLite rows, archived files, a claim graph, embeddings, and
reports built from them. This project models the parts of it where several functions have to agree, and proves what
they keep between them:

- **Plans, Apply, Undo, Restore** (`MutationStore`, `MutationLaws`, `Undo`, `StateChange`, `OperationLog`,
  `OperationHistory`, `PlanLife`, `ConfidenceAudit`, `RepeatedUndo`, `ApplyMutation`, `NoteMove`). A plan is a list of
  row changes with exact `before` and `after` columns. The database is a map from kind and key to rows. Runs mix
  drafting, applying, cancelling, undoing, restoring and moderating.
- **Delete planners** (`Cells`, `SourceImpact`, `SourceDelete`, `SourceRestore`, `ResourceImpact`, `ResourceDelete`):
  what deleting a source, entity, claim or topic reaches, when the plan it makes applies, and what it leaves.
- **Garbage collection and purge** (`GcProtocol`, `GcWorkspace`, `GcCandidates`, `SourcePurge`): a step system in which
  the process may die at any point, the loops that run it, and what both leave referenced.
- **Evidence and answers** (`ContextAssembly`, `Grounding`, `AnswerValidation`, `OrderedMaps`): choosing evidence within
  a budget, finding quotations in it, publishing only what it carries.
- **Entity redirects** (`Redirects`, `EntityGraph`), **vector spaces** (`VectorIndex`, `VectorSpaces`,
  `VectorWorkflows`, `Publisher`), **init rollback** (`InitRollback`), **config paths** (`ConfigPath`) and **Page IR**
  (`PageIr`, `Ordering`).

Code that updates state step by step is a class or a method with loops, tied by its `ensures` to a specification
function; the properties are lemmas about that function. Run `dafny verify dfyconfig.toml` to check everything.

Outside the model and passed in as parameters: the clock, SHA-256, Unicode normalisation (a function from code points
to kept characters), chunk alignment, model answers, and which calls, renames or writes fail (any choice). Where the
process may die at any point, it may do so between any two steps.

## What turned out false, and when it holds

- Undo gives back only the columns a change tests, and re-reads a literal `$now` as a time:
  `Undo.UndoRestoresIff` has the exact condition, `Undo.UntestedColumnSurvivesUndo` a case. Changes built by
  `stateChange` always meet it (`OperationHistory.PlannedChangesUndo`).
- A composite id survives the `::` join and split exactly under the condition of `Undo.SplitJoinIff`.
- The planners for entities, claims and topics write `deleted_at` without selecting it, so a fresh plan fails once that
  column holds a value: `ResourceImpact.EntityDeleteAppliesIff`, `ResourceImpact.ClaimDeleteAppliesIff`,
  `ResourceImpact.TopicDeleteAppliesIff` (a way there: `ResourceImpact.ReactivatedEntityCannotBeDeleted`).
- The artifacts of a topic that is already deleted are not reached when one of its sources is deleted (part of
  `SourceDelete.SourceDeleteCascades`).
- The quotation locator indexes an array of characters with a string offset. The two agree exactly when the characters
  before are single code units (`Grounding.OffsetsAgreeIff`); otherwise the published span can be another text
  (`Grounding.AstralLetterShiftsTheSpan`), and a text that occurs can go unfound
  (`Grounding.AstralLetterHidesTheMatch`). When one is found is decided in `Grounding.LocatedIff`.
- A quotation need not begin and end between characters: one that begins or ends with half of a surrogate pair can be
  found in the middle of a pair. `Grounding.LocatedWholeIff` says which requests are always located whole
  (case: `Grounding.LoneSurrogateSplitsAPair`).
- The evidence loop and the candidate list treat an empty claim id differently
  (`ContextAssembly.CandidateKeysAgreeIff`).
- "At least two cited evidence items" counts citations, not items (`AnswerValidation.OneItemCarriesAnInference`); an
  inference rests on two items exactly when its citations name two evidence keys
  (`AnswerValidation.InferenceQuotesTwoItemsIff`).
- The operation log does not tell everything: moderating a claim recalculates its confidence, and that of its relations,
  without a record. When the log is complete all the same is decided in `ConfidenceAudit.AuditIsCompleteIff` and
  `ConfidenceAudit.StepMovesConfidenceIff` (case: `ConfidenceAudit.ConfirmedClaimEscapesTheLog`).
- "An operation is undone once" rests on versions. On rows that carry none it can be undone twice
  (`RepeatedUndo.UnversionedUndoneTwice`), but only if the rows were written again in between
  (`OperationHistory.RepeatedUndoNeedsRewrite`).
- A failed purge, note move or collection can leave a file away from its place, when its way back fails as well. Which
  files, for which faults, is stated in `SourcePurge.Workspace.RestoreFiles`, `SourcePurge.Workspace.ApplySourcePurge`,
  `ApplyMutation.Workspace.ApplyNoteMove` and `GcWorkspace.Workspace.PutBack`. A purge that fails while unlinking has
  already purged its rows.
- Moderation can make a merged entity active again; it stays redirected, and no plan can merge it any more
  (`EntityGraph.ReactivatedEntityStaysRedirected`). It keeps the status exactly while it is not moderated
  (`EntityGraph.MergedStaysRedirectedIff`), and a plan back the other way is what the cycle check is for
  (`EntityGraph.CycleIsReached`).
- `saveEmbedding` reuses a stale row without making it active, so a chunk that was tombstoned and comes back stays
  without an embedding (`VectorIndex.RefreshCoversIff`, `VectorIndex.ReturningChunkStaysUncovered`).
- Activation compares counts; that they are equal means full coverage exactly under the condition of
  `VectorSpaces.CountsMeanFullIff` (case: `VectorSpaces.UnlistedChunkStandsIn`, and a run that gets there:
  `Publisher.ActivatedWithoutCoverage`).
- A document published again as it was before, or back after it was missing, is made current without its chunks: active
  and listed chunks then part, exactly as in `Publisher.StepKeepsInStepIff` (case:
  `Publisher.ReturningDocumentHasNoActiveChunk`).
- A rollback refused for a changed file has removed the files listed before it. It leaves every file exactly under the
  condition in `InitRollback.Workspace.ApplyRollback` (case: `InitRollback.RefusedRollbackLosesFile`).
- A completed rollback restores exactly the state before init only under the condition of
  `InitRollback.RollbackRestoresIff`: a template that was there already with the same content, and runtime directories
  that were there (`InitRollback.Workspace.PrepareJournal`), are listed as created and would be removed, and a file
  written just before a crash and never listed stays.
- Unsetting a path that does not exist makes the tables on the way to it (`ConfigPath.RemovingNothingIff`).

## Model

| member | source | states |
|---|---|---|
| `MutationStore.Database.VerifyMutationChanges` | src/application/automation/mutation-store.ts:59-65 | passes exactly when every change finds its row with the tested columns as expected; otherwise the first error |
| `MutationStore.Database.ApplyOneChange` | src/application/automation/mutation-store.ts:92-129 | rechecks the row and then writes it and records the change, or changes nothing |
| `MutationStore.Database.ApplyMutationChanges` | src/application/automation/mutation-store.ts:51-57 | in place it does what the changes do one after another; on a failure the writes of the changes before stay for the transaction to undo |
| `MutationStore.FailingPrefixFailsPlan` | src/application/automation/mutation-store.ts:51-57 | once a change fails, no later one matters |
| `MutationLaws.SequentialIsSimultaneous` | src/application/automation/mutation-store.ts:51-65 | for distinct targets a plan applies exactly when all preconditions hold beforehand and all writes are permitted, so no recheck fails after a passing verification, and its effect is one simultaneous update |
| `MutationLaws.OrderIndependent` | src/application/automation/mutation-store.ts:51-57 | any permutation of a plan with distinct targets succeeds or fails alike and leaves the same rows |
| `MutationLaws.CheckPassesIff` | src/application/automation/mutation-store.ts:131-177 | a change passes exactly for a known kind, a complete selector, allowed columns of which there is at least one, and a row that holds the expected value of each |
| `MutationLaws.ChangeWrites` | src/application/automation/mutation-store.ts:92-129 | a change that goes through sets its columns and the time of the table, leaves every other column and row alone, and records the columns before and after |
| `Undo.SplitJoinIff` | src/application/automation/mutation-store.ts:179-186 | the `::` join of two ids splits back into them exactly when neither contains `::` and the first does not end in a colon |
| `Undo.UndoRestoresIff` | src/application/automation/mutation-store.ts:67-90 | a row changed and changed back is as before, outside updated_at and the version, exactly when the change wrote no untested column differently and tested no literal `$now` |
| `Undo.UndoMovesVersionOn` | src/application/automation/mutation-store.ts:75-80 | the undo sets the version to one more than the recorded one |
| `Undo.UndoPasses` | src/application/automation/mutation-store.ts:67-90 | wherever the rows still hold what a plan wrote, its undo passes every check |
| `Undo.UndoGoesThrough` | src/application/automation/mutation-store.ts:67-129 | the reversed changes of an applied plan parse back to its targets and apply straight after |
| `Undo.UndoInverts` | src/application/automation/mutation-store.ts:67-129 | apply then undo leaves other rows alone, moves each version on, and gives each row back exactly when its change was faithful |
| `Undo.UntestedColumnSurvivesUndo` | src/application/automation/mutation-store.ts:74-87 | a column written but not tested keeps its new value after undo; neither the common helper nor the planner of note moves makes such a change |
| `StateChanges.StateChangeIsGood` | src/application/automation/impact-helpers.ts:14-48 | a change the helper builds tests exactly what it writes, moves the version by one, and can be addressed again from its record |
| `StateChanges.StateChangeIsFreshIff` | src/application/automation/impact-helpers.ts:30-31 | a change made from the stored row passes exactly when the extra columns not selected are null in the table |
| `StateChanges.StateChangeReaches` | src/application/automation/impact-helpers.ts:24-47 | the row written holds the state asked for |
| `OperationLog.LatestDelete` | src/application/automation/restore-workflows.ts:125-144 | the last logged operation that deleted the resource, if any |
| `OperationLog.VersionsCountWrites` | src/application/automation/mutation-store.ts:92-129 | the version of a row moves by exactly the number of changes that target it |
| `OperationLog.StalePlanRefused` | src/application/automation/mutation-store.ts:162-177 | a plan aimed at a version that has moved on fails verification |
| `OperationHistory.UndoIsGood` | src/application/automation/mutation-store.ts:67-90 | the reversal of a recorded change is itself stamped, reversible and one version further on |
| `OperationHistory.PlanReplays` | src/application/automation/mutation-store.ts:92-129 | replaying the recorded `after` columns of a plan reproduces it, rewinding the `before` columns takes it back |
| `OperationHistory.StepKeepsInv` | src/application/automation/apply-mutation.ts:59-90 | every workflow step, the unlogged recalculation after moderating a claim included, keeps the records, plans, undo links and the audit trail over logged columns consistent |
| `OperationHistory.RunKeepsInv` | src/application/automation/apply-mutation.ts:18-90 | so does every run of plans, undos, restores and moderations of entities, relations and claims |
| `OperationHistory.PlanNeverAppliesAfterWrite` | src/application/automation/mutation-store.ts:162-177 | no ABA: once any versioned target of a plan has been written, the plan is refused in every later state of the run |
| `PlanLife.SettledPlanStays` | src/application/automation/apply-mutation.ts:23-39 | a plan cancelled, expired or applied is that same plan in every later state; applying it is no step at all if it was cancelled or expired and changes nothing if it was applied |
| `PlanLife.PlanAppliesAtMostOnce` | src/application/automation/apply-mutation.ts:23-90 | in every run each plan is applied at most once, while ready; its changes are what is then logged, and it is applied from there on |
| `PlanLife.UndoIsPlannedIff` | src/application/automation/undo-workflows.ts:11-70 | in every reachable state an undo is planned exactly for a reversible operation with changes that nothing logged undoes; the plan expects what the records left, gives back what they found, and is not reversible |
| `PlanLife.RunUndoesRightly` | src/application/automation/undo-workflows.ts:16-36 | in every reachable state whatever was undone or restored, or is planned to be, is a reversible operation with changes, and no plan of an undo is reversible |
| `PlanLife.UndoIsNotUndone` | src/application/automation/undo-workflows.ts:61 | what applying an undo plan logged is never undone or restored later, and no undo of it is planned |
| `PlanLife.RestoreMeans` | src/application/automation/restore-workflows.ts:46-123 | a restore reverses the latest deletion of the resource, which nothing has undone, and can itself be undone; where a version is asked for, the row stands at it |
| `PlanLife.VersionsAreRecorded` | src/application/automation/mutation-store.ts:109-128 | a change of a versioned row is recorded with the version the row stood at and with the next, which it then has |
| `OperationHistory.OperationUndoneAtMostOnce` | src/application/automation/undo-workflows.ts:25-36 | in every run at most one undo or restore of an operation with a versioned row is ever logged |
| `OperationHistory.RepeatedUndoNeedsRewrite` | src/application/automation/undo-workflows.ts:25-36 | for any operation, versioned or not: between two logged undos of it, every row the first one changed was written again |
| `RepeatedUndo.UnversionedUndoneTwice` | src/application/automation/undo-workflows.ts:25-36 | without a version it does happen: a run in which two undos drafted beforehand both go through |
| `OperationHistory.UntouchedOperationCanBeUndone` | src/application/automation/undo-workflows.ts:11-70 | a reversible operation whose rows no later operation wrote can be undone, and the undo goes through |
| `OperationHistory.AuditLogIsComplete` | src/application/automation/apply-mutation.ts:66-90 | in every reachable state the log replays from the first rows to the current ones and rewinds back, in every column but updated_at and the confidence of claims and relations |
| `OperationHistory.VerdictStands` | src/infrastructure/graph/graph-claim-alignment.ts:76-93 | after a claim is moderated its status is the verdict, so the status CASE of the recalculation changes nothing |
| `OperationHistory.RecalculationForgotten` | src/infrastructure/graph/graph-claim-alignment.ts:76-104 | the recalculation moves the confidence columns and updated_at of the claim and its live relations, and nothing else |
| `ConfidenceAudit.AuditIsCompleteIff` | src/application/graph/graph-moderation.ts:124-146 | with the confidence columns, replaying the log gives the current rows exactly when every row has the confidence it had at first |
| `ConfidenceAudit.StepMovesConfidenceIff` | src/infrastructure/graph/graph-claim-alignment.ts:76-104 | a step moves some row's confidence exactly when it moderates a claim and the claim or one of its live relations held another assessment |
| `ConfidenceAudit.QuietRunIsComplete` | src/application/graph/graph-moderation.ts:124-146 | a run in which no step moved a confidence is told by its log in full |
| `ConfidenceAudit.ConfirmedClaimEscapesTheLog` | src/application/graph/graph-moderation.ts:124-146 | a run that confirms a claim, after which replaying the log leaves the claim its earlier confidence |
| `OperationHistory.PlannedChangesUndo` | src/application/automation/mutation-store.ts:67-129 | undoing planned changes restores every column but updated_at and the version, which ends two higher |
| `NoteMove.DescribeNoteMove` | src/application/automation/note-move-plan.ts:12-109 | plans a move exactly for an active note of an active source, to another free path, with its file there; each refusal says what was missing |
| `NoteMove.NoteMovesAndReturns` | src/application/automation/note-move-plan.ts:53-68 | the two changes, built without the common helper, are fresh and go through, and their undo gives back the note and its source, each version two higher |
| `ApplyMutation.Workspace.ApplyChanges` | src/application/automation/apply-mutation.ts:59-90 | either every change goes in and the operation is logged, or rows, log and plans are exactly as before |
| `ApplyMutation.Workspace.ApplyAutomationMutation` | src/application/automation/apply-mutation.ts:18-57 | an applied plan answers again without writing; a missing, cancelled or expired one is refused and nothing changes; on success the plan was ready, its checks passed, one operation with its undo link is logged, and it is applied |
| `ApplyMutation.Workspace.RestoreDeletedResource` | src/application/automation/restore-workflows.ts:29-123 | reverses the latest deletion once, under the version asked for, or changes nothing |
| `ApplyMutation.Workspace.ModerateGraphObject` | src/application/graph/graph-moderation.ts:121-150 | the changes, their log entry and, for a claim, the recalculation go in together or not at all |
| `ApplyMutation.Workspace.ApplyNoteMove` | src/application/automation/apply-mutation.ts:92-167 | for any choice of what goes wrong: it succeeds exactly when file and plan fit, the rename works and the process lives; otherwise the rows are as before, and the file is at its new path exactly when it had moved and could not come back |
| `Cells.AppendChanges` | src/application/automation/impact-helpers.ts:50-52 | a planner's loop appends the change of each row that needs one, in order |
| `Cells.MadeChangesAreFresh` | src/application/automation/impact-helpers.ts:14-48 | a plan made from rows it selects in full, one target each, passes verification |
| `Cells.FreshPlanCascades` | src/application/automation/source-impact.ts:14-250 | such a plan applies, settles every row it is about, and touches no other |
| `Cells.OverlookedColumnsDecide` | src/application/automation/impact-helpers.ts:30-31 | a change that writes columns its planner did not select passes exactly when they are null |
| `SourceImpact.TopicAndArtifactChanges` | src/application/automation/impact-helpers.ts:70-124 | changes of each live topic and its artifacts, each topic once, and the artifacts reached, sorted without repeats |
| `SourceImpact.ArtifactsReachedMeans` | src/application/automation/impact-helpers.ts:70-124 | an artifact is reached exactly when it belongs to one of the topics that is not deleted |
| `SourceImpact.TopicsAre` | src/application/automation/source-impact.ts:222-242 | a topic is reached exactly when its report cites the source or its latest snapshot holds a claim with evidence from a chunk of a document of the source |
| `SourceImpact.NodesAre` | src/application/automation/source-impact.ts:87-96 | a node is reached exactly when it stands for the source, for one of its documents or for one of their chunks |
| `SourceImpact.AnswersAre` | src/application/automation/source-impact.ts:206-212 | an answer is reached exactly when it was made from a context with an item of the source |
| `SourceDelete.DescribeSourceDelete` | src/application/automation/source-impact.ts:14-250 | refuses a missing or deleted source; otherwise the loops yield a plan that, whenever it is applied to these rows, settles what rests on the source, read off the reference rows, and nothing else |
| `SourceDelete.SourceCellsAreGood` | src/application/automation/source-impact.ts:14-250 | the rows of the cascade are pairwise distinct and fully selected |
| `SourceDelete.SourceDeleteCascades` | src/application/automation/source-impact.ts:14-250 | a fresh plan applies, and then by the reference rows alone: documents, chunks, connections, nodes, evidence, claims, relations, contexts, answers, topics and their artifacts end in the states promised with their times and reasons; a row in a state to be skipped, and every row that does not rest on the source, is unchanged |
| `SourceDelete.RestoreBringsAllBack` | src/application/automation/restore-workflows.ts:61-118 | restoring right after gives every row back, versions two higher on the rows written |
| `SourceRestore.RestoreWorkflowBringsAllBack` | src/application/automation/restore-workflows.ts:29-144 | the same through the log: the restore picks this deletion, is refused exactly for a version other than the one the deletion wrote, and gives every row back |
| `ResourceImpact.DescribeEntityDelete` | src/application/automation/resource-impact.ts:45-122 | refuses missing, deleted and redirected entities; otherwise the entity, its node, its edges and what depends on them |
| `ResourceImpact.EntityDeleteAppliesIff` | src/application/automation/resource-impact.ts:45-122 | a fresh plan applies exactly when the node carries no deletion time |
| `ResourceImpact.ReactivatedEntityCannotBeDeleted` | src/application/automation/resource-impact.ts:45-122 | an entity deleted by such a plan and confirmed afterwards is active, and every new plan to delete it is refused |
| `ResourceImpact.ClaimDeleteAppliesIff` | src/application/automation/resource-impact.ts:124-159 | a fresh plan applies exactly when neither the claim nor its node carries a deletion time |
| `ResourceImpact.DescribeTopicDelete` | src/application/automation/resource-impact.ts:207-237 | refuses a missing or deleted topic; otherwise the topic and its artifacts |
| `ResourceImpact.TopicDeleteAppliesIff` | src/application/automation/resource-impact.ts:207-237 | a fresh plan applies exactly when the topic and its live artifacts carry no deletion time |
| `ResourceDelete.EntityDeleteSettles` | src/application/automation/resource-impact.ts:45-122 | once applied: entity and node deleted, the relations and claims at the node stale, the topics that hold such a claim up for review with their artifacts stale, final states kept, and nothing else changed |
| `ResourceDelete.ClaimDeleteSettles` | src/application/automation/resource-impact.ts:124-159 | once applied: claim and node deleted, the topics that hold the claim up for review, and nothing else changed |
| `ResourceDelete.TopicDeleteSettles` | src/application/automation/resource-impact.ts:207-237 | once applied: the topic and its artifacts deleted, and nothing else changed |
| `GcProtocol.StepKeepsInv` | src/application/operations/gc.ts:110-278 | every step of Apply and of recovery, failures and crashes included, Apply after a recovery that failed included, keeps files and rows accounted for |
| `GcProtocol.RunKeepsInv` | src/application/operations/gc.ts:94-278 | so does every run of attempts, failed or crashed recoveries and attempts after them |
| `GcProtocol.NoFileIsLost` | src/application/operations/gc.ts:113-278 | at every moment before the commit each file is in exactly one place with its content |
| `GcProtocol.RecoveryIsAtomic` | src/application/operations/gc.ts:232-278 | after any completed recovery either nothing was collected, or the receipt is there and exactly the candidates are gone |
| `GcProtocol.RecoveryCanFinish` | src/application/operations/gc.ts:232-278 | however a run stopped, recovery steps alone lead from there to the end of a recovery, with everything back or the candidates gone |
| `GcProtocol.CommitIsFinal` | src/application/operations/gc.ts:175-187 | a receipt row never disappears |
| `GcWorkspace.Workspace.ApplyGcPlan` | src/application/operations/gc.ts:94-230 | from wherever an earlier run stopped, for any choice of failing calls: if the process lives and every file can move back, it is refused exactly after a commit or a changed proof, and otherwise succeeds exactly when nothing on the way fails and no directory without a receipt is in the way; success takes the plan's files and rows and nothing else; failing, it puts every file and row back; if a file cannot move back, no row changed and every file is in place or in staging with its receipt |
| `GcWorkspace.Workspace.StageAndCommit` | src/application/operations/gc.ts:121-208 | staging moves the listed files one by one; it commits exactly when all move and the transaction works, and otherwise puts them back |
| `GcWorkspace.Workspace.PutBack` | src/application/operations/gc.ts:218-227 | the catch block returns the staged files, last first, and removes staging; it stops at a file that cannot move back, with that file among those still staged and nothing lost |
| `GcWorkspace.Workspace.RecoverGcStaging` | src/application/operations/gc.ts:232-278 | unless the process dies or a file cannot move, it runs through, and leaves the workspace as it was or as committed; stopped by such a file it leaves that among those staged, and nothing is lost |
| `GcCandidates.CollectCandidates` | src/application/operations/gc.ts:280-371 | finds exactly the blobs with four zero reference counts and a file, the stale embeddings of retired spaces, and the old temporary files |
| `GcCandidates.ReferencedBlobsSurvive` | src/application/operations/gc.ts:296-317 | after any run of the collected plan a referenced blob has its row and its file, unharmed |
| `GcCandidates.CollectingAgainFindsNothing` | src/application/operations/gc.ts:280-371 | after a commit another collection finds no blob and no embedding |
| `GcCandidates.CollectedAreGone` | src/application/operations/gc.ts:113-187 | from the commit on a collected blob has neither row nor file, an embedding no row and a temporary file no file; every other file and row is as before |
| `GcCandidates.ApplyCandidates` | src/application/operations/gc.ts:94-230 | applying the plan of these candidates: success leaves them gone and nothing else, failure leaves everything as it was |
| `SourcePurge.ExclusiveBlobs` | src/application/automation/source-purge-plan.ts:66-77 | the blobs used by the source's snapshots and by no other source's |
| `SourcePurge.Workspace.RestoreFiles` | src/application/automation/source-purge-apply.ts:172-177 | given which renames back and directories fail: a staged file stays staged exactly when its own rename fails, or its directory or that of one staged later cannot be made; every other is back, and nothing is lost |
| `SourcePurge.Workspace.StageFiles` | src/application/automation/source-purge-apply.ts:132-170 | passes exactly when every path is a file, listed once, that moves, and then all are staged; otherwise those before the first that does not are moved back, and of these just those stay staged that cannot come back |
| `SourcePurge.Workspace.ApplySourcePurge` | src/application/automation/source-purge-apply.ts:12-130 | goes through exactly for the impact planned, without blockers and without a fault on the way; failed before the commit it keeps every row, and all files are in place exactly when none staged by then is barred from coming back, so without a fault on the way back all are; failed while unlinking it has purged every row, and the files not yet unlinked come back likewise |
| `SourcePurge.RemovedFilesAre` | src/application/automation/source-purge-plan.ts:60-90 | the files removed are the manifests of the source and the blobs only it used |
| `SourcePurge.PurgeKeepsArchive` | src/application/automation/source-purge-apply.ts:42-73 | every remaining snapshot entry keeps its snapshot, manifest, blob row and blob file |
| `SourcePurge.PurgeIsExact` | src/application/automation/source-purge-apply.ts:35-113 | a completed purge removes exactly the source's snapshots and entries and the blobs it alone used, and, of the files, exactly those some row named and none names any more; everything else is as it was |
| `Grounding.IndexFrom` | src/application/retrieval/ask.ts:366 | the first offset at which the text occurs, or none if it does not occur |
| `Grounding.NormalizedCharacters` | src/application/retrieval/ask.ts:385-394 | the loop keeps, for each code point in turn, its normalised letters and digits with the offset of the code point |
| `Grounding.KeptComeFromPoints` | src/application/retrieval/ask.ts:385-394 | every kept character points at the beginning of a code point |
| `Grounding.LocatedIsASlice` | src/application/retrieval/ask.ts:365-383 | what is located is exactly that slice; found by normalisation it begins and ends between code points, found as it stands it is the request and does so exactly when neither end splits a surrogate pair of the chunk |
| `Grounding.BoundaryIff` | src/application/retrieval/ask.ts:385-394 | an offset is between code points exactly when it splits no surrogate pair |
| `Grounding.WholeRequestIsLocatedWhole` | src/application/retrieval/ask.ts:365-383 | a request that does not begin or end with half of a pair is located between code points, however it is found |
| `Grounding.LocatedWholeIff` | src/application/retrieval/ask.ts:365-383 | a request is located between code points in every chunk that contains it exactly when it does not begin or end with half of a pair |
| `Grounding.LoneSurrogateSplitsAPair` | src/application/retrieval/ask.ts:365-367 | a lone low surrogate is found in the middle of a pair |
| `Grounding.SpanKeeps` | src/application/retrieval/ask.ts:365-394 | a span between code points normalises to the kept characters of those code points, and to no others |
| `Grounding.LocatedContainsRequest` | src/application/retrieval/ask.ts:368-383 | if every normalised character up to the end of the match is one code unit, the normalised span contains the normalised request |
| `Grounding.LocatedEqualsRequest` | src/application/retrieval/ask.ts:368-383 | if moreover no code point expands, it equals it |
| `Grounding.OffsetsAgreeIff` | src/application/retrieval/ask.ts:378-379 | array index and string offset agree at a place exactly when all characters before it are single code units |
| `Grounding.AstralLetterShiftsTheSpan` | src/application/retrieval/ask.ts:378-379 | with one letter outside the Basic Multilingual Plane before it, the wrong text is published |
| `Grounding.LocatedIff` | src/application/retrieval/ask.ts:365-383 | a text is found exactly if the chunk contains it, or if four or more units are left of it and these first occur in the normalised chunk no further on than it has characters |
| `Grounding.SingleUnitsAreLocatedIff` | src/application/retrieval/ask.ts:365-383 | where every normalised character is one unit, exactly if the chunk contains it or the normalised chunk its four or more units |
| `Grounding.AstralLetterHidesTheMatch` | src/application/retrieval/ask.ts:376-380 | with one letter outside the Basic Multilingual Plane before it, a text that ends the chunk is not found although its normalisation occurs |
| `OrderedMaps.MapAndFirstsAgree` | src/application/retrieval/ask.ts:248-255 | deduplicating by first occurrence and through a Map keep the same keys in the same order |
| `OrderedMaps.MapHoldsTheLast` | src/application/retrieval/ask.ts:248-255 | a Map holds the last value of each key |
| `ContextAssembly.AssembleContext` | src/application/retrieval/ask.ts:181-262 | items by origin: graph candidates with a hydrated chunk in their order and then the seeds in theirs, each chunk and claim once, from its first origin, with the last row of that chunk, its claim and role; within the budget, and cut off only below 64 tokens, with what is missing after all that was taken; candidates in the order of first origins with rank, and with score and routes of the last |
| `ContextAssembly.SelectionIsDetermined` | src/application/retrieval/ask.ts:209-233 | entries and budget determine the items |
| `ContextAssembly.CandidatesAgree` | src/application/retrieval/ask.ts:234-255 | the candidate list has the same identities in the same order, ranks from 1, is selected on exactly the items, and keeps the score of the last duplicate |
| `ContextAssembly.CandidateKeysAgreeIff` | src/application/retrieval/ask.ts:211-255 | the two lists agree on identities exactly when no claim id is empty |
| `ContextAssembly.EvidenceKeysAreDistinct` | src/application/retrieval/ask.ts:220 | each evidence key names one item |
| `AnswerValidation.CitationsQuoteTheirItems` | src/application/retrieval/ask.ts:291-308 | every published citation names an item and is word for word a part of its excerpt window |
| `AnswerValidation.AssertionsAreVerbatim` | src/application/retrieval/ask.ts:309-317 | what is published as fact, single source or opinion stands verbatim in one of its citations, the first in which the statement is found |
| `AnswerValidation.FactsHaveTwoSources` | src/application/retrieval/ask.ts:320-332 | a published fact quotes items of two sources, none of them disputed |
| `AnswerValidation.PublishedAs` | src/application/retrieval/ask.ts:320-352 | by the items quoted: a conflict exactly if it was one or one is disputed, a fact exactly if it was one, none is disputed and two sources carry it, single source exactly if it was that or a fact of one source and none is disputed, anything else kept; the confidence is the strongest quoted unless one is disputed |
| `AnswerValidation.SummaryHoldsStatements` | src/application/retrieval/ask.ts:338-343 | without a conflict the summary holds every statement; the standard message stands in only where there is nothing to say |
| `AnswerValidation.ConflictIff` | src/application/retrieval/ask.ts:320-332 | a statement is published as a conflict exactly when it was one or quotes a disputed item |
| `AnswerValidation.ConclusionsAreCited` | src/application/retrieval/ask.ts:278-319 | everything but the undetermined and model knowledge is cited, an inference at least twice |
| `AnswerValidation.OneItemCarriesAnInference` | src/application/retrieval/ask.ts:318-319 | one item cited twice satisfies the rule for inferences |
| `AnswerValidation.InferenceQuotesTwoItemsIff` | src/application/retrieval/ask.ts:318-319 | a published inference quotes two items exactly when two of its citations name different evidence keys |
| `AnswerValidation.ConflictedIff` | src/application/retrieval/ask.ts:338-343 | the answer is conflicted exactly when a statement is or the model said so |
| `AnswerValidation.StatementAcceptedIff` | src/application/retrieval/ask.ts:277-336 | a statement is accepted exactly when its citations are found, one asserts it if it claims a fact, and it has as many as its kind needs |
| `AnswerValidation.AcceptedIff` | src/application/retrieval/ask.ts:277-337 | an answer is accepted exactly when every statement is |
| `AnswerValidation.AssembledWindowsAreValid` | src/application/retrieval/ask.ts:216-233 | items chosen by the assembly have valid windows and are found under their own keys |
| `Redirects.RedirectWouldCycle` | src/application/graph/graph-plans.ts:447-465 | ends on any redirects, cyclic ones included, and answers exactly whether the target leads to the source |
| `Redirects.NewLinkIsSafeIff` | src/application/graph/graph-plans.ts:235-240 | a redirect added to acyclic ones keeps them acyclic exactly when its target does not lead to its source |
| `Redirects.FollowingEnds` | src/application/graph/graph-plans.ts:265-275 | following acyclic redirects ends, in no more steps than there are redirects, at an entity not redirected |
| `EntityGraph.Database.CreateMergePlan` | src/application/graph/graph-plans.ts:41-50 | a plan is made exactly for two different entities of one type, both there and neither deleted nor redirected; it records their versions and is the only thing added, and it applies as long as nothing is written exactly when a generation is active and the source has no redirect and is not led to by the target; each refusal says what was wrong and changes nothing |
| `EntityGraph.Database.ApplyMerge` | src/application/graph/graph-plans.ts:229-295 | the checks in their order; success redirects the source and moves the versions of source, node and target; refusal changes nothing |
| `EntityGraph.Database.ModerateEntity` | src/application/graph/graph-moderation.ts:40-92 | goes through exactly for an entity there at the version asked for, if one is; then it has the state and mark of the verdict, whatever its state was, and nothing else moves; the version moves only if something changes |
| `EntityGraph.MergeAppliesIff` | src/application/graph/graph-plans.ts:229-295 | when a merge goes through, and what it comes to: the redirect, the source and its node redirected, both ends one version on, nothing else |
| `EntityGraph.DeletedComesBack` | src/application/automation/resource-impact.ts:45-75 | an entity is deleted exactly if it is neither deleted nor redirected and its node carries no deletion time; restoring right after gives the graph back, entity and node two versions on |
| `EntityGraph.RestoresOnce` | src/application/automation/restore-workflows.ts:83-88 | a restoration that went through never does again |
| `EntityGraph.StepKeepsSound` | src/application/graph/graph-plans.ts:229-295 | every operation keeps redirects acyclic and between entities of one type |
| `EntityGraph.RunKeepsSound` | src/application/graph/graph-plans.ts:149-295 | so does every run of creations, merges, moderations, deletions and restorations |
| `EntityGraph.RedirectsResolve` | src/application/graph/graph-plans.ts:265-290 | after any run, following redirects from any entity ends at one of the same type |
| `EntityGraph.StepMovesVersions` | src/application/graph/graph-plans.ts:276-289 | a step moves an entity's version by one exactly when it changes the entity |
| `EntityGraph.OvertakenPlanNeverApplies` | src/application/graph/graph-plans.ts:231-235 | once either end of a merge plan was written, the plan never applies again |
| `EntityGraph.MergeAppliesOnce` | src/application/graph/graph-plans.ts:231-235 | a merge plan applies at most once |
| `EntityGraph.ReactivatedEntityStaysRedirected` | src/application/graph/graph-moderation.ts:71-92 | a merged entity made active again keeps its redirect in every later run and cannot be merged |
| `EntityGraph.StepStaysRedirectedIff` | src/application/graph/graph-moderation.ts:55-92 | an entity with a redirect is in status redirected after a step exactly when it was before and the step is no moderation of it that goes through |
| `EntityGraph.MergedStaysRedirectedIff` | src/application/graph/graph-moderation.ts:55-92 | in every run, an entity merged at some point is still redirected at the end exactly when no such moderation came in between |
| `EntityGraph.CycleCheckMatters` | src/application/graph/graph-plans.ts:235-240 | a plan that passes the other checks is refused as a cycle exactly when it would close one |
| `EntityGraph.CycleIsReached` | src/application/graph/graph-plans.ts:235-240 | a run that gets there: A merged into B, A made active again, and a plan to merge B into A, with current versions, refused as a cycle |
| `VectorIndex.CrashedBuildsDoNotMatter` | src/application/knowledge/vector-space-workflows.ts:86-154 | however many passes are cut short, and wherever, the completed one gives the index of a single pass |
| `VectorIndex.SavingKeepsConsistent` | src/infrastructure/knowledge/vector-space-repository.ts:183-238 | at most one active row a chunk, each with its vector |
| `VectorIndex.SavedIsActiveIff` | src/infrastructure/knowledge/vector-space-repository.ts:183-204 | a saved key is active exactly when it had no stale row |
| `VectorIndex.RefreshedIsClean` | src/application/knowledge/vector-space-workflows.ts:362-439 | on every outcome no active row refers to an inactive chunk or an older hash |
| `VectorIndex.RefreshCoversIff` | src/application/knowledge/vector-space-workflows.ts:387-424 | a completed refresh covers a listed chunk exactly when it had no stale row for its content |
| `VectorIndex.RefreshIsFullIff` | src/application/knowledge/vector-space-workflows.ts:345-424 | a refresh of some sources completes coverage exactly when the others were covered and there was no stale row in the way |
| `VectorIndex.RefreshAgreesWithRebuild` | src/application/knowledge/vector-space-workflows.ts:345-424 | refresh and rebuild leave the same active rows exactly when no listed chunk has a stale row for its content and no active chunk outside the list is covered |
| `VectorIndex.ReturningChunkStaysUncovered` | src/infrastructure/knowledge/vector-space-repository.ts:197-204 | a chunk tombstoned, refreshed, made active and refreshed again has no embedding |
| `VectorSpaces.StepKeepsSound` | src/application/knowledge/vector-space-plans.ts:104-172 | every workflow keeps the active space alive, deleted spaces empty, rows consistent and build runs in line with the state |
| `VectorSpaces.RunKeepsSound` | src/application/knowledge/vector-space-workflows.ts:27-297 | so does every run |
| `VectorSpaces.ActiveSpaceIsAlive` | src/application/knowledge/vector-space-plans.ts:122-149 | in every run the active space is neither deprecated nor deleted |
| `VectorSpaces.DeletedIsFinal` | src/application/knowledge/vector-space-plans.ts:149-172 | a deleted space stays deleted and empty |
| `VectorSpaces.StepVersions` | src/application/knowledge/vector-space-workflows.ts:345-458 | a step never lowers the version of a space, and without a new version state, runs and counts are as before |
| `VectorSpaces.OutdatedPlanNeverApplies` | src/application/knowledge/vector-space-plans.ts:104-172 | a plan made for an earlier version never activates or deletes the space in any later state |
| `VectorSpaces.PlanAppliesOnce` | src/application/knowledge/vector-space-plans.ts:104-172 | an activation or deletion that did something never does anything again |
| `VectorSpaces.ActivatesIff` | src/application/knowledge/vector-space-plans.ts:104-148 | does something exactly for a ready or replaced space at the planned version with all counts complete; then it is the active one, and only the one before is deprecated |
| `VectorSpaces.DeletesIff` | src/application/knowledge/vector-space-plans.ts:149-172 | does something exactly for a space at the planned version that is not active; then it is empty and deleted, and every other as it was |
| `VectorSpaces.VerifiesIff` | src/application/knowledge/vector-space-workflows.ts:209-297 | looks only at a built or ready space whose sentinel holds, and finds it ready exactly if chunks are listed and as many covered |
| `VectorSpaces.ReadyComesFrom` | src/application/knowledge/vector-space-workflows.ts:209-297 | a space becomes ready by its verification alone, and a replaced one by being activated again |
| `VectorSpaces.BuildsAreNeverSkipped` | src/application/knowledge/vector-space-workflows.ts:49-58 | although the watermark overlooks most chunks, no buildable space ever has a ready run to reuse |
| `VectorSpaces.ResumedBuildAgrees` | src/application/knowledge/vector-space-workflows.ts:86-154 | a build repeated after failures leaves the index of one uninterrupted build |
| `VectorSpaces.ResumedBuildIsFullIff` | src/application/knowledge/vector-space-workflows.ts:86-154 | it covers every listed chunk, without duplicates, exactly when none had a stale row |
| `VectorSpaces.CoveredRowsCountChunks` | src/infrastructure/knowledge/vector-space-repository.ts:240-255 | the rows counted as covered correspond one to one to chunks |
| `VectorSpaces.CountsMeanFullIff` | src/application/knowledge/vector-space-plans.ts:105-121 | equal counts mean full coverage exactly when no covered chunk is unlisted |
| `VectorSpaces.UnlistedChunkStandsIn` | src/application/knowledge/vector-space-plans.ts:105-121 | the counts can pass with an uncovered chunk |
| `VectorSpaces.ActivationHasCoverage` | src/application/knowledge/vector-space-plans.ts:104-142 | only activation changes the active space, with complete non-empty counts, and deprecates the previous one |
| `VectorSpaces.VectorsAreAlwaysStored` | src/application/knowledge/vector-space-workflows.ts:229-232 | the third condition of verification always holds |
| `Publisher.StepKeepsInStepIff` | src/infrastructure/knowledge/knowledge-publisher.ts:99-205 | a publishing step keeps active chunks and current revisions in step exactly when it does not make a revision with other chunks current again |
| `Publisher.RunKeepsInStep` | src/infrastructure/knowledge/knowledge-publisher.ts:39-205 | so in every run without such a reuse a chunk is active exactly when it is in the current revision of an active document |
| `Publisher.InStepCountsMeanFull` | src/application/knowledge/vector-space-plans.ts:105-121 | and then complete counts mean that every listed chunk is covered |
| `Publisher.ReturningDocumentHasNoActiveChunk` | src/infrastructure/knowledge/knowledge-publisher.ts:112-128 | a document that goes missing and comes back unchanged is active again while its chunks stay tombstoned |
| `Publisher.ActivatedWithoutCoverage` | src/infrastructure/knowledge/knowledge-publisher.ts:129-146 | a run of publications, build, verification and activation that ends with a listed chunk uncovered: an earlier snapshot was published again |
| `VectorWorkflows.FindMissing` | src/application/knowledge/vector-space-workflows.ts:88-100 | the chunks of a batch without an active row, in order |
| `VectorWorkflows.Database.SaveEmbedding` | src/infrastructure/knowledge/vector-space-repository.ts:183-238 | one save, in place |
| `VectorWorkflows.Database.Build` | src/application/knowledge/vector-space-workflows.ts:27-207 | whatever the batch size and the faults, the run amounts to one build step with some number of chunks saved; it gives out or dies only for a fault at one of its keys, fails at once with the sentinel, and reports how it ended |
| `VectorWorkflows.Database.BuildBatch` | src/application/knowledge/vector-space-workflows.ts:86-130 | a batch leaves the index of a prefix of the chunks, all of the batch unless a fault stopped it |
| `VectorWorkflows.MarkRows` | src/application/knowledge/vector-space-workflows.ts:373-385 | the loop over the outdated rows marks them all and removes their vectors, and touches no other row |
| `VectorWorkflows.Database.MarkStale` | src/application/knowledge/vector-space-workflows.ts:364-386 | exactly the outdated active rows become stale and lose their vectors |
| `VectorWorkflows.Database.Refresh` | src/application/knowledge/vector-space-workflows.ts:345-458 | on every outcome, death of the process included, the run amounts to one refresh step; it stops only for a fault at one of its keys, and ready means all missing chunks were saved |
| `VectorWorkflows.Database.Activate` | src/application/knowledge/vector-space-plans.ts:104-148 | the version, state and coverage checks, then the switch, or no change |
| `VectorWorkflows.Database.Delete` | src/application/knowledge/vector-space-plans.ts:149-172 | refuses the active space; otherwise empties and marks it |
| `InitRollback.Workspace.PrepareJournal` | src/application/workspace/init-preparation.ts:18-47 | makes the runtime directories and lists them even if they were there; the journal starts out faithful exactly when there was no runtime directory |
| `InitRollback.Workspace.EnsureDirectory` | src/application/workspace/init-files.ts:6-22 | makes the whole path, lists exactly the directories newly made, and keeps the journal faithful |
| `InitRollback.Workspace.CreateFile` | src/application/workspace/init-files.ts:24-30 | a file written and recorded keeps the journal faithful unless it was there before |
| `InitRollback.SortedByDepth` | src/application/workspace/init-rollback.ts:106-109 | the same directories, deepest first |
| `InitRollback.HasEntryIffNeeded` | src/application/workspace/init-rollback.ts:110-117 | with everything deeper settled, a listed directory has an entry left exactly when something beneath it stays |
| `InitRollback.SettleOne` | src/application/workspace/init-rollback.ts:106-122 | one directory looked at in that order settles it for good |
| `InitRollback.Workspace.RemoveFiles` | src/application/workspace/init-rollback.ts:91-101 | removes the listed files if none changed; otherwise stops at the first changed one with those before it gone, and so loses nothing exactly when none of those was there |
| `InitRollback.Workspace.RemoveDirectories` | src/application/workspace/init-rollback.ts:106-122 | a directory survives exactly when it is not listed or something not removed remains beneath it |
| `InitRollback.Workspace.ApplyRollback` | src/application/workspace/init-rollback.ts:62-124 | completes exactly when the journal and listed files are unchanged, and then removes only listed files, the journal, the plan and unneeded listed directories; refused, it leaves all files exactly when the journal changed or no file it would have removed first was there; on a faithful journal it restores the state before init |
| `InitRollback.RefusedRollbackLosesFile` | src/application/workspace/init-rollback.ts:91-101 | two files listed and the second changed: the rollback is refused and the first is gone |
| `InitRollback.RollbackRestoresIff` | src/application/workspace/init-rollback.ts:91-124 | a completed rollback gives back the earlier state exactly when nothing earlier is listed, save directories still needed, and everything newer is |
| `ConfigPath.ReadPath` | src/application/workspace/workspace-config.ts:137-150 | what the path resolves to, or not found |
| `ConfigPath.ParentRecord` | src/application/workspace/workspace-config.ts:162-172 | refused exactly when a value stands in the way, and then nothing changed; otherwise tables stand on the whole way and nothing else changed |
| `ConfigPath.WritePath` | src/application/workspace/workspace-config.ts:152-155 | in place, the nested table shows the value at the path and elsewhere what it showed |
| `ConfigPath.DeletePath` | src/application/workspace/workspace-config.ts:157-160 | in place, the path and everything below shows nothing and elsewhere what it showed |
| `ConfigPath.OnePathEach` | src/application/workspace/workspace-config.ts:162-172 | in a nest without sharing one table is reached by one path |
| `ConfigPath.OtherPathsKeep` | src/application/workspace/workspace-config.ts:152-160 | setting or removing one entry changes no path that does not pass through it |
| `ConfigPath.ReadsBack` | src/application/workspace/workspace-config.ts:137-160 | a written path reads as the value, whole; a removed one reads as absent |
| `ConfigPath.UnrelatedUntouched` | src/application/workspace/workspace-config.ts:137-172 | an unrelated path reads and can be written as before |
| `ConfigPath.EditsCommute` | src/application/workspace/workspace-config.ts:152-172 | writes and removals at unrelated paths, refused ones included, give the same refusals and the same configuration in either order |
| `ConfigPath.LastWriteWins` | src/application/workspace/workspace-config.ts:152-160 | the last write at a path decides |
| `ConfigPath.ShapedIsTreeLike` | src/application/workspace/workspace-config.ts:137-150 | in a nest of tables nothing is found below a value or below nothing |
| `ConfigPath.RemovingNothingIff` | src/application/workspace/workspace-config.ts:157-172 | removing what is not there changes nothing exactly when its table is there |
| `PageIr.CollectCitations` | src/application/artifact/page-ir.ts:265-291 | the nested loops collect through a Map and sort |
| `PageIr.CollectedIsIndex` | src/application/artifact/page-ir.ts:265-297 | the list is strictly sorted by id and has an id exactly when a conclusion cites it |
| `PageIr.CollectedIsTheLast` | src/application/artifact/page-ir.ts:265-291 | of citations with one id the last is kept |
| `PageIr.OneIdIff` | src/application/artifact/page-ir.ts:293-297 | two citations share an id exactly if they name the same claim, chunk and excerpt, whatever else they say, given a digest that tells their texts apart |
| `PageIr.CitationResolves` | src/application/artifact/page-ir.ts:96-107 | every citation of every conclusion is in the list exactly once |
| `PageIr.CollectSources` | src/application/artifact/page-ir.ts:243-263 | the loop finds each source once |
| `PageIr.DirectoryAddsUp` | src/application/artifact/page-ir.ts:243-263 | every cited source is listed once and the counts add up to the number of citations |
| `PageIr.PermutationKeepsInput` | src/application/artifact/page-ir.ts:318 | the dependency hash does not depend on the order of dependencies |
| `PageIr.DependencyInputIff` | src/application/artifact/page-ir.ts:318 | its input is the same exactly for permutations |
| `PageIr.CreateTopicPageIr` | src/application/artifact/page-ir.ts:12-94 | the components in their order, each only under its condition |
| `PageIr.PageIsClosed` | src/application/artifact/page-ir.ts:12-94 | every id in a section or conflict component is in the citation list once, and the page ends with source counts that add up |
| `PageIr.PageShows` | src/application/artifact/page-ir.ts:34-70 | a page has a component exactly if the report calls for it, and its components stand in their order |

## Left out

- SQL text, JSON text, hashing and Unicode tables: rows are column maps, digests and foldings are parameters, equality
  of column maps stands for canonical JSON.
- Idempotency keys, requests' identifiers and the result objects the workflows return.
- Expiry by the clock: a plan may be closed at any time, which covers it.
- Relation and artifact deletion, connection detaching and the note deletion wrapper: the same planner loop over fewer
  rows.
- How a claim's confidence is computed from its evidence and conflicts: the recalculation takes the level, its details
  and whether the claim is disputed as given. Other writers outside the log (extraction, conflict resolution,
  generation switches) are not part of the runs.
- Alias copying in a merge, relations and generation switches of the graph.
- The order of garbage-collection candidates and the proof hash over them.
- A failure of the last staging removal after a commit of garbage collection: it is a crash or a success here.
- Crashes during a purge: the program has no recovery for them.
- Where a note goes for a target directory: the path is a parameter of `NoteMove.DescribeNoteMove`.
- Renames of documents and the lineage of chunks in publishing.
- Other writers between a check and its use, and the locks against them.
- Paths that escape the workspace root, symbolic links, and prototype keys in configuration tables.
- Jobs, leases, change classification, retrieval ranking, model calls, the sentinel's own rows, rendering,
  presenters.
- ContextAssembly.AssembleContext: timing fields are not modelled.
- VectorWorkflows.Database.Build: the counters on the run row (cursor, embedded, reused) are not modelled.
- PageIr.CreateTopicPageIr: payload fields other than cards, citations and sources are not modelled; the order is by
  code units, which agrees with the locale order on these ids.
- EntityGraph.Database.ModerateEntity: the changes to topics, artifacts and answers that go with it are not part of it.
