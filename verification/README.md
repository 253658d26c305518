# Verified models of the exact-review control plane stores

The exact-review control plane keeps its state in Durable Object stores: SQL tables that are changed
inside synchronous transactions, and the stretches of code between two `await`s. This project models
the stores whose guarantees span many calls, and proves those guarantees for every input, every
interleaving of transactions and every run.

Each store is told three times. A specification module gives every transaction as a function from
tables to tables, with the source's branches, constants and error cases. A class (or, for the queue
read model and the coverage projection, a set of methods) does the same work step by step, with the
source's loops and table updates, and each of its methods ensures that the new tables equal the
specification of the old ones. Lemmas about the specification then prove what the store promises:
invariants of each step, relations between any two states of a run, and equality with independent
definitions.

- `Ordering` is the SQL `ORDER BY ... LIMIT` of a table, and a few facts about finite collections.
- `PublicationBatches`, `PublicationBatchSafety`, `PublicationBatchRuns`, `PublicationBatchLeases`,
  `PublicationBatchOutcomes` and `PublicationBatchStore`: publication batches, a lease protocol with
  fencing generations that outlive the rows they fence, and what each of its calls answers.
- `CanonicalTables` and `CanonicalTransactions` are the canonical record store: publication under
  fenced receipts, tuple compare-and-swap, the export index, the live migration from format 1 to
  format 2, hydration retirement, commits and import shadows. `CanonicalInvariant` says what holds in
  every state and `CanonicalEvolution` what no transaction undoes; `CanonicalAcceptance`,
  `CanonicalMigration`, `CanonicalFrontier` and `CanonicalMaintenance` prove both for each transaction.
  `CanonicalFencing` tells what may be written, `CanonicalPublication` what a publication leaves section
  by section, `CanonicalPasses` how much a migration pass takes and counts, `CanonicalDrain` that the
  migration ends, `CanonicalRuns` what follows for whole runs, `CanonicalAnswers` who is answered, and
  `CanonicalStore` is the class.
- `CanonicalBodies` is the body store under it: put once, never deleted, verified on every read.
- `ExportFeed` is one page of the change feed and `ExportReader` a reader that follows its cursor.
- `EgressTelemetry`, `EgressCompleteness`, `EgressRuns`, `EgressAccounting` and `EgressStore`: rollups with
  retention, row caps, a published completeness claim and the counters beside it.
- `WebhookReadModel`, `WebhookRetirement`, `WebhookPasses`, `WebhookSafety`, `WebhookConvergence`,
  `WebhookContents`, `WebhookTombstones` and `WebhookStore`: last-writer-wins rows with tombstones,
  repairs, row caps and bounded payload retirement.
- `Lifecycle`, `LifecycleSafety`, `LifecycleFacts` and `LifecycleStore`: terminal history and
  acknowledgement attempts.
- `CommandIntake`, `CommandIntakeFacts` and `CommandIntakeStore`: intake, watermark and receipt tables
  that stay in step.
- `QueueAdmission`, `QueueAdmissionSafety`, `QueueAdmissionOrder`, `QueueAdmissionWakes` and
  `QueueAdmissionLoops`: admission in order of age, and the next wake-up.
- `CoverageScan`, `CoverageProjection` and `CoverageFacts`: the paged coverage scan and the row it yields.

Readings that run through all modules:

- A digest carries the body it was computed from, which makes it injective. Byte lengths are the
  body's, and a record is deleted exactly when it has no digest.
- Identifiers that a query orders are integers. Repository slugs are in the lower case the source
  folds them to. Clocks are parameters; a run's clock does not go back where a claim needs that.
- What the source decides by parsing text (whether a report completes a review, whether it names a
  decision packet, whether a snapshot holds the placeholder marker, how a record is judged for
  coverage) is a field or a function parameter.
- The body bucket only grows, and a body counts as prepared once it was stored and read back.
- A method that reports an error has rolled its transaction back.
- A completion time of zero reads as "not completed" in the tiering checkpoint, as the source's
  truth test has it; a clock never shows it.

## What the proofs found

- `hasCompletedPullRequestReview` says it seeds answers from canonical or imported records. Its query
  joins the canonical record to a published receipt, so an imported record alone never answers. The
  model follows the query (`CanonicalRuns.ImportsAloneAnswerNothing`; the exact condition for a first
  answer is `CanonicalRuns.AnsweredExactlyWhenProved`).
- A receipt already superseded by a newer version can still be finished afterwards, because finishing
  rewrites whatever outcome the receipt has (`CommandIntake.SupersededCanComplete`). When exactly a
  final receipt changes is `CommandIntake.FinalOutcomesChangeExactlyWhen`.
- A tombstone the row cap has dropped still keeps its object dead, with one exception in each table. A
  comment returns where a repair whose clock is not after the tombstone's source time buries, at that
  earlier time, the comments that ranked above it (`WebhookTombstones.EarlyCensusRevives`; exactly which
  censuses: `WebhookTombstones.CensusesKeepDeadExactlyWhen`). An activity returns where a row of the other
  kind shares its identifier, because pruning then spares both (`WebhookTombstones.TwinsRevive`; exactly
  which writes stay: `WebhookTombstones.ReturnsExactlyWhen`).
- Recording a terminal disposition under the identifier reserved for cancelled closures makes a later
  cancellation write a projection that can no longer be read
  (`LifecycleSafety.CancelStaysReadableExactlyWhen`, `LifecycleSafety.ReservedIdentifierCollides`).
- While batches hold back publications, the next wake waits for the batch even though terminal
  finalizations and direct receipts are not held back by it (`QueueAdmissionSafety.FinalizationIsMissed`).
  When exactly a publication is missed is `QueueAdmissionSafety.PublicationsAreMissedExactlyWhen`.
- A repository whose census is current but whose counts are stale, and which lists an excluded item, is
  projected with a negative reviewable count; the public validator then refuses the row, and with it
  the whole coverage report (`CoverageProjection.RowAcceptedExactlyWhen`,
  `CoverageProjection.OldCountsAreRefused`).

## Model

| member | source | states |
|---|---|---|
| `PublicationBatchStore.Store.Claim` | dashboard/exact-review-publication-batches.ts:224-299 | expires leases, grants or refuses the batch, and takes free candidates with fresh fences, exactly as specified |
| `PublicationBatchStore.Store.Heartbeat` | dashboard/exact-review-publication-batches.ts:313-352 | extends only a lease that is still running, for its owner, with all its fences |
| `PublicationBatchStore.Store.OwnsActiveFence` | dashboard/exact-review-publication-batches.ts:361-387 | whether a fence belongs to an unfinished membership of a leased batch |
| `PublicationBatchStore.Store.Complete` | dashboard/exact-review-publication-batches.ts:471-546 | settles the matching completions, hands over just the newly accepted ones, and closes a batch with nothing unfinished |
| `PublicationBatchStore.Store.Stats` | dashboard/exact-review-publication-batches.ts:548-623 | deletes the oldest finished batches with their memberships, up to a limit, and counts what is left |
| `PublicationBatchStore.Store.ReclaimExpired` | dashboard/exact-review-publication-batches.ts:625-649 | ends every lease that has run out, with its unfinished memberships |
| `PublicationBatchStore.Store.NextClaimGeneration` | dashboard/exact-review-publication-batches.ts:677-689 | a generation above the item's counter and above every membership retained for it |
| `PublicationBatchStore.Store.EnsureSchema` | dashboard/exact-review-publication-batches.ts:190-222 | one loop raises each recorded size, another each generation counter, as far as retained memberships need and no further |
| `PublicationBatchSafety.ReseedRepairs` | dashboard/exact-review-publication-batches.ts:190-222 | whatever counters an upgraded store has, the reseed establishes the whole invariant and lowers no counter |
| `PublicationBatchSafety.StepKeepsInv` | dashboard/exact-review-publication-batches.ts:172-178 | after every transaction a batch is leased iff it has an unfinished membership, an item is unfinished in at most one batch, and no batch exceeds its size |
| `PublicationBatchRuns.EveryFenceIsGrantedOnce` | dashboard/exact-review-publication-batches.ts:677-689 | over any run each item and generation is granted to at most one membership, even after rows are deleted and batch ids reused |
| `PublicationBatchRuns.HandedWasOpenAndIsSpent` | dashboard/exact-review-publication-batches.ts:471-546 | a completion handed over belonged to a running lease, which it ended |
| `PublicationBatchRuns.NoFenceCompletesTwice` | dashboard/exact-review-publication-batches.ts:471-546 | no fence is handed over by two completions of a run |
| `PublicationBatchRuns.EndedFenceStaysEnded` | dashboard/exact-review-publication-batches.ts:361-387 | once its lease ended, a fence owns nothing and completes nothing in any later state |
| `PublicationBatchLeases.StepAdvances` | dashboard/exact-review-publication-batches.ts:313-352 | a final outcome never changes, a running lease never shortens, and only finished batches are deleted |
| `PublicationBatchLeases.LeasesStayBounded` | dashboard/exact-review-publication-batches.ts:235-254 | no run leases more batches at once than max(1, the configured limit) |
| `PublicationBatchLeases.ClaimIsWorkConserving` | dashboard/exact-review-publication-batches.ts:255-298 | a claim passes over a valid candidate only when the batch is full or the item is held |
| `PublicationBatchLeases.CompletionRetryIsNoOp` | dashboard/exact-review-publication-batches.ts:471-546 | repeating a completion that closed its batch is granted, hands over nothing and changes nothing |
| `PublicationBatchLeases.CleanupTakesTheOldest` | dashboard/exact-review-publication-batches.ts:556-583 | whatever cleanup leaves is younger than all it deletes |
| `PublicationBatchLeases.CleanupIsExact` | dashboard/exact-review-publication-batches.ts:548-623 | cleanup takes as many as its limit allows and reports exactly how many it took and left |
| `PublicationBatchOutcomes.ClaimIsExact` | dashboard/exact-review-publication-batches.ts:224-299 | exactly when a claim begins a batch, and what it then adds: open memberships, each for the first valid candidate of a free item, under the next unspent generation |
| `PublicationBatchOutcomes.ClaimsInOrder` | dashboard/exact-review-publication-batches.ts:258-285 | what comes before a taken candidate is held as well |
| `PublicationBatchOutcomes.FetchIsExact` | dashboard/exact-review-publication-batches.ts:301-311 | who is answered with a batch |
| `PublicationBatchOutcomes.HeartbeatIsExact` | dashboard/exact-review-publication-batches.ts:313-352 | exactly who may renew a lease, and that it then ends at the later of the two times |
| `PublicationBatchOutcomes.OwnedExactlyWhen` | dashboard/exact-review-publication-batches.ts:361-387 | a fence is owned iff an unfinished membership of a running batch carries it |
| `PublicationBatchOutcomes.CompletionIsExact` | dashboard/exact-review-publication-batches.ts:471-546 | each unfinished membership named ends with the first outcome reported for it, all others stay, and the batch is completed iff none is left, keeping its first commit and failure |
| `PublicationBatchOutcomes.HandedIsExact` | dashboard/exact-review-publication-batches.ts:488-521 | exactly which completions are handed over, as often as presented |
| `PublicationBatchOutcomes.ReclaimExpires` | dashboard/exact-review-publication-batches.ts:625-649 | an outlived lease ends as expired with its unfinished memberships, and nothing else moves |
| `PublicationBatchOutcomes.EveryEndingHasACause` | dashboard/exact-review-publication-batches.ts:471-546 | over every transaction a membership ends only by its lease running out or by the first completion its owner reported in time |
| `PublicationBatchOutcomes.CleanupIsTold` | dashboard/exact-review-publication-batches.ts:548-623 | only finished batches beyond their time to live go, and one stays only where the limit was met |
| `CanonicalStore.Store.HasCompletedPullRequestReview` | dashboard/exact-review-direct-publication.ts:2003-2055 | the answer, from the table or the evidence, which it then remembers |
| `CanonicalStore.Store.PruneTerminal` | dashboard/exact-review-direct-publication.ts:2093-2120 | remembers what the expired receipts prove, then deletes the oldest of them up to the limit |
| `CanonicalStore.Store.WriteCanonicalOperation` | dashboard/exact-review-direct-publication.ts:2499-2609 | one row in the durable format, its export pointer under a fresh store revision, its import gone; refused for an unprepared live body in format 2 |
| `CanonicalStore.Store.Accept` | dashboard/exact-review-direct-publication.ts:510-602 | prunes, dedupes, supersedes or writes the whole tuple and its receipt, or changes nothing |
| `CanonicalStore.Store.AcceptCanonicalTupleMutation` | dashboard/exact-review-direct-publication.ts:604-680 | compare-and-swap of a tuple against expected digests, bound to its delivery |
| `CanonicalStore.Store.PrepareCanonicalWrites` | dashboard/exact-review-direct-publication.ts:735-750 | stores the live bodies for format 2 and none for format 1 |
| `CanonicalStore.Store.ActivateTiering` | dashboard/exact-review-direct-publication.ts:1053-1082 | records the frontier and switches the durable format once |
| `CanonicalStore.Store.PrepareTieringPass` | dashboard/exact-review-direct-publication.ts:1098-1197 | scans whole tuples in row order within 64 rows, 4 tuples and 8 MiB, and stores their bodies |
| `CanonicalStore.Store.CommitTieringPass` | dashboard/exact-review-direct-publication.ts:1199-1266 | moves the tuples that have not changed since, row by row, and advances the checkpoint |
| `CanonicalStore.Store.MoveRows` | dashboard/exact-review-direct-publication.ts:1237-1243 | the version 1 rows of one tuple become version 2 rows with the same metadata, counted by rows and bytes |
| `CanonicalStore.Store.PublishCanonicalCommits` | dashboard/exact-review-direct-publication.ts:1902-1947 | publishes commit records once each, or nothing if one conflicts |
| `CanonicalStore.Store.RetireHydrationCache` | dashboard/exact-review-direct-publication.ts:2253-2350 | rewrites the retired files of unchanged tuples and lifts their siblings to the new revision |
| `CanonicalStore.Store.PruneBackfillShadows` | dashboard/exact-review-direct-publication.ts:2376-2434 | sweeps a bounded range of imports and drops those a canonical row shadows |
| `CanonicalStore.Store.ExportRecords` | dashboard/exact-review-direct-publication.ts:1780-1900 | one page of the change feed under record, source byte and response byte limits |
| `CanonicalInvariant.EmptyIsConsistent` | dashboard/exact-review-direct-publication.ts:289-421 | the empty store, where runs may start, satisfies the invariant |
| `CanonicalInvariant.PlaceKeepsInv` | dashboard/exact-review-direct-publication.ts:2499-2609 | a canonical write keeps the whole store invariant in either format |
| `CanonicalAcceptance.AcceptKeeps` | dashboard/exact-review-direct-publication.ts:510-602 | a publication keeps the invariant and undoes nothing, whatever its verdict |
| `CanonicalAcceptance.MoveKeeps` | dashboard/exact-review-direct-publication.ts:604-680 | so does a tuple mutation |
| `CanonicalAcceptance.PruneKeeps` | dashboard/exact-review-direct-publication.ts:2093-2120 | so does receipt pruning: no answer is lost with its evidence |
| `CanonicalMaintenance.RetireAllKeeps` | dashboard/exact-review-direct-publication.ts:2253-2350 | so does hydration retirement |
| `CanonicalMaintenance.PublishCommitsKeep` | dashboard/exact-review-direct-publication.ts:1902-1947 | so does publishing commits |
| `CanonicalMaintenance.DropShadowsKeeps` | dashboard/exact-review-direct-publication.ts:2376-2434 | so does dropping import shadows |
| `CanonicalMaintenance.DropShadowsKeepsBodies` | dashboard/exact-review-direct-publication.ts:2409-2421 | no export entry loses the body it resolves to |
| `CanonicalMaintenance.RetiredTupleIsExact` | dashboard/exact-review-direct-publication.ts:2268-2340 | a changed tuple is left alone; an unchanged one gets its stripped views and one new revision throughout, and no other row changes |
| `CanonicalMaintenance.PublishedCommitsAreExact` | dashboard/exact-review-direct-publication.ts:1902-1947 | every published commit is exported with its own body, and no other entry changes |
| `CanonicalMaintenance.CommitsRefusedExactlyWhen` | dashboard/exact-review-direct-publication.ts:1902-1947 | commits are refused iff one differs from what its identifier holds or from an earlier one of the call |
| `CanonicalMaintenance.SweepIsExact` | dashboard/exact-review-direct-publication.ts:2409-2421 | exactly which imports a sweep drops |
| `CanonicalFencing.LowerRevisionWritesNothing` | dashboard/exact-review-direct-publication.ts:541-562 | while a higher revision of the fence is retained, a lower one writes no record |
| `CanonicalFencing.FinishedPlanIsImmutable` | dashboard/exact-review-direct-publication.ts:520-539 | a retained finished plan replayed under any claim generation changes no record, and any other payload is refused |
| `CanonicalFencing.AcceptedExactlyWhen` | dashboard/exact-review-direct-publication.ts:510-602 | the exact condition under which a publication writes |
| `CanonicalFencing.PreparationIsSkippedExactly` | dashboard/exact-review-direct-publication.ts:712-733 | the early look at the receipts says exactly whether the publication will write |
| `CanonicalFencing.WriteAllNeedsBodies` | dashboard/exact-review-direct-publication.ts:2511-2514 | a tuple is written iff every live body is prepared for the format in force |
| `CanonicalFencing.AcceptedTupleIsExact` | dashboard/exact-review-direct-publication.ts:563-601 | an accepted publication leaves every file of its plan as the tuple's row, strictly above all the tuple had reached, and touches no other tuple |
| `CanonicalPublication.PublishedTupleIsExact` | dashboard/exact-review-direct-publication.ts:2932-2982 | told from the plan: named files hold their content or stripped view, the replaced primary and the orphaned sidecars are deleted, every other section keeps its row, all under one revision |
| `CanonicalPublication.ShapeRefusedExactlyWhen` | dashboard/exact-review-direct-publication.ts:2936-2946 | a plan is refused iff it writes both primary sections |
| `CanonicalPublication.PublishedExportsAreExact` | dashboard/exact-review-direct-publication.ts:2576-2607 | the touched sections are exported under fresh store revisions and shadow no import; no other export row or import changes |
| `CanonicalPublication.ReceiptIsExact` | dashboard/exact-review-direct-publication.ts:592-600 | the receipt an accepted publication leaves |
| `CanonicalPublication.ReplayedExactlyWhenSame` | dashboard/exact-review-direct-publication.ts:520-539 | a retained receipt dedupes the same publication and refuses any other, told by target, files and lifecycle |
| `CanonicalPublication.LatePublicationsAreRecorded` | dashboard/exact-review-direct-publication.ts:541-562 | a publication below a retained revision is recorded as superseded |
| `CanonicalFencing.TupleOpsDistinct` | dashboard/exact-review-direct-publication.ts:2932-2982 | completing a tuple keeps the plan's operations, adds deletions only, and leaves one operation per section |
| `CanonicalFencing.PruneTakesTheOldest` | dashboard/exact-review-direct-publication.ts:4099-4103 | pruning takes finished receipts beyond retention only, oldest first, up to its limit |
| `CanonicalFencing.MovedExactlyWhen` | dashboard/exact-review-direct-publication.ts:604-680 | the exact condition under which a mutation moves its tuple; otherwise no record changes |
| `CanonicalFencing.DeliveriesAreBound` | dashboard/exact-review-direct-publication.ts:617-637 | a retained delivery reports its revision for the same payload and refuses any other |
| `CanonicalPublication.DeliveriesForgottenAreOldest` | dashboard/exact-review-direct-publication.ts:604-640 | only deliveries beyond retention are forgotten, the oldest first, up to the limit |
| `CanonicalFencing.MovedTupleIsExact` | dashboard/exact-review-direct-publication.ts:651-680 | a moved tuple holds every file one revision above all it had reached, and no other row changes |
| `CanonicalMigration.ConflictsExactlyWhenChanged` | dashboard/exact-review-direct-publication.ts:1213-1235 | in a consistent store a scanned tuple conflicts iff it changed since |
| `CanonicalMigration.CommitTuplesKeep` | dashboard/exact-review-direct-publication.ts:1209-1244 | moving tuples keeps the invariant, both views and every answer, and without a conflict leaves no version 1 row of a moved tuple |
| `CanonicalFrontier.PassCovers` | dashboard/exact-review-direct-publication.ts:1107-1196 | a pass takes the tuple of every version 1 row between the old cursor and its own |
| `CanonicalFrontier.CommitKeepsFrontier` | dashboard/exact-review-direct-publication.ts:1245-1263 | a row the cursor has passed lies above a recorded restart point, whatever was written between scan and commit |
| `CanonicalFrontier.CommitKeeps` | dashboard/exact-review-direct-publication.ts:1199-1266 | a commit keeps the invariant, undoes nothing, and changes neither the read view nor the export index |
| `CanonicalFrontier.CompletionMeansDrained` | dashboard/exact-review-direct-publication.ts:1245-1263 | completion is recorded exactly when both version 1 tables are empty |
| `CanonicalFrontier.ActivateKeeps` | dashboard/exact-review-direct-publication.ts:1053-1082 | activation keeps the invariant and undoes nothing |
| `CanonicalDrain.PassAlwaysPrepares` | dashboard/exact-review-direct-publication.ts:1098-1197 | scanning a consistent store never fails |
| `CanonicalDrain.QuietCommitHasNoConflicts` | dashboard/exact-review-direct-publication.ts:1199-1244 | with no writer in between, no scanned tuple conflicts |
| `CanonicalDrain.MigrationDrains` | dashboard/exact-review-direct-publication.ts:1098-1266 | left alone, at most two passes per version 1 row and one more finish the migration |
| `CanonicalPasses.PassFitsItsLimits` | dashboard/exact-review-direct-publication.ts:1098-1197 | a pass takes at most 4 tuples, 8 MiB and 64 rows, counts the rows it went through, and stops short only where a limit is met |
| `CanonicalPasses.CommitCountsExactly` | dashboard/exact-review-direct-publication.ts:1246-1264 | a commit books the rows and bytes that left version 1, the tuples that had changed, and completion |
| `CanonicalRuns.RunKeeps` | dashboard/exact-review-direct-publication.ts:423-434 | in every state of every run the invariant holds and nothing an earlier state had is undone |
| `CanonicalRuns.AnsweredForever` | dashboard/exact-review-direct-publication.ts:2003-2055 | once an item is answered it stays answered in every later state |
| `CanonicalAnswers.AnsweredExactlyWhenCompleted` | dashboard/exact-review-direct-publication.ts:2003-2055 | in every state of every run an item is answered iff it was at the start or an accepted publication has since completed a review of it that was no requeue |
| `CanonicalAnswers.AcceptAnswers` | dashboard/exact-review-direct-publication.ts:565-591 | an accepted publication answers its own item iff it completes a review, and no other verdict answers anyone |
| `CanonicalAnswers.OtherStepsInventNothing` | dashboard/exact-review-direct-publication.ts:2003-2055 | no move, migration, retirement, commit, sweep or pruning ever answers an item |
| `CanonicalRuns.AnsweredExactlyWhenProved` | dashboard/exact-review-direct-publication.ts:2014-2046 | an item not yet in the answer table is answered iff a retained publication of a completed format 1 review, no requeue, proves it |
| `CanonicalRuns.ImportsAloneAnswerNothing` | dashboard/exact-review-direct-publication.ts:2012-2046 | an item whose primary records are imports is not answered by them |
| `CanonicalRuns.MeaningIsPreserved` | dashboard/exact-review-direct-publication.ts:423-434 | no key is in both formats, view and export rows agree, and every live entry resolves to the body of its digest |
| `CanonicalRuns.MigrationIsInvisible` | dashboard/exact-review-direct-publication.ts:1199-1266 | committing a pass changes neither the read view nor the export index |
| `CanonicalRuns.MigrationLosesNoRow` | dashboard/exact-review-direct-publication.ts:1203-1264 | after activation version 1 only loses rows to the view, passed rows lie above a restart point, and completion is final |
| `CanonicalRuns.WritesRaiseTheTuple` | dashboard/exact-review-direct-publication.ts:2611-2627 | a changed row lies strictly above everything its tuple had reached, whatever receipts are left |
| `CanonicalRuns.StalePreparationIsRefused` | dashboard/exact-review-direct-publication.ts:735-750 | live content prepared under format 1 is refused once format 2 is active |
| `CanonicalRuns.StaleMutationIsRefused` | dashboard/exact-review-direct-publication.ts:735-750 | the same for a tuple mutation |
| `CanonicalBodies.Store.Prepare` | dashboard/canonical-bodies.ts:41-64 | a conditional put, then a full read: succeeds iff exactly this body can be read back |
| `CanonicalBodies.Store.Read` | dashboard/canonical-bodies.ts:66-97 | delivers a body only if its reported size, its length and its digest all match |
| `CanonicalBodies.PreparedExactlyWhen` | dashboard/canonical-bodies.ts:41-64 | the exact condition for preparing: the key is free, or holds the same octets intact |
| `CanonicalBodies.ReadableStays` | dashboard/canonical-bodies.ts:26-27 | what could be read once can be read ever after |
| `CanonicalBodies.ReadsAreFaithful` | dashboard/canonical-bodies.ts:91-93 | without digest collisions a read delivers only the prepared body |
| `ExportFeed.MergedSectionsAreTheFirstRows` | dashboard/exact-review-direct-publication.ts:1796-1847 | limiting each section and merging gives the first rows of them all |
| `ExportFeed.PageIsExact` | dashboard/exact-review-direct-publication.ts:1780-1900 | a page of a consistent store is never refused, holds every current row up to its last, makes progress, and names no next page exactly when nothing is left |
| `ExportFeed.PageFitsItsBudgets` | dashboard/exact-review-direct-publication.ts:1811-1893 | a page of several records keeps within the source and the response budget, and stops only at its record limit or where the next row would exceed one of them |
| `ExportReader.WritersKeepTheMirror` | dashboard/exact-review-direct-publication.ts:2629-2643 | whatever runs between two pages, the reader's mirror stays right up to its cursor |
| `ExportReader.ReadersReplicate` | dashboard/exact-review-direct-publication.ts:1780-1900 | in every later state the mirror holds the current entry of every row up to the cursor, and equals the index when no next page is named |
| `ExportReader.QuietReadingCompletes` | dashboard/exact-review-direct-publication.ts:1780-1900 | between writes, as many pages as rows left complete the mirror |
| `EgressStore.Store.Ingest` | dashboard/github-egress-telemetry.ts:331-458 | rejects, dedupes or records a submission, prunes when due and enforces the caps |
| `EgressStore.Store.PublicSummary` | dashboard/github-egress-telemetry.ts:460-500 | the six-hour window, from the cache when it is for the same bucket |
| `EgressStore.Store.PublicObservability` | dashboard/github-egress-telemetry.ts:548-732 | the rows of a supported window with its completeness claims |
| `EgressStore.Store.UpsertMetric` | dashboard/github-egress-telemetry.ts:734-774 | adds to a rollup, telling a new row by its count |
| `EgressStore.Store.PruneSync` | dashboard/github-egress-telemetry.ts:804-822 | drops rows beyond retention and keeps the cached counts in step |
| `EgressStore.Store.EnforceCapsSync` | dashboard/github-egress-telemetry.ts:824-912 | evicts exactly the overflow, oldest first, and raises the watermarks |
| `EgressTelemetry.UpsertKeepsConsistent` | dashboard/github-egress-telemetry.ts:734-774 | the cached row count stays exact although a row is called new by its count alone |
| `EgressTelemetry.OldestAreTheOldest` | dashboard/github-egress-telemetry.ts:36-48 | the oldest of each kind, merged, are the oldest of all, each once |
| `EgressTelemetry.EvictRollupsKeepsConsistent` | dashboard/github-egress-telemetry.ts:824-876 | after eviction the cached count is exact and at most the cap |
| `EgressCompleteness.RecordedIsSound` | dashboard/github-egress-telemetry.ts:371-437 | an accepted submission adds exactly its metrics to the totals it is measured against |
| `EgressCompleteness.EvictRollupsKeepsRollupsSound` | dashboard/github-egress-telemetry.ts:824-876 | every evicted bucket is at or below its kind's watermark, and each watermark names a bucket that lost something |
| `EgressCompleteness.PruneKeepsRollupsSound` | dashboard/github-egress-telemetry.ts:804-822 | retention only reaches buckets older than any supported window |
| `EgressRuns.CompleteMeansEverything` | dashboard/github-egress-telemetry.ts:78-92 | a window is called complete exactly when its rows are all that was ever accepted for it |
| `EgressRuns.SummariesAreSound` | dashboard/github-egress-telemetry.ts:460-500 | in every run a summary called complete, cached or not, holds the sum of all accepted metrics per key; where it calls observations complete, the table holds exactly those accepted |
| `EgressRuns.QueriesAreSound` | dashboard/github-egress-telemetry.ts:548-732 | so does every supported query, and likewise for rate limit observations |
| `EgressRuns.SummariesAreExact` | dashboard/github-egress-telemetry.ts:460-500 | a summary covers six hours in five-minute buckets, shows no more than was accepted, and calls sums and observations complete iff they are |
| `EgressRuns.QueriesAreExact` | dashboard/github-egress-telemetry.ts:548-732 | the same of every supported query, longer windows by the hour |
| `EgressRuns.CompleteCountsNeverFall` | dashboard/github-egress-telemetry.ts:548-732 | of two reports called complete the later shows at least as much of every bucket both cover |
| `EgressRuns.AppliedAtMostOnce` | dashboard/github-egress-telemetry.ts:331-458 | an identical submission is applied at most once over any run, although receipts are forgotten |
| `EgressRuns.CapsHold` | dashboard/github-egress-telemetry.ts:780-822 | the caches are exact after every step and both caps hold after every accepted ingest |
| `EgressAccounting.AnsweredExactly` | dashboard/github-egress-telemetry.ts:336-352 | which submissions are rejected, deduplicated and accepted, in the published numbers |
| `EgressAccounting.MaintenanceIsExact` | dashboard/github-egress-telemetry.ts:796-822 | maintenance runs once in five minutes at most, and keeps exactly the rows within each table's retention |
| `EgressAccounting.EvictedRollupsAreOldest` | dashboard/github-egress-telemetry.ts:824-875 | over the cap the rows that begin first go, older rows first among equals, down to the cap |
| `EgressAccounting.EvictedRatesAreOldest` | dashboard/github-egress-telemetry.ts:876-915 | over the cap the earliest observations go, down to the cap |
| `EgressAccounting.RollupEvictionsAreBooked` | dashboard/github-egress-telemetry.ts:824-875 | every evicted row is booked, under its kind, with the time |
| `EgressAccounting.RateEvictionsAreBooked` | dashboard/github-egress-telemetry.ts:876-915 | the same of evicted observations |
| `EgressAccounting.DiagnosticsCountEverything` | dashboard/github-egress-telemetry.ts:336-458 | over a run every submission is counted once under its answer, and the accepted units, observations and incomplete ones are all counted |
| `WebhookStore.Store.UpsertObject` | dashboard/github-webhook-read-model.ts:1211-1363 | last writer wins with tombstones, merged items and the payload state of a retired item |
| `WebhookStore.Store.PruneItemRows` | dashboard/github-webhook-read-model.ts:1422-1471 | drops an item's rows beyond the cap and marks its census incomplete |
| `WebhookStore.Store.Repair` | dashboard/github-webhook-read-model.ts:577-829 | complete censuses bury unlisted comments, then confirmed objects are written |
| `WebhookStore.Store.RecordCensus` | dashboard/github-webhook-read-model.ts:758-804 | every live comment a census does not list becomes a tombstone |
| `WebhookStore.Store.PruneBatch` | dashboard/github-webhook-read-model.ts:1540-1582 | parks, defers or retires one batch, with each family's deadline looked up once |
| `WebhookStore.Store.PrunePayloads` | dashboard/github-webhook-read-model.ts:1517-1586 | one bounded pass over items, comments and activity |
| `WebhookRetirement.ProcessRetires` | dashboard/github-webhook-read-model.ts:1540-1582 | a scanned row leaves the due set, no other row moves, and only idle, unprotected payloads go |
| `WebhookRetirement.PassScansTheDue` | dashboard/github-webhook-read-model.ts:1517-1586 | a pass scans exactly min(64, due) rows and each leaves the due set |
| `WebhookRetirement.PassesDrain` | dashboard/github-webhook-read-model.ts:1517-1586 | at one time and without writes, one pass per 64 due rows empties the due set |
| `WebhookPasses.ProcessIsExact` | dashboard/github-webhook-read-model.ts:1540-1582 | what a scanned row becomes: parked under a placeholder, deferred to half an hour after its family was last heard of, or retired |
| `WebhookPasses.PassScansInOrder` | dashboard/github-webhook-read-model.ts:1517-1586 | whatever a pass leaves due ranks after all it scanned: items, comments, activity, each by the time it fell due |
| `WebhookSafety.CapKeepsTheNewest` | dashboard/github-webhook-read-model.ts:1422-1471 | over the cap exactly the newest comments stay |
| `WebhookSafety.UpsertCommentKeeps` | dashboard/github-webhook-read-model.ts:1304-1324 | a comment write keeps the cap, and parks nothing without a placeholder |
| `WebhookSafety.RunKeeps` | dashboard/github-webhook-read-model.ts:1588-1597 | in every run a parked item has a live placeholder comment and no item exceeds the comment cap |
| `WebhookSafety.EmptyIsSafe` | dashboard/github-webhook-read-model.ts:348-476 | the empty model, where runs may start, satisfies that invariant |
| `WebhookConvergence.RunsConverge` | dashboard/github-webhook-read-model.ts:1267-1361 | below the cap and without repairs an object ends at the greatest source time and tombstone it was delivered |
| `WebhookConvergence.DeliveriesConverge` | dashboard/github-webhook-read-model.ts:1267-1361 | runs that were delivered the same versions, in any order and number, agree |
| `WebhookConvergence.ItemsAreMerged` | dashboard/github-webhook-read-model.ts:1221-1266 | a newer item keeps unmentioned fields, and a retired one stays retired until confirmed |
| `WebhookContents.WriteIsExact` | dashboard/github-webhook-read-model.ts:1267-1361 | the row one write of a comment or of activity leaves, and that no other row changes but a parked item |
| `WebhookContents.WritesMarkTheCensus` | dashboard/github-webhook-read-model.ts:1422-1452 | a census is complete no longer exactly once the cap dropped a comment or a poll wrote one without its body |
| `WebhookContents.ItemWriteIsExact` | dashboard/github-webhook-read-model.ts:1221-1266 | the row one write of an item leaves, field by field |
| `WebhookContents.ConfirmedWriteIsExact` | dashboard/github-webhook-read-model.ts:805-815 | the row a repair confirms; a placeholder poll keeps no body that is no placeholder |
| `WebhookContents.CensusIsExact` | dashboard/github-webhook-read-model.ts:758-804 | what a census does to every row and to its collection |
| `WebhookContents.RunsHoldTheNewest` | dashboard/github-webhook-read-model.ts:1267-1361 | below the cap and without repairs an object that is not retired holds the content of the first delivery of its greatest version |
| `WebhookContents.ContentsConverge` | dashboard/github-webhook-read-model.ts:1267-1361 | runs that were delivered the same versions show the same content wherever both hold it |
| `WebhookTombstones.TombstonesStayDead` | dashboard/github-webhook-read-model.ts:1267-1361 | over any run of deliveries, repairs and passes, no write at or before a tombstone's source time revives it, even after the cap dropped it, while every census of a dropped comment is later than it or leaves a full table above it and no other kind shares its identifier |
| `WebhookTombstones.CensusesKeepDeadExactlyWhen` | dashboard/github-webhook-read-model.ts:758-804 | a repair's censuses keep a dead object dead iff its tombstone is held or a full table still ranks above it |
| `WebhookTombstones.EarlyCensusRevives` | dashboard/github-webhook-read-model.ts:774-790 | a run in which a deleted comment comes back after a census of an earlier clock |
| `WebhookTombstones.UpsertKeepsDead` | dashboard/github-webhook-read-model.ts:1422-1471 | one such write keeps the tombstone, or a full table of rows above it |
| `WebhookTombstones.CommentsHaveNoTwins` | dashboard/github-webhook-read-model.ts:1304-1324 | for comments that condition on a run is only that no later write of the object comes |
| `WebhookTombstones.TombstonesAreKeptBelowTheCap` | dashboard/github-webhook-read-model.ts:758-815 | below the cap the tombstone itself is kept over any run, whatever repairs, censuses and shared identifiers there are |
| `WebhookTombstones.KeptExactlyWhen` | dashboard/github-webhook-read-model.ts:1442-1471 | over the cap a row stays iff its identifier is among the first 500 |
| `WebhookTombstones.ReturnsExactlyWhen` | dashboard/github-webhook-read-model.ts:1453-1471 | the exact condition for a write of an object that is not held to stay |
| `WebhookTombstones.TwinsRevive` | dashboard/github-webhook-read-model.ts:1453-1471 | a run in which a deleted activity comes back |
| `LifecycleStore.Store.AuthorizeCommandAcknowledgement` | dashboard/exact-review-lifecycle.ts:620-681 | ends outlived leases and authorizes one attempt, or writes nothing |
| `LifecycleStore.Store.RecordCommandAcknowledgementFailure` | dashboard/exact-review-lifecycle.ts:683-719 | releases the latest matching live attempt |
| `LifecycleStore.Store.RecordCommandAcknowledgementTerminalSkip` | dashboard/exact-review-lifecycle.ts:721-766 | skips a live attempt for good, idempotently |
| `LifecycleStore.Store.ObserveCommandAcknowledgement` | dashboard/exact-review-lifecycle.ts:768-877 | records a sighting on the one projection it identifies |
| `LifecycleStore.Store.RecordTerminalDisposition` | dashboard/exact-review-lifecycle.ts:564-593 | appends a terminal fact once per operation, or reports the conflict |
| `LifecycleStore.Store.CancelParkedCommandClosure` | dashboard/exact-review-lifecycle.ts:595-618 | cancels a parked closure once |
| `LifecycleStore.Store.RecordRouterReceipt` | dashboard/exact-review-lifecycle.ts:520-552 | records a router handoff once per receipt |
| `LifecycleStore.Store.RecordClaim` | dashboard/exact-review-lifecycle.ts:382-407 | appends a claim unless the same one is there |
| `LifecycleStore.Store.RecordAdmission` | dashboard/exact-review-lifecycle.ts:312-380 | admits once; a repeat must agree in every fact |
| `LifecycleSafety.AttemptsStaySound` | dashboard/exact-review-lifecycle.ts:620-766 | attempt identifiers run from 1 in order, at most one is live, each ends once, at most one is ever skipped, and router receipts stay distinct under one outcome |
| `LifecycleSafety.AtMostOneActiveOneSkipped` | dashboard/exact-review-lifecycle.ts:620-766 | two live attempts, or two skipped ones, are the same |
| `LifecycleSafety.AuthorizedExactlyWhen` | dashboard/exact-review-lifecycle.ts:631-672 | the exact condition for authorizing an attempt |
| `LifecycleSafety.NoAuthorityAfter` | dashboard/exact-review-lifecycle.ts:1335-1360 | none is authorized after an observation, a terminal skip or a cancelled closure |
| `LifecycleSafety.ReleasedExactlyWhen` | dashboard/exact-review-lifecycle.ts:683-719 | the exact condition for releasing an attempt, and that no other attempt changes |
| `LifecycleSafety.SightingsAreUnambiguous` | dashboard/exact-review-lifecycle.ts:833-877 | a sighting is recorded only where no other projection could have been meant |
| `LifecycleSafety.ChangeKeepsSound` | dashboard/exact-review-lifecycle.ts:1270-1290 | the current disposition is the last of the history, and neighbours include a requeue except at one cancelled closure |
| `LifecycleSafety.ChangeGrows` | dashboard/exact-review-lifecycle.ts:1171-1217 | no recorded fact is ever taken back or changed |
| `LifecycleSafety.ReplayIsNoOp` | dashboard/exact-review-lifecycle.ts:577-592 | replaying a recorded operation in any later state changes nothing |
| `LifecycleSafety.OnlyRequeueLeavesCompleted` | dashboard/exact-review-lifecycle.ts:1292-1329 | a completed revision leaves that state only by a recorded requeue |
| `LifecycleSafety.CancelStaysReadableExactlyWhen` | dashboard/exact-review-lifecycle.ts:1871-1889 | the exact condition for a cancelled projection to remain readable |
| `LifecycleSafety.ReservedIdentifierCollides` | dashboard/exact-review-lifecycle.ts:1333-1341 | a run from the empty store whose last step, a cancellation, makes a projection unreadable |
| `LifecycleSafety.RouterRecordedExactly` | dashboard/exact-review-lifecycle.ts:537-550 | conflicts exactly with another outcome, appends exactly a new identifier, and leaves a settled receipt and every other receipt alone |
| `LifecycleSafety.RouterReplayIsNoOp` | dashboard/exact-review-lifecycle.ts:520-552 | a settled or conflicting router receipt changes nothing in any later state |
| `LifecycleFacts.CompletedExactlyWhen` | dashboard/exact-review-lifecycle.ts:1292-1329 | the exact facts of a completed revision |
| `LifecycleFacts.AckIsDueExactlyWhen` | dashboard/exact-review-lifecycle.ts:1335-1360 | the exact facts under which an acknowledgement is due |
| `LifecycleFacts.StatesAreTheDispositions` | dashboard/exact-review-lifecycle.ts:1292-1329 | which state each recorded disposition stands for |
| `LifecycleFacts.AckStatesExactly` | dashboard/exact-review-lifecycle.ts:1335-1360 | the exact facts behind the other acknowledgement states |
| `LifecycleFacts.TerminalIsRecorded` | dashboard/exact-review-lifecycle.ts:564-593 | exactly when a disposition is recorded, repeated or in conflict, and the history it leaves |
| `LifecycleFacts.CancellationIsRecorded` | dashboard/exact-review-lifecycle.ts:595-618 | exactly when a parked closure is called off, and what that leaves |
| `LifecycleFacts.AuthorizationIsRecorded` | dashboard/exact-review-lifecycle.ts:620-681 | the attempt an authorization appends and those it puts down as expired |
| `LifecycleFacts.SkippedExactlyWhen` | dashboard/exact-review-lifecycle.ts:721-766 | the exact condition for a terminal skip, and that no other attempt changes |
| `LifecycleFacts.SightingIsRecorded` | dashboard/exact-review-lifecycle.ts:833-877 | what a sighting leaves on the projection it means, and when it is refused |
| `LifecycleFacts.UnclearSightingIsDropped` | dashboard/exact-review-lifecycle.ts:842-848 | a sighting that means none or several is dropped |
| `LifecycleFacts.UnreadableBlocksSightings` | dashboard/exact-review-lifecycle.ts:790-801 | an unreadable projection blocks the sightings of its target |
| `LifecycleFacts.NarrowedExactlyWhen` | dashboard/exact-review-lifecycle.ts:833-850 | which projections an anonymous sighting may mean |
| `LifecycleFacts.ExactSightingsMatch` | dashboard/exact-review-lifecycle.ts:804-832 | the attempts an exact observer means |
| `LifecycleFacts.LooseSightingsMatch` | dashboard/exact-review-lifecycle.ts:804-832 | the attempts any other observer means |
| `LifecycleFacts.ClaimIsRecorded` | dashboard/exact-review-lifecycle.ts:382-407 | a claim is appended unless the same one is there |
| `LifecycleFacts.ResultIsRecorded` | dashboard/exact-review-lifecycle.ts:409-451 | the same of a review result |
| `LifecycleFacts.EffectIsRecorded` | dashboard/exact-review-lifecycle.ts:453-480 | an effect is kept once, and a different one is refused |
| `LifecycleFacts.AdmissionIsRecorded` | dashboard/exact-review-lifecycle.ts:312-380 | a revision is admitted once, with nothing recorded yet |
| `LifecycleFacts.ReceiptIsRecorded` | dashboard/exact-review-lifecycle.ts:470-507 | a canonical receipt is appended once, and refused under another outcome |
| `CommandIntakeStore.Store.Admit` | dashboard/exact-review-command-intake.ts:96-216 | admits, dedupes or refuses a command version and supersedes older ones |
| `CommandIntakeStore.Store.MarkVerified` | dashboard/exact-review-command-intake.ts:247-284 | the verified version takes over its watermark and supersedes its siblings |
| `CommandIntakeStore.Store.Finish` | dashboard/exact-review-command-intake.ts:306-326 | records the outcome and drops the intake |
| `CommandIntakeStore.Store.Defer` | dashboard/exact-review-command-intake.ts:328-359 | postpones a row that is still there |
| `CommandIntakeStore.Store.AllocateItemRevision` | dashboard/exact-review-command-intake.ts:407-430 | the next revision above the counter, the minimum and every retained revision |
| `CommandIntake.RunKeeps` | dashboard/exact-review-command-intake.ts:96-216 | in every state of every run an intake exists iff its receipt is pending, and every intake carries its watermark's source time |
| `CommandIntake.OneVersionPastVerification` | dashboard/exact-review-command-intake.ts:230-245 | of one comment's versions at most one is past verification, and it is current |
| `CommandIntake.VerifiedStandsAlone` | dashboard/exact-review-command-intake.ts:247-284 | verification leaves its version alone among its comment's intakes |
| `CommandIntake.AdmittedExactlyWhen` | dashboard/exact-review-command-intake.ts:96-216 | the exact condition for a new admission, and what a refusal leaves alone |
| `CommandIntake.NewerVersionsSupersede` | dashboard/exact-review-command-intake.ts:151-163 | a newer version supersedes every older pending one and touches no other |
| `CommandIntake.StepAdvances` | dashboard/exact-review-command-intake.ts:397-403 | watermark times never fall, and only final receipts beyond retention disappear |
| `CommandIntake.FinalOutcomesChangeExactlyWhen` | dashboard/exact-review-command-intake.ts:306-326 | the exact events and verdicts that change a final receipt |
| `CommandIntake.SupersededCanComplete` | dashboard/exact-review-command-intake.ts:306-326 | a run in which a superseded receipt becomes a completed one |
| `CommandIntake.DeferralIsBounded` | dashboard/exact-review-command-intake.ts:335-348 | a deferral lies between fifteen seconds and a quarter of an hour ahead |
| `CommandIntake.AllocationsRise` | dashboard/exact-review-command-intake.ts:407-430 | over a run no revision of an item is allocated twice |
| `CommandIntakeFacts.AllocationIsLeast` | dashboard/exact-review-command-intake.ts:407-430 | the revision given is the least that is above the counter and every retained one and not below the minimum |
| `CommandIntakeFacts.ArrivalIsExact` | dashboard/exact-review-command-intake.ts:96-216 | the row, receipt and watermark of a new version, or the rejection it is put on record with |
| `CommandIntakeFacts.RepeatIsAnswered` | dashboard/exact-review-command-intake.ts:96-125 | how a version met before is answered |
| `CommandIntakeFacts.OthersOnArrival` | dashboard/exact-review-command-intake.ts:151-163 | what a newer version does to every other row and receipt |
| `CommandIntakeFacts.VerificationIsExact` | dashboard/exact-review-command-intake.ts:247-284 | what verification leaves of its version, its watermark and its row |
| `CommandIntakeFacts.OthersOnVerification` | dashboard/exact-review-command-intake.ts:262-284 | what verification does to every other row and receipt |
| `CommandIntakeFacts.DelaysDouble` | dashboard/exact-review-command-intake.ts:335-348 | the delay doubles from fifteen seconds to a quarter of an hour |
| `CommandIntakeFacts.DeferralIsExact` | dashboard/exact-review-command-intake.ts:328-359 | what a deferral leaves in every row and receipt |
| `CommandIntakeFacts.RetryIsExact` | dashboard/exact-review-command-intake.ts:361-395 | what a return to verification leaves of a row |
| `CommandIntakeFacts.FinishIsExact` | dashboard/exact-review-command-intake.ts:306-326 | what finishing leaves of every row and receipt |
| `CommandIntakeFacts.PruneIsExact` | dashboard/exact-review-command-intake.ts:397-403 | exactly the final receipts of thirty days and more go |
| `QueueAdmissionLoops.Census` | dashboard/exact-review-read-model.ts:605-640 | counts the running reviews, publishers, scheduled reviews and targets in one pass |
| `QueueAdmissionLoops.AdmittedItems` | dashboard/exact-review-read-model.ts:1000-1065 | the admission loops over ready reviews and prioritized publications |
| `QueueAdmissionLoops.PrioritizePublications` | dashboard/exact-review-read-model.ts:947-962 | the split into fresh and historical publications |
| `QueueAdmissionLoops.NextWakeAt` | dashboard/exact-review-read-model.ts:1400-1499 | the least moment worth waking for, a second away at least |
| `QueueAdmissionSafety.AdmissionIsSound` | dashboard/exact-review-read-model.ts:1000-1065 | admission exceeds no bound, keeps the ready order, and every item left out is blocked in the final state |
| `QueueAdmissionSafety.TakeReviewsIsSound` | dashboard/exact-review-read-model.ts:1022-1034 | the same for reviews: slots, scheduled lane, circuits and targets |
| `QueueAdmissionSafety.TakePublicationsIsSound` | dashboard/exact-review-read-model.ts:1036-1060 | the same for publications: the cap, batches held back, and one per record |
| `QueueAdmissionSafety.PrioritizeIsFair` | dashboard/exact-review-read-model.ts:947-962 | prioritizing loses and repeats nothing, keeps each kind's order, and puts the reserve first |
| `QueueAdmissionOrder.OldestReviewsFirst` | dashboard/exact-review-read-model.ts:1011-1034 | admitted reviews are in order of age, and a ready one that fits is left out only when the slots are taken by older ones |
| `QueueAdmissionOrder.OldestPublicationsFirst` | dashboard/exact-review-read-model.ts:1036-1060 | the same of publications: the reserve of oldest fresh ones, the historical ones, then the other fresh ones |
| `QueueAdmissionOrder.CountsAreCardinalities` | dashboard/exact-review-read-model.ts:605-640 | the counts held against the limits are numbers of items |
| `QueueAdmissionSafety.NextWakeIsBounded` | dashboard/exact-review-read-model.ts:1400-1499 | whenever something is active or eligible there is a next wake, at least a second away and no later than a live lease |
| `QueueAdmissionWakes.NextWakeIsTheFirstMoment` | dashboard/exact-review-read-model.ts:1400-1499 | the wake is the first moment there is, a second away at least, or a second away where a lease is outlived |
| `QueueAdmissionWakes.ReviewMomentExactly` | dashboard/exact-review-read-model.ts:1447-1479 | the holds that must be over at a review's moment |
| `QueueAdmissionWakes.PublicationMomentExactly` | dashboard/exact-review-read-model.ts:1421-1445 | the holds that must be over at a publication's moment |
| `QueueAdmissionWakes.LeaseEndsExactlyWhen` | dashboard/exact-review-read-model.ts:44-70 | when a lease counts as over |
| `QueueAdmissionWakes.TerminalMomentExactly` | dashboard/exact-review-read-model.ts:1480-1499 | the holds that must be over at a parked item's terminal check |
| `QueueAdmissionSafety.NoReviewIsMissed` | dashboard/exact-review-read-model.ts:1447-1479 | while nothing changes, no review could be admitted before the next wake |
| `QueueAdmissionSafety.OnlyUnbatchedPublicationsAreMissed` | dashboard/exact-review-read-model.ts:1421-1445 | a publication that could be admitted before the next wake is one the batch block never held back |
| `QueueAdmissionSafety.PublicationsAreMissedExactlyWhen` | dashboard/exact-review-read-model.ts:1421-1445 | the exact condition for a publication to be admissible before the next wake |
| `QueueAdmissionSafety.FinalizationIsMissed` | dashboard/exact-review-read-model.ts:1421-1445 | a queue whose next wake comes after its only publication could be admitted |
| `CoverageScan.MergingFormatsIsExact` | dashboard/exact-review-direct-publication.ts:1380-1418 | limiting each format and merging gives the first live rows |
| `CoverageScan.FullScan` | dashboard/exact-review-direct-publication.ts:1525-1632 | scanned to the end without writes, every live record is folded exactly once |
| `CoverageProjection.Classify` | dashboard/exact-review-direct-publication.ts:3951-3980 | one category per open item, and the refresh list sorted and cut after each push equals the first sixteen of the whole list |
| `CoverageProjection.CompleteFleetsBalance` | dashboard/exact-review-direct-publication.ts:3839-3986 | a fleet projected complete from a normalized inventory meets the reader's three counting identities |
| `CoverageFacts.CoveredExactlyWhen` | dashboard/exact-review-direct-publication.ts:3839-3986 | exactly when a projected row counts as covered |
| `CoverageFacts.CountsObservedExactlyWhen` | dashboard/exact-review-direct-publication.ts:3839-3880 | when the open counts of a row are current |
| `CoverageFacts.CoveredRowsCount` | dashboard/exact-review-direct-publication.ts:3951-3986 | each category is the number of open items judged so, drift the number of records without an open item |
| `CoverageFacts.RefreshListIsSoonest` | dashboard/exact-review-direct-publication.ts:3962-3978 | the refresh list is ordered, and leaves an item out only for sixteen sooner ones |
| `CoverageProjection.RowAcceptedExactlyWhen` | dashboard/public-live-coverage.ts:70-107 | the exact condition under which the public reader accepts a projected row |
| `CoverageProjection.OldCountsAreRefused` | dashboard/public-live-coverage.ts:70-107 | a projected row the reader refuses |
| `CoverageProjection.TruncatingIsFaithful` | dashboard/exact-review-direct-publication.ts:3962-3978 | sorting and truncating after each push keeps what sorting once would |

## Left out

- SQL text, indexes, schema upgrades and one-time legacy backfills: only the resulting tables and their uniqueness are modelled.
- JSON, base64 and UTF-8 encoding, regular expressions, date and front matter parsing: values arrive well formed, and an entry's encoded size is a parameter.
- R2 requests, HTTP handlers, alarms and logging: only the interleaving points they open are modelled. An unbound bucket is one more "unavailable" error.
- Tiering attestation, requalification packets and the tiering preview: evidence binding without a state property beyond the activation guard.
- Coverage facts kept beside format 2 rows, and their materialization: derived from the body they are stored with.
- Collection of the tuples a hydration pass works on: retirement takes any captured tuples with well-formed files.
- `CanonicalStore.Store.PruneBackfillShadows`: import rowids are taken as unique, as SQLite keeps them.
- Observation logs, throttle records and dashboards of the publication batches; the ETag, artifact, failure and review-loop stores.
- `EgressStore.Store.PublicObservability`: the published sums by unit, the public row limit and the throttle series are functions of the window's rows, which are what is modelled; credential circuits are not.
- Workflow objects of the webhook read model, delivery receipts and event classes: deliveries are idempotent without the receipts, as the convergence results show.
- `WebhookStore.Store.Repair`: the availability guard on event classes is taken to have passed.
- `WebhookReadModel.Insert`: rowids come from one counter instead of each table's largest, which leaves their order the same.
- `WebhookTombstones.TombstonesStayDead`: does not cover activities that share their identifier; `WebhookTombstones.ReturnsExactlyWhen` tells those, and `WebhookTombstones.TombstonesAreKeptBelowTheCap` covers them below the cap.
- `CanonicalAnswers.AnsweredExactlyWhenCompleted`: takes stripping retired cache data never to make a report complete.
- `EgressRuns.SummariesAreExact`: takes the accepted time stamps at or after the epoch; that a window called complete is complete needs no such bound (`EgressRuns.SummariesAreSound`).
- `EgressRuns.CompleteMeansEverything`: the "only if" half takes watermarks at or after the epoch; the other half does not.
- `CommandIntake.Step`: advancing to the effects stage is taken from rows past verification, as the one processor that runs at a time does.
- `LifecycleStore.Store`: review results, GitHub effects and canonical receipts are recorded by `Lifecycle.Change` only; audit snapshots and Bay cards are views.
- `QueueAdmissionSafety.NoReviewIsMissed`: an external gate on review admission is the caller's, who also holds the admission back; without one the claim is complete.
- Lane statistics, handoff phases and the Bay projection of the queue census, parked-recovery delays and fleet totals: counters without a spanning property.
