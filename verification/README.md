# A verified model of the comis persistence core

comis runs agents whose state outlives the process. This project models the stores that carry that
state, and a few kernels beside them, and proves what they keep over whole runs.

- **Durable checkpoints** (`Durable*.dfy`). Two tables, checkpoints and roots with a revocation
  tombstone, and six atomic operations. `DurableModel` gives each transaction as a function on the
  tables, `DurableStore` is the object whose methods are proved to be those functions, and the other
  modules prove budgets, claim lineages, frozen rows, revocation and atomicity over every run, and
  `DurableAnswers` which answer each call gets and what it writes, in terms of the stored columns.
- **Execution attachments** (`Attachment*.dfy`, `RecoveryScan.dfy`). Current rows beside an operation
  ledger, and a keyset-paged recovery scan with the loop that drives it.
- **Embedding caches** (`Embedding*.dfy`, `LruEmbeddingCache.dfy`). The SQLite cache buffers access
  times and is proved to refine one that does not; access times and hit counters are related to the
  calls made; both caches agree with their provider.
- **Search** (`NearestNeighbours.dfy`, `RankFusion.dfy`, `StableSort.dfy`) and the batch indexer
  (`BatchIndexer.dfy`).
- **Delivery queue** (`DeliveryQueue.dfy`), **truncation** (`ContentTruncation.dfy`) and the
  **base64 shape test** (`Base64Shape.dfy`, against section 4 of RFC 4648).

Tables are maps, a transaction is one atomic step, and clocks, random ids, providers and observations
of the outside world are parameters. Digests are functions; where a result needs them injective it
says so. Scores, distances, money and checkpoint times are `real`, other times are integers, ratios are exact.

Places where the code does less than one might expect, each with its exact condition:

- `touchHeartbeat` does not compare the time it writes with the row's budget start, so it can leave a
  row that no longer validates, and such a row blocks its root (`ReadableUnlessStaleTouch`,
  `HeartbeatCanSpoilRow`, `UnreadableRowBlocksRoot`).
- A revoking upsert that is refused has already tombstoned its root (`RefusedRevocationTombstones`,
  `RefusedRevocationCanLeaveRunning`).
- Creating an attachment drops its recovery time (`CurrentIsLatestReported`,
  `CreateStoresUnlessRecovered`).
- Recovering an attachment whose source did not change reports it as preserved from the second time
  on, because the operation id ignores the time and the ledger digest does not (`RecoveringAgain`).
- Buffered hits on one row between flushes count once (`HitCountsCollapse`, `TwoHitsCountOnce`).
- A batch size of zero indexes nothing and reports no error (`IndexUnembedded`).
- Truncation can lengthen a block (`ShorterIff`, `TruncationCanLengthen`).
- The evidence cap admits two bytes more than the limit (`AdmittedFitsIff`, `CapIsNotExact`).

## Model

| member | source | states |
|---|---|---|
| `DurableBudget.RunKeepsChain` | packages/memory/src/durable-run-store.ts:336-495 | Over every run, the budgets of a root's running rows stay totally ordered by dominance (earlier start, more tokens, more dollars). |
| `DurableBudget.AuthorityIsARow` | packages/memory/src/durable-run-store.ts:336-356 | In every state reachable from empty tables, the componentwise minimum and maximum that forms the budget authority is exactly the budget of some running row, never a mixture. |
| `DurableBudget.TopOfChain` | packages/memory/src/durable-run-store.ts:344-354 | The componentwise fold over a non-empty totally ordered set of budgets is a member of the set. |
| `DurableBudget.ClaimKeepsAuthority` | packages/memory/src/durable-run-store.ts:413-495 | No claim, accepted or not, in any state, moves the budget authority of any root. |
| `DurableBudget.UpsertSetsAuthority` | packages/memory/src/durable-run-store.ts:358-411 | An accepted running upsert of a row that is not terminal makes the root's authority exactly the record's own budget. |
| `DurableModel.Join` | packages/memory/src/durable-run-store.ts:344-354 | The fold's step is the least upper bound of two budgets in the dominance order. |
| `DurableModel.TopIs` | packages/memory/src/durable-run-store.ts:336-356 | Any budget that dominates a set and takes each component from a member is the fold of the set, whatever the order of the rows. |
| `DurableLineage.RunLinks` | packages/memory/src/durable-run-store.ts:413-495 | Over every run, each link made by a claim joins two stored rows: the source is completed as superseded, identities are equal, capabilities of the replacement are among those of the source, and no source has two replacements. |
| `DurableLineage.ClaimsAreExclusive` | packages/memory/src/durable-run-store.ts:413-495 | Two successful claims of one run never share a source or a replacement, and a claimed source is never a later replacement. |
| `DurableLineage.ClaimIsFresh` | packages/memory/src/durable-run-store.ts:449-451 | The replacement id of a successful claim took no part in any earlier claim. |
| `DurableLineage.ChainsAreAcyclic` | packages/memory/src/durable-run-store.ts:413-495 | Following claim links never returns to where it began. |
| `DurableLineage.ChainsDoNotBranch` | packages/memory/src/durable-run-store.ts:413-495 | Two chains from the same checkpoint are prefixes of one another. |
| `DurableLineage.ChainsAttenuate` | packages/memory/src/durable-run-store.ts:467-489 | From the first to the last member of any chain the identity is equal and the capabilities only shrink, and every member with a successor is completed as superseded. |
| `DurableLineage.OneRunningPerChain` | packages/memory/src/durable-run-store.ts:413-495 | At most one checkpoint of a chain is running, in every reachable state. |
| `DurableLineage.ClaimsKeepHeartbeat` | packages/memory/src/durable-run-store.ts:468-492 | Over runs without upserts and heartbeats the last member of a chain has the heartbeat of the first: claims alone never advance it. |
| `DurableRows.RunEvolves` | packages/memory/src/durable-run-store.ts:154-284 | Over every run a checkpoint row keeps its identity and never disappears; once terminal it keeps every column, except that a completed row without a reason may be given one once. |
| `DurableRows.FirstReasonWins` | packages/memory/src/durable-run-store.ts:497-530 | A terminal row that has a recorded reason is the same row after any run. |
| `DurableRevocation.RunKeepsTombstone` | packages/memory/src/durable-run-store.ts:244-249 | A tombstoned root keeps its first tombstone time over every run, and no row under it becomes running again. |
| `DurableRevocation.NothingSucceedsUnderTombstone` | packages/memory/src/durable-run-store.ts:388-431 | After any run from a tombstoned root, no claim on it succeeds and no upsert under it succeeds unless that upsert itself revokes. |
| `DurableRevocation.RevokedForever` | packages/memory/src/durable-run-store.ts:388-405 | After a revocation or an accepted revoking upsert, the root has no running row in any later state. |
| `DurableRevocation.RefusedRevocationTombstones` | packages/memory/src/durable-run-store.ts:390-405 | A valid revoking upsert tombstones its root even when refused; it is refused exactly when the stored row differs in identity or lacks a requested capability, and then no row changes. |
| `DurableWitnesses.RefusedRevocationCanLeaveRunning` | packages/memory/src/durable-run-store.ts:390-405 | A concrete checkpoint and refused revocation of it that leave a tombstoned root with a running row. |
| `DurableAtomicity.RefusedStepKeepsRows` | packages/memory/src/durable-run-store.ts:388-530 | Every operation that does not report success leaves all checkpoint rows as they were; apart from upserts it leaves both tables as they were. |
| `DurableAtomicity.GuardsNeverTrip` | packages/memory/src/durable-run-store.ts:427-530 | In every state reachable from empty tables, the lost compare-and-set, missing-authority, missing-root, invalid-authority and invalid-replacement branches are never taken. |
| `DurableAtomicity.RunCoversRoots` | packages/memory/src/durable-run-store.ts:388-411 | Over every run each checkpoint's root has an authority row. |
| `DurableAtomicity.UpsertReadsBack` | packages/memory/src/durable-run-store.ts:154-222 | Reading a checkpoint after an accepted upsert gives the record sent, with null references keeping the stored ones and a terminal row unchanged. |
| `DurableAtomicity.ReadableUnlessStaleTouch` | packages/memory/src/durable-run-store.ts:275-279 | From a state whose rows all validate, an operation leads to such a state if and only if it is not a heartbeat that precedes the row's own budget start. |
| `DurableAtomicity.RunStaysReadable` | packages/memory/src/durable-run-store.ts:69-139 | Over every run without such a heartbeat all rows stay readable. |
| `DurableWitnesses.HeartbeatCanSpoilRow` | packages/memory/src/durable-run-store.ts:637-647 | A concrete pair of accepted calls, a checkpoint and an early heartbeat, that leaves a row that no longer validates. |
| `DurableAtomicity.UnreadableRowBlocksRoot` | packages/memory/src/durable-run-store.ts:336-386 | One row that does not validate makes every ordinary upsert and every claim under its root fail without effect. |
| `DurableEffects.UpsertHasEffect` | packages/memory/src/durable-run-store.ts:388-411 | The net effect of an upsert on both tables: one row written under its identity and capability checks, or no row at all. |
| `DurableEffects.ClaimHasEffect` | packages/memory/src/durable-run-store.ts:413-495 | Claims are all or nothing: a claimed outcome completes the source and adds one row, holding exactly the capabilities both the source and the principal have and the source's heartbeat; any other outcome changes nothing. |
| `DurableEffects.StepHasEffect` | packages/memory/src/durable-run-store.ts:388-656 | Every operation has one of the listed net effects, in every state. |
| `DurableAnswers.ClaimAnswers` | packages/memory/src/durable-run-store.ts:413-495 | A claim succeeds if and only if it is well formed, its source is stored, readable and running under a live root whose rows all validate, the claim is not earlier than the heartbeat, the replacement id is unused, every identity column of the principal equals the row and its trust is not lower; it is denied if and only if identity or trust is what stands in the way. |
| `DurableAnswers.ClaimRefusals` | packages/memory/src/durable-run-store.ts:413-452 | When a claim is malformed, not found, early or not resumable, column by column. |
| `DurableAnswers.InvalidRecordAnswers` | packages/core/src/domain/durable-run.ts:182-330 | A record is refused as invalid exactly for an empty or inconsistent name, a budget that does not add up or began after the heartbeat, or a malformed reference; then nothing is written. |
| `DurableAnswers.OrdinaryUpsertAnswers` | packages/memory/src/durable-run-store.ts:358-411 | An ordinary upsert is accepted if and only if every row of its root validates, no running sibling spent more or began earlier, its heartbeat does not move back, its root is live, and a stored row is of the same identity and holds every capability asked for; each refusal is named with its exact condition. |
| `DurableAnswers.RevokingUpsertAnswers` | packages/memory/src/durable-run-store.ts:388-411 | A valid revoking upsert is accepted if and only if a stored row is of the same identity and holds every capability asked for. |
| `DurableAnswers.UpsertColumns` | packages/memory/src/durable-run-store.ts:147-222 | Every column of the written row, of the siblings and of the roots after an accepted upsert. |
| `DurableAnswers.TerminalizeAnswers` | packages/memory/src/durable-run-store.ts:497-530 | A readable running row, or a completed one without a reason, is completed with exactly the given reason and time; the same reason and other terminal rows answer as already terminal, another reason as the stored one, an absent row as not found. |
| `DurableAnswers.OrphanColumns` | packages/memory/src/durable-run-store.ts:255-259 | A running row becomes orphaned with the reason and time given; nothing else moves. |
| `DurableAnswers.RevokeColumns` | packages/memory/src/durable-run-store.ts:532-535 | The root keeps its first tombstone time, its running rows become revoked, and nothing else moves. |
| `DurableAnswers.TouchColumns` | packages/memory/src/durable-run-store.ts:275-279 | A running row takes the given heartbeat and update time; any other row is an error without effect. |
| `DurableStore.DurableRunStore.ReadRootBudgetAuthority` | packages/memory/src/durable-run-store.ts:336-356 | The loop over a root's rows, in any order, yields the order-independent authority, or fails exactly when some row does not validate. |
| `DurableStore.DurableRunStore.ValidateRootBudgetFloor` | packages/memory/src/durable-run-store.ts:358-386 | Refuses exactly: unreadable rows, a budget that does not dominate the authority, a heartbeat that moves back. |
| `DurableStore.DurableRunStore.UpsertCheckpoint` | packages/memory/src/durable-run-store.ts:388-411 | New tables and result are the upsert step of the model. |
| `DurableStore.DurableRunStore.ExamineClaim` | packages/memory/src/durable-run-store.ts:415-482 | The checks of a claim in order, with the answer each gives. |
| `DurableStore.DurableRunStore.ClaimForResume` | packages/memory/src/durable-run-store.ts:413-495 | New tables and result are the claim step of the model. |
| `DurableStore.DurableRunStore.TerminalizeCheckpoint` | packages/memory/src/durable-run-store.ts:497-530 | New tables and result are the terminalize step of the model. |
| `DurableStore.DurableRunStore.MarkCheckpointOrphaned` | packages/memory/src/durable-run-store.ts:255-259 | Only a running row becomes orphaned. |
| `DurableStore.DurableRunStore.Touch` | packages/memory/src/durable-run-store.ts:637-647 | Writes the caller's time on a running row, and is an error on any other. |
| `DurableStore.DurableRunStore.Revoke` | packages/memory/src/durable-run-store.ts:532-535 | Tombstones the root and revokes its running rows. |
| `DurableStore.DurableRunStore.GetByCheckpoint` | packages/memory/src/durable-run-store.ts:592-602 | Absent, unreadable and readable rows give nothing, an error and the record. |
| `DurableStore.DurableRunStore.SelectRunning` | packages/memory/src/durable-run-store.ts:250-254 | The running rows, each once, oldest heartbeat first. |
| `DurableStore.DurableRunStore.ListResumable` | packages/memory/src/durable-run-store.ts:553-590 | Reports every running row exactly once: as a record, oldest heartbeat first, when it validates, and as invalid otherwise; and reports nothing else. |
| `AttachmentLedger.RunKeepsConsistent` | packages/memory/src/execution-attachment-store.ts:195-293 | Over every run: at most one active attachment per source path, every row valid under its own id, every attachment with ledger entries equal to its latest one. |
| `AttachmentLedger.RunEvolves` | packages/memory/src/execution-attachment-store.ts:111-117 | Over every run an attachment keeps scope, path, relay identity, target and creation time, its update time never decreases, and a revoked one is final. |
| `AttachmentLedger.ReplayIsIdempotent` | packages/memory/src/execution-attachment-store.ts:165-175 | After an applied revoke or reconcile and any run whatever, the same input returns the original record and changes nothing; a different input under the same operation id is a conflict and changes nothing (the digest is assumed injective). |
| `AttachmentLedger.RowFollowsReport` | packages/memory/src/execution-attachment-store.ts:148-293 | Over every run an attachment is stored exactly if it was reported, and its row is the record of its latest report, less the recovery time if that report is its creation. |
| `AttachmentLedger.CurrentIsLatestReported` | packages/memory/src/execution-attachment-store.ts:148-293 | Over every run the stored row equals the latest reported record of that attachment if and only if that report is not a creation carrying a recovery time. |
| `AttachmentLedger.CreateStoresUnlessRecovered` | packages/memory/src/execution-attachment-store.ts:195-235 | A created record replays as identical if and only if it carries no recovery time; otherwise its replay is a conflict. |
| `AttachmentLedger.RecoveringAgain` | packages/daemon/src/wiring/execution-attachment-authority.ts:338-349 | After a recovery and any run whatever, recovering the attachment again from an unchanged source changes nothing, and reports it as recovered if and only if the clock reads the same as the first time. |
| `AttachmentLedger.RunKeepsEntry` | packages/memory/src/execution-attachment-store.ts:131-141 | A ledger entry is never changed or shadowed by any later run. |
| `AttachmentLedger.StepHasEffect` | packages/memory/src/execution-attachment-store.ts:195-293 | A step changes nothing, inserts one row, or updates one row with one ledger entry, and reports which. |
| `AttachmentAnswers.CreateAnswers` | packages/memory/src/execution-attachment-store.ts:177-235 | A creation succeeds if and only if the record is valid and active under a new id, its run holds the active, unreserved lease, and no active attachment uses its path; every other answer has its exact condition; the stored row is the record without its recovery time. |
| `AttachmentAnswers.InvalidRecordAnswers` | packages/core/src/domain/execution-attachment.ts:25-73 | A creation is refused as invalid exactly for a malformed name, path or identity, times out of order, or a revocation half recorded. |
| `AttachmentAnswers.OperateAnswers` | packages/memory/src/execution-attachment-store.ts:237-293 | A revocation or reconciliation applies if and only if the row is stored, readable, in the scope given and active, the operation id is unused for it, the time does not move back, and a reconciliation holds the lease and a valid file identity. |
| `AttachmentAnswers.OperateRefusals` | packages/memory/src/execution-attachment-store.ts:237-293 | When an operation fails for want of a lease or for its time. |
| `AttachmentAnswers.OperateColumns` | packages/memory/src/execution-attachment-store.ts:237-293 | Every column an applied operation writes, its one ledger entry, and that any other answer changes nothing. |
| `RecoveryScan.LessIsBinary` | packages/memory/src/execution-attachment-store.ts:124-130 | Ids are ordered by the first character in which they differ, a prefix before its extensions. |
| `AttachmentStore.ExecutionAttachmentStore.CreateAttachment` | packages/memory/src/execution-attachment-store.ts:195-235 | New table and result are the create step of the model. |
| `AttachmentStore.ExecutionAttachmentStore.OperateOn` | packages/memory/src/execution-attachment-store.ts:237-293 | New tables and result are the revoke or reconcile step of the model; no other row changes. |
| `AttachmentStore.ExecutionAttachmentStore.Persist` | packages/memory/src/execution-attachment-store.ts:148-163 | Overwrites only the six columns the update statement names. |
| `AttachmentStore.ExecutionAttachmentStore.ActiveSource` | packages/memory/src/execution-attachment-store.ts:86 | Finds whether an active row uses the path. |
| `AttachmentStore.ExecutionAttachmentStore.ListRecoverable` | packages/memory/src/execution-attachment-store.ts:323-345 | A limit outside 1 to the maximum is an error; otherwise the page holds the first eligible rows after the cursor and the next cursor is present exactly when the page is full; one unreadable row fails the page. |
| `AttachmentStore.ExecutionAttachmentStore.SelectPage` | packages/memory/src/execution-attachment-store.ts:124-130 | The smallest eligible ids beyond the cursor, ascending, at most the limit. |
| `AttachmentStore.ExecutionAttachmentStore.RecoverOne` | packages/daemon/src/wiring/execution-attachment-authority.ts:296-349 | The record is preserved when it cannot be recovered now, fails with a lookup, and otherwise meets exactly the reconciliation whose id is derived from the attachment and its source; nothing else changes. |
| `AttachmentStore.ExecutionAttachmentStore.RecoverAll` | packages/daemon/src/wiring/execution-attachment-authority.ts:279-356 | The cursor loop terminates, and completes whenever the limit is in range, the ledger is readable and no eligible record is unreadable, fails a lookup or is observed at an earlier time. On completion it visited exactly the attachments active within the cutoff at the start, in ascending order, each on exactly one list: a preserved one has its old row, a recovered one was seen and its reconciliation is in the ledger, an unavailable one is preserved. |
| `RecoveryScan.ScanIsExact` | packages/memory/src/execution-attachment-store.ts:323-345 | Following the cursor until it is absent visits exactly the attachments eligible at the start, in at most one page more than there are attachments, even if visited ones change between pages. |
| `RecoveryScan.ScanAscends` | packages/memory/src/execution-attachment-store.ts:124-130 | The visited ids ascend strictly, whatever happens to the table between pages. |
| `RecoveryScan.ScanMissesNothing` | packages/memory/src/execution-attachment-store.ts:323-345 | An attachment that stays eligible throughout is visited, whatever else changes. |
| `EmbeddingRefinement.LazyRefinesEager` | packages/memory/src/embedding-cache-sqlite.ts:183-231 | For every table and every sequence of calls, the buffered cache holds the same rows as the cache that updates on each hit, once the buffered access times are applied. |
| `EmbeddingRefinement.SameEvictionChoices` | packages/memory/src/embedding-cache-sqlite.ts:212-231 | At every prune exactly the same sets of rows may be evicted as without buffering. |
| `EmbeddingRefinement.PruneBounds` | packages/memory/src/embedding-cache-sqlite.ts:140-150 | After any permitted eviction at most the configured number of rows remains. |
| `EmbeddingUse.CallsRunTheirTrace` | packages/memory/src/embedding-cache-sqlite.ts:183-359 | Both caches run one and the same sequence of hits, stores, evictions and flushes. |
| `EmbeddingUse.AccessedAtIsLastUse` | packages/memory/src/embedding-cache-sqlite.ts:122-137 | Every row present after a run, whenever it was stored and whoever owns it, carries the time of its last hit or store. |
| `EmbeddingUse.EvictionFollowsUse` | packages/memory/src/embedding-cache-sqlite.ts:183-231 | At the prune after any sequence of calls, no row that may be evicted was used later than a row that stays. |
| `EmbeddingUse.HitCountsCollapse` | packages/memory/src/embedding-cache-sqlite.ts:183-205 | Over any calls the buffered hit counter of a row falls short of the eager one by exactly the hits that found an earlier hit on it pending; the two agree if and only if there was no such hit since the row was last stored. |
| `EmbeddingUse.TwoHitsCountOnce` | packages/memory/src/embedding-cache-sqlite.ts:188-193 | A concrete pair of calls that loses one hit. |
| `EmbeddingCache.SqliteEmbeddingCache.FlushAccessBuffer` | packages/memory/src/embedding-cache-sqlite.ts:196-205 | Applies every pending access time and empties the buffer. |
| `EmbeddingCache.SqliteEmbeddingCache.RecordAccess` | packages/memory/src/embedding-cache-sqlite.ts:188-193 | Buffers the hit without touching the table, and flushes when one hundred are pending. |
| `EmbeddingCache.SqliteEmbeddingCache.BatchSelect` | packages/memory/src/embedding-cache-sqlite.ts:156-177 | Chunked lookups of 996 hashes give what one unchunked lookup would. |
| `EmbeddingCache.SqliteEmbeddingCache.SelectIn` | packages/memory/src/embedding-cache-sqlite.ts:161-170 | One lookup, within 999 bound parameters. |
| `EmbeddingCache.SqliteEmbeddingCache.Embed` | packages/memory/src/embedding-cache-sqlite.ts:255-282 | Returns the stored vector on a hit and dates the access; on a miss returns the provider's and stores exactly one row for it, rounded, with the configured dimensions, dated now and not hit; over a cache coherent with the provider the answer is the provider's up to rounding and the cache stays coherent. |
| `EmbeddingCache.SqliteEmbeddingCache.EmbedBatch` | packages/memory/src/embedding-cache-sqlite.ts:284-348 | Succeeds exactly when the provider answers or everything is cached; every position, duplicates included, holds its stored or provided vector; afterwards every text of an answered batch is cached, new ones with fresh rows, old ones with their vectors, and each hit dated by its last position; over a coherent cache every position is the provider's own vector up to idempotent rounding, and the cache stays coherent. |
| `EmbeddingCache.SqliteEmbeddingCache.StoreOne` | packages/memory/src/embedding-cache-sqlite.ts:122-131 | Writes vector, dimensions, access time and a cleared hit count to exactly one row, keeping the creation time of a row that exists. |
| `EmbeddingCache.SqliteEmbeddingCache.SelectVictims` | packages/memory/src/embedding-cache-sqlite.ts:140-146 | The evicted rows are the surplus, and none was used later than a row that stays. |
| `EmbeddingCache.SqliteEmbeddingCache.PruneEntries` | packages/memory/src/embedding-cache-sqlite.ts:212-231 | Flushes first, deletes exactly a permitted set of least recently used rows and the rows past their lifetime, keeps the vectors of the others, and leaves at most the configured number. |
| `EmbeddingCache.SqliteEmbeddingCache.Dispose` | packages/memory/src/embedding-cache-sqlite.ts:350-359 | Flushes once; a second call changes nothing. |
| `EmbeddingCache.CallsStayCoherent` | packages/memory/src/embedding-cache-sqlite.ts:255-359 | Every sequence of calls on a deterministic provider keeps the table coherent with it. |
| `EmbeddingCache.LaterAnswersAgree` | packages/memory/src/embedding-cache-sqlite.ts:255-359 | After any calls and evictions on a coherent cache, whatever a batch answers is the provider's own vector at every position, up to rounding. |
| `EmbeddingCache.AnsweredAgain` | packages/memory/src/embedding-cache-sqlite.ts:255-348 | A batch answered once is answered again after any calls without a prune, with no provider, by the same vectors up to rounding. |
| `EmbeddingRetention.CallsRetain` | packages/memory/src/embedding-cache-sqlite.ts:255-359 | Without a prune no row is lost and no stored vector changes, over any calls. |
| `LruEmbeddingCache.CachedEmbeddingPort.Embed` | packages/memory/src/embedding-cache-lru.ts:66-78 | An answer is the provider's own vector; a cached text that is not evicted is a hit, an uncached one a miss; nothing but what may be evicted is lost, and an answered text is cached unless evicted at once. |
| `LruEmbeddingCache.CachedEmbeddingPort.EmbedBatch` | packages/memory/src/embedding-cache-lru.ts:80-119 | An answered batch is the provider's answer for every position, duplicates included, whatever is evicted meanwhile; it fails exactly when something missed and the provider did not answer; every position counts as a hit or a miss, cached ones as hits and uncached ones as misses; an answered batch is cached but for evictions. |
| `NearestNeighbours.SearchIsGlobal` | packages/memory/src/hybrid-search.ts:259-289 | For any number of partitions, sorting and cutting the nearest k of each gives a nearest k of the whole union, with exactly its k smallest distances. |
| `RankFusion.ComputeRRF` | packages/memory/src/hybrid-search.ts:316-357 | The two loops over a map compute the declarative fusion. |
| `RankFusion.MergeText` | packages/memory/src/hybrid-search.ts:326-334 | After the text loop each listed id holds its text share. |
| `RankFusion.MergeVectors` | packages/memory/src/hybrid-search.ts:337-353 | After the vector loop each id of either list holds its exact total and both ranks, in order of first appearance. |
| `RankFusion.FusionIsExact` | packages/memory/src/hybrid-search.ts:316-357 | Fusion lists each id of either list once, with its exact sum of weighted reciprocal ranks, in descending order. |
| `RankFusion.BetterScoresHigher` | packages/memory/src/hybrid-search.ts:316-357 | A document at least as good in both lists scores at least as high. |
| `RankFusion.NormalisedInRange` | packages/memory/src/hybrid-search.ts:441-450 | In exact arithmetic every normalised score lies in (0, 1], so the clamp never changes one. |
| `RankFusion.NormalisedInNumbers` | packages/memory/src/hybrid-search.ts:316-357 | For lists without duplicates the normalised score is 1 over 60 plus the text rank and 1.5 over 60 plus the vector rank, as a share of 2.5 over 61. |
| `RankFusion.RanksArePositions` | packages/memory/src/hybrid-search.ts:316-357 | The ranks a fused document carries are its positions in the two lists, counted from one. |
| `RankFusion.TiesKeepOrder` | packages/memory/src/hybrid-search.ts:355-356 | Documents with equal scores stay in order of first appearance. |
| `RankFusion.CutIsBest` | packages/memory/src/hybrid-search.ts:506-514 | Filtering and cutting keeps the best allowed documents. |
| `RankFusion.TextOrderIsKept` | packages/memory/src/hybrid-search.ts:399-515 | Without a vector list the output keeps the text order after filtering. |
| `RankFusion.HybridSearch` | packages/memory/src/hybrid-search.ts:399-515 | Returns distinct allowed documents, best first, each with its exact normalised score, and leaves out no better allowed one; without vectors, the filtered text list in its own order. |
| `BatchIndexer.Indexer.IndexUnembedded` | packages/memory/src/embedding-batch-indexer.ts:85-166 | The loop terminates. The rows newly flagged, and with vectors their keys, are exactly those counted, except the rows of a batch left unanswered as a whole, which count as failed, end the loop and stay in the backlog; indexed, failed and remaining rows add up to the initial backlog. Without such a batch the backlog is emptied if and only if the batch size was not zero or there was none. Under a deterministic provider every embedded row holds the vector of its truncated content. |
| `BatchIndexer.Indexer.ReindexAll` | packages/memory/src/embedding-batch-indexer.ts:168-177 | Afterwards exactly the embedded rows have a vector, that of their content under a deterministic provider, and without an error indexed plus failed is the number of rows. |
| `BatchIndexer.Indexer.WriteBatch` | packages/memory/src/embedding-batch-indexer.ts:115-147 | Flags, vectors and counters after writing one batch. |
| `BatchIndexer.Indexer.SelectBacklog` | packages/memory/src/embedding-batch-indexer.ts:91-110 | Distinct unembedded rows, none exactly when there are none or the limit is zero; a negative limit is no limit. |
| `BatchIndexer.BatchIsPositional` | packages/memory/src/embedding-batch-indexer.ts:126-146 | Each row of a batch is flagged and indexed from its own position of the answer, and a position without a vector is flagged as failed. |
| `BatchIndexer.TruncateForEmbedding` | packages/memory/src/embedding-batch-indexer.ts:61-65 | The first 4608 characters, or the whole text if it is shorter. |
| `DeliveryQueue.ClaimedTwiceNeedsNack` | packages/memory/src/delivery-queue-adapter.ts:129-136 | Over every run with fresh ids, a row is claimed twice only if a nack for it came between. |
| `DeliveryQueue.RecoveredNeedsNack` | packages/memory/src/delivery-queue-adapter.ts:355-362 | A row in flight at recovery is claimed later only after a nack. |
| `DeliveryQueue.ClaimNeedsReadying` | packages/memory/src/delivery-queue-adapter.ts:89-166 | Whatever the ids are, a row that is not pending is next claimed only after a nack for it or a new insertion under its id. |
| `DeliveryQueue.AttemptsCountNacks` | packages/memory/src/delivery-queue-adapter.ts:105-113 | Over every run a row's attempt count is the number of nacks applied since its insertion, and its message is the one enqueued. |
| `DeliveryQueue.RowsAreConserved` | packages/memory/src/delivery-queue-adapter.ts:185-326 | Over every run, rows present plus rows pruned equals rows at the start plus rows enqueued. |
| `DeliveryQueue.CountsAddUp` | packages/memory/src/delivery-queue-adapter.ts:328-353 | Over every run the five statuses add up to rows enqueued minus rows pruned. |
| `DeliveryOutcome.StatusIsLastEffect` | packages/memory/src/delivery-queue-adapter.ts:89-166 | Over every run the status of a present row is the one given by the last step that took effect on it: insertion, successful claim, ack, nack, fail or recovery in flight. |
| `DeliveryOutcome.LastErrorIsLeft` | packages/memory/src/delivery-queue-adapter.ts:105-166 | Over every run the last error of a row is that of the last nack, failure or recovery since its insertion. |
| `DeliveryOutcome.StepColumns` | packages/memory/src/delivery-queue-adapter.ts:89-166 | Every column each step writes, on exactly the rows it takes effect on. |
| `DeliveryOutcome.NackedUntilRetry` | packages/memory/src/delivery-queue-adapter.ts:129-136 | After a nack the row can be claimed exactly from its retry time on, if scheduled by then. |
| `DeliveryOutcome.PruneDeletesExpired` | packages/memory/src/delivery-queue-adapter.ts:147-150 | A row is pruned exactly if its expiry is past and it is not delivered. |
| `DeliveryOutcome.DeliveredStays` | packages/memory/src/delivery-queue-adapter.ts:99-150 | Over every run a delivered row stays, and stays delivered, until it is nacked or failed. |
| `DeliveryQueue.DeliveryQueueAdapter.Insert` | packages/memory/src/delivery-queue-adapter.ts:185-251 | Adds the row as pending or in flight with no attempts; an id in use is an error without effect. |
| `DeliveryQueue.DeliveryQueueAdapter.TryClaim` | packages/memory/src/delivery-queue-adapter.ts:253-261 | Claims exactly a pending row that is scheduled and past its retry time. |
| `DeliveryQueue.DeliveryQueueAdapter.Settle` | packages/memory/src/delivery-queue-adapter.ts:263-288 | Ack, nack and fail as unconditional updates of an existing row. |
| `DeliveryQueue.DeliveryQueueAdapter.Recover` | packages/memory/src/delivery-queue-adapter.ts:355-362 | Fails every row in flight and counts them. |
| `DeliveryQueue.DeliveryQueueAdapter.Prune` | packages/memory/src/delivery-queue-adapter.ts:319-326 | Deletes expired rows that are not delivered and counts them. |
| `DeliveryQueue.DeliveryQueueAdapter.StatusCounts` | packages/memory/src/delivery-queue-adapter.ts:328-353 | The loop over grouped rows gives the number of rows in each status, of one channel type or of all, and they add up to all rows in scope. |
| `ContentTruncation.TruncateContentBlocks` | packages/core/src/tool-metadata.ts:334-380 | Under the limit nothing changes. Over it a block that is not text or within its budget is unchanged, and any other keeps exactly its budget, three fifths of it rounded down in front and the rest behind, around a marker naming the number removed; the budget is the proportional share rounded down but at least 500; kept text is at most the limit plus 500 per text block; and a block grows if and only if it is a text from 1 to 93 characters over its budget. |
| `ContentTruncation.KeptIsBounded` | packages/core/src/tool-metadata.ts:349-363 | The bound on the kept text, for every content and every limit, negative ones included. |
| `ContentTruncation.ShorterIff` | packages/core/src/tool-metadata.ts:371-377 | A truncated text is no longer than the original if and only if at least 94 characters are removed. |
| `ContentTruncation.MarkerNames` | packages/core/src/tool-metadata.ts:374 | The marker carries the number of removed characters in decimal. |
| `ContentTruncation.TotalAdds` | packages/core/src/tool-metadata.ts:338-342 | The total counts the text of every block, whatever its kind. |
| `ContentTruncation.TruncationCanLengthen` | packages/core/src/tool-metadata.ts:334-380 | A concrete block of 501 characters that truncation to 500 makes longer. |
| `Base64Shape.HasValidBase64Shape` | packages/capability-service-sdk/src/methods.ts:29-47 | The two loops accept exactly the language of the published pattern, for every string. |
| `Base64Shape.ShapedIsMatched` | packages/capability-service-sdk/src/methods.ts:27-47 | The positional test and the recursive pattern describe the same strings. |
| `Base64Shape.DecodeEncode` | packages/capability-service-sdk/src/methods.ts:292-295 | Every byte sequence has an encoding of the accepted shape that decodes back to it. |
| `Base64Shape.EncodingIsAdmittedIff` | packages/capability-service-sdk/src/methods.ts:292-295 | The schema admits the encoding of a body if and only if it has at most two bytes more than the evidence limit. |
| `Base64Shape.AdmittedFitsIff` | packages/capability-service-sdk/src/methods.ts:292-295 | An admitted body is within the evidence limit if and only if it is shorter than the cap or ends in double padding, and never exceeds it by more than two bytes. |
| `Base64Shape.CapIsNotExact` | packages/capability-service-sdk/src/methods.ts:292-295 | Some admitted body is two bytes over the limit. |

## Left out

- `countByStatus`, `listActiveForRun`, the pending and unconfirmed listings of the queue, and other single queries: no property here depends on them.
- The contents of the `spawn_tree` JSON beyond what validation and the operations read: graph checkpoints are one value.
- SQLite, Zod, JSON and SHA-256 themselves: tables are maps, validation is a predicate, JSON is a datatype.
- Rows written to the tables by anything other than the modelled operations.
- Full-text search, BM25, stop words, trigram routing and the per-partition vector index: their result lists are inputs, and the nearest k of a partition is a specification.
- IEEE rounding in scores, ratios and the sixty percent split: arithmetic is exact; float32 rounding in the cache is an idempotent function.
- Overlapping calls on one cache, the prune timer, and the check that a stored vector blob is not empty.
- LruEmbeddingCache.CachedEmbeddingPort.EmbedBatch: takes what the LRU library may evict during the call as a parameter, because its policy is not part of the repository.
- EmbeddingRefinement.LazyRefinesEager: sets hit counters aside; EmbeddingUse.HitCountsCollapse gives their exact difference.
- DeliveryQueue.ClaimedTwiceNeedsNack: takes ids as fresh, because they are random UUIDs; ClaimNeedsReadying drops the assumption.
- AttachmentStore.ExecutionAttachmentStore.RecoverAll: models the recovery of all services; the optional service filter skips records before any effect.
- AttachmentStore.ExecutionAttachmentStore.RecoverOne: takes the checks of instance, run, lease and source path as one observation, which may fail, because they read other stores and the file system.
- ContentTruncation.TruncateContentBlocks: does not model that the unchanged array is the same reference, because content is a value.
- Providers that throw, and errors in resolving a search partition.
- Events, logging, write-ahead-log checkpoints and everything outside the files cited above.
