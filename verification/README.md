# Smart LLM Gateway: a verified model of routing and attempt accounting

The gateway accepts an OpenAI-style chat request, expands the requested logical model into an ordered list of
routes, tries them until one commits, relays the stream, and keeps one accounting row per attempt. The state it
depends on is spread over a primary SQL store, a local spool, a circuit shared by several processes, and a byte
buffer fed by the network. This project models that core in Dafny and proves what it keeps in every run.

`dafny verify dfyconfig.toml` checks the whole project.

## How it is modelled

* Code that updates state is a class or a method with loops, proved against a function of the old state
  (`AttemptStore.PrimaryStore`, `UsageSpool.DurableUsageSpool`, `ProbeLeases.PostgresStore`,
  `SnapshotRepository.SnapshotStore`, `SseDecoder.OpenAiSseDecoder`, `ManagedStream.ManagedInferenceStream`,
  `Planning.Planner`, `SnapshotFallback.SnapshotFallback`, `Billing.BillingStore`, `Gateway.Infer`). The theorems are
  then about those functions and about runs built from them.
* Concurrency is a state machine over steps. `Delivery` interleaves request tasks, the flush worker, failed and
  ambiguous primary writes, and crashes. `ProbeLeases` interleaves any number of instances, crashes, clock ticks,
  marks and releases split into their local and their SQL half.
* A SQL table is a map or a list of rows, and each statement or transaction is one atomic change. A write or a
  transaction is answered, or fails without effect, or takes effect and still reports an error (`Domain.Reply`).
* Real time is an integer clock that never runs backwards. Fresh lease ids and attempt ids are parameters, required to
  be distinct where the property needs it.
* The answers of ports (secrets, provider calls, marks, the spool) and every `Pending` are scripts over which the
  theorems quantify.
* JSON text is a print/parse pair (`SseFraming.Codec`, with the laws `SsePrinter.Lawful`). UTF-8 validity, white space
  trimming, line splitting and frame cutting are concrete and work on bytes. The SSE reader follows a subset of
  sections 9.2.5 and 9.2.6 of the WHATWG HTML standard: LF or CRLF, `data:` lines only.

Files: `Domain`, `Json`, `Unicode` (shared types); `FallbackGraph`, `Planning`, `Repositories`, `SnapshotRepository`,
`SnapshotFallback` (routing); `ProbeLeases` (shared circuit); `RowOrder`, `AttemptStore`, `UsageSpool`, `Delivery`,
`Attempts`, `Billing`, `Evidence` (accounting); `SseFraming`, `Utf8Text`, `SseDecoder`, `SsePrinter`, `SseGrammar`,
`SseErrors`, `MessageContent` (wire formats); `ManagedStream`, `Gateway` (requests).

## What the proofs found

* The spool orders entries by second and then by id, so a terminal record can be delivered before its `Committed`
  one. `AttemptStore.OrderInsensitiveIff` says exactly when that is harmless: there is at most one distinct terminal
  record, and it is a stream outcome if the attempt committed. With two different terminal records the first to
  arrive wins. A stream does emit two, exactly when it is dropped while it holds its terminal event
  (`Attempts.TriedRecords`; `Attempts.CancelledAfterSuccess` is an input). Every other stream settles
  (`Attempts.StreamSettles`).
* One refused entry holds back the whole spool (`UsageSpool.FlushProgressIff`, with an input in
  `RefusedHeadHoldsBack`).
* A spool append is dropped exactly when a different record already holds its entry id
  (`Delivery.AppendKeepsRecordIff`, with an input in `DifferentCategoryIsDropped`). `Delivery` therefore assumes one
  record per attempt and outcome, which is what the callers do (`Attempts.TriedRecords`,
  `Gateway.EveryExecutionRecorded`).
* `candidate_plan` refuses a model without a route of its own, even when a fallback model has one; and it never
  returns `NoEligibleRoute`, although the code has a branch for it (`Planning.PlanOutcome`, with an input in
  `FallbackRouteIsNotEnough`).
* Recording a billing id again does not replace the record. It keeps the first header and adds only units beyond those
  stored, so it changes nothing exactly when it brings no more units (`Billing.AbsorbChangesNothingIff`, with an input
  in `ReRecordingMixes`). The gateway itself uses the attempt's id and records it once.
* Chunking does matter for chunks that do not fit beside the residual partial frame: the first of them ends the stream
  even if its first bytes complete that frame. The decoder agrees with a one-shot parse of all the bytes if and only if
  every chunk fits, or what follows the first misfit holds nothing but a failure (`SseDecoder.DecoderEqualsOneShotIff`).
  `SsePrinter.OversizedChunkDiffers` is an input where they differ.
* The snapshot also answers when a healthy primary has no eligible route, and it knows only the marks the primary
  refused. So an account blocked in the primary is not kept out for good: it is if and only if the snapshot's own state
  blocks it too, or every route the snapshot lists for it belongs to a model from which a cycle is reachable
  (`SnapshotFallback.BlockedAccountStaysOutIff`; `OfferedByCallIff` says when one call offers such a route, and
  `BlockedInPrimaryOnly` is an input).
* A half-open route of the snapshot repository can be left only by a mark. Nothing is claimed about its recovery.

## Model

| member | source | states |
|---|---|---|
| FallbackGraph.WalkTheorem | crates/slg-domain/src/lib.rs:628-653 | for every fallback graph the walk ends; it reports a cycle exactly when one is reachable from the start, the reported model lies on it, and otherwise it visits exactly the reachable models, once each, in the order of an independent worklist preorder |
| FallbackGraph.VisitFinds | crates/slg-domain/src/lib.rs:634-642 | a cycle error always names a model that the start reaches and that lies on a cycle |
| FallbackGraph.VisitFinishes | crates/slg-domain/src/lib.rs:643-652 | a successful visit leaves only finished models, none of which lies on a cycle |
| FallbackGraph.VisitIsPreorder | crates/slg-domain/src/lib.rs:646-650 | the recursive walk with two sets emits the same order as a worklist walk without `visiting` |
| Planning.SortIsStable | crates/slg-domain/src/lib.rs:655-664 | the per-model sort is ascending, loses and invents nothing, and keeps equal priorities in their given order |
| Planning.GroupByModel | crates/slg-domain/src/lib.rs:655-661 | grouping keeps each model's routes in input order and has no entry for a model without routes |
| Planning.Planner.VisitModel | crates/slg-domain/src/lib.rs:628-653 | the recursive visitor over mutable `visiting`, `visited` and `output` computes the walk, and restores `visiting` on success |
| Planning.Planner.VisitNext | crates/slg-domain/src/lib.rs:646-650 | the loop over a model's fallbacks does the same for a list, stopping at the first error |
| Planning.CandidatePlan | crates/slg-domain/src/lib.rs:623-683 | the whole planner returns the plan function's value, including its three error cases |
| Planning.PlanOutcome | crates/slg-domain/src/lib.rs:665-682 | Ok exactly when the requested model itself has a route and no cycle is reachable; every error is justified; `NoEligibleRoute` is impossible |
| Planning.FallbackRouteIsNotEnough | crates/slg-domain/src/lib.rs:665-667 | the input: a model whose only route belongs to its fallback is refused as unknown |
| Domain.FailureScopes | crates/slg-domain/src/lib.rs:574-597 | exactly four categories concern the account; every other one, and only those, the route |
| Planning.PlanContents | crates/slg-domain/src/lib.rs:643-664 | a plan holds exactly the routes of reachable models, each as often as given, by first depth-first visit and then ascending priority |
| Planning.FirstFallbackFirst | crates/slg-domain/src/lib.rs:646-650 | depth first and in the given order: the first fallback and everything below it come before the second |
| Planning.PlanHead | crates/slg-domain/src/lib.rs:655-682 | the plan's head is the requested model's first route of smallest priority number |
| Planning.PlanIgnoresRowOrder | crates/slg-adapter-storage-sqlite/src/lib.rs:149 | with the schema's unique (model, priority), every permutation of the rows gives the same plan or the same error |
| Planning.PlanIgnoresUnreachable | crates/slg-adapter-storage-postgres/src/lib.rs:468-482 | dropping routes of unreachable models changes neither plan nor error |
| Planning.ReachableModelsExact | crates/slg-adapter-storage-postgres/src/lib.rs:468-482 | the recursive query's fixed point is exactly graph reachability |
| RowOrder.TextBeforeIff | crates/slg-runtime/src/lib.rs:226 | text order is decided at the first difference, smaller character first, a proper prefix before the longer text |
| RowOrder.OrderBySorts | crates/slg-runtime/src/lib.rs:219-236 | `ORDER BY` integer column then id: sorted, and a permutation of the rows |
| RowOrder.OrderByIgnoresInsertionOrder | crates/slg-runtime/src/lib.rs:219-236 | with a primary key the query result does not depend on insertion order |
| AttemptStore.PrimaryStore.RecordAttempt | crates/slg-adapter-storage-postgres/src/lib.rs:545-581 | the guarded upsert, written out: a new row, an update of a committed row of the same identity by a stream outcome, or nothing; and success exactly if the database answers and the stored identity is the record's |
| AttemptStore.TerminalRowIsFinal | crates/slg-adapter-storage-sqlite/src/lib.rs:226-267 | after a terminal outcome no sequence of deliveries changes the row |
| AttemptStore.IdentityIsFixed | crates/slg-adapter-storage-sqlite/src/lib.rs:226-267 | request and route of an attempt never change after the first delivery |
| AttemptStore.RedeliveryIsIdempotent | crates/slg-adapter-storage-postgres/src/lib.rs:545-581 | delivering again any record of the past, after anything else, changes nothing |
| AttemptStore.OneTerminalSettles | crates/slg-adapter-storage-postgres/src/lib.rs:545-581 | with one distinct terminal record every order and duplication, interleaved with other attempts, ends in exactly its row |
| AttemptStore.OrderInsensitiveIff | crates/slg-adapter-storage-postgres/src/lib.rs:545-581 | the stored row is independent of delivery order if and only if that condition on the set of records holds |
| UsageSpool.EntryIdIsInjective | crates/slg-runtime/src/lib.rs:201-217 | an entry id determines attempt and outcome |
| UsageSpool.DurableUsageSpool.Append | crates/slg-runtime/src/lib.rs:201-217 | adds one row with the arrival second, under the attempt's id and outcome, unless that id is present, and keeps everything else, for each way the insert can be answered |
| UsageSpool.DurableUsageSpool.Pending | crates/slg-runtime/src/lib.rs:219-236 | min(limit, size) entries in queue order, every entry left out coming after all of them, or a read error |
| UsageSpool.OldestAreOldest | crates/slg-runtime/src/lib.rs:226 | that property of the query, by second and then id |
| UsageSpool.DurableUsageSpool.Acknowledge | crates/slg-runtime/src/lib.rs:238-252 | deletes exactly the named entries in one transaction, or none of them if it fails without effect |
| UsageSpool.FlushUsageSpool | crates/slg-runtime/src/lib.rs:446-465 | a whole flush with failing reads, any answers, appends before every delivery and before the acknowledgement, and any answer to the acknowledgement: the accepted prefix of the batch leaves the spool if the acknowledgement takes effect |
| UsageSpool.FlushRemovesExactlyDelivered | crates/slg-runtime/src/lib.rs:219-253 | with all those arrivals, exactly the delivered entries leave: whatever else was pending or has arrived stays |
| UsageSpool.DeliveredIsMaximal | crates/slg-runtime/src/lib.rs:453-462 | that prefix is maximal: all of it was accepted and the next entry was refused |
| UsageSpool.AcknowledgeRemovesPrefix | crates/slg-runtime/src/lib.rs:238-252 | removing it takes exactly those rows and no other |
| UsageSpool.FlushShrinks | crates/slg-runtime/src/lib.rs:446-465 | with an answering primary a flush removes min(limit, size) entries |
| UsageSpool.FlushesDrain | crates/slg-runtime/src/lib.rs:446-465 | n flushes leave max(0, size - n * limit) entries, so repetition drains the spool |
| UsageSpool.FlushProgressIff | crates/slg-runtime/src/lib.rs:446-465 | a flush makes progress if and only if the oldest entry is accepted |
| UsageSpool.RefusedHeadHoldsBack | crates/slg-runtime/src/lib.rs:453-458 | the input: the oldest entry is refused, and the next, which the primary would accept, stays too |
| Delivery.RunKeepsInv | crates/slg-runtime/src/lib.rs:446-465 | the delivery invariant holds after every run of requests, worker, failures and crashes |
| Delivery.NothingAcceptedIsLost | crates/slg-runtime/src/lib.rs:201-253 | in every run an accepted record is in the spool or was applied to the primary |
| Delivery.DrainedSpoolSettles | crates/slg-adapter-storage-postgres/src/lib.rs:545-581 | once the spool is empty, an attempt with one accepted distinct terminal record has exactly that record's row |
| Delivery.ReachableSpoolIsWelcome | crates/slg-runtime/src/lib.rs:446-465 | in every reachable world the spool has distinct ids, one identity per attempt, and nothing the primary would refuse when it answers |
| Delivery.ReachableSpoolDrains | crates/slg-runtime/src/lib.rs:446-465 | so from every reachable world n flushes with an answering primary leave max(0, size - n * limit) entries |
| Delivery.AcceptedOutcomesArrive | crates/slg-runtime/src/lib.rs:446-465 | from every reachable world the worker alone can drain the spool, and then every attempt with one accepted distinct terminal record has exactly that record's row |
| Delivery.OfferedRecordArrives | crates/slg-application/src/lib.rs:121-134 | however the primary answers the first offer of a record, in any reachable world, the record can still be accepted and delivered, and its row is there |
| Delivery.RedeliveryIsHarmless | crates/slg-runtime/src/lib.rs:446-465 | in every run, writing an applied record again (a crash before acknowledgement) leaves the primary as it was |
| Delivery.AppendKeepsRecordIff | crates/slg-runtime/src/lib.rs:201-217 | an append keeps its record if and only if no different record holds its entry id |
| Delivery.DifferentCategoryIsDropped | crates/slg-runtime/src/lib.rs:201-217 | the input: a second record of the same attempt and outcome with another category is dropped, and the append reports success |
| ProbeLeases.PostgresStore.AcquireHalfOpenProbe | crates/slg-adapter-storage-postgres/src/lib.rs:366-419 | both statements and the commit: the lease is won exactly if the database answers, there is no local entry, no unexpired lease, and the route is open or half-open with a retry time that has come; then the lease row runs sixty seconds, the route is half-open with its retry time kept, and nothing else changes |
| ProbeLeases.TryLeaseIff | crates/slg-adapter-storage-postgres/src/lib.rs:376-411 | the same of the transaction alone |
| ProbeLeases.PostgresStore.ReleaseHalfOpenProbe | crates/slg-adapter-storage-postgres/src/lib.rs:421-436 | drops the local entry even if the delete fails, and deletes the row only if it still carries that lease id |
| ProbeLeases.PostgresStore.MarkRouteSuccess | crates/slg-adapter-storage-postgres/src/lib.rs:583-588 | the route's row becomes closed without a retry time and no other row changes, then the probe is released; a failing update keeps the lease |
| ProbeLeases.PostgresStore.MarkRouteFailure | crates/slg-adapter-storage-postgres/src/lib.rs:589-598 | the route's row becomes open with the failure's retry time and no other row changes, then the probe is released; a failing update keeps the lease |
| ProbeLeases.PostgresStore.MarkAccountFailure | crates/slg-adapter-storage-postgres/src/lib.rs:599-622 | blocks the account row, reads the account's routes and releases their probes in order until a delete fails |
| ProbeLeases.ReleaseAllTouchesOnlyOwn | crates/slg-adapter-storage-postgres/src/lib.rs:617-620 | those releases remove only leases this instance holds for those routes, and all of them if no delete fails |
| ProbeLeases.ReleaseStopsAtFailure | crates/slg-adapter-storage-postgres/src/lib.rs:617-620 | after the first delete that fails no other lease is touched |
| ProbeLeases.StepsDo | crates/slg-adapter-storage-postgres/src/lib.rs:366-436 | every step of the cluster written out in rows: what a grant, a mark, a release, a tick and a crash change, and that they change nothing else |
| ProbeLeases.OpenedRouteBecomesHalfOpen | crates/slg-adapter-storage-postgres/src/lib.rs:389-411 | a route opened by a failure does become half-open with a lease once it is due, so the states below are reached |
| ProbeLeases.ReachableInv | crates/slg-adapter-storage-postgres/src/lib.rs:366-436 | the cluster invariant (lease rows, local entries, grants and circuit rows) holds in every state any number of instances can reach |
| ProbeLeases.OneLiveLeasePerRoute | crates/slg-adapter-storage-postgres/src/lib.rs:366-436 | in every reachable state at most one grant per route is unexpired and unreleased |
| ProbeLeases.AcquireFindsNoLiveLease | crates/slg-adapter-storage-postgres/src/lib.rs:366-419 | a successful acquire implies every earlier grant of the route was released or has expired |
| ProbeLeases.StaleReleaseIsHarmless | crates/slg-adapter-storage-postgres/src/lib.rs:421-436 | a release, however late, deletes at most the releasing instance's own grant |
| ProbeLeases.SuccessorSurvivesRelease | crates/slg-adapter-storage-postgres/src/lib.rs:421-436 | a lease granted to another instance in the meantime stays live with its row |
| ProbeLeases.CircuitRowsAreConsistent | crates/slg-adapter-storage-postgres/src/lib.rs:583-597 | in every reachable state a closed route has no retry time and a half-open route is due |
| ProbeLeases.HalfOpenWonIff | crates/slg-adapter-storage-postgres/src/lib.rs:366-419 | a half-open route is won if and only if the instance has no local entry and its lease is absent or expired |
| ProbeLeases.CrashedOwnerCannotStrand | crates/slg-adapter-storage-postgres/src/lib.rs:366-419 | after a crash and any run of at least one lease period in which nobody wins or marks the half-open route, the restarted instance and every instance with no local entry wins the next acquire |
| Repositories.CrashedRouteIsProbedAgain | crates/slg-adapter-storage-postgres/src/lib.rs:463-543 | such a route is in the plan for its model, its acquire is won, and it heads the answer if nothing ahead of it in the plan is closed or won |
| SnapshotRepository.SnapshotStore.Candidates | crates/slg-runtime/src/lib.rs:271-327 | the closed plan if there is one, else the first due route, which becomes half-open; the state changes in no other way |
| SnapshotRepository.SnapshotStore.MarkRouteSuccess | crates/slg-runtime/src/lib.rs:333-343 | closes a known route |
| SnapshotRepository.SnapshotStore.MarkRouteFailure | crates/slg-runtime/src/lib.rs:345-362 | opens a known route with the failure's retry time when the category reaches the route |
| SnapshotRepository.SnapshotStore.MarkAccountFailure | crates/slg-runtime/src/lib.rs:364-381 | blocks a known account when the category reaches the account |
| SnapshotRepository.OfferedAreEligible | crates/slg-runtime/src/lib.rs:271-327 | every offered route is a closed route of an unblocked account, or the one due route |
| SnapshotRepository.OfferedIff | crates/slg-runtime/src/lib.rs:271-327 | a request is offered a route if and only if no cycle is reachable from the model, the account is not blocked, and the route is closed (or has no row) and of a reachable model where the model has a closed route of its own, or is otherwise the model's best open route whose retry time has come |
| SnapshotRepository.ProbeIsExclusive | crates/slg-runtime/src/lib.rs:296-327 | over every later run without a mark for it, a probed route is offered to no one |
| SnapshotRepository.ProbeIsBestDueRoute | crates/slg-runtime/src/lib.rs:296-327 | a probe is the requested model's own due route of smallest priority number |
| SnapshotRepository.OpenedRouteIsWithheld | crates/slg-runtime/src/lib.rs:345-362 | an opened route is not offered before its retry time, never if it has none, unless it is marked |
| SnapshotRepository.BlockedAccountStaysOut | crates/slg-runtime/src/lib.rs:364-381 | no run of the snapshot, with whatever marks, offers a route of an account blocked in its own state again |
| SnapshotFallback.SnapshotFallback.Candidates | crates/slg-runtime/src/lib.rs:396-401 | the primary's answer, or the snapshot's if the primary fails for whatever reason; the snapshot changes only then |
| SnapshotFallback.SnapshotFallback.MarkAccountFailure | crates/slg-runtime/src/lib.rs:428-442 | the snapshot sees the mark only if the primary refuses it |
| SnapshotFallback.BlockedRouteComesBackIff | crates/slg-runtime/src/lib.rs:385-442 | a route of an account blocked in the primary can come back through the pair if and only if the snapshot lists it, the snapshot's own state allows the account, and no cycle is reachable from its model |
| SnapshotFallback.BlockedAccountStaysOutIff | crates/slg-runtime/src/lib.rs:385-442 | an account blocked in the primary stays out of every run if and only if the snapshot's own state blocks it too, or a cycle is reachable from the model of every route listed for it |
| SnapshotFallback.RefusedBlockReachesTheSnapshot | crates/slg-runtime/src/lib.rs:428-442 | a block that the primary refuses does reach the snapshot and keeps the account out of every later run |
| SnapshotFallback.OfferedByCallIff | crates/slg-runtime/src/lib.rs:396-401 | one call offers such a route if and only if the primary refuses the call and the snapshot's state meets the condition of `SnapshotRepository.OfferedIff` |
| SnapshotFallback.OnlyTheSnapshotOffers | crates/slg-runtime/src/lib.rs:385-442 | over every run, such a route is offered exactly where the snapshot, knowing only the calls the primary refused, offers it |
| SnapshotFallback.BlockedPrimaryWithholds | crates/slg-adapter-storage-postgres/src/lib.rs:463-543 | what these runs assume of the primary holds of the modelled one: with the account blocked in its tables, whatever its rows and leases, no answer holds a route of it |
| SnapshotFallback.BlockedInBothStaysOut | crates/slg-runtime/src/lib.rs:385-442 | once the account is blocked in the snapshot's own state too, the pair never offers its routes |
| SnapshotFallback.BlockedInPrimaryOnly | crates/slg-runtime/src/lib.rs:396-401 | the input: a failure blocks the account of a model's only route in the primary, the primary's own plan for the next request then fails, and the snapshot offers the route |
| Repositories.PostgresCandidates | crates/slg-adapter-storage-postgres/src/lib.rs:463-543 | the query, the plan and the probing loop, with other instances acting between probes; a call wins at most one lease, and then that route was not closed and is the head of the answer |
| Repositories.PrimaryAnswerShape | crates/slg-adapter-storage-postgres/src/lib.rs:463-543 | the answer is every closed route in plan order, headed by at most one probe; every entry of the plan ahead of the head was due and was refused, and a probe was due and won; else every entry was refused, or the store failed |
| Repositories.PrimaryWithholdsBlocked | crates/slg-adapter-storage-postgres/src/lib.rs:468-482 | no answer holds a route of an account that the tables block |
| Repositories.PostgresRowsIff | crates/slg-adapter-storage-postgres/src/lib.rs:478-485 | the query keeps a row, as often as it is there, if and only if both state rows exist, the account is not blocked, the route is closed, or open or half-open with a retry time at or before now, and its model is reachable |
| Repositories.SqliteRowsIff | crates/slg-adapter-storage-sqlite/src/lib.rs:184-190 | the same without the restriction to reachable models |
| Repositories.ClosedOfIs | crates/slg-adapter-storage-postgres/src/lib.rs:526-534 | the closed part of an answer is every closed entry of the plan, as often as it is there, in plan order |
| Repositories.PostgresFilterIsTransparent | crates/slg-adapter-storage-postgres/src/lib.rs:468-482 | the reachability restriction in the query never changes the plan or its error |
| Repositories.RepositoriesAgree | crates/slg-adapter-storage-postgres/src/lib.rs:463-543 | with equal configuration, complete state rows and nothing due for retry, the three repositories succeed together with the same list, whatever row order each reads |
| SseFraming.CompleteFrame | crates/slg-adapter-upstream-openai/src/lib.rs:97-113 | the line scan finds exactly the first blank line, LF or CRLF |
| SseFraming.FirstBlank | crates/slg-adapter-upstream-openai/src/lib.rs:97-113 | what a first blank line is, by position and not by scanning |
| SseFraming.FrameCutIsStable | crates/slg-adapter-upstream-openai/src/lib.rs:97-113 | later bytes never move a frame boundary already found |
| SseFraming.Utf8Concat | crates/slg-adapter-upstream-openai/src/lib.rs:115-117 | valid UTF-8 stays valid when joined |
| Utf8Text.Utf8Iff | crates/slg-adapter-upstream-openai/src/lib.rs:116 | bytes are accepted as text exactly if they encode a sequence of Unicode characters |
| Utf8Text.WhiteIff | crates/slg-adapter-upstream-openai/src/lib.rs:131 | white space at the front of a text is recognised exactly for the characters Unicode calls white |
| Utf8Text.DoneIff | crates/slg-adapter-upstream-openai/src/lib.rs:131-133 | the end marker is recognised exactly with nothing but white space around it |
| SseFraming.DecodeFrame | crates/slg-adapter-upstream-openai/src/lib.rs:115-147 | the line loop computes the decoding that the next rows pin down |
| SseGrammar.FrameMeansItsPayloads | crates/slg-adapter-upstream-openai/src/lib.rs:115-130 | a frame of any data lines, comments and other fields, with or without the space after the colon, each line ended by LF or CRLF, means its payloads joined with newlines, and nothing if it has none |
| SseGrammar.PrintedLinesAreCut | crates/slg-adapter-upstream-openai/src/lib.rs:97-113 | every such frame is cut exactly at its blank line, LF or CRLF, whatever follows |
| SseGrammar.FrameDecodes | crates/slg-adapter-upstream-openai/src/lib.rs:52-71 | so the decoder skips it, hands out its chunk, or ends, by what the joined payloads mean |
| SseGrammar.DataMeans | crates/slg-adapter-upstream-openai/src/lib.rs:131-146 | the marker completes the stream; otherwise an error object fails it, a chunk is handed out, and anything else is a provider failure |
| SseGrammar.InvalidTextFails | crates/slg-adapter-upstream-openai/src/lib.rs:116 | a frame that is not UTF-8 ends the stream with a provider failure |
| SseErrors.CodeIsFirstKeyword | crates/slg-adapter-upstream-openai/src/lib.rs:149-169 | the category is that of the first keyword, in the stated order, that occurs in the lower-cased code |
| SseErrors.CodeOfError | crates/slg-adapter-upstream-openai/src/lib.rs:149-154 | the code is the string under `code` of an error object; any other error counts as an unavailable provider |
| SseErrors.LowerIsAscii | crates/slg-adapter-upstream-openai/src/lib.rs:154 | only the case of the letters A to Z is ignored |
| SseErrors.RetryTimes | crates/slg-adapter-upstream-openai/src/lib.rs:171-208 | exactly the four retryable categories get a retry time, sixty seconds ahead |
| SseDecoder.OpenAiSseDecoder.PollNext | crates/slg-adapter-upstream-openai/src/lib.rs:45-90 | the loop over buffer and source is the poll function of the decoder state |
| SseDecoder.PollHandsOutEvents | crates/slg-adapter-upstream-openai/src/lib.rs:45-90 | however often it is polled, the decoder hands out one fixed event sequence in order; pending polls drop nothing |
| SseDecoder.ParseInTwoParts | crates/slg-adapter-upstream-openai/src/lib.rs:58-71 | frame-by-frame parsing can stop anywhere and resume with the residue |
| SseDecoder.DecoderEqualsOneShotIff | crates/slg-adapter-upstream-openai/src/lib.rs:45-147 | for every source, with any pending polls, the events are those of one parse of all the bytes if and only if every chunk fits, or what follows the first misfit holds nothing but a failure |
| SseDecoder.DecoderEqualsOneShot | crates/slg-adapter-upstream-openai/src/lib.rs:45-147 | in particular for every chunking whose chunks fit |
| SseDecoder.ChunkingDoesNotMatter | crates/slg-adapter-upstream-openai/src/lib.rs:45-147 | two cuts of the same bytes, also inside a CRLF or a UTF-8 character, one of them meeting that condition, give the same events if and only if the other meets it |
| SseDecoder.OversizedChunkFails | crates/slg-adapter-upstream-openai/src/lib.rs:73-84 | the first chunk that does not fit ends the stream with one failure after the events of the bytes before it |
| SseDecoder.LimitIs256KiB | crates/slg-adapter-upstream-openai/src/lib.rs:14 | beside a partial frame a chunk is buffered exactly if both fit into 256 KiB |
| SseDecoder.EveryTurnAccounted | crates/slg-adapter-upstream-openai/src/lib.rs:45-90 | on any source the buffer stays within the limit at every turn, and received bytes are consumed whole frames followed by the buffer |
| SseDecoder.TurnProgress | crates/slg-adapter-upstream-openai/src/lib.rs:45-90 | every turn that goes round again or emits a frame polls the source or consumes bytes |
| SseDecoder.ExactlyOneTerminal | crates/slg-adapter-upstream-openai/src/lib.rs:45-90 | at most one terminal event, always last, and exactly one when the source ends or fails |
| SsePrinter.PublicFrameBytes | crates/slg-adapter-inbound-openai/src/lib.rs:188-204 | the bytes of each public event |
| SsePrinter.PrintedEventDecodes | crates/slg-adapter-inbound-openai/src/lib.rs:188-204 | one printed event is cut out whole and decodes to itself, whatever follows |
| SsePrinter.PrintThenParse | crates/slg-adapter-inbound-openai/src/lib.rs:188-204 | parsing a whole printed stream returns its frames and its terminal event |
| SsePrinter.PrintThenDecode | crates/slg-adapter-inbound-openai/src/lib.rs:188-204 | the same through the incremental decoder: print then decode is the identity under exactly the chunkings of that condition, among them all whose chunks fit |
| SsePrinter.OversizedChunkDiffers | crates/slg-adapter-upstream-openai/src/lib.rs:73-84 | the input where they differ: a completed stream and too much padding in one chunk parses as Completed and decodes as one failure |
| SsePrinter.PublicFailureCategory | crates/slg-adapter-upstream-openai/src/lib.rs:149-169 | the public failure body is classified as ProviderUnavailable |
| ManagedStream.ManagedInferenceStream.PollTerminalFuture | crates/slg-application/src/lib.rs:196-208 | one poll of the terminal future runs its calls in order until a port is not ready |
| ManagedStream.ManagedInferenceStream.PollNext | crates/slg-application/src/lib.rs:191-248 | frames pass through; a terminal event is held until its future is done; afterwards the stream is over |
| ManagedStream.PollStep | crates/slg-application/src/lib.rs:191-248 | each poll hands out the head of what was to come or nothing, and a terminal only after every call of its future was answered |
| ManagedStream.ClientSeesPromisedPrefix | crates/slg-application/src/lib.rs:136-248 | for every upstream, pending pattern and number of polls the client has seen frames in order and then at most one terminal, released only after its matching records and marks |
| ManagedStream.EverythingPromisedArrives | crates/slg-application/src/lib.rs:191-248 | nothing is withheld: from any state between polls, also with a terminal event already held, and with any pending polls among enough answers, every frame still to come and the terminal event arrive within as many polls as there are items and answers |
| ManagedStream.CompletedLog | crates/slg-application/src/lib.rs:136-144 | before Completed is released, the success was offered to the primary then the spool, and the route was marked exactly if one accepted it |
| ManagedStream.FailedLog | crates/slg-application/src/lib.rs:146-165 | before Failed is released the calls are exactly: the partial failure to the primary, if refused to the spool, then one mark, of the account or of the route as the category says |
| ManagedStream.EarlyEndOpensTheRoute | crates/slg-application/src/lib.rs:264-277 | a stream that ends without a terminal event counts as an unavailable provider: that category is recorded and the route is opened without a retry time |
| ManagedStream.DropOffersOneCancelled | crates/slg-application/src/lib.rs:250-262 | at every drop point, once the spawned task has run: nothing if the terminal is out or there is no runtime, otherwise exactly one `Cancelled` to the primary and, if refused, to the spool |
| ManagedStream.LateRecordsAreIgnored | crates/slg-adapter-storage-sqlite/src/lib.rs:226-267 | whatever arrives after a committed attempt's first terminal record, the row keeps that record |
| Attempts.PolledRecords | crates/slg-application/src/lib.rs:111-171 | all records that polling offers for one attempt carry the same terminal outcome and category |
| Attempts.EmittedFields | crates/slg-application/src/lib.rs:111-119 | every record of an attempt carries its id, request and route; one is `Committed`, the others repeat the outcome and category of a call |
| Attempts.TriedRecords | crates/slg-application/src/lib.rs:111-262 | for every upstream, answers, number of polls and drop point, the records one attempt tries to store have one identity and one record per outcome, and at most one distinct terminal record if and only if the stream was not dropped while it held its terminal event |
| Attempts.AnsweredRecords | crates/slg-application/src/lib.rs:111-262 | the same for the answered records: two terminal ones if and only if the drop came after an answer and before the terminal event was out |
| Attempts.CancelledAfterSuccess | crates/slg-application/src/lib.rs:191-262 | the input with two: a success is recorded, its mark is pending, the client leaves; the stored row then depends on delivery order |
| Attempts.StreamSettles | crates/slg-application/src/lib.rs:111-262 | every other stream settles: whatever failed or crashed, once the spool is empty the row is that of the attempt's one terminal record |
| Gateway.HandleExecution | crates/slg-application/src/lib.rs:344-405 | what an Ok execution records, marks and gives the accounting repository, in order, and the response or error that ends the run |
| Gateway.HandlePreCommitFailure | crates/slg-application/src/lib.rs:407-434 | what a failed execution records and marks, and that the run goes on exactly if the stores accept both |
| Gateway.Infer | crates/slg-application/src/lib.rs:436-482 | the request loop performs the actions and returns the result that the next rows pin down, for every script of answers |
| Gateway.RunEndsAtFirstHalt | crates/slg-application/src/lib.rs:459-481 | a run ends at the first candidate that did not fail or whose record or mark a store refused, with that response or that error, and before that tries every candidate whose secret resolves |
| Gateway.RunExhausts | crates/slg-application/src/lib.rs:459-481 | without such a candidate it tries them all and reports the message of the last failed execution or unresolved secret |
| Gateway.FallbackReachesTheFirstSuccess | crates/slg-application/src/lib.rs:459-481 | with accepting stores, fallback goes on until the first candidate that does not fail, and that one answers |
| Gateway.ConfigurationMeansRefused | crates/slg-application/src/lib.rs:279-434 | a configuration error means that the last action is a record nobody took or a mark answered with exactly that error |
| Gateway.RefusedBeforeTheLoop | crates/slg-application/src/lib.rs:436-458 | requests that reach no candidate: unauthenticated, a store error, or no available route, told apart by the error's prefix |
| Gateway.ExecutesInOrder | crates/slg-application/src/lib.rs:459-481 | executed routes are a prefix of the candidates whose secret resolves, in order, and all of them if the run ends in Upstream |
| Gateway.EveryExecutionRecorded | crates/slg-application/src/lib.rs:279-434 | each execution is recorded at once under its own attempt id, before anything else runs; the spool is asked exactly if the primary refused |
| Gateway.FallbackOnlyBeforeCommit | crates/slg-application/src/lib.rs:459-481 | another route executes only after a failure whose record was accepted; a response means an accepted success or commit |
| Gateway.MarksFollowRecords | crates/slg-application/src/lib.rs:407-434 | each accepted record is followed by exactly the account, route or success mark it calls for, and no other mark is made |
| Gateway.EvidenceFollowsSuccess | crates/slg-application/src/lib.rs:372-389 | evidence is offered only at the end of a run, after the recorded and marked success of its one completed execution, and exactly what that evidence gives under the attempt's id |
| Gateway.CompletedEvidenceIsOffered | crates/slg-application/src/lib.rs:372-389 | a completed response's evidence is offered right after its mark, all that is usable and nothing more |
| Evidence.PersistAuthoritativeEvidence | crates/slg-application/src/lib.rs:303-342 | offers all quota snapshots in order and then the billing record, or nothing if there is no repository, no evidence or no valid evidence |
| Evidence.OffersAreExact | crates/slg-application/src/lib.rs:303-342 | with a repository, sound snapshots of the account and sound billing facts, every snapshot is offered in order and then the billing record, field by field; otherwise nothing |
| Evidence.OnlyOwnEvidence | crates/slg-domain/src/lib.rs:440-455 | only sound snapshots of the route's own account are offered, and one of another account keeps back all evidence |
| Evidence.OfferedBillingIsStorable | crates/slg-application/src/lib.rs:322-341 | an offered billing record carries the attempt's id as its own, and passes the stores' validation exactly if neither identifier is blank |
| Evidence.OfferedBillingLoads | crates/slg-application/src/lib.rs:322-341 | so the stores' condition of one record per id holds, and each attempt loads back exactly its record |
| Gateway.InferIsSafe | crates/slg-application/src/lib.rs:436-482 | all of these together for every run, including authentication and candidate errors |
| MessageContent.PartsPointwise | crates/slg-domain/src/lib.rs:30-36 | parts parse in place; a failure is the first failing part's error |
| MessageContent.TextShape | crates/slg-domain/src/lib.rs:78-88 | the JSON of a text part |
| MessageContent.ImageShape | crates/slg-domain/src/lib.rs:89-113 | the JSON of an image part with each detail level; a null detail is malformed |
| MessageContent.AudioShape | crates/slg-domain/src/lib.rs:114-129 | the JSON of an audio part in each format |
| MessageContent.PartErrors | crates/slg-domain/src/lib.rs:70-132 | a part is unsupported exactly if its type is text other than the three; every other failure is malformed |
| MessageContent.ExtraKeysAreMalformed | crates/slg-domain/src/lib.rs:173-179 | a key that does not belong makes a part malformed |
| MessageContent.ContentShapes | crates/slg-domain/src/lib.rs:27-37 | text is content; anything but text and a non-empty list is malformed content |
| MessageContent.PartFromJson | crates/slg-domain/src/lib.rs:70-132 | an accepted part is well-formed and serializes to the very object it came from |
| MessageContent.ParseThenSerialize | crates/slg-domain/src/lib.rs:26-38 | every accepted value serializes back to itself |
| MessageContent.SerializeThenParseIff | crates/slg-domain/src/lib.rs:26-132 | content parses back to itself if and only if it is well-formed |
| MessageContent.AcceptedIff | crates/slg-domain/src/lib.rs:26-188 | the accepted JSON values are exactly the serialized forms of well-formed content |
| MessageContent.MessagesPointwise | crates/slg-adapter-inbound-openai/src/lib.rs:119-130 | messages convert in place; the error is the first failing content's code |
| MessageContent.DecodeRequestIff | crates/slg-adapter-inbound-openai/src/lib.rs:113-138 | a body is a schema error exactly if it does not fit the written-out schema; one that fits is accepted exactly if every content is the serialized form of well-formed content, and otherwise the first bad content gives the code |
| MessageContent.PositionalAt | crates/slg-adapter-inbound-openai/src/lib.rs:35-49 | a structure written as an array holds its fields in order |
| MessageContent.StructShapes | crates/slg-adapter-inbound-openai/src/lib.rs:35-49 | a structure is an object, or an array with exactly as many items as it has fields |
| MessageContent.ForwardingKeepsMessages | crates/slg-adapter-upstream-openai/src/lib.rs:211-226 | decode then encode sends every message in order with exactly its role and content JSON |
| MessageContent.ForwardingKeepsSettings | crates/slg-adapter-inbound-openai/src/lib.rs:113-138 | the model name is replaced, the stream flag kept, optional numbers sent exactly when given, nothing else sent |
| Billing.BillingStore.RecordBillingRecord | crates/slg-adapter-storage-sqlite/src/lib.rs:392-451 | validation, then one transaction inserting the header and each unit unless present; rejected or oversized records change nothing |
| Billing.BillingStore.BillingRecords | crates/slg-adapter-storage-sqlite/src/lib.rs:537-618 | loads the attempt's rows in query order, stopping at the first row that does not decode or validate |
| Billing.ValidateIff | crates/slg-domain/src/lib.rs:373-393 | a record is valid exactly if it is named, sourced, has a value, all units are sound, a charge is in a currency, and it is not stale before it was seen |
| Billing.InsertUnitsFrom | crates/slg-adapter-storage-postgres/src/lib.rs:699-722 | inserting units under a stored id adds exactly those beyond the stored ones and touches no other record's units |
| Billing.StoringAbsorbs | crates/slg-adapter-storage-postgres/src/lib.rs:665-729 | the two tables always hold a book of records, and storing one absorbs it into the book |
| Billing.AbsorbChangesNothingIff | crates/slg-adapter-storage-postgres/src/lib.rs:699-722 | a stored id makes redelivery harmless if and only if it brings no unit beyond those kept |
| Billing.ReRecordingMixes | crates/slg-adapter-storage-postgres/src/lib.rs:699-722 | the input: an id recorded again, later and with one more unit, loads as a third record that is neither of the two |
| Billing.QuantityRoundTrip | crates/slg-adapter-storage-postgres/src/lib.rs:849-905 | unit kind, currency code, custom name, unscaled value and scale survive their columns |
| Billing.LoadQuantityIff | crates/slg-adapter-storage-postgres/src/lib.rs:849-905 | columns load exactly if they name a known kind, a sound unit and a whole decimal with a one-byte scale |
| Billing.EveryLoadIsValid | crates/slg-adapter-storage-postgres/src/lib.rs:775-846 | whatever the tables hold, a load that succeeds returns valid records only |
| Billing.RecordRoundTrip | crates/slg-adapter-storage-postgres/src/lib.rs:797-845 | a valid record's rows load as exactly that record, units in order |
| Billing.LoadingReturnsTheBook | crates/slg-adapter-storage-postgres/src/lib.rs:775-846 | loading an attempt returns exactly its records, once each, sorted by (observed_at, id), all valid |
| Billing.EveryHistoryLoads | crates/slg-adapter-storage-sqlite/src/lib.rs:537-618 | after any sequence of valid records every load succeeds and returns the merged book |
| Billing.StoreThenLoad | crates/slg-adapter-storage-sqlite/src/lib.rs:392-451 | with distinct ids and any redeliveries, storing then loading returns exactly the attempt's records unchanged |

## Left out

- HTTP serving, outbound calls, response headers, CLI commands, authentication, gateway keys and secret lookup: input and output; the loop sees only their results.
- Snapshot file writing, the sensitive-field filter and migrations: file system work.
- TEXT columns are ordered by code point. PostgreSQL orders them by the database collation, so among billing records observed in the same second the order of `Billing.LoadingReturnsTheBook` holds there only under the C collation; SQLite and the spool compare code points.
- SQL engines: taken as atomic maps and row lists. Foreign keys, `CHECK` constraints and text that a database refuses (NUL characters) appear only as a store that fails without effect.
- The JSON library: taken as laws on a print/parse pair, for the frames that are printed, including exact floating point reprinting and the recursive removal of unknown chunk fields.
- Attempt ids are text without a colon, and lease ids are text; that UUIDs are fresh is a precondition of the theorems that need it.
- Integer widths: priorities, clocks and retry times are unbounded, so overflow of `now` plus a delay is not modelled. Decimal scales and unit index limits are bounded as in the source.
- Delivery.AcceptedOutcomesArrive: speaks of the PostgreSQL deployment with its primary reachable at start. The SQLite deployment has a spool but starts no flush worker (crates/smart-llm-gateway/src/main.rs:366-382), and neither does a start from the last-known-good snapshot alone, so there queued records stay queued.
- Delivery.RunKeepsInv: one process with one spool and one worker. Several processes share a primary only through distinct attempt ids, so their worlds do not meet.
- Delivery.DrainedSpoolSettles: speaks of attempts with one distinct terminal record that was accepted; with two, the first to reach the store wins. `Attempts.TriedRecords` says when a stream has two.
- ProbeLeases.CrashedOwnerCannotStrand: an instance whose local entry is never dropped (a cancelled request, or a secret that does not resolve, makes no mark) refuses its own probes; only instances with no local entry are promised the route.
- ProbeLeases.OneLiveLeasePerRoute: exclusion is about live leases, not about requests in flight, since any request's mark may release a lease.
- Repositories.PostgresCandidates: the rows are read in one step at the start; other instances act between probes, not inside the query.
- Repositories.RepositoriesAgree: rows of disabled routes and models are taken to be filtered out before, and fallbacks arrive as one ordered list per model.
- SseDecoder.OpenAiSseDecoder.PollNext: the clock is a parameter of the stream. It is read only to build a failure, and a failure ends the stream, so there is at most one reading.
- Gateway.Infer: the fixed texts of configuration errors are constructors of `Reason`.
- SnapshotFallback.SnapshotFallback.Candidates: authentication and the recording of attempts through the pair are not modelled; the latter is a write to the primary and then the spool, as in `Gateway`.
- Billing.StoreThenLoad: the storage of quota snapshots has the same column encoding and a simpler table, and is not modelled.
- MessageContent.ForwardingKeepsSettings: number conversion is a parameter; its rounding is the JSON library's.
