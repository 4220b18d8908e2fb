# Verified model of the catalogue platform

This project models, in Dafny 4.11, the parts of the platform whose correctness spans several functions, and
proves what they promise:

* **Publishing** (`PublishingProtocol`, `PublishingGuarantees`, `PublishingUseCases`, `Publications`, `TaskQueue`,
  `RateLimiting`): scheduled posts, the poller, the job queue, the publish worker and its daily rate limit. Every
  transaction is one atomic step, every effect between transactions another one, and steps of any number of
  workers, pollers, reapers and people interleave freely; a worker may vanish after any step. The provider is a
  map from idempotency key to post.
* **Generation** (`GenerationPipeline`, `GenerationGuarantees`, `GenerationUseCases`, `GenerationRows`,
  `RollupAndLadder`): reserve quota, fan out, render, replace the live image, check quality, retry, roll up, settle.
* **Superseding** (`SupersedeChain`, `ContentDrafts`): tables that keep history under a partial unique index.
* **Taxonomy** (`CategoryTree`, `CategoryMoves`, `SpecInheritance`, `SpecSnapshotBuilder`, `SpecChanges`,
  `SpecPublishing`): the category tree, its cached paths and unique keys, inherited rows and settings, snapshots, their
  diffs and versioned publishing.
* **Prompts and pages** (`PlaceholderScanner`, `PlaceholderShape`, `PromptComposition`, `SpecDocument`, `RoleLines`,
  `Pagination`); `Listing` is what an ordered, limited query over unlocked rows answers.

Use cases are methods over tables they update in place, and each is proved to take exactly one step of the state
machine it belongs to; entities are classes with the source's guarded transitions. The guarantees are lemmas over
every run or every input. Where a method has a ghost parameter, it names the worker or the history the step belongs
to and has no counterpart in the program.

## What the proofs found

* `SqlRateLimiter.allow` inserts a missing window row with count 1 whatever the limit, so a limit of zero still lets
  one call per window through, while `defer_publication_publish.py:26-28` speaks of a limit of 0 as one that never
  lets anything through. `RateLimiting.LimitKeptIffPositive`: the limit is kept exactly when it is positive.
* A worker that vanishes leaves its row dispatching, and nothing moves it again: the reaped job cannot claim it, the
  poller does not see it, nobody can cancel it, and its channel and variant accept no new publication.
  `PublishingGuarantees.StuckIffOrphaned` and `OrphanBlocksItsChannel`.
* Role lines and reference images correspond exactly when, requirement by requirement, "described in the snapshot"
  and "has an image" agree. An optional input that was never captured shifts every later line:
  `RoleLines.LinesMatchImagesIff` and `OptionalWithoutImageShiftsLines`.
* `complete` does not look at the job's status, so a job that has used up its attempts, and is dead, can still succeed
  when its silent worker comes back: `PublishingGuarantees.DeadIffUsedUp` and `DeadJobMaySucceed`.
* A row is never released before the time it was created for, except when a worker whose clock is behind put it off and
  the poller's clock then ran backwards: `PublishingGuarantees.FirstReleaseWaits`, `NeverReleasedEarly` and
  `EarlyReleaseOnBackwardClock`.
* Nothing keeps a category from owning two definitions of one kind and key
  (`18c4ff8a7a48_add_attribute_definitions.py:21-27`). Inheritance keeps the later one (`spec_inheritance.py:34-38`),
  yet publishing stamps both (`publish_category_spec.py:90-112`), so `introduced_in_version` of the earlier one names a
  version that does not have it. `SpecPublishing.StampIsFirstVersionIff`: the stamp names the first version with the row
  exactly when, at that publish, no later own row of its kind had its key; `TwinRowsRun` is a run where it does not.
* A value substituted into a prompt can be taken for the start of a placeholder when the prompt is scanned again.
  `PlaceholderScanner.RescanExactIffSafe` and `PromptComposition.ScenesReadIffSafe`: that never happens exactly when no
  value ends in `{` or holds a `{{` that meets a `}}`, or its own end, before a newline.
* No caller bounds a page limit from below. With a limit of 0 or -1 a walk ends at once, with an empty page that
  claims to be the last one: `Pagination.WalkIsCompleteIff`.

## Model

| member | source | states |
|---|---|---|
| RateLimiting.WindowCharacterised | src/app/shared/clock.py:32-40 | the window start is the one aligned instant w with w <= now < w + window |
| RateLimiting.AlignmentIdempotentAndMonotone | src/app/shared/clock.py:32-40 | aligning twice is aligning once, and alignment preserves order |
| RateLimiting.AllowKeepsTally | src/app/infrastructure/persistence/rate_limiter.py:33-63 | the stored counts always equal the grants of their window and never pass the larger of limit and 1 |
| RateLimiting.AllowedIffBelowLimit | src/app/infrastructure/persistence/rate_limiter.py:33-63 | a call is granted exactly while the window has fewer grants than the larger of the limit and 1 |
| RateLimiting.BurstBound | src/app/infrastructure/persistence/rate_limiter.py:33-63 | any interval of one window's length, aligned or not, sees at most twice the per-window bound |
| RateLimiting.LimitKeptIffPositive | src/app/infrastructure/persistence/rate_limiter.py:40-61 | every run keeps within the limit in every window if and only if the limit is positive |
| Publications.Publication.Create | src/app/entities/publication.py:123-153 | a new row is scheduled, due at the given time or else now, with no attempts and no post, under the given key |
| Publications.Publication.DeferDispatch | src/app/entities/publication.py:155-166 | only a scheduled row moves its due time; nothing else changes |
| Publications.Publication.MarkDispatching | src/app/entities/publication.py:168-172 | only scheduled and failed rows start dispatching |
| Publications.Publication.MarkPublished | src/app/entities/publication.py:174-183 | only a dispatching row becomes published, with its post and time |
| Publications.Publication.RecordAttemptFailure | src/app/entities/publication.py:185-195 | a dispatching row counts the attempt and becomes failed, or dead when the job is |
| Publications.Publication.Defer | src/app/entities/publication.py:197-210 | a dispatching row goes back to scheduled at the given time without counting an attempt |
| Publications.Publication.Cancel | src/app/entities/publication.py:212-216 | only a scheduled row is cancelled |
| PublishingProtocol.KeepsInv | src/app/features/publishing/start_publication_publish.py:59-98 | every step of every actor keeps the protocol's invariant: distinct keys, one live row per channel and variant, one worker per dispatching row, calls under their row's key, posts matching calls, a retry for every failed row |
| PublishingProtocol.StartMeans | src/app/features/publishing/start_publication_publish.py:59-98 | a claim dispatches the job's row exactly when the row is there and scheduled or failed, and otherwise costs the job an attempt |
| PublishingUseCases.Tables.CreatePublication | src/app/features/publishing/create_publication.py:59-112 | one Create step; refused, in this order, for a missing draft, an unusable draft, no media, a publication in flight, or a taken id or key, and then nothing changes; otherwise the row is scheduled for the given time or now, field by field as asked |
| PublishingUseCases.Tables.CancelPublication | src/app/features/publishing/cancel_publication.py:22-46 | one Cancel step; refused exactly when the row is missing or not scheduled; only its status changes |
| PublishingUseCases.Tables.ReleaseScheduledPublications | src/app/features/publishing/release_scheduled_publications.py:61-77 | the sweep takes the earliest due rows that are not locked, up to the limit and all of them below it, pushes each ten minutes on, gives each a fresh job of its own with five attempts, and counts them |
| PublishingUseCases.Tables.Claim | src/app/infrastructure/persistence/task_queue.py:76-105 | takes the unlocked pending job that is due the longest to running, or finds that there is none |
| PublishingUseCases.Tables.StartPublicationPublish | src/app/features/publishing/start_publication_publish.py:59-98 | one Start step with the job due the longest, or nothing when no job is due; a worker opens exactly when the row was claimable, and it carries the row's channel and key |
| PublishingUseCases.Tables.AllowCall | src/app/agents/publish_channel.py:89-96 | one CheckRate step: allowed exactly when the window has no count yet or one below the limit, and then counted |
| PublishingUseCases.Tables.CallProvider | src/app/agents/publish_channel.py:123-132 | one Publish step under the given key; a returned post is the one the provider holds for that key |
| PublishingUseCases.Tables.CompletePublicationPublish | src/app/features/publishing/complete_publication_publish.py:22-55 | one Complete step: the row is published with the post and time and its job has succeeded, or nothing changes |
| PublishingUseCases.Tables.FailPublicationPublish | src/app/features/publishing/fail_publication_publish.py:28-54 | one Fail step: the job has one attempt more and is dead exactly when that uses them up, otherwise pending and due after the backoff; the row has one attempt more and is dead exactly when the job is, otherwise failed |
| PublishingUseCases.Tables.DeferPublicationPublish | src/app/features/publishing/defer_publication_publish.py:52-72 | one Defer step: the row waits for the given time and the job has succeeded |
| PublishingUseCases.Tables.ReapStuckTaskQueueJobs | src/app/infrastructure/persistence/task_queue.py:161-182 | the reaper fails each running job silent for more than ten minutes that is not locked, all of them and no other: one attempt more, dead exactly when that uses them up, otherwise due after its backoff |
| PublishingUseCases.Tables.PublishChannelAgentRun | src/app/agents/publish_channel.py:84-140 | from any reachable state a whole run of the agent is a run of the protocol that closes its worker; the row ends published exactly when validation passed and the provider returned, otherwise failed or dead, or scheduled for the next window with no call made |
| Listing.ListOldest | src/app/infrastructure/persistence/publication_repository.py:43-57 | distinct matching rows in the column's order, none behind a row left out, and none left out below the limit |
| PublishingGuarantees.ReachableInv | src/app/agents/publish_channel.py:84-140 | every state that any run reaches, crashes and duplicate jobs included, keeps that invariant |
| PublishingGuarantees.AtMostOnePost | src/app/agents/publish_channel.py:114-140 | in every run every call carries its row's key, each publication creates at most one post, and a published row holds the post one of its own calls created |
| PublishingGuarantees.KeyNeverChanges | src/app/entities/publication.py:140 | a row keeps its key and its cited draft in every later state |
| PublishingGuarantees.NoAttemptNoCall | src/app/entities/publication.py:185-216 | scheduled or cancelled with no attempts: the provider was never called for the row |
| PublishingGuarantees.TerminalIsFinal | src/app/entities/publication.py:155-216 | published, dead and cancelled rows never change again and no call starts for them |
| PublishingGuarantees.OneAttemptInFlight | src/app/features/publishing/start_publication_publish.py:76-89 | two open workers never share a row, nor a channel and variant |
| PublishingGuarantees.SettlingNeverRaises | src/app/agents/publish_channel.py:97-140 | whatever interleaved, an open worker's next transaction finds its row dispatching and goes through |
| PublishingGuarantees.NoLostRetry | src/app/features/publishing/fail_publication_publish.py:37-41 | a failed row always has a pending job, and claiming it once due dispatches the row |
| PublishingGuarantees.DeadIffUsedUp | src/app/infrastructure/persistence/task_queue.py:127-156 | in every run pending and running jobs have attempts left, and a job that has not succeeded is dead exactly when it has used them up |
| PublishingGuarantees.DeadJobMaySucceed | src/app/infrastructure/persistence/task_queue.py:115-125 | a concrete run after which a job has used up its attempts and has succeeded |
| PublishingGuarantees.FirstReleaseWaits | src/app/entities/publication.py:142 | whatever happens after its creation, a row's first release is not enabled before the time it was created for |
| PublishingGuarantees.NeverReleasedEarly | src/app/infrastructure/persistence/publication_repository.py:43-57 | nor is any later release, as long as the poller's clock does not run backwards |
| PublishingGuarantees.EarlyReleaseOnBackwardClock | src/app/agents/publish_channel.py:97-105 | a concrete run that releases a row early once the poller's clock has run backwards |
| PublishingGuarantees.DueNeverMovesBack | src/app/entities/publication.py:155-166 | while a row stays scheduled its due time never moves earlier |
| PublishingGuarantees.ReleasesAreSpaced | src/app/features/publishing/release_scheduled_publications.py:53-77 | two releases of one row with no dispatch between them are at least ten minutes apart |
| PublishingGuarantees.DeferralWaitsForNextWindow | src/app/agents/publish_channel.py:97-105 | a rate-limited row is due exactly at the next window's start and is not released earlier |
| PublishingGuarantees.CallsArePaced | src/app/agents/publish_channel.py:89-96 | every call has a grant of its own for its row's channel, and in any day-long interval, aligned or not, at most twice the larger of the limit and 1 of a channel's calls are let through |
| PublishingGuarantees.ClearedIffBelowLimit | src/app/agents/publish_channel.py:89-105 | in every run a worker is cleared to call exactly when its channel has fewer grants in the current window than the larger of the limit and 1, and is otherwise told when the next window starts |
| PublishingGuarantees.CitedDraftIsFrozen | src/app/features/publishing/create_publication.py:81-86 | a draft once cited stays approved with the same copy through any later steps |
| PublishingGuarantees.FreshDraftIsCitable | src/app/features/publishing/create_publication.py:71-86 | a draft generated past an automatic gate can be cited at once |
| PublishingGuarantees.StuckIffOrphaned | src/app/features/publishing/start_publication_publish.py:76-89 | a dispatching row stays so in every continuation if and only if no worker holds it |
| PublishingGuarantees.OrphanBlocksItsChannel | src/app/features/publishing/create_publication.py:91-95 | an orphaned row's channel and variant never accept another publication |
| PublishingGuarantees.CrashOrphans | src/app/agents/publish_channel.py:84-96 | a concrete run of four steps reaches such a row |
| SupersedeChain.UpdateThenAdd | migrations/versions/c9e1a3f5b7d2_add_catalog_images.py:13-45 | retiring first keeps one live row after each statement, the reference at commit, and a well-formed history |
| SupersedeChain.AddFirstRejected | migrations/versions/c9e1a3f5b7d2_add_catalog_images.py:13-45 | adding first trips the unique index if and only if the owner had a live row |
| SupersedeChain.HistoryEndsAtLiveRow | migrations/versions/c9e1a3f5b7d2_add_catalog_images.py:100-114 | from any row the chain ends at its owner's one live row |
| SupersedeChain.HistoryIsAcyclic | migrations/versions/c9e1a3f5b7d2_add_catalog_images.py:100-114 | the chain never returns to a row |
| ContentDrafts.ContentDraft.MarkSuperseded | src/app/entities/content_draft.py:140-144 | a live draft gets its successor once; a superseded one refuses |
| ContentDrafts.ContentDraft.MarkPendingApproval | src/app/entities/content_draft.py:146-155 | only a generated draft becomes pending |
| ContentDrafts.ContentDraft.Approve | src/app/entities/content_draft.py:157-167 | only a pending draft is approved, with approver and time |
| ContentDrafts.ContentDraft.Reject | src/app/entities/content_draft.py:169-176 | only a pending draft is rejected |
| ContentDrafts.NextKeepsInv | src/app/features/content/edit_content_draft.py:76-139 | any edit, regeneration, approval or rejection keeps chains well formed and commits no generated draft |
| ContentDrafts.NextGrows | src/app/entities/content_draft.py:140-176 | no draft is removed, no copy is rewritten, a decided draft stays decided |
| ContentDrafts.DraftTable.CompleteContentDraftGeneration | src/app/features/content/complete_content_draft_generation.py:80-112 | replaces the owner's live draft, and nothing else, by one that is approved by nobody exactly when approval is not required and otherwise waits for a person |
| ContentDrafts.DraftTable.EditContentDraft | src/app/features/content/edit_content_draft.py:76-139 | replaces exactly a live draft by the edited copy under the editor's name, past the same gate; refused when missing, superseded or with forbidden claims |
| ContentDrafts.DraftTable.ApproveContentDraft | src/app/features/content/approve_content_draft.py:22-46 | approves exactly a pending draft, with approver and time |
| ContentDrafts.DraftTable.RejectContentDraft | src/app/features/content/reject_content_draft.py:22-46 | rejects exactly a pending draft, with the reason |
| GenerationRows.GenerationItem.MarkRunning | src/app/entities/generation_item.py:140-149 | pending and failed items start running, no others |
| GenerationRows.GenerationItem.MarkSucceeded | src/app/entities/generation_item.py:151-159 | only a running item succeeds, with its output |
| GenerationRows.GenerationItem.MarkFailed | src/app/entities/generation_item.py:161-166 | only a running item fails, with its error code and detail |
| GenerationRows.GenerationItem.MarkDead | src/app/entities/generation_item.py:168-175 | only a failed item dies |
| GenerationRows.GenerationRequest.MarkRunning | src/app/entities/generation_request.py:95-98 | only a queued request starts running |
| GenerationRows.GenerationRequest.MarkTerminal | src/app/entities/generation_request.py:109-113 | only a running request settles, at the given time |
| GenerationRows.CatalogImage.MarkSuperseded | src/app/entities/catalog_image.py:136-140 | an image names its successor once |
| GenerationRows.CatalogImage.MarkQc | src/app/entities/catalog_image.py:142-154 | only an image waiting for QC gets a verdict, pending approval or failed, with the checks |
| GenerationRows.CatalogImage.MarkHumanReview | src/app/entities/catalog_image.py:156-167 | only a failed image goes to a person, with the reason |
| GenerationRows.CatalogImage.Approve | src/app/entities/catalog_image.py:169-178 | only an image pending approval is approved, with approver, if any, and time |
| GenerationRows.CatalogImage.Reject | src/app/entities/catalog_image.py:180-187 | only an image pending approval is rejected, with the reason |
| RollupAndLadder.Latest | src/app/services/generation_request_rollup.py:66 | an item of the list that no other's attempt number beats |
| RollupAndLadder.RollupAccountsForEverySlot | src/app/services/generation_request_rollup.py:44-78 | a verdict counts every required slot once as succeeded or failed, all-succeeded exactly when none failed and failed exactly when none succeeded |
| RollupAndLadder.RollupReadsVerdicts | src/app/services/generation_request_rollup.py:58-78 | no status exactly while a slot is open or none is required; all succeeded exactly when every slot is good, failed exactly when every slot is bad |
| RollupAndLadder.RollupCountsVerdicts | src/app/services/generation_request_rollup.py:56-78 | the counts are the numbers of good and of bad slots |
| RollupAndLadder.JudgeSlot | src/app/services/generation_request_rollup.py:58-70 | good exactly when some attempt succeeded; bad exactly when none did and there is none or the latest, first of its number, is dead |
| RollupAndLadder.RollupCongruent | src/app/services/generation_request_rollup.py:52-78 | the rollup depends on nothing but the verdicts of the required slots |
| RollupAndLadder.ComputeRollup | src/app/services/generation_request_rollup.py:44-78 | the grouping and counting loops with their early return compute that rollup |
| RollupAndLadder.FirstAlternate | src/app/services/qc_retry_ladder.py:52-58 | the first analysed template other than the current one, or none exists |
| GenerationPipeline.KeepsLadder | src/app/features/generation/complete_catalog_image_qc.py:107-193 | every step keeps the ladder: unique attempt numbers of at most 3, every started slot has a first attempt, every retry grew from an attempt whose image failed QC |
| GenerationPipeline.KeepsChains | src/app/features/generation/complete_generation_item_render.py:127-141 | every step keeps the images' supersede chains well formed |
| GenerationPipeline.LatestIsOwn | src/app/services/qc_retry_ladder.py:44 | when an image fails QC, the slot's latest attempt is that image's own item |
| GenerationGuarantees.ReachableInv | src/app/features/generation/reconcile_generation_requests_for_tenant.py:68-129 | every state that any run reaches keeps the ladder, the chains, settled statuses equal to their rollups, reservations on their own row, and balanced quotas |
| GenerationGuarantees.FirstAttemptDecides | src/app/services/generation_request_rollup.py:58-70 | a started slot's verdict is its first attempt's: good once it succeeded, bad once dead, open before |
| GenerationGuarantees.NoSlotIsEmpty | src/app/features/products/fan_out_generation_items.py:119-160 | a request past the queue has an item for every required slot |
| GenerationGuarantees.VerdictStable | src/app/entities/generation_item.py:140-175 | no step changes a slot's verdict once it is not open |
| GenerationGuarantees.QuotaConserved | src/app/features/generation/reconcile_generation_requests_for_tenant.py:101-128 | in every run and period, reserved is committed plus the slots of unsettled requests, committed is the succeeded slots of settled ones, and 0 <= committed <= reserved <= limit |
| GenerationGuarantees.SettlingNeverRaises | src/app/features/generation/reconcile_generation_requests_for_tenant.py:101-128 | a request ready to settle always finds its own reservation row and releases no more than is reserved |
| GenerationGuarantees.VerdictsAreFinal | src/app/services/generation_request_rollup.py:44-78 | once a rollup has a status, no run changes it |
| GenerationGuarantees.SettledStatusIsRollup | src/app/features/generation/reconcile_generation_requests_for_tenant.py:86-99 | a settled request's status is the rollup of its items then and ever after |
| GenerationGuarantees.SettledMeans | src/app/services/generation_request_rollup.py:58-78 | in every run a settled request is all succeeded exactly when each required slot's first attempt succeeded, all failed exactly when each died, and no slot is under way |
| GenerationGuarantees.AttemptsAreOneToN | src/app/services/qc_retry_ladder.py:38-63 | a slot's attempts are numbered 1..n without gap or repeat, n <= 3, and all but the last rendered an image that failed QC |
| GenerationGuarantees.LineageOfRetries | src/app/features/generation/complete_catalog_image_qc.py:142-186 | attempts share inputs, provider and model; the second keeps template and prompt, the third changes the template |
| GenerationGuarantees.LadderEnds | src/app/services/qc_retry_ladder.py:46-63 | there is no next rung exactly at attempt 3, or at attempt 2 without another analysed template |
| GenerationGuarantees.FailedQcMovesOn | src/app/features/generation/complete_catalog_image_qc.py:107-131 | a failed image goes to a person exactly when the ladder is used up and has its retry queued exactly when it is not |
| GenerationGuarantees.FailedQcRecords | src/app/features/generation/complete_catalog_image_qc.py:107-129 | a failing verdict records its checks, tells a person why when the ladder is used up, and changes no other image and no older item |
| GenerationGuarantees.RetryIsQueued | src/app/features/generation/complete_catalog_image_qc.py:142-186 | in every run the queued retry is a pending attempt one higher of the same slot, provider, model and inputs: the second with the same template and prompt, the third with the first other analysed template and the recomposed prompt |
| GenerationGuarantees.PassedQcMovesOn | src/app/features/generation/complete_catalog_image_qc.py:80-105 | in every run a passing image is approved at once, by nobody, exactly when approval is not required, and otherwise waits for a person; its checks are recorded and nothing else changes |
| GenerationGuarantees.ReviewsFit | src/app/entities/catalog_image.py:142-187 | in every run checks, approver, approval time and reason are on record exactly in the statuses they belong to |
| GenerationGuarantees.ImageHistoryEndsLive | src/app/features/generation/complete_generation_item_render.py:127-141 | in every run each image's chain leads, without a cycle, to the one live image of its variant and slot |
| GenerationUseCases.Tables.EnsurePeriod | src/app/infrastructure/persistence/quota_reservation_repository.py:39-64 | creates the period's row once |
| GenerationUseCases.Tables.Reserve | src/app/infrastructure/persistence/quota_reservation_repository.py:66-83 | reserves exactly when the row exists with room for the quantity |
| GenerationUseCases.Tables.CreateGenerationRequest | src/app/features/products/create_generation_request.py:78-117 | one CreateRequest step; refused exactly without required slots or without room; otherwise the slots are reserved and the request is queued on that reservation |
| GenerationUseCases.TakenIffRepeats | src/app/features/products/fan_out_generation_items.py:119-150 | the unique attempt constraint refuses a slot exactly when the spec lists it twice |
| GenerationUseCases.Tables.FanOutGenerationItems | src/app/features/products/fan_out_generation_items.py:87-173 | a pending first attempt per required slot, with that slot's template, prompt and inputs, or nothing at all; refused exactly for a request that is not queued, a slot that cannot be planned or a slot listed twice |
| GenerationUseCases.Tables.StartGenerationItemRender | src/app/features/generation/start_generation_item_render.py:54-92 | one StartRender step, or refused with nothing changed; refused exactly for a missing item, a missing reference image or a status that may not start |
| GenerationUseCases.Tables.FailGenerationItemRender | src/app/features/generation/fail_generation_item_render.py:25-61 | one FailRender step: the error is recorded and the item follows its job into dead |
| GenerationUseCases.IndexHoldsThroughout | src/app/features/generation/complete_generation_item_render.py:127-141 | the unique index holds between and after the two statements that replace a live image |
| GenerationUseCases.Tables.SupersedeThenCreate | src/app/features/generation/complete_generation_item_render.py:127-141 | retires the slot's live image, if any, and adds the new one under the index |
| GenerationUseCases.Tables.CompleteGenerationItemRender | src/app/features/generation/complete_generation_item_render.py:75-163 | refused exactly when the item is not running or the image exists; otherwise the item succeeds with its output, the slot's live image points at the new one, and nothing else changes |
| GenerationUseCases.Tables.CompleteCatalogImageQc | src/app/features/generation/complete_catalog_image_qc.py:66-193 | one RecordQc step: verdict with its checks; passing, approved by nobody exactly when approval is automatic; failing, retry or human review with its reason |
| GenerationUseCases.Tables.QueueRetry | src/app/features/generation/complete_catalog_image_qc.py:133-193 | adds the retry of the failed attempt, refused exactly when a new prompt is needed and cannot be composed |
| GenerationUseCases.Tables.ApproveCatalogImage | src/app/features/generation/approve_catalog_image.py:21-45 | approves exactly an image pending approval, with approver and time |
| GenerationUseCases.Tables.RejectCatalogImage | src/app/features/generation/reject_catalog_image.py:21-50 | rejects exactly an image pending approval, with the reason |
| GenerationUseCases.Tables.SettleOne | src/app/features/generation/reconcile_generation_requests_for_tenant.py:86-128 | settles exactly a ready request, as its rollup says and at that moment, and splits its reservation into committed and released; refused exactly when the reservation row is not the one charged |
| GenerationUseCases.Tables.ReconcileGenerationRequests | src/app/features/generation/reconcile_generation_requests_for_tenant.py:68-129 | the sweep takes the oldest unlocked running requests up to the limit, settles exactly the ready ones and counts them; it fails as a whole only if some request is not charged to its row, which no reachable state shows |
| CategoryTree.PathSpellsChain | src/app/entities/category.py:83-87 | splitting the cached path gives exactly the root-to-leaf parent chain |
| CategoryTree.LikeIsPrefix | src/app/infrastructure/persistence/category_repository.py:64-67 | LIKE with a literal prefix and a trailing percent is a prefix test |
| CategoryTree.SubtreeQueryIsExact | src/app/infrastructure/persistence/category_repository.py:56-71 | the subtree query returns exactly the row and its descendants |
| CategoryTree.CreateKeepsWF | src/app/entities/category.py:46-81 | a created category is placed under its parent and the tree stays well formed |
| CategoryTree.CreatePlaces | src/app/entities/category.py:46-81 | the created row has the given parent, key and slug, its chain is the parent's chain and itself, and no other row changes |
| CategoryTree.CreateRefusals | src/app/features/taxonomy/create_category.py:38-55 | refused, in this order, for a missing parent, and for a taken id, sibling key or slug |
| CategoryTree.MoveKeepsWF | src/app/services/category_hierarchy.py:43-61 | a move keeps every path and depth in agreement with the parent pointers |
| CategoryTree.MoveRefusedIff | src/app/services/category_hierarchy.py:36-41 | a move is refused exactly for a missing row, a target at or below the moved category, or a target that already has another child of its key |
| CategoryTree.MoveRefusals | src/app/features/taxonomy/move_category.py:32-47 | which error a refused move raises: missing row first, then a target inside the subtree, then the key |
| CategoryTree.CreateKeepsUnique | migrations/versions/38c1dad678bc_add_categories.py:72-96 | an accepted creation keeps slugs unique, and keys unique among siblings and among roots |
| CategoryTree.MoveKeepsUnique | migrations/versions/38c1dad678bc_add_categories.py:83-96 | so does an accepted move, though the index looks at the moved row only |
| CategoryTree.EveryReachableTreeIsUnique | migrations/versions/38c1dad678bc_add_categories.py:72-96 | after any sequence of creations and moves |
| CategoryTree.MoveTouchesOnlySubtree | src/app/services/category_hierarchy.py:49-61 | rows outside the subtree keep every field and their ancestors |
| CategoryTree.MoveSplicesChains | src/app/services/category_hierarchy.py:43-61 | inside the subtree the ancestors above the moved row become the new parent's |
| CategoryTree.MoveBackRestores | src/app/features/taxonomy/move_category.py:32-47 | the place a category leaves stays free of its key, so moving back to the old parent is allowed and restores the whole tree |
| CategoryTree.EveryReachableTreeIsWF | src/app/features/taxonomy/move_category.py:32-47 | any sequence of creations and moves gives a well-formed tree |
| CategoryTree.CacheAgreesWithPointers | src/app/entities/category.py:83-87 | in every reachable tree the path is the chain and the subtree query is exact |
| CategoryMoves.Category.Create | src/app/entities/category.py:46-81 | path and depth come from the parent |
| CategoryMoves.Category.MoveTo | src/app/services/category_hierarchy.py:49-60 | one row is rebased in place: new prefix, kept suffix, shifted depth |
| CategoryMoves.ReparentSubtree | src/app/services/category_hierarchy.py:25-61 | rewrites every row of the list in place though the category is one of them; refused exactly for a target in the list or a row that does not belong |
| CategoryMoves.CategoryTable.CreateCategory | src/app/features/taxonomy/create_category.py:38-55 | adds the placed row or changes nothing; refused exactly for a missing parent, a taken id, a sibling of the same key or a taken slug |
| CategoryMoves.CategoryTable.ListSubtree | src/app/infrastructure/persistence/category_repository.py:56-71 | lists each matching row once and nothing else |
| CategoryMoves.CategoryTable.FlushMove | migrations/versions/38c1dad678bc_add_categories.py:83-96 | the index on sibling keys speaks up when the rewritten rows are flushed, exactly when the target has another child of the key, and then every row is as loaded |
| CategoryMoves.CategoryTable.MoveCategory | src/app/features/taxonomy/move_category.py:32-47 | the stored rows become the moved tree or stay as they were, refused for the reasons MoveRefusedIff names; the refusal for rows outside the subtree never occurs |
| SpecInheritance.ResolveInherited | src/app/services/spec_inheritance.py:26-38 | the nested overwriting loops answer every key as a search from the leaf upwards does |
| SpecInheritance.InheritedMeans | src/app/services/spec_inheritance.py:26-38 | a key is resolved exactly when some category of the chain has a row of it, and then to the last such row of the category nearest to the leaf |
| SpecInheritance.ViewSplits | src/app/services/spec_inheritance.py:34-38 | a view is the upper chain's view overridden by the lower one's; with one category below, the parent's view overridden by the own rows |
| SpecInheritance.InterleavingDoesNotMatter | src/app/services/spec_inheritance.py:30-38 | the result does not depend on how rows of different categories are interleaved, nor on rows outside the chain |
| SpecInheritance.ResolveSetting | src/app/services/settings_resolver.py:32-68 | a product setting is the answer if there is one, else that of the category nearest to the product, else the tenant's, else the platform's, else none; only a missing category is refused |
| SpecInheritance.MoveKeepsOutsideViews | src/app/services/category_hierarchy.py:43-61 | a move changes no inherited row and no setting outside the moved subtree |
| SpecInheritance.MoveRebasesInsideViews | src/app/services/category_hierarchy.py:43-61 | inside it a category sees the new parent's view overridden by what moved along |
| SpecChanges.BuildDict | src/app/services/spec_change_classification.py:73-78 | the last row of an id counts, each id listed once |
| SpecChanges.ClassifySection | src/app/services/spec_change_classification.py:66-107 | for one kind the change list is truthful, complete and free of repetition |
| SpecChanges.ClassifyChanges | src/app/services/spec_change_classification.py:52-63 | the list names every classified row that was added, retired or renamed, once, truthfully, and as required exactly for required attributes and input slots |
| SpecChanges.LastOfIdCounts | src/app/services/spec_change_classification.py:73-78 | of several rows of one id the last counts |
| SpecChanges.DiffMeans | src/app/services/spec_change_classification.py:45-107 | a diff tells nothing but the truth about the rows of the two snapshots, and every difference once |
| SpecChanges.KeyChangedMeans | src/app/features/taxonomy/publish_category_spec.py:82-88 | the refused renames are the classified rows that both snapshots hold under different keys |
| SpecChanges.DiffReplays | src/app/services/spec_change_classification.py:52-107 | replaying the changes on the previous ids and keys gives the next ones |
| SpecChanges.EmptyDiffIffSameKeys | src/app/services/spec_change_classification.py:52-107 | the list is empty exactly when the snapshots agree |
| SpecChanges.RenamedIffKeyChanged | src/app/services/spec_change_classification.py:90-99 | a rename is reported exactly when some row is in both under different keys |
| SpecSnapshotBuilder.Build | src/app/services/spec_snapshot_builder.py:52-94 | for each kind the snapshot lists exactly the rows that win their key on the ancestor chain |
| SpecSnapshotBuilder.OwnRowListedIff | src/app/services/spec_inheritance.py:34-38 | the snapshot holds an own row, with its key and whether it is required, exactly when no later own row of its kind has its key |
| SpecSnapshotBuilder.AncestorRowIsListed | src/app/services/spec_snapshot_builder.py:52-94 | a key the category does not define itself is listed as the nearest ancestor that defines it has it |
| SpecPublishing.WinnerSawLatest | src/app/features/taxonomy/publish_category_spec.py:73-77 | only a publish that read the latest version gets past the unique constraint |
| SpecPublishing.EditMeans | src/app/features/taxonomy/update_attribute_definition.py:48-57 | between publishes an edit moves one definition row, required or not as asked, and leaves the order of the others alone |
| SpecPublishing.VersionsHaveNoGaps | src/app/features/taxonomy/publish_category_spec.py:73-128 | in every run, whatever snapshots are published and stale reads included, the versions are exactly 1..current |
| SpecPublishing.PublishedIsImmutable | src/app/features/taxonomy/publish_category_spec.py:114-123 | a published version is never changed or removed |
| SpecPublishing.KeyIsConstant | src/app/features/taxonomy/publish_category_spec.py:82-88 | a classified row's key is constant over any stretch of versions that contain it |
| SpecPublishing.SummariesAreAJournal | src/app/features/taxonomy/publish_category_spec.py:82-123 | the stored summaries replayed from nothing give each version's rows and keys |
| SpecPublishing.NoVersionBeforeStamp | src/app/features/taxonomy/publish_category_spec.py:90-112 | in every run no version before a row's stamp has the row, and no version at all has an unstamped one |
| SpecPublishing.StampIsFirstVersionIff | src/app/features/taxonomy/publish_category_spec.py:90-112 | a row's introduced_in_version is the first version that contains it if and only if, when it was stamped, no later own row of its kind had its key |
| SpecPublishing.ShadowedIsStampedAnyway | src/app/features/taxonomy/publish_category_spec.py:90-112 | a row with a later own row of its kind and key is stamped with a version that does not have it |
| SpecPublishing.TwinRowsRun | migrations/versions/18c4ff8a7a48_add_attribute_definitions.py:21-27 | a concrete run: two attributes of one key, added and published, of which the first is stamped 1 and missing from version 1 |
| SpecPublishing.CategorySpec.StampKind | src/app/features/taxonomy/publish_category_spec.py:90-95 | stamps exactly the unstamped own rows of a kind |
| SpecPublishing.CategorySpec.PublishCategorySpec | src/app/features/taxonomy/publish_category_spec.py:48-141 | builds the snapshot from its own rows and its ancestors', and is one Publish step: the next version holds snapshot and changes, is current, ends the draft, and stamps the unstamped own rows; refused exactly for a missing version, a changed key or a version already taken, and then nothing changes |
| SpecDocument.FindCatalogSlot | src/app/services/spec_snapshot.py:114-124 | the first slot of the id, or there is none |
| SpecDocument.LastSlotCounts | src/app/services/prompt_rendering.py:30 | of several input slots of one id the last counts |
| PlaceholderScanner.CloseMeans | src/app/services/template_placeholder_validator.py:33 | the shortest body: up to the first closing pair, with no newline before it |
| PlaceholderScanner.TokensAreLeftmost | src/app/services/template_placeholder_validator.py:33 | the scan finds the leftmost matches of the pattern one after the other, and a plain character exactly where none starts |
| PlaceholderScanner.RenderTokenize | src/app/services/template_placeholder_validator.py:33 | scanning loses no character |
| PlaceholderScanner.RescanIsExact | src/app/services/prompt_composition.py:85-105 | with safe values, whatever the template, scanning the result finds exactly the placeholders left standing, in order |
| PlaceholderScanner.RescanExactIffSafe | src/app/services/prompt_composition.py:85-105 | every template rescans exactly if and only if no value supplied for a body a scan can find ends in an opening brace, or holds a double one that meets a closing pair, or the value's end, before a newline |
| PlaceholderScanner.UnsafeInventsHole | src/app/services/prompt_composition.py:85-105 | one unsafe value is enough: in a template of its placeholder and two or three characters a second scan finds a placeholder where none was left |
| PlaceholderScanner.FillTwice | src/app/services/prompt_composition.py:85-105 | with safe values, substituting twice is substituting once |
| PlaceholderScanner.OpenBraceLosesPlaceholder | src/app/services/prompt_composition.py:85-105 | a value that ends in an opening brace loses the placeholder after it |
| PlaceholderShape.ShapeIsThePattern | src/app/services/template_placeholder_validator.py:34 | the matcher accepts exactly blanks, key, dot, key, blanks, and reads the two keys off |
| PromptComposition.ValidateTemplatePlaceholders | src/app/services/template_placeholder_validator.py:38-80 | one truthful problem per placeholder that does not resolve, in order; none exactly when the slot exists and every placeholder names an input of the slot, an attribute or an axis of the spec |
| PromptComposition.MergeAttributes | src/app/services/prompt_composition.py:63-67 | the variant's value wins, key by key |
| PromptComposition.PromptMeans | src/app/services/prompt_composition.py:70-82 | a composed prompt is the scene, and after it, when requirements are described, a blank line and their lines whole, in prompt order, one newline apart |
| PromptComposition.SceneMeans | src/app/services/prompt_composition.py:85-105 | the scene is the template token by token: characters as they are, attributes and axes by their values, any other placeholder by its own text |
| PromptComposition.ComposeRaisesIff | src/app/services/prompt_composition.py:70-105 | composing raises exactly when a placeholder names a missing attribute or axis |
| PromptComposition.CleanTemplateComposes | src/app/services/prompt_composition.py:70-105 | a validated template composes whenever the data covers the spec's keys |
| PromptComposition.SceneRescans | src/app/services/prompt_composition.py:85-105 | with safe values the scene shows exactly the placeholders left standing, and substituting it again changes nothing |
| PromptComposition.ScenesReadIffSafe | src/app/services/prompt_composition.py:85-105 | the scenes of all templates show exactly the placeholders left standing if and only if every attribute and axis value under a well-formed key is safe |
| PromptComposition.CleanSceneShowsInputs | src/app/services/prompt_composition.py:85-105 | with safe values the scene of a validated template shows exactly its input placeholders, in order |
| RoleLines.SortIsStable | src/app/services/spec_snapshot.py:107-110 | the sort orders by position and keeps the order within a position |
| RoleLines.SortedStays | src/app/services/prompt_rendering.py:31-33 | sorting again changes nothing |
| RoleLines.RenderRoleLines | src/app/services/prompt_rendering.py:25-42 | the loop renders one line per described requirement, in prompt order |
| RoleLines.RoleLinesMean | src/app/services/prompt_rendering.py:25-42 | one line per described requirement in prompt order: its role, a colon, and the slot's description, or its name when that is missing or empty |
| RoleLines.ResolveInputImage | src/app/services/input_image_resolution.py:14-29 | the first of the variant's own images if there is one, else the first of the product's, else none exists |
| RoleLines.ResolveRequiredInputs | src/app/features/products/fan_out_generation_items.py:188-210 | refused exactly when a required input has neither an image of the variant nor one of the product, otherwise the resolved assets in order |
| RoleLines.LinesMatchImagesIff | src/app/features/products/fan_out_generation_items.py:188-210 | lines and images speak of the same requirements exactly when being described and having an image agree on every requirement |
| RoleLines.LineDescribesImage | src/app/services/prompt_rendering.py:25-42 | with every requirement resolved, line i describes image i |
| RoleLines.OptionalWithoutImageShiftsLines | src/app/features/products/fan_out_generation_items.py:202-209 | an optional input without an image puts the first line against the second requirement's image |
| Pagination.PageShowsPrefix | src/app/features/generation/list_catalog_images_for_review.py:33-45 | a page shows the first rows beyond the cursor and is the last exactly when nothing is left or the limit is not positive |
| Pagination.PageMeans | src/app/infrastructure/persistence/catalog_image_repository.py:74-94 | a page holds live images of the asked status and product beyond the cursor, by creation time and then id, none left out before its last row and none at all below the limit |
| Pagination.CursorLeadsOn | src/app/features/generation/list_catalog_images_for_review.py:32-45 | the cursor a page hands out is accepted and leads on right after its last row; a foreign one is refused |
| Pagination.WalkNeverRepeats | src/app/infrastructure/persistence/catalog_image_repository.py:86-94 | whatever changes between pages, rows come in strictly increasing order |
| Pagination.WalkReturnsSeenRows | src/app/infrastructure/persistence/catalog_image_repository.py:74-94 | every row returned matched when its page was read |
| Pagination.SteadyRowIsReturned | src/app/features/generation/list_catalog_images_for_review.py:33-45 | a row that matches throughout a finished walk is returned |
| Pagination.WalkIsCompleteIff | src/app/features/generation/list_catalog_images_for_review.py:32-45 | the walk over an unchanging table returns every matching row once, in order, exactly when the limit is positive or nothing matches; limits below -1 are refused |

## Left out

- HTTP, authentication, tenancy and row-level security, audit rows, metrics fetching, e-mail, object storage and
  image inspection: one tenant is modelled, and foreign calls are arbitrary outcomes.
- Columns that no modelled decision reads: `updated_at`, permalinks, payload texts, model parameters, seeds, costs.
- Lookups of products, variants, channels and spec versions that only raise when missing.
- The outbox relay, and the job rows of rendering and quality control: any worker may attempt any of their steps at
  any time, which allows every order a queue could produce.
- The length of the back-off, and which rows other transactions hold locked: both arbitrary.
- Which claims `validate_copy` forbids: its outcome is a parameter.
- Liveness: a vanished worker may leave a row running or dispatching for ever, and that is proved, not repaired.
- Interleavings inside one transaction, except the version a publish reads: two moves that read the tree at the same
  moment, or a definition added while a publish builds its snapshot, are taken one after the other.
- The order of dictionary entries in resolved views and of entries in a change list; messages of errors.
- Axis values and slot requirements, which the snapshot builder fetches for the rows it listed.
- Definition rows of different categories are different rows: ids are primary keys.
- Base64 and JSON of cursors: a cursor is an injective token, anything else fails to decode.
- LIKE's escape character, which no id contains.
- CategoryMoves.CategoryTable.ListSubtree: in any order, where the program lists by path; the move does not depend on it.
- GenerationUseCases.Tables.StartGenerationItemRender: starts from the item its job names; claiming the job, and failing
  it when the item is gone, is left to the queue, which the pipeline does not model.
- GenerationUseCases.Tables.ReconcileGenerationRequests: a request's position stands for its creation time.
- `str()` of attribute values: the data holds texts.
