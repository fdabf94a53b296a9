# Verification model of the media downloader bot

A Telegram bot takes a link, shows a preview card, and on a tap commits a request
row and queues a job; a worker claims the row, downloads, delivers and saves the
outcome; a reaper fails requests nobody works on any more. This project models that
system in Dafny and proves what the design relies on. `dafny verify dfyconfig.toml`
checks everything.

## How it is organised

| file | what it models |
|---|---|
| `Lifecycle.dfy`, `LifecycleInvariants.dfy`, `LifecycleTiming.dfy`, `LifecycleSafety.dfy`, `LifecycleBounds.dfy` | the request lifecycle as a concurrent, timed protocol: steps, untimed invariants, timed invariants, theorems over all runs, and the exact conditions |
| `Requests.dfy`, `ReapStaleRequests.dfy` | the table, the entity, the repository and the reaper as objects; draining a backlog |
| `ProcessDownload.dfy`, `WorkerRun.dfy` | one worker run: effects in order, on every exit; the same as a run of the lifecycle |
| `DownloadFlow.dfy`, `PreviewStore.dfy` | the bot's handlers, the request use case and the token store |
| `RateLimiter.dfy` | the sliding window with check and record as separate steps, the retry hint |
| `DownloadPipe.dfy`, `PreviewProcess.dfy`, `ProgressListener.dfy` | progress from child process to callback, the preview wait and kill, the debounced card |
| `EndToEnd.dfy` | from the button on a card to the download in the worker |
| `LocalStorage.dfy`, `SweepRace.dfy` | the tree walk and the sweep; the sweep beside running jobs |
| `DeliveryFilename.dfy`, `Utf8.dfy` | the delivered file's name and its byte budget (RFC 3629, section 3) |
| `Keyboards.dfy`, `FormatPolicy.dfy`, `DownloadSpecs.dfy`, `UrlValidation.dfy` | what a card offers, what a payload means, how a spec is stored, which hosts are admitted |

**The protocol.** A lifecycle state holds true time, the table, the token store, bot
handlers between commit and enqueue, the queue, live jobs with a program counter and a
start time, and reapers between their SELECT and their UPDATE. Every step is one
committed database call, one queue or store command, or the passing of time; a run is
any sequence of enabled steps from a deployment at rest. Every host's clock may read
up to `behind` before or `ahead` after true time. Only the claim and the reaper's UPDATE
check what they overwrite; that a terminal status is nevertheless never overwritten is
a timing invariant, and the project states the exact condition on the configuration.

**Assumptions of the protocol model.** At most one job runs for a request id at a time
(a retry starts after the earlier attempt ended). A job that arq cancels is gone within
`cancelTail` of its timeout and takes no further step of its own: it writes no row and starts
no download, and its `finally` only releases files (for when that bound itself can fail, see
the hanging call below). An
enqueue that raises leaves no job behind. Ids and tokens are fresh (uuid4). `update` is
one atomic write of status, `completed_at` and `updated_at`. Rows are never deleted while
in flight.

**Assumptions elsewhere.** `urlparse`, lower-casing, NFC and the Unicode tables enter as
parameters; the file name theorems ask of the tables only that space, tab and the line
ends are spaces, space is not dropped, and a dot is not a space. Where a stem is fed back they
also ask of NFC that every part of a normalized text is normalized and that a clean stem stays
one. Rate limiter time is
integer ticks, any number to a second; the application's and Redis's clocks may differ by
up to the TTL margin. Progress times and percentages are reals. The download pipe assumes that
a child whose thread runs did start, that a cancelled callback lets the cancel through, and
that the callback does not otherwise raise; the port asks implementations to survive a
raising callback (src/domain/interfaces/downloader.py:54-60), the drain task does not catch it.

## What the proofs found

- A finished status is absorbing, and the reaper spares every job that still runs, if and
  only if the clock skew fits the grace: `behind + ahead <= grace`. Beyond it, a FAILED
  request can start a download and turn DONE within its job's own time
  (`LifecycleBounds.AbsorptionIsExact`, `GraceIsExact`, `SkewLetsFailedTurnDone`).
- A cancelled job writes nothing, so its tail matters only for whether the reaper may fail
  a request whose job is still being torn down: it never does if and only if `behind +
  ahead + cancelTail <= grace` (`LifecycleBounds.GraceIsExact`).
- A stale notice tells the status the row had at the UPDATE if and only if `behind + ahead
  <= jobTimeout + grace` (`LifecycleBounds.ReportIsExact`).
- Status and downloads are frozen once a request is finished, but `completed_at` need not
  be: a bot handler that stalls between committing a row and marking it failed overwrites
  the row after the reaper did. It never does if and only if `enqueueWindow + behind +
  ahead <= jobTimeout + grace` (`LifecycleBounds.EnqueueWindowIsExact`). The whole row is
  frozen over every run exactly when the skew fits the grace and no such overwrite can
  carry another instant (`LifecycleBounds.FreezeIsExact`). Such a row is FAILED either way.
- The limiter's note puts the worst case of its race at one extra event
  (redis_rate_limiter.py:8-14). With n calls in flight it is n - 1, and that many are
  reached (`RateLimiter.BoundIsReached`).
- After such a race the retry hint can be too short. A denied caller who waits exactly that
  long is allowed if and only if fewer than the limit of the events the denial counted are
  newer than that instant less the window (`RateLimiter.HintIsExact`); so a denial that
  found exactly the limit is always honoured. Every denial of every run is honoured if and
  only if calls on a key never overlap or the window is no longer than the shortest hint,
  about a second (`RateLimiter.HintsAreHonouredExactly`).
- Feeding a delivered stem back gives that stem again if and only if NFC leaves it alone
  (`DeliveryFilenames.StableExactlyWhenNormal`). It need not: NFC runs before invisible
  characters are dropped, so a title hiding a zero-width space inside a composable pair
  comes out as an uncomposed stem (`DeliveryFilenames.NotIdempotentWithoutNfc`).
- `download` promises that its progress is drained before it returns or raises. It is, unless
  the job is cancelled a moment too late: a cancel that lands in the final `await drain_task`
  is passed on to the drain task. The step that ends `download` leaves everything delivered if
  and only if it is not a cancel with something still undelivered
  (`DownloadPipe.ReturnIsCompleteExactly`, with a run in `CancelInFinalAwaitLosesItems`).
- A call cancelled before an executor thread picked it up never gets a stop marker, so
  `download` then waits until it is cancelled a second time
  (`DownloadPipe.UnstartedCallHangs`).
- The sweep reads its clock, walks and removes at three different moments. A live job's
  directory is safe from the walk that finds a node written since the job's start; a retry over
  an old directory that has not written yet can lose what it writes after the walk
  (`SweepRaces.OnlyLaterWorkIsLost`, `RetryCanLoseItsWork`).
- A run that claims nothing delivers nothing, but it does send one text exactly when the row
  was unreadable, could be marked, and its user can be told
  (`ProcessDownload.UnclaimedTextIsExact`).

## Model

| member | source | states |
|---|---|---|
| LifecycleSafety.ReaperSparesLiveJobs | src/infrastructure/queue/worker_settings.py:63-73 | In every reachable state of every interleaving, a reaper's UPDATE leaves the row of a claim whose job still runs untouched and out of its result if the skew fits the grace, and that of a claim whose job is being cancelled if the tail fits as well. |
| LifecycleSafety.TerminalStatusIsAbsorbing | src/infrastructure/database/repositories/download_request_repository.py:186-222 | If the skew fits the grace: between any two moments of any run, a readable DONE or FAILED request keeps its status and starts no download, although two of the writes are unconditional; its whole row is frozen unless a handler's late mark can show. |
| LifecycleSafety.FinishedRequestsStayFinished | src/application/use_cases/process_download.py:238-263 | The same from any state meeting the invariants, by induction over the steps. |
| LifecycleSafety.AtMostOneStaleNotice | src/application/use_cases/reap_stale_requests.py:59-73 | With any number of reapers between SELECT and UPDATE and no row locks, each request is in at most one result, once, and two notices never concern the same request; no clock assumption. |
| LifecycleSafety.DoneMeansSent | src/application/use_cases/process_download.py:344-366 | Over every run, crashes and retries included, a request that became DONE had its file sent by some job. |
| LifecycleSafety.ResultIsWhatMoved | src/infrastructure/database/repositories/download_request_repository.py:232-274 | If the skew fits the stale time: a reaper's result is exactly the rows its UPDATE changed, each described by its user and its status at that moment, not at the SELECT. |
| LifecycleSafety.TokensYieldOneRequest | src/presentation/telegram/handlers/download_flow.py:282-434 | In any interleaving of taps a token begins at most one request, a request has at most one job, every queued job's row is committed, and a request whose enqueue failed is FAILED without a job. |
| LifecycleSafety.TokenIsClaimedOnce | src/presentation/telegram/handlers/download_flow.py:360-369 | After a confirm claimed a live token, every later confirm of it, at any later point of any run, changes nothing. |
| LifecycleSafety.SilentRowsBecomeStale | src/application/use_cases/reap_stale_requests.py:59-63 | No crash point strands a request: an active row nobody wrote for the stale time plus the clocks' spread is eligible for every reaper that looks; by then no running job holds it if the skew fits the grace, and no cancelled one if the tail does too. |
| LifecycleBounds.GraceIsExact | src/config/settings.py:144-148 | No reachable UPDATE fails the claim of a running job if and only if the skew fits the grace, and none fails that of a job still present, its tail included, if and only if skew plus tail fit. |
| LifecycleBounds.ReportIsExact | src/infrastructure/database/repositories/download_request_repository.py:252-274 | A result never names another status than the row's own at the UPDATE if and only if the skew fits the stale time. |
| LifecycleBounds.FreezeIsExact | src/infrastructure/database/repositories/download_request_repository.py:186-210 | A finished row is frozen whole over every run if and only if the skew fits the grace and no handler's late mark can carry another instant. |
| LifecycleBounds.AbsorptionIsExact | src/infrastructure/queue/worker_settings.py:102-104 | Finished status is absorbing over every run if and only if the skew fits the grace; the cancel tail plays no part. |
| LifecycleBounds.SkewLetsFailedTurnDone | src/infrastructure/database/repositories/download_request_repository.py:186-193 | For every configuration whose skew exceeds the grace, a run on which a FAILED request starts a download and becomes DONE before its job's timeout. |
| LifecycleBounds.EnqueueWindowIsExact | src/application/use_cases/request_download.py:103-113 | For every configuration: no handler overwrites an already finished row if and only if it marks its row failed before the row can go stale. |
| LifecycleBounds.LateHandlerRewrites | src/infrastructure/database/repositories/download_request_repository.py:195-210 | Whenever the late mark can show, a run on which it changes the `completed_at` of a row the reaper failed. |
| LifecycleBounds.DeployedConfiguration | src/infrastructure/queue/worker_settings.py:63-73 | With the shipped constants running jobs are safe exactly when the skew stays within 300 seconds, cancelled ones exactly when skew plus tail do. |
| LifecycleInvariants.StepKeepsBase | src/application/use_cases/request_download.py:95-113 | Every step keeps: one job per request over a committed row, recovery only on unreadable rows, DONE settled only after a send, handler-owned rows without jobs, tokens in one place, results disjoint, notices unique. |
| LifecycleInvariants.LeadsKeepsBase | src/application/use_cases/reap_stale_requests.py:59-73 | The same over every run. |
| LifecycleTiming.StepKeepsTimed | src/infrastructure/queue/worker_settings.py:63-73 | For every configuration, every step keeps: a protected claim's row is PROCESSING and stamped since its job started, a waiting handler's row carries its commit's stamp or was stale when it was failed, cutoffs and stamps are never ahead of the clocks. |
| LifecycleTiming.BotKeepsClaims | src/infrastructure/database/repositories/download_request_repository.py:195-210 | No bot step, the unconditional `mark_failed_by_id` included, disturbs the row of a protected claim. |
| LifecycleTiming.WorkerKeepsClaims | src/infrastructure/database/repositories/download_request_repository.py:186-222 | No job's write disturbs the row of another protected claim. |
| LifecycleTiming.SelectionsSurviveWrites | src/infrastructure/database/repositories/download_request_repository.py:232-265 | If the skew fits the stale time, any write between a reaper's SELECT and UPDATE takes the row out of that UPDATE's reach. |
| Requests.DownloadRequestRepository.GetById | src/infrastructure/database/repositories/download_request_repository.py:167-169 | Returns or raises what the lookup specifies, changing nothing. |
| Requests.LookupIsExact | src/infrastructure/database/repositories/download_request_repository.py:107-155 | A read raises exactly on an unreadable column, status before spec, keeping both ids; any entity it returns is stored as exactly that row's columns. |
| Requests.DownloadRequestRepository.Create | src/infrastructure/database/repositories/download_request_repository.py:171-184 | Inserts the row and changes nothing else. |
| Requests.DownloadRequestRepository.Update | src/infrastructure/database/repositories/download_request_repository.py:186-193 | Unconditional: writes status, completion and a fresh stamp whatever the row held; raises if it is gone. SaveIsReadBack says what a later read makes of it. |
| Requests.DownloadRequestRepository.MarkFailedById | src/infrastructure/database/repositories/download_request_repository.py:195-210 | Unconditional; a no-op on a missing row. |
| Requests.DownloadRequestRepository.ClaimForProcessing | src/infrastructure/database/repositories/download_request_repository.py:212-222 | True exactly when the row was still active, and only then moves it to PROCESSING with a fresh stamp. |
| Requests.SaveIsReadBack | src/infrastructure/database/repositories/download_request_repository.py:186-193 | A saved entity is read back as saved, completion included; its row carries the write's stamp and no other row changes. |
| Requests.MarkIsReadBack | src/infrastructure/database/repositories/download_request_repository.py:195-210 | An id marked failed reads back FAILED, completed and stamped at that instant, if its spec can be read; a missing id changes nothing. |
| Requests.ClaimIsExact | src/infrastructure/database/repositories/download_request_repository.py:212-222 | A row can be claimed if and only if it is stored as pending or processing; then status and stamp change and nothing else in the table. |
| Requests.DownloadRequestRepository.Oldest | src/infrastructure/database/repositories/download_request_repository.py:232-247 | Picks a row of least `updated_at`. |
| Requests.DownloadRequestRepository.SelectStale | src/infrastructure/database/repositories/download_request_repository.py:232-250 | The stale rows, oldest first, without repeats, as many as the limit allows, none left out older than one taken. |
| Requests.DownloadRequestRepository.UpdateStale | src/infrastructure/database/repositories/download_request_repository.py:252-274 | Fails exactly the candidates still stale at the UPDATE and returns exactly those, in candidate order. |
| Requests.DownloadRequestRepository.FailStale | src/infrastructure/database/repositories/download_request_repository.py:224-274 | Uninterrupted: the returned batch is the legal selection, and precisely its rows are FAILED afterwards. |
| Requests.MovedAreTheStale | src/infrastructure/database/repositories/download_request_repository.py:266-274 | A candidate is in the result if and only if its row was still stale at the UPDATE. |
| Requests.MovedIsDistinct | src/infrastructure/database/repositories/download_request_repository.py:266-274 | A result never repeats a request. |
| Requests.AllMove | src/infrastructure/database/repositories/download_request_repository.py:252-265 | If nothing happened in between, every candidate moves. |
| Requests.DownloadRequest.MarkProcessing | src/domain/entities/download_request.py:60-61 | Changes only the status. |
| Requests.DownloadRequest.MarkDone | src/domain/entities/download_request.py:63-65 | Changes only status and completion. |
| Requests.DownloadRequest.MarkFailed | src/domain/entities/download_request.py:67-69 | Changes only status and completion. |
| ReapStaleRequests.ReapStaleRequestsUseCase.NotifyAll | src/application/use_cases/reap_stale_requests.py:64-90 | One attempt for each row, in order, whatever becomes of the others; exactly the reachable ones get a message. |
| ReapStaleRequests.ReachedExactly | src/application/use_cases/reap_stale_requests.py:64-90 | A row counts as notified exactly when it was in the batch and reached, as often as it was there. |
| ReapStaleRequests.ReachedInOrder | src/application/use_cases/reap_stale_requests.py:64-90 | Notifying a batch in two parts reaches the same rows in the same order. |
| ReapStaleRequests.ReapStaleRequestsUseCase.Execute | src/application/use_cases/reap_stale_requests.py:59-73 | One tick commits one legal batch, then notifies exactly the rows it moved. |
| ReapStaleRequests.TicksDrain | src/application/use_cases/reap_stale_requests.py:59-73 | Any number of ticks over a backlog: the concatenated results are sorted by `updated_at` without repeats, the taken rows are FAILED, and the others wait untouched and no older than a taken one. |
| ReapStaleRequests.TicksTake | src/infrastructure/queue/jobs.py:39-42 | n ticks take n full batches, or everything. |
| ReapStaleRequests.BacklogIsDrained | src/infrastructure/queue/jobs.py:39-42 | ceil(k / limit) ticks fail all k stale rows, and their results are exactly those rows, if no new row goes stale. |
| ProcessDownload.ProcessDownloadUseCase.Execute | src/application/use_cases/process_download.py:222-250 | For every behaviour of the ports and any writes by others, before, between and after: the run's effects and exit are the specified ones for what the read found and for the row in the table the claim was made on, which is the run's first write; a saved outcome is exactly what the run's last write wrote. OutcomeIsExact says what the specified effects are. |
| ProcessDownload.ProcessDownloadUseCase.Process | src/application/use_cases/process_download.py:269-370 | The claimed part: disk check, download, upload, send, save, on every exit, as OutcomeIsExact and DownloadIsExact spell out. |
| ProcessDownload.ProcessDownloadUseCase.Deliver | src/application/use_cases/process_download.py:340-370 | Upload card, send, save, final card, in that order, up to where an exception stops it. |
| ProcessDownload.ProcessDownloadUseCase.Fail | src/application/use_cases/process_download.py:252-267 | Save, card, text, in that order, up to where an exception stops it. |
| ProcessDownload.ProcessDownloadUseCase.ReportCorruptedRecord | src/application/use_cases/process_download.py:187-220 | Marks the unreadable row failed before anything is sent. |
| ProcessDownload.OutcomeIsExact | src/application/use_cases/process_download.py:238-370 | Which outcome follows which behaviour of the ports: the file is sent exactly if space suffices, the directory can be made, the download returns and the send does; DONE is saved exactly then, FAILED exactly for a low disk, a categorized download error or a notifier error, each only if the update works; which cards and texts follow, and when the run returns; anything else escapes. |
| ProcessDownload.DownloadIsExact | src/application/use_cases/process_download.py:269-322 | The download starts if and only if space and directory allow, right after the claim, on the stored link and spec, and its snapshots become cards in order. |
| ProcessDownload.OtherwiseIsExact | src/application/use_cases/process_download.py:187-244 | The same for a row that cannot be read, and nothing at all for one that is missing, has no reachable user or may not be claimed. |
| ProcessDownload.CardMovesForward | src/application/use_cases/process_download.py:340-370 | In every claimed run, whole, cancelled or crashed, the card shows progress, then FAILED, or UPLOADING and then DONE or FAILED, and never goes back; a run that returns ends it in a final phase. |
| ProcessDownload.OutcomeIsOrdered | src/application/use_cases/process_download.py:247-267 | In every claimed run, whole, cancelled or crashed: a final card directly follows its save; DONE is saved only after the file was sent and FAILED only if it never was; at most one save; the stored link and spec are what is downloaded; the release is last, at most once, and never missing past the claim unless the worker crashed. |
| ProcessDownload.UnclaimedRunLeavesNoTrace | src/application/use_cases/process_download.py:222-244 | A run that claims nothing touches no storage and delivers nothing; without an unreadable row it has no effect at all. |
| ProcessDownload.UnclaimedTextIsExact | src/application/use_cases/process_download.py:187-220 | An unclaimed run that nothing cuts short sends a text if and only if the row was unreadable, could be marked, and its user can be told. |
| WorkerRuns.RunFollowsTheLifecycle | src/application/use_cases/process_download.py:222-250 | Every run, whole, cancelled or crashed anywhere, moves the lifecycle's program counter only where it may go. |
| WorkerRuns.OwnStepIsEnabled | src/application/use_cases/process_download.py:238-267 | Wherever the program counter allows it, each step of a run, marking and saving apart, is an enabled lifecycle step by the run's own clock reading and leaves exactly what it writes, starts and sends. |
| WorkerRuns.EffectWrites | src/application/use_cases/process_download.py:238-267 | The steps an effect stands for write exactly the table the effect wrote. |
| WorkerRuns.SavesAreMarked | src/domain/entities/download_request.py:60-69 | Every save of a run carries the instant its entity was marked. |
| WorkerRuns.RunIsALifecycleRun | src/application/use_cases/process_download.py:222-370 | Every run of the worker is part of a run of the lifecycle with any steps of everyone else before and between its own: it loads the request when its turn comes and acts on the tables the others leave. |
| DownloadFlow.RequestDownloadUseCase.Execute | src/application/use_cases/request_download.py:73-115 | A refusal persists nothing; otherwise the row is committed before the job is queued, and a failed enqueue leaves its row FAILED and no job. |
| DownloadFlow.TaskQueue.EnqueueDownload | src/application/use_cases/request_download.py:103-105 | Callable only for a committed row; appends the job or changes nothing. |
| DownloadFlow.DownloadFlowHandlers.ConfirmDownload | src/presentation/telegram/handlers/download_flow.py:344-448 | The token is spent whatever follows; a stale tap burns no rate-limit slot and a denied one names the limiter's own wait; rows and jobs change only for an accepted tap, by exactly one row and at most one job, from the stored link and the stored source. |
| DownloadFlow.DownloadFlowHandlers.OpenQualityPicker | src/presentation/telegram/handlers/download_flow.py:282-319 | Consumes nothing; the markup comes from the policy over the stored context. |
| DownloadFlow.DownloadFlowHandlers.BackToFormat | src/presentation/telegram/handlers/download_flow.py:322-341 | Consumes nothing; step one of the same token. |
| DownloadFlow.DownloadFlowHandlers.CancelDownload | src/presentation/telegram/handlers/download_flow.py:451-463 | Removes exactly the tapped token. |
| DownloadFlow.DownloadFlowHandlers.ShowPreview | src/presentation/telegram/handlers/download_flow.py:131-188 | A bad link burns no slot, a message without a sender is not counted, a denied one saves no token and names the limiter's own wait, and a shown card belongs to the saved context. |
| DownloadFlow.AcceptedIsAllowedAndKept | src/presentation/telegram/handlers/download_flow.py:396-406 | Whatever payload is tapped, forged ones included: an accepted download is allowed for the stored source and its row reads back as exactly that link and spec. |
| DownloadFlow.AcceptedExactly | src/presentation/telegram/handlers/download_flow.py:358-422 | A tap is accepted if and only if its token was live, the card accessible, the limiter admitting, the stored link valid and the spec allowed for the stored source; stale and limited likewise. |
| DownloadFlow.RefusedExactly | src/presentation/telegram/handlers/download_flow.py:396-434 | Past the limiter a tap is refused for a bad link first, then for the format, and each refusal has its own reply. |
| DownloadFlow.SlotsAreSeparate | src/presentation/telegram/handlers/download_flow.py:152-155 | No two users share a slot of the limiter, and previews and downloads are counted apart. |
| DownloadFlow.UsersAreKept | src/application/use_cases/request_download.py:87-93 | A known Telegram id keeps its user, a new one gets the fresh one, and nobody else's changes. |
| DownloadFlow.ShownButtonIsAccepted | src/presentation/telegram/handlers/download_flow.py:358-406 | A button the card shows is accepted as the very spec it shows, unless the stored link is no longer valid. |
| EndToEnd.ButtonDecidesDownload | src/application/use_cases/process_download.py:298-322 | What the button said is what is downloaded: a tap on any shown button is accepted as its spec, and after any further run of the whole system, any worker run on that row downloads only the stored link as exactly that spec. |
| EndToEnd.RunKeepsAsk | src/infrastructure/database/repositories/download_request_repository.py:186-274 | No step of any run changes the user, link or spec of an existing row. |
| EndToEnd.CreatedIsFound | src/infrastructure/database/repositories/download_request_repository.py:140-184 | A created entity is read back as itself. |
| EndToEnd.PublishedPhaseIsShown | src/presentation/telegram/progress_listener.py:56-72 | The phase the worker publishes is the one the listener shows, and it ends the card exactly if it was the worker's last. |
| DownloadFlow.DownloadFlowHandlers.Request | src/presentation/telegram/handlers/download_flow.py:396-434 | Turns each outcome of the use case into its reply, with rows, jobs and users as the use case leaves them. |
| DownloadFlow.ConfirmIsBotSteps | src/presentation/telegram/handlers/download_flow.py:344-434 | An accepted confirm is the lifecycle's own sequence of bot steps and ends in the state its contract promises. |
| PreviewStores.RedisPreviewContextStore.Save | src/infrastructure/preview_context/redis_preview_context_store.py:74-77 | Writes one entry that expires after the time to live. |
| PreviewStores.RedisPreviewContextStore.Get | src/infrastructure/preview_context/redis_preview_context_store.py:79-80 | Nothing for a missing, expired or undecodable entry. |
| PreviewStores.RedisPreviewContextStore.Delete | src/infrastructure/preview_context/redis_preview_context_store.py:82-83 | Removes exactly one entry. |
| PreviewStores.RedisPreviewContextStore.Pop | src/infrastructure/preview_context/redis_preview_context_store.py:85-87 | Answers what a read would have and removes the entry in the same step. |
| PreviewStores.ReadAnswersLastSave | src/infrastructure/preview_context/redis_preview_context_store.py:74-87 | After any history of calls, a read answers c if and only if the last save of the token stored c, has not expired, and nothing claimed or deleted it since. |
| PreviewStores.ClaimedTokenStaysDead | src/infrastructure/preview_context/redis_preview_context_store.py:85-87 | After a claim or delete the token answers nothing until saved again, so of all claims at most one wins. |
| RateLimiter.RedisRateLimiter.Acquire | src/infrastructure/rate_limit/redis_rate_limiter.py:36-69 | One call: prune, decide by the count, record or deny with the wait of an oldest event; a denial records nothing and other keys are untouched. AcquireIsSteps and CallsAreLimited carry the bound to it. |
| RateLimiter.RedisRateLimiter.OldestScore | src/infrastructure/rate_limit/redis_rate_limiter.py:50-52 | A least score of the set, or nothing for an empty one. |
| RateLimiter.AcquireIsSteps | src/infrastructure/rate_limit/redis_rate_limiter.py:36-69 | What an acquire leaves is what the protocol's check leaves, followed by its record if and only if the check passed. |
| RateLimiter.CallsAreARun | src/infrastructure/rate_limit/redis_rate_limiter.py:36-69 | Any sequence of calls on a key is a run of the protocol without overlap. |
| RateLimiter.CallsAreLimited | src/infrastructure/rate_limit/redis_rate_limiter.py:36-69 | However often the limiter is called in turn: no window holds more than the limit of allowed calls, and a call is refused if and only if the window ending with it already holds the limit. |
| RateLimiter.WindowBound | src/infrastructure/rate_limit/redis_rate_limiter.py:8-69 | With at most n calls in flight, every window of every run holds at most limit + n - 1 allowed events, and the stored set with its expiry holds each event still in the window. |
| RateLimiter.BoundIsReached | src/infrastructure/rate_limit/redis_rate_limiter.py:8-14 | For every limit and n a run that reaches that number. |
| RateLimiter.SequentialDenialIsExact | src/infrastructure/rate_limit/redis_rate_limiter.py:49-58 | Without overlap a denial finds exactly the limit in the window. |
| RateLimiter.HintIsHonest | src/infrastructure/rate_limit/redis_rate_limiter.py:49-58 | Without overlap, an acquire passes exactly from oldest + window on, the hint reaches that instant and overshoots it by at most a second. |
| RateLimiter.LaterCheckIsExact | src/infrastructure/rate_limit/redis_rate_limiter.py:44-49 | After any check of any run, with no other call on the key, a later check passes if and only if fewer than the limit of the remaining events are still in its window; the expiry has dropped none of them. |
| RateLimiter.HintIsExact | src/infrastructure/rate_limit/redis_rate_limiter.py:49-58 | For every denial, overlap or not: the hinted call passes if and only if fewer than the limit of the counted events are newer than the hinted instant less the window; a denial that found exactly the limit is always honoured. |
| RateLimiter.HintsAreHonouredExactly | src/infrastructure/rate_limit/redis_rate_limiter.py:8-58 | Every denial of every run is honoured if and only if calls do not overlap or the window is no longer than the shortest hint. |
| RateLimiter.HintFailsAfterOverlap | src/infrastructure/rate_limit/redis_rate_limiter.py:49-58 | For every limit, every n from 2 on and every longer window: a reachable state whose denied caller waits out the hint alone and is denied again. |
| RateLimiter.ShownWaitCoversHint | src/presentation/telegram/formatting.py:79-86 | The shown wait is never less than the hint and less than a minute more; below a minute it is the hint in seconds. |
| DownloadPipe.WaitAndDrain | src/infrastructure/downloader/ytdlp_downloader.py:791-828 | On every schedule of the child: sinks exactly the items taken, in order, none skipped; the wait is made of looks at the queue, so a timeout has looked throughout, and no look comes back empty while an item waits; ends at most one join after the deadline; a timeout is never early and told the child to stop. |
| DownloadPipe.RunDownload | src/infrastructure/downloader/ytdlp_downloader.py:989-1010 | The stop marker is sunk once, after every item, on every outcome; the outcome is a timeout exactly when the child was told to stop, never before the deadline, and otherwise what a child that exited by itself left; the progress queue was looked at throughout. |
| DownloadPipe.DrainBridge | src/infrastructure/downloader/ytdlp_downloader.py:1017-1044 | Gives the callback exactly the items before the stop marker, in order. |
| DownloadPipe.CallbackGetsExactlyWhatWasSunk | src/infrastructure/downloader/ytdlp_downloader.py:1110-1173 | However threads and event loop interleave and whenever cancels land: the callback has had a prefix, in order, of what the thread sank, and that is a prefix of what the child queued, with nothing lost in between; once `download` is over everything was delivered, unless the drain task itself was cancelled, and an outcome of the thread always comes with full delivery. |
| DownloadPipe.ReturnIsCompleteExactly | src/infrastructure/downloader/ytdlp_downloader.py:1165-1173 | The step that ends `download` leaves everything delivered if and only if it is not a cancel with an item in flight or a thread that may still sink. |
| DownloadPipe.CancelInFinalAwaitLosesItems | src/infrastructure/downloader/ytdlp_downloader.py:1165-1173 | For any items and any outcome: a run that ends cancelled, its thread finished, with a sunk item undelivered. |
| DownloadPipe.UnstartedCallHangs | src/infrastructure/downloader/ytdlp_downloader.py:1123-1173 | Once a call was cancelled before its thread began, the only step left is a second cancel. |
| DownloadPipe.DrainingFinishes | src/infrastructure/downloader/ytdlp_downloader.py:1165-1173 | Once the thread is done some event-loop step is always enabled and each, a cancel too, brings the return closer, so draining ends. |
| PreviewProcess.ChildProcess.Stop | src/infrastructure/downloader/ytdlp_downloader.py:831-838 | The child is dead afterwards, within one join and the kill. |
| PreviewProcess.ChildProcess.CollectPreviewResult | src/infrastructure/downloader/ytdlp_downloader.py:841-877 | On every schedule of the child: ends within timeout, last look, two joins and the kill; leaves the child dead; returns only what the child put; "no result" only when nothing was flushed; a timeout is never early and looked all along; a result already flushed is reported, and a child dead without one gives "no result" at once. |
| ProgressListener.ProgressThrottler.ShouldEmit | src/presentation/telegram/progress_listener.py:102-120 | Emits exactly on a first update or one both late and far enough, and remembers exactly the emitted ones. |
| ProgressListener.ProgressThrottler.Discard | src/presentation/telegram/progress_listener.py:122-123 | Forgets one key. |
| ProgressListener.TelegramProgressListener.HandleMessage | src/presentation/telegram/progress_listener.py:154-184 | One message's whole effect on the debounce state and the edits. |
| ProgressListener.TelegramProgressListener.Run | src/presentation/telegram/progress_listener.py:141-152 | The same over any sequence of messages. |
| ProgressListener.KeysAreIndependent | src/presentation/telegram/progress_listener.py:81-123 | In any interleaving, a download's entry and edits are those of its own messages alone. |
| ProgressListener.EntryAtIsState | src/presentation/telegram/progress_listener.py:100-123 | The entry the spacing results speak of is the one the listener holds. |
| ProgressListener.ConsecutiveUpdatesAreSpaced | src/presentation/telegram/progress_listener.py:102-120 | Consecutive emitted updates of a key between discards are at least 3 seconds apart and, both percentages known, 5 points. |
| ProgressListener.EditRateIsBounded | src/presentation/telegram/progress_listener.py:84-91 | Any stretch of span seconds without a terminal phase emits at most 1 + floor(span / 3) updates. |
| ProgressListener.TerminalPhaseEndsTheCard | src/presentation/telegram/progress_listener.py:165-184 | A trace ending in DONE or FAILED ends with that edit and without an entry for its key. |
| ProgressListener.DueUpdatesAreEmitted | src/presentation/telegram/progress_listener.py:102-120 | The other half of the debounce: after an emission the next update is emitted as soon as it is 3 seconds later and, both percentages known, 5 points away. |
| ProgressListener.FirstUpdateIsEmitted | src/presentation/telegram/progress_listener.py:102-106 | The first update of a download is always emitted. |
| ProgressListener.EditsExactly | src/presentation/telegram/progress_listener.py:154-184 | Which message edits which card, with which phase and percentage: with coordinates, the four one-shot phases by name, and a stream update the debounce lets through. |
| ProgressListener.PhasesByName | src/presentation/telegram/progress_listener.py:56-72 | The four published names are the four phases; any other reads as downloading. |
| LocalStorage.LastActivity | src/infrastructure/storage/local_storage.py:47-59 | The stack walk computes the recursive maximum on every tree. |
| LocalStorage.NewestInIsMax | src/infrastructure/storage/local_storage.py:47-59 | That recursion is the newest time of the entry and of every existing node below it. |
| LocalStorage.LocalFileStorage.Remove | src/infrastructure/storage/local_storage.py:75-90 | A helper: how much of the entry the file system lets go is given beforehand, and the answer is true only if nothing is left. |
| LocalStorage.LocalFileStorage.SweepOne | src/infrastructure/storage/local_storage.py:123-131 | One entry of the pass: skipped if vanished or young, else attempted. |
| LocalStorage.LocalFileStorage.CleanupExpired | src/infrastructure/storage/local_storage.py:120-139 | The whole pass, and the count is exactly how many entries disappeared. |
| LocalStorage.SweepIsExact | src/infrastructure/storage/local_storage.py:120-139 | Entry by entry: attempted exactly when its newest activity is too old, then gone or as the removal left it; nothing else changes. |
| LocalStorage.ExpiredExactly | src/infrastructure/storage/local_storage.py:47-59 | An entry is expired if and only if it exists and every existing node of it is older than the threshold. |
| LocalStorage.LiveDownloadsAreSpared | src/infrastructure/queue/jobs.py:103-110 | While a job lives, a walk that finds any node written since its start does not take the directory for expired, whether the pass read its clock before that start or after. |
| SweepRaces.LookIsExact | src/infrastructure/storage/local_storage.py:120-131 | In every interleaving the walk spares a directory if and only if it finds a node no older than the threshold by the pass's clock; a live job's own node there always spares it. |
| SweepRaces.LookCondemnsTheExpired | src/infrastructure/storage/local_storage.py:120-131 | The racing sweep condemns exactly what the uninterrupted one takes for expired. |
| SweepRaces.OnlyLaterWorkIsLost | src/infrastructure/storage/local_storage.py:98-139 | Over every run a pass takes work of a live job only if the walk saw none of it. |
| SweepRaces.RetryCanLoseItsWork | src/infrastructure/storage/local_storage.py:98-139 | For every timeout and threshold, a run on which a retry over an old directory loses what it wrote between the walk and the removal. |
| SweepRaces.LaterRetryCanLoseItsWork | src/infrastructure/storage/local_storage.py:98-139 | The same for a retry that starts after the walk. |
| DeliveryFilenames.FilenameIsSafe | src/domain/value_objects/delivery_filename.py:37-59 | For every title and path: `path.name`, or a non-empty clean stem plus suffix within 180 bytes; raises exactly when a surrogate must be encoded. |
| DeliveryFilenames.CleanTitleIsTheName | src/domain/value_objects/delivery_filename.py:37-46 | A title that needs nothing done and fits becomes the whole stem. |
| DeliveryFilenames.OneCharacter | src/domain/value_objects/delivery_filename.py:49-59 | What becomes of each single character: the nine forbidden ones turn into a space, control and format characters other than tab and line ends go, the rest stay. |
| DeliveryFilenames.CharactersSeparateOrVanish | src/domain/value_objects/delivery_filename.py:49-59 | In any title a forbidden character separates words as a space would, and a dropped one might as well not be there. |
| DeliveryFilenames.SpaceSeparates | src/domain/value_objects/delivery_filename.py:57-59 | Any space, wherever it stands, separates the words before it from those after it. |
| DeliveryFilenames.ForbiddenBecomesSpace | src/domain/value_objects/delivery_filename.py:49-59 | Two words joined by a forbidden character come out with one space between them. |
| DeliveryFilenames.StableExactlyWhenNormal | src/domain/value_objects/delivery_filename.py:37-59 | A delivered stem fed back comes back if and only if NFC leaves it alone, and so does the whole name unless it was the on-disk one. |
| DeliveryFilenames.FilenameIsIdempotent | src/domain/value_objects/delivery_filename.py:37-59 | The half of it that asks nothing of NFC but to leave this stem alone: the name comes back, on-disk or not. |
| DeliveryFilenames.NotIdempotentWithoutNfc | src/domain/value_objects/delivery_filename.py:49-59 | A title whose stem is not normal and so does not come back, under tables that meet every assumption. |
| Utf8.TruncateIsLongestFit | src/domain/value_objects/delivery_filename.py:62-67 | For every text without surrogates and every budget: the longest whole-character prefix whose encoding fits; empty for a negative budget. |
| Utf8.DecodeInvertsEncode | src/domain/value_objects/delivery_filename.py:62-67 | The lenient decoder inverts the encoder. |
| Utf8.DecodeCutText | src/domain/value_objects/delivery_filename.py:66-67 | Decoding an encoding cut at any byte yields exactly the characters that fit whole. |
| Keyboards.ParseInvertsConfirm | src/presentation/telegram/keyboards.py:130-175 | A confirm payload parses back to its token and spec, colons in the token included. |
| Keyboards.LegacyPayloads | src/presentation/telegram/keyboards.py:144-175 | Older payload forms still mean the default video. |
| Keyboards.UnknownCodesDegrade | src/presentation/telegram/keyboards.py:144-175 | A last field that is no known code means the default spec. |
| Keyboards.PrefixesAreExclusive | src/presentation/telegram/handlers/download_flow.py:282-451 | No payload matches two handlers. |
| Keyboards.OfferedSpecs | src/presentation/telegram/keyboards.py:178-246 | Exactly which specs the two keyboards of a card offer, for any policy and context. |
| Keyboards.EveryButtonIsHonest | src/presentation/telegram/keyboards.py:178-246 | Every download button parses to its token and spec, is allowed by the policy, and survives the stored pair (and with it the spawn boundary, which uses the same pair). |
| Keyboards.NavigationIsOffered | src/presentation/telegram/keyboards.py:178-246 | Step one can always be cancelled and step two always left; step two is one tap away exactly if the source has tiers. |
| Keyboards.AllowedKindsAreReachable | src/application/policies/format_policy.py:78-91 | A kind is allowed for a source if and only if the card has a button of it, at most one tap away. |
| Keyboards.DefaultIsOffered | src/application/policies/format_policy.py:93-95 | The button-less path's spec is on the same preview's card if and only if it is allowed. |
| Keyboards.PayloadsFit | src/infrastructure/preview_context/redis_preview_context_store.py:3-4 | Every payload of a card, encoded as UTF-8, fits Telegram's 64 bytes with an ASCII token of 32 characters. |
| DownloadSpecs.PartsInvertColumns | src/domain/value_objects/download_spec.py:75-103 | The strict parser accepts a pair if and only if it is some spec's columns, then returns that spec; accepted pairs satisfy the table's CHECK. |
| FormatPolicies.TiersExactly | src/application/policies/format_policy.py:98-103 | Which tiers a source gets: none up to 720, else 720 first, then 1080 from 1080 on and BEST below it. |
| FormatPolicies.FormatPolicy.AllowedExactly | src/application/policies/format_policy.py:78-79 | A spec is refused if and only if its kind is switched off for the lower-cased key. |
| UrlValidation.MatchIsLabelSuffix | src/domain/value_objects/url_validation.py:87-89 | For all strings, a host matches a domain if and only if the domain's labels are the host's last labels. |
| UrlValidation.AcceptedExactlyWhenCovered | src/domain/value_objects/url_validation.py:73-82 | The whole decision in label terms: block first, then an empty or covering allowlist. |
| UrlValidation.ValidExactly | src/domain/value_objects/url_validation.py:21-38 | A link passes the structural check if and only if it is not empty, its scheme is http or https and it has a domain; each failure has its own reason. |
| UrlValidation.AcceptanceIsMonotone | src/domain/value_objects/url_validation.py:73-82 | Blocking more never admits more, a longer non-empty allowlist never admits less. |

## Left out

- Libraries and I/O: yt-dlp, ffmpeg, aiogram, Redis, SQLAlchemy and arq internals; only the operation contracts the code relies on are modelled.
- Wording, locales, labels, log lines and JSON encoding.
- Error classification, migrations, health, Sentry, user registration details, media facts: easy members.
- Exactly-once delivery: a crash between sending the file and saving DONE lets a retry send again.
- The `media_type` and `created_at` columns: an unreadable media type degrades to a default and decides nothing modelled here.
- A progress callback that raises, and `process.start()` raising before the `try` that sinks the stop marker.
- The download child being dead after its timeout: only a terminate and a 5 s join are promised.
- A retry's `mkdir(exist_ok=True)` does not refresh the directory's time; LiveDownloadsAreSpared therefore asks for a node written since the job's start.
- Absorbing status for rows with an unreadable spec: the recovery path marks them failed whatever their status.
- ProcessDownload.ProcessDownloadUseCase.Execute: reads and the claim return; a database error there ends the run before any effect. An `update` that raises is taken to have written nothing. Cancellation and crashes appear in the lemmas (any prefix, with or without the release), not in the method.
- DownloadFlow.DownloadFlowHandlers.ConfirmDownload: runs uninterrupted; interleavings are Lifecycle's. Editing and answering the card, which may raise, are not modelled.
- DownloadFlow.DownloadFlowHandlers.ShowPreview: the preview's own download is a parameter.
- RateLimiter.RedisRateLimiter.Acquire: the set does not change between the count and the look at the oldest event.
- DeliveryFilenames.StableExactlyWhenNormal: a name equal to the on-disk one does not tell its stem, so for it only the stems are compared.
- LocalStorage.LastActivity: works on a tree as the walk meets it; a tree that changes under the walk is modelled only by nodes that have vanished. The size that is only logged is not modelled.
- ProgressListener.TelegramProgressListener.HandleMessage: a JSON payload that is not an object, which raises, is not modelled; neither is the Telegram edit failing, which is logged.
- SweepRaces.OnlyLaterWorkIsLost: the walk reads a directory at one instant; nodes that vanish under it are in LocalStorage. Removal may leave anything.
- PreviewProcess.ChildProcess.CollectPreviewResult: the processor's own time between calls counts as zero.
