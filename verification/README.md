# A verified model of the judge

The judge accepts submissions, hands them to workers under time-limited leases,
stores what they report, and mirrors every ended execution into a durable
callback outbox. Around that protocol it packs and extracts immutable packages,
pins them by digest, scores optimization tasks, limits request rates, budgets
model evaluations, and reads agents' byte streams. This project models that
behaviour and proves what it guarantees over every input and every run.
`dafny verify dfyconfig.toml` checks all of it.

| file | what it holds |
|---|---|
| `Common.dfy` | option and byte types, and what counts as blank |
| `TextOrder.dfy`, `Timestamps.dfy` | orders on text and paths; stored timestamps compare as times |
| `JudgeModel.dfy` | the tables and every store call as one atomic step; runs of steps |
| `Scheduling.dfy` | the claim order, the two claim queries, draining the queue |
| `Columns.dfy` | every store call once more, said on the columns before and after it and on nothing else |
| `Leases.dfy` | the invariant of all reachable states, and results over whole runs |
| `Outbox.dfy`, `Dispatch.dfy` | the outbox over whole runs; dispatchers and workers interleaved with it |
| `Heartbeat.dfy` | the lease renewer in real time |
| `JudgeStore.dfy` | the store as a class whose methods change the tables in place |
| `Packages.dfy`, `TaskDigest.dfy` | archives, directory trees, the digest stream |
| `ManifestText.dfy`, `ModelBudget.dfy` | the two readers of a manifest; the budget the validator checks and the harness spends |
| `Optimization.dfy`, `RateLimiting.dfy`, `AgentStreams.dfy` | the other algorithmic kernels |

## How the model reads the source

- **Two accounts.** The results over runs are stated about the steps in `JudgeModel`.
  `Columns` says what each of those steps does without using their definitions, so that
  the two accounts check each other; ratios, aggregates, archives, timestamps, the digest
  stream, plans and budgets have such a second account beside them too.
- **Steps.** One store instance serialises its writers with a lock
  (`src/brunost_judge/store.py:92`), so one call is one atomic step. A run is any
  sequence of steps by anybody. A step takes its clock readings as parameters, and
  no two readings are related unless a statement says so: `finish` and
  `renew_lease` read the clock before they take the lock.
- **Time** is an integer number of microseconds. That the store compares
  timestamps as text is justified separately, by `Timestamps.TextOrderIsTimeOrder`
  and `Timestamps.TimesCompareAsText`.
- **Fingerprints.** The request fingerprint is taken to be injective, so equal
  fingerprints are equal requests up to the idempotency key. The unique index on
  keys is the map `byKey`.
- **Ownership** is per worker id; the source has no attempt token, so neither has
  the model.
- **Foreign keys.** The outbox table references the execution table, so an outbox
  row for an unknown execution is refused.
- **PostgreSQL** steps are taken to run one transaction at a time.
- **Reports.** `conforms` in a report is the verdict of the result validator.
- **Packages** are lists of archive members and finite maps from paths to nodes.
  A file that has several names carries its inode. Extraction starts from an empty
  destination. The path encoder is any injective
  function from text to bytes, of which UTF-8 is one.
- **Arithmetic** on scores and monotonic clocks is over the reals. The geometric
  mean is the non-negative number whose n-th power is the product.

Five properties one might expect are not true as first stated. Each has an input
that shows it, and the model says exactly what holds instead:

- **An accepted manifest does not always fix the budget.** The validator finds fields
  with a regular expression whose blanks run across line ends, so a field without a
  value takes the whole next line for its value
  (`src/brunost_judge/task.py:72`); the harness reads line by line
  (`src/grader/harness.py:162-172`). Six lines with `notes:` above
  `baseline_enabled: true` are accepted for one solution and run as two, on the budget
  of one (`ModelBudget.HiddenBaselineBreaksTheBudget`). The two readers take a field
  from the same line with the same value if and only if it is `Clear`
  (`ManifestText.ReadAlikeIff`): its line is not hidden, its name does not stand alone
  on a line above a lone colon, its value is not missing in front of other lines, and
  its value is not double-quoted inside single quotes. A line below n fields without a
  value is hidden exactly when n is odd (`ManifestText.HiddenByParity`). Under that
  condition the budget is the sum; when only `baseline_enabled` is not clear,
  `ModelBudget.BudgetIsTheSumIff` says exactly when it still is. The two sides also
  decide on a missing `baseline_enabled` differently, which does no harm.
- **Backoff waits do not always add up.** Failures may be recorded on a row nobody has
  leased, and two of them at once cost ten seconds, not fifteen
  (`Outbox.UnownedFailuresOverlap`). After any run without a replay the next grant waits
  out the whole schedule if and only if the last failure came no earlier than the
  schedule allowed its attempt, or a lease still covers the rest, or the row is
  delivered (`Outbox.BackoffHoldsIff`).
- **A packed archive is not always extractable within the limits.** The second name of
  a hard-linked file is archived as a link, which extraction refuses
  (`Packages.TwoNamesAreRejected`). It is extractable if and only if it keeps within the
  limits and no two packed names share a file (`Packages.PackedIsAcceptable`).
- **Waiting exactly `retry_after` seconds does not guarantee admission**
  (`RateLimiting.RetryAfterAloneIsNotEnough`). A call with none in between is admitted
  if and only if it comes at least one window after the oldest kept call, and
  `retry_after` plus one millisecond is always enough (`RateLimiting.RetryAfterSuffices`).
- **A better objective can end the evaluation.** Improving an objective never lowers the
  aggregate, but a minimised objective improved below zero is refused by baseline-ratio
  scoring; it is scored if and only if it is not negative or the checker gives the
  scores (`Optimization.ImprovementNeverHurts`).

## Model

| member | source | states |
|---|---|---|
| `Timestamps.TextOrderIsTimeOrder` | src/brunost_judge/store.py:46-47 | for every two UTC datetimes, the text of one sorts before the other exactly when it is the earlier instant, and texts are equal exactly when instants are, although a whole second is written without a fraction |
| `Timestamps.TimesCompareAsText` | src/brunost_judge/store.py:46-47 | every whole number of microseconds from year 1 through 9999 is the instant of a datetime, so the model's comparisons of numbers are the store's comparisons of text |
| `Timestamps.IsoLayout` | src/brunost_judge/store.py:46-47 | the text has four digits of year and two of everything else with their separators, six digits of fraction unless it is zero, and the zone; each group of digits says its field |
| `Timestamps.DaysBeforeYearIs` | src/brunost_judge/store.py:46-47 | the day count behind an instant is the Gregorian one, in closed form |
| `Scheduling.BeforeTotal` | src/brunost_judge/store.py:629-631 | the claim order (priority descending, submission time, id) is total on distinct rows, so there is one first row |
| `Scheduling.QueueUnique` | src/brunost_judge/store.py:629-631 | a set of rows has exactly one listing in claim order |
| `Scheduling.PickSpec` | src/brunost_judge/store.py:611-643 | a claim finds a row if and only if some queued row passes the filters and needs only capabilities the worker has; the row it finds precedes all others of that kind |
| `Scheduling.PagedScan` | src/brunost_judge/store.py:611-643 | the OFFSET scan in pages of 100 ends, and returns the first compatible queued row, or none if there is none |
| `Scheduling.FilteredSelect` | src/brunost_judge/postgres_store.py:463-488 | filtering on capabilities before the limit picks the same row as the paged scan |
| `Scheduling.PostgresReclaimAgrees` | src/brunost_judge/postgres_store.py:446-462 | two updates in sequence, with the rows the first one returned mirrored afterwards, leave the same tables as the single update of the SQLite store |
| `Scheduling.PostgresClaim` | src/brunost_judge/postgres_store.py:441-503 | the whole PostgreSQL claim refines the same abstract step as the SQLite claim |
| `Scheduling.CalmStep` | src/brunost_judge/store.py:578-666 | with no expiry, an unfiltered capable claim takes the head of the queue and leaves its tail |
| `Scheduling.Drain` | src/brunost_judge/store.py:578-666 | repeated such claims hand out the queued rows as one sorted listing, each exactly once, and then nothing |
| `Columns.RefusalOnColumns` | src/brunost_judge/store.py:530-541 | a submission for an unknown task is refused; a used key answers with the stored id when all ten request fields are equal and refuses any other; nothing changes |
| `Columns.SubmitOnColumns` | src/brunost_judge/store.py:542-576 | a fresh key stores exactly that request, queued, without result, worker or lease, stamped with the registered task and the time; no other row changes |
| `Columns.ClaimPicks` | src/brunost_judge/store.py:611-643 | a claim hands out nothing exactly when no execution is queued or expired, uncanceled, in a served queue and class, and asking only for capabilities the worker has; otherwise the one of these with the highest priority, then the earliest, then the smallest id |
| `Columns.ClaimOnColumns` | src/brunost_judge/store.py:591-652 | a claim leaves each row handed to the worker with the stated lease, or, if its lease ran out, queued again or canceled without worker and lease, or as it was |
| `Columns.ExpiredLeaseComesBack` | src/brunost_judge/store.py:596-601 | in every run, an expired lease nobody canceled is queued again or handed on by the next claim, and a claim by a worker that could run it never comes back empty |
| `Columns.FinishAnswerOnColumns` | src/brunost_judge/store.py:669-693 | a report is refused exactly for a blank worker, a status that is not final, or a known row it does not fit; it is stored exactly for the worker of a running row whose lease ends no earlier than the reading |
| `Columns.FinishOnColumns` | src/brunost_judge/store.py:682-726 | a stored report becomes the row's status and result, or the fixed cancellation result if the row was canceled; worker and lease are dropped, the callback is put into the outbox as requested, and no other row changes |
| `Columns.RenewOnColumns` | src/brunost_judge/store.py:728-745 | the holder of an uncanceled row gets a lease of at least a second from the reading; nobody else changes anything |
| `Columns.CancelOnColumns` | src/brunost_judge/store.py:835-855 | a cancel marks the row, ends it if it was queued and then puts its callback into the outbox, and changes nothing else |
| `Columns.PendingOnColumns` | src/brunost_judge/store.py:756-765 | listed are exactly the undelivered rows of ended executions whose next attempt is due |
| `Columns.EnqueueOnColumns` | src/brunost_judge/store.py:747-754 | a known execution's row is created due at once, or only readdressed |
| `Columns.ClaimCallbackOnColumns` | src/brunost_judge/store.py:767-776 | a delivery is granted exactly on an undelivered due row without a lease beyond the reading, and then leased for at least a second |
| `Columns.DeliveredOnColumns` | src/brunost_judge/store.py:778-791 | settling records the time and clears error and lease; by owner only on an undelivered row of that owner |
| `Columns.FailedOnColumns` | src/brunost_judge/store.py:793-806 | a failure adds one to the counter, sets the next attempt five seconds times a power of two later, keeps the first 2000 characters of the error and drops the lease |
| `Columns.ReplayOnColumns` | src/brunost_judge/store.py:808-828 | a replay of an ended execution with a URL makes its row undelivered, due now and unleased with the requested address and the old counter |
| `Leases.RowMoves` | src/brunost_judge/store.py:578-745 | any step changes an existing execution row in one of five legal ways, or not at all |
| `Leases.StepKeepsInv` | src/brunost_judge/store.py:526-855 | every store call keeps the invariant: running exactly when worker and lease are set, no results before the end, an ended row with a callback URL is in the outbox, keys and executions are in bijection, outbox rows belong to executions, delivered rows are not leased |
| `Leases.ReachableInv` | src/brunost_judge/store.py:526-855 | the invariant holds after every run |
| `Leases.RunEvolves` | src/brunost_judge/store.py:596-601 | across any part of any run a row keeps its request, its task stamp and its submission time, a cancel request sticks, and a terminal status and result stay |
| `Leases.TerminalIsFinal` | src/brunost_judge/store.py:899-922 | once an execution is terminal, its status, result, request and task stamp, and so everything a callback would carry, stay the same for the rest of the run |
| `Leases.RunningHasClaim` | src/brunost_judge/store.py:647-652 | every running row is held by the worker of the latest claim, under the lease of the latest claim or renewal |
| `Leases.FinishIsUnique` | src/brunost_judge/store.py:668-726 | at most one finish per execution is accepted in a run; its worker made the latest claim, and its clock reading is no later than the end of the last lease granted |
| `Leases.CancelWins` | src/brunost_judge/store.py:835-855 | after a cancel of an execution that has not ended: it is never handed out again, its lease never changes except to be dropped, it can only end canceled with no score, winner, metrics, scores or artifacts, and the first claim at or after its lease deadline leaves it canceled |
| `Leases.EveryResultIsExplained` | src/brunost_judge/store.py:681-707 | an ended execution carries exactly what one accepted, conforming report for that id and task said, or was canceled by somebody and carries no result; nothing else ends an execution |
| `Leases.CancelHasCause` | src/brunost_judge/store.py:843-846 | a row marked canceled was canceled by an earlier cancel call for that id |
| `Leases.SubmissionStays` | src/brunost_judge/store.py:542-576 | the row an accepted submission created keeps that request, that time and the task version of the moment of submission for the rest of the run |
| `Leases.QueueIsSound` | src/brunost_judge/store.py:611-611 | queued rows of reachable states are never marked canceled and always have a registered task, so draining applies to them |
| `Leases.KeysOnlyGrow` | src/brunost_judge/store.py:534-541 | over every run the map from keys to executions only grows and stays injective |
| `Leases.RepeatedSubmit` | src/brunost_judge/store.py:526-541 | any later submission under a used key changes nothing: an equal request gets the original id, a different one is refused |
| `Leases.KeysAreAccepted` | src/brunost_judge/store.py:526-576 | the keys in the index are exactly the keys of accepted submissions |
| `Leases.CountsAddUp` | src/brunost_judge/store.py:879-891 | the five status counts always sum to the number of distinct accepted keys |
| `Outbox.DeliveryMoves` | src/brunost_judge/store.py:747-828 | any step changes an existing outbox row in one of five ways, or not at all, and never removes it |
| `Outbox.EndedIsMirrored` | src/brunost_judge/store.py:602-610 | in every reachable state a terminal execution with a callback URL has an outbox row, whether a finish, a cancel in the queue or a reclaim ended it |
| `Outbox.AddressedAsAsked` | src/brunost_judge/store.py:747-754 | in every run without an explicit enqueue, only executions that asked for a callback have an outbox row, and it goes to the URL and token they asked for |
| `Outbox.DeliveredStays` | src/brunost_judge/store.py:778-828 | an outbox row stays, and a delivered one stays delivered until a replay of that very execution |
| `Outbox.NeverStuck` | src/brunost_judge/store.py:756-776 | an ended execution with a URL is delivered, or is both listed and grantable to any dispatcher from a known time on |
| `Outbox.ReplayReopens` | src/brunost_judge/store.py:808-828 | a replay makes the delivery listed and grantable at once, and keeps its failure count |
| `Outbox.CapNeverBinds` | src/brunost_judge/store.py:793-806 | the delay is five times a power of two and at most 1280 seconds, so the cap of 3600 is never reached |
| `Outbox.WaitedClosedForm` | src/brunost_judge/store.py:793-806 | the delays of n failures sum to 5(2^n - 1) seconds up to nine failures, and grow by 1280 for each one after |
| `Outbox.RowCountsFailures` | src/brunost_judge/store.py:793-806 | over every run without a replay, whoever reports and whatever the clocks say, the counter is the number of failures and the next attempt is the last failure plus its delay |
| `Outbox.BackoffHoldsIff` | src/brunost_judge/store.py:767-806 | after every run without a replay that made an attempt and recorded a failure, no possible next grant comes before the summed backoff since the first attempt, if and only if the row is delivered, or the last failure came no earlier than the schedule allowed its attempt, or a lease still stands until the schedule is met |
| `Outbox.RowReflectsAttempts` | src/brunost_judge/store.py:767-806 | over every run whose failures end granted attempts or come no earlier than the schedule, with clocks that do not go back, the next attempt is no earlier than the first one plus all waits so far |
| `Outbox.NoEarlyRetry` | src/brunost_judge/store.py:767-806 | in those runs no delivery after n failures is granted before the summed backoff has passed since the first grant: 5(2^n - 1) seconds up to nine failures, then 1280 more for each |
| `Outbox.OwnerIsOnTime` | src/brunost_judge/worker.py:284-285 | a failure recorded in an owner's name always ends a granted attempt, so the dispatcher's own reports meet that condition |
| `Outbox.UnownedFailuresOverlap` | src/brunost_judge/store.py:793-806 | a concrete run in which two failures recorded without an owner at the time of the first attempt let delivery be granted after 10 seconds instead of 15 |
| `Outbox.LeasesExclude` | src/brunost_judge/store.py:767-776 | two dispatchers never hold one delivery at a time: if it is granted again before the first lease ends, a failure was recorded or the callback replayed in between |
| `Dispatch.ReachIsSound` | src/brunost_judge/worker.py:271-289 | whatever dispatchers and workers carry between their own transactions (listings, held deliveries, fetched results, retries) is about ended executions and agrees with the store, in every interleaving, with crashes at any point |
| `Dispatch.PostedPayloadsAgree` | src/brunost_judge/worker.py:271-289 | in every interleaving of dispatchers, workers, crashes, cancels and replays, every posted payload is terminal, and all payloads posted for one execution are equal |
| `Dispatch.PostedPayloadsAreTrue` | src/brunost_judge/worker.py:271-289 | in every interleaving a posted payload carries every reported column of the stored row, and its status and result are exactly those of an accepted report by an earlier step, or an earlier step canceled the execution and there is no result |
| `Dispatch.DueIsPosted` | src/brunost_judge/worker.py:274-283 | an idle dispatcher that lists, claims, re-reads and sends a due row posts it exactly once, with the stored columns |
| `Dispatch.OwnFinishIsPosted` | src/brunost_judge/worker.py:581-689 | a worker whose finish is stored reads it back, claims the delivery and posts the stored columns |
| `Dispatch.FailedPostIsRetried` | src/brunost_judge/worker.py:690-705 | a post that failed is kept and posted again unchanged until a retry succeeds |
| `Heartbeat.IntervalIsAThird` | src/brunost_judge/worker.py:206-206 | for every lease length the tick is positive and at most a third of the lease |
| `Heartbeat.IntervalIs` | src/brunost_judge/worker.py:206-206 | the tick is exactly a third of the lease up to 90 seconds and 30 seconds beyond, so the lower bound of a quarter second never binds |
| `Heartbeat.NextInTime` | src/brunost_judge/worker.py:201-223 | if set-up, each renewal call and the work after the run each take under a third of the lease, the next renewal or the finish commits before the current lease ends |
| `Heartbeat.HeldThrough` | src/brunost_judge/worker.py:201-223 | at every step between claim and finish the worker holds the execution, not canceled, under its latest renewal |
| `Heartbeat.HeartbeatIsSafe` | src/brunost_judge/worker.py:201-223 | under those bounds and with no cancel, nobody else is ever handed the execution and its finish is accepted |
| `Heartbeat.LongRunFinishes` | src/brunost_judge/worker.py:201-223 | those bounds can be met: a concrete run with one renewal finishes after its first lease would have ended |
| `JudgeStore.Store.RegisterTask` | src/brunost_judge/store.py:238-251 | a task reference is immutable: registration succeeds exactly when the table then holds that very task, and otherwise changes nothing |
| `JudgeStore.Store.SubmitRequest` | src/brunost_judge/store.py:526-576 | in place, the submit step; an accepted key leads to a row with an equal request, and every refusal leaves the tables alone |
| `JudgeStore.Store.ReclaimExpired` | src/brunost_judge/store.py:591-610 | in place, every running row whose lease has run out loses worker and lease and is canceled or queued again, every other row stays, and the canceled ones are mirrored |
| `JudgeStore.Store.ClaimNextExecution` | src/brunost_judge/store.py:578-666 | in place, reclaim, paged scan and lease together are the abstract claim step and hand out the first claimable row under the requested lease |
| `JudgeStore.Store.FinishExecution` | src/brunost_judge/store.py:668-726 | in place, the finish step: stored exactly for a valid report of the live lease holder, and then terminal and mirrored; otherwise nothing changes |
| `JudgeStore.Store.RenewLease` | src/brunost_judge/store.py:728-745 | in place, the renewal step: granted exactly to the live holder of an execution nobody canceled, who then holds it to the end of the new lease |
| `JudgeStore.Store.CancelExecution` | src/brunost_judge/store.py:835-855 | in place, the cancel step: afterwards a known execution is marked and no longer queued |
| `JudgeStore.Store.EnqueueCallback` | src/brunost_judge/store.py:747-754 | in place, the enqueue step, with the foreign key |
| `JudgeStore.Store.PendingCallbacks` | src/brunost_judge/store.py:756-765 | exactly the due undelivered rows of ended executions, earliest first, without repetition, cut at a limit that is not negative: a row left out implies a full list of rows no later than it |
| `JudgeStore.Store.ClaimDelivery` | src/brunost_judge/store.py:767-776 | in place, the delivery lease step: granted exactly for an undelivered due row without a live lease; the worker may then settle it and nobody is granted it before the lease ends |
| `JudgeStore.Store.MarkDelivered` | src/brunost_judge/store.py:778-780 | in place, unconditional settlement that keeps the failure count |
| `JudgeStore.Store.AcknowledgeDelivery` | src/brunost_judge/store.py:782-791 | in place, settlement by the lease owner only; afterwards the row is neither listed nor granted at any time |
| `JudgeStore.Store.FailDelivery` | src/brunost_judge/store.py:793-806 | in place, the failure step with its backoff; a named worker must own the lease, and nobody is granted the row for at least five seconds |
| `JudgeStore.Store.ReplayDelivery` | src/brunost_judge/store.py:808-828 | in place, the replay step: a replayed row is undelivered and due now, a refused replay changes nothing |
| `JudgeStore.Store.Stats` | src/brunost_judge/store.py:879-891 | each count is the number of rows with that status, and together they are the number of keys |
| `JudgeStore.Store.CallbackStats` | src/brunost_judge/store.py:882-897 | the three outbox counters; none pending means that every ended execution with a callback URL has been delivered |
| `Packages.FirstPass` | src/brunost_judge/artifacts.py:123-145 | the first pass accepts exactly when names are safe and distinct, members are files or directories, sizes are within both limits and no file stands above a later member |
| `Packages.SecondPass` | src/brunost_judge/artifacts.py:146-165 | after it, writing succeeds exactly when no file stands above an earlier member, which only the exclusive create notices, and builds exactly the members' tree |
| `Packages.SafeExtract` | src/brunost_judge/artifacts.py:97-166 | extraction succeeds if and only if the archive is acceptable, in whatever order its members come; the tree then has exactly the members and their parent directories, and its files are exactly the file members |
| `Packages.AcceptableIff` | src/brunost_judge/artifacts.py:114-166 | an archive is refused exactly for a limit below one, too many members, more bytes than allowed end to end, an absolute, rising or empty name, a link or special file, a file too large, two members of one path, or a file in the place of a directory another member needs, in either order |
| `Packages.SplitRejoins` | src/brunost_judge/artifacts.py:124-127 | a member name is its parts with slashes between them |
| `Packages.TreeIsUnique` | src/brunost_judge/artifacts.py:146-165 | the members determine the tree |
| `Packages.EverythingInside` | src/brunost_judge/artifacts.py:125-144 | every extracted path is a plain relative path below the destination, the contents fit the total limit, and no file is above any extracted path |
| `Packages.PackDirectory` | src/brunost_judge/artifacts.py:55-94 | packing succeeds exactly when no packable entry is a link or a special file and the contents fit the limit; it yields one member per packable entry, in path order, a later name of a file already archived becoming a link |
| `Packages.BytecodeIs` | src/brunost_judge/artifacts.py:50-52 | left out of a package are exactly the cache directory and everything ending in the bytecode suffix |
| `Packages.AnyExecuteIs` | src/brunost_judge/artifacts.py:165-165 | a mode counts as executable exactly when one of its three octal digits is odd |
| `Packages.PackedIsAcceptable` | src/brunost_judge/artifacts.py:66-145 | a packed archive is extractable if and only if it is within the extraction limits and no two packed names share a file |
| `Packages.TwoNamesAreRejected` | src/brunost_judge/artifacts.py:74-74 | a directory with two names of one file packs, and its archive is refused under any limits |
| `Packages.RoundTrip` | src/brunost_judge/artifacts.py:55-166 | packing and then a successful extraction restores exactly the packable files and directories, with contents and executability |
| `Packages.PackThenExtract` | src/brunost_judge/artifacts.py:55-166 | the two operations in sequence succeed if and only if packing does, the archive is within the limits and no two packed names share a file, and then restore the directory |
| `TaskDigest.StreamInjective` | src/brunost_judge/task.py:909-912 | the length-prefixed stream determines the list of paths and contents, for lengths below 2^64 |
| `TaskDigest.StreamDecodes` | src/brunost_judge/task.py:909-912 | a plain reader of lengths, most significant byte first, paths and contents recovers the files from the stream |
| `TaskDigest.TaskDigestInput` | src/brunost_judge/task.py:893-913 | the loop feeds the hash exactly the stream of the regular files that are not bytecode, in path order |
| `TaskDigest.DigestPinsFiles` | src/brunost_judge/task.py:893-913 | two packages feed the hash the same bytes if and only if they hold the same source files with the same contents |
| `TaskDigest.DigestSurvivesPacking` | src/brunost_judge/task.py:893-913 | the bytes fed to the hash are the same before packing and after a successful extraction |
| `TaskDigest.SecondRoundTrip` | src/brunost_judge/artifacts.py:146-165 | packing and extracting what was extracted changes nothing more, executability included |
| `Optimization.RatioMonotone` | src/grader/optimization.py:365-376 | the baseline ratio of non-negative objectives is in [0,1], and a better objective in the declared direction never scores less |
| `Optimization.RatioIsTheShare` | src/grader/optimization.py:365-376 | scaled back by the larger side, the score is the smaller of the two objectives; it is refused exactly for a negative objective, and full exactly when the candidate is at least as good as the baseline |
| `Optimization.TangentBound` | src/grader/optimization.py:387-388 | b^(n+1) is at least a^n((n+1)b - na), the inequality behind the order of the means |
| `Optimization.ProductBelowMean` | src/grader/optimization.py:387-388 | the product of n non-negative scores is at most the n-th power of their mean |
| `Optimization.MeansAreOrdered` | src/grader/optimization.py:379-388 | minimum, geometric mean and mean are ordered on every non-empty list of scores in [0,1] |
| `Optimization.AggregateMonotone` | src/grader/optimization.py:379-388 | raising any of the scores never lowers the aggregate, under any mode |
| `Optimization.AggregateOfParts` | src/grader/optimization.py:379-388 | the aggregate of two lists together follows from those of each, which with `AggregateOfOne` fixes every mode |
| `Optimization.AggregateOfOne` | src/grader/optimization.py:379-388 | one score is its own aggregate in every mode |
| `Optimization.ScoreInstances` | src/grader/optimization.py:482-526 | the loop succeeds exactly when no instance is a judge failure, and then yields one score in [0,1] per instance, in order: the share of the baseline, the checker's score, or zero; it fails only on an instance no score would be right for |
| `Optimization.ImprovementNeverHurts` | src/grader/optimization.py:482-529 | improving one feasible objective in the declared direction never lowers the aggregate, and the evaluation still succeeds if and only if the new objective is not negative or the checker gives the scores |
| `RateLimiting.DequeAgrees` | src/brunost_judge/auth.py:107-123 | after any calls with a clock that does not go back, the pruned deque and the full history of admitted calls agree on every window still to come, and the deque is never longer than the limit |
| `RateLimiting.DecidesAsHistory` | src/brunost_judge/auth.py:107-123 | each call is admitted exactly when fewer than the limit (at least one) of all calls ever admitted lie in the window that ends now |
| `RateLimiting.WindowBounded` | src/brunost_judge/auth.py:107-123 | no window, wherever it ends, ever holds more admitted calls than the limit |
| `RateLimiting.NoWindowExceedsTheLimit` | src/brunost_judge/auth.py:107-123 | counted entry by entry, no window holds more admitted calls than the limit |
| `RateLimiting.RetryAfterSuffices` | src/brunost_judge/auth.py:120-122 | after a refusal, with no call in between, a later call is admitted if and only if a window has passed since the oldest kept call, and retry_after plus one millisecond always reaches that time |
| `RateLimiting.RetryAfterIsTight` | src/brunost_judge/auth.py:120-122 | retry_after is not too long either: unless it is the minimum of one, any call a second earlier is refused again |
| `RateLimiting.RetryAfterAloneIsNotEnough` | src/brunost_judge/auth.py:120-122 | a call exactly retry_after seconds after a refusal can be refused again |
| `RateLimiting.RateLimiter.Allow` | src/brunost_judge/auth.py:107-129 | in place, one call on one key, recorded last if admitted; other keys are untouched, except that at 10,000 keys one other key whose latest call is the oldest is forgotten; the table never holds more than 10,000 keys |
| `RateLimiting.DequeInRun` | src/brunost_judge/auth.py:107-129 | in every run of calls on any keys, a key's deque is the one its own calls since its last eviction make, and without an eviction the one all its calls make |
| `RateLimiting.WindowUnderEviction` | src/brunost_judge/auth.py:107-129 | in every such run no window admits more calls on a key than its limit, plus one limit for each time the key was evicted |
| `RateLimiting.OldestOther` | src/brunost_judge/auth.py:124-128 | the key evicted is another one, with the least latest call |
| `ManifestText.UnquoteAgreesIff` | src/brunost_judge/task.py:92-96 | the two ways to take off quotes agree exactly when the validator's leaves no double quote at an end |
| `ManifestText.SameLinesIff` | src/grader/harness.py:162-172 | the two sides cut a text into the same lines exactly when newlines are its only line breaks |
| `ManifestText.ReadByMatches` | src/brunost_judge/task.py:92-96 | going from match to match returns the first field of that name that is not hidden by a match above it, with the value the expression captures |
| `ManifestText.ReadByLines` | src/grader/harness.py:162-172 | splitting line by line returns the first line with that name before its first colon |
| `ManifestText.HiddenByParity` | src/brunost_judge/task.py:72-72 | below n fields without a value, a field line is hidden from the validator exactly when n is odd |
| `ManifestText.ReadAlikeIff` | src/brunost_judge/task.py:92-96 | for every list of lines and every name, both readers take the field from the same line with the same value if and only if it is clear |
| `ManifestText.LowerIgnoresCase` | src/brunost_judge/task.py:94-94 | field names are compared without regard to case and with regard to nothing else |
| `ModelBudget.Validate` | src/brunost_judge/task.py:412-522 | no budget error is reported exactly when every limit is a number in range, the public pair is complete and both computed budgets fit the declared limit and the maximum |
| `ModelBudget.LimitsSay` | src/brunost_judge/task.py:500-514 | each limit is what the field of its name says, missing, no number, or that number |
| `ModelBudget.AcceptsIff` | src/brunost_judge/task.py:446-522 | when a manifest of whole numbers is accepted, in closed form over its limits, the public pair, the baseline and the post-competition profile |
| `ModelBudget.PlanPhases` | src/grader/harness.py:522-679 | five phases for a solution when the profile is live and both public fields are given and three otherwise, once or twice over; their limits sum to the computed budget less five seconds |
| `ModelBudget.PlanSpelledOut` | src/grader/harness.py:522-679 | every plan written out from the manifest's own numbers: training, a prediction per split, an evaluation per split, the baseline before the participant |
| `ModelBudget.BudgetsAgree` | src/grader/harness.py:500-500 | the validator's and the harness's own formulas give the same budget for every accepted manifest on whose baseline they agree, live and post-competition |
| `ModelBudget.BudgetIsTheSum` | src/grader/harness.py:500-507 | for every manifest text that is clear in the twelve fields concerned and that the validator accepts, and each profile that may run, the harness budget is its own computed sum and it refuses none of the limits |
| `ModelBudget.BudgetIsTheSumIff` | src/grader/harness.py:488-507 | when only `baseline_enabled` may be read differently, the budget of an accepted manifest is the sum if and only if the harness runs no baseline the validator did not see, or the declared limit covers two solutions |
| `ModelBudget.HiddenBaselineBreaksTheBudget` | src/brunost_judge/task.py:500-511 | six lines that the validator accepts and for which the harness computes 65 seconds and gets 35 |
| `ModelBudget.NeverPastDeadline` | src/grader/harness.py:516-520 | a timeout is refused exactly when less than a millisecond is left; otherwise it is the whole limit if that fits before the shared deadline, and if not, the deadline to within a millisecond |
| `ModelBudget.GrantPhases` | src/grader/harness.py:516-520 | every timeout granted in sequence ends by the deadline, and the sequence stops only where the deadline leaves nothing |
| `ModelBudget.AcceptedGetsFullLimits` | src/grader/harness.py:500-679 | for every clear and accepted manifest text, if earlier phases kept their limits and untimed work totals at most five seconds, each phase gets its full limit from the harness's own budget |
| `AgentStreams.LinesOfFramed` | src/grader/agent_runtime.py:393-397 | lines without newlines are recovered from the stream they were framed into, whatever follows |
| `AgentStreams.AgentProcess.ReadMessage` | src/grader/agent_runtime.py:387-423 | in place, for every chunking: the next raw line is returned as soon as it is complete and nothing more is read; every refusal has its own cause in the last event; bytes read are always the consumed lines, their newlines and the buffer; the buffer stays within the message limit unless the reply says it was exceeded |
| `AgentStreams.ConsumedIsPrefix` | src/grader/agent_runtime.py:387-423 | the lines consumed so far are a prefix of the newline split of everything read, and the byte counts add up |
| `AgentStreams.AgentProcess.CollectStderr` | src/grader/agent_runtime.py:468-477 | in place: the buffer is exactly the first bytes of the stream up to the limit, and is flagged truncated exactly when the stream was longer |

## Left out

- HTTP routes, request models, middleware, console pages, the SDK, the command line, deployment rendering and provider adapters: plumbing and templates around the modelled core.
- Containers, sandboxes, resource limits, signals and subprocess handling: operating-system behaviour; child processes appear as byte streams and durations.
- SHA-256, HMAC and the JSON, tar and gzip codecs: transparent; the digest results are about the bytes fed to the hash.
- Worker registry, credentials, audit log, artifact storage, quiz scoring, capability scheduler and the manifest checks unrelated to budgets: independent of the protocol and the kernels above.
- Timeouts per execution (`src/brunost_judge/worker.py:168-191`) and classic settings: small independent range checks.
- Rows written by earlier schema versions (empty fingerprints, missing columns), and the event id and copied metadata a submission stores beside the request.
- JudgeStore.Store.PendingCallbacks: rows with equal due times may come in any order, as SQL leaves it.
- Scheduling.PostgresClaim: transactions run one at a time, so row locks, SKIP LOCKED and concurrent reclaims are not modelled; capability lists are arrays of strings, as malformed ones are read differently by the two stores. It works on table values, since its effect in place is that of the store class.
- PostgreSQL's other steps (submit, finish, renew, cancel and the callback calls) are not modelled a second time. They update the same columns under the same guards, but not from the same clocks: `finish` compares the lease with the database's own time, and `claim_callback` reads the clock three times in one call.
- Timestamps.TextOrderIsTimeOrder: covers years 1 to 9999, the range of the source's datetimes; a lease end beyond it, where the source raises, is not modelled.
- Dispatch.PostedPayloadsAgree: the URL and token a payload is posted to come from the listing and may be stale; only the payload is covered.
- Heartbeat.HeartbeatIsSafe: nobody else acts under the same worker id on that execution, and a renewal call does not fail for reasons outside the store.
- Packages.SafeExtract: the destination starts empty and holds no links; permission bits other than executability are not kept; an unreadable archive is not modelled.
- Packages.PackDirectory: the sorted listing of the directory is given, and nothing changes the directory during the walk; an unreadable file, or a name that is not valid UTF-8, is not modelled.
- Optimization.ScoreInstances: the baseline objectives are given; floating-point rounding and the rounding of displayed values are not modelled.
- RateLimiting.RateLimiter.Allow: the clock is a parameter, and ties between equally old keys are broken arbitrarily.
- ModelBudget.Validate: only the budget rules; referenced files are not modelled, and `int` is any partial function from text to numbers, the same on both sides.
- ModelBudget.BudgetIsTheSum: a text with line breaks other than newlines (form feeds, Unicode separators) is outside it, because the two sides then read different lines; which fields such a text still reads alike is not worked out.
- AgentStreams.AgentProcess.ReadMessage: decoding a raw line as JSON, and the size check the decoder repeats, come after the line is consumed and are not modelled.
