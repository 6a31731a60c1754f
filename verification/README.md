# Speakertrail, modelled and proved in Dafny

Speakertrail collects events from websites, finds the people on stage and keeps them. This
project models the parts of its engine where interleavings, clocks, byte positions and
find-or-create logic make mistakes easy, and proves what they keep.

`dafny verify dfyconfig.toml` checks everything.

| module | models |
|---|---|
| `JobTable` | the jobs table, its SQL statements and the queue object |
| `QueueProtocol`, `QueueLimits` | any number of workers on the queue, statement by statement |
| `WorkerPool` | the goroutines, busy counter and idle signal of `Worker.run` |
| `RunKeys`, `RunProtocol`, `RunTheorems`, `RunEnds`, `RunExclusion`, `RunLimits`, `RunOverlap` | runs: start, stop, restart, one at a time |
| `SearchBudget`, `SearchTry` | monthly search budgets under concurrency, and one search over several providers |
| `SiteLimiter`, `LoginWindow` | one request per website and interval; five password guesses a minute |
| `Resolve`, `ResolveAgain`, `ResolveReport`, `ResolveHistory` | events, organisations and people: find or create |
| `Lifecycle` | the life of a source |
| `Utf8`, `Utf8Encoding`, `SplitText`, `SplitEnds`, `Passage` | cutting pages into parts and quoting passages, byte by byte |
| `Robots`, `RobotsFile`, `ICal` | the robots.txt verdict (RFC 9309); unfolding and unescaping (RFC 5545) |

## How it is modelled

* A table is a map or a sequence of rows. Objects that update their state are classes, and loops
  are loops. Each such method is proved against functions on values, and the theorems are about
  those functions.
* A protocol is a state, a set of actions, what enables each action and what it does. Every SQL
  statement is one atomic action, and so is each stretch of code under a mutex. Theorems are
  about every finite behaviour. Handlers, websites, providers and clocks may do anything.
* Columns and fields that exist for the proofs only are called histories in the comments: `life`
  and `lives` (which Enqueue put a row in the queue from scratch), `ends` (every value written to
  `ended`), `read` (the budget a
  month's last call was made under), `lastReading` (the clock reading of the last Claim).
* Time is an integer. Clocks may disagree and run backwards: those of the queue's workers, of site slots,
  of search budgets and of login attempts alike.
* Conditions that the code relies on are predicates of their own (`Steady`, `OnlyRunNow`,
  `AllPrompt`, `AllForward`, `ClockOrder`) and appear as premises of exactly the theorems that need them.

## Where code and comments differ

* The comment on `StopRun` (internal/pipeline/schedule.go:245-248) says that what is running
  queues nothing more. A call that passed the `ended` check before the stop still queues
  (internal/pipeline/read.go:52-76). `RunLimits.StopReachesExactlySoFar` states exactly when the
  comment holds, and `RunLimits.StopMissesWhoeverIsQueueing` is a behaviour in which it does not.
* `RunNow` promises one run at a time. `RunOverlap.ExclusionHoldsExactlyWhen` states exactly when
  that holds: `Nightly` does not take its lock, a handler may outlive its lease, and a restart may
  clean up beside a process that still works. Each of these alone breaks it.
* A job may be claimed more often than its limit, or queued with no attempt left, exactly when a
  Claim can be late by more than a lease or a key can change its max_attempts
  (`QueueLimits.LimitHoldsExactlyWhen`).
* The comment on `reserve` says that calls never go past the budget
  (internal/search/pool.go:185-188). That holds exactly when no clock falls back into an earlier
  month between the count and the insert (`SearchBudget.BudgetHoldsExactlyWhen`).
* A login attempt reads the clock before it waits for the mutex (internal/server/auth.go:75-76). Five a
  minute holds exactly when attempts are handled in the order of their readings
  (`LoginWindow.WindowHoldsExactlyInOrder`), and `LoginWindow.SixAreSpaced` says what holds otherwise.
* Fencing by attempt number holds within one life of a job. After a job was queued again from
  scratch, an old handle can match a new attempt. `QueueProtocol.WhatAReportMeets` says exactly when,
  and `QueueLimits.StaleReportReachesNextLife` is a behaviour.
* An event whose type is empty can be inserted, because the insert fills the type in, but not
  updated, because the update does not and the column is checked
  (internal/pipeline/resolve.go:138-159, internal/db/migrations/00001_data_model.sql:65-67).
  `ResolveAgain.ResolvingAgainChangesNothing` holds exactly for events with a type. A check
  resolves extracted events only, and extraction guesses a type that is missing
  (internal/extract/extract.go:124-126, internal/extract/classify.go:112-122), so there the exception
  does not occur (`ResolveAgain.ExtractedEventResolvesAgain`).
* Splitting a page never ends exactly when some character of the text is wider than a part, in
  whatever place (`SplitEnds.NeverEndsIffTooWide`, with an input in `SplitEnds.SmallPartsNeverEnd`).
  From four bytes per part on there is no such text. The callers use 6000.
* A line of a calendar feed is cut at its first colon. Section 3.2 of RFC 5545 allows a colon inside
  a quoted parameter, and such a line is misread (`ICal.PropertyRoundTrip`, in both directions, and
  `ICal.QuotedColonIsMisread`).

## Model

| member | source | states |
|---|---|---|
| `JobTable.NewConfig` | internal/queue/queue.go:53-67 | an option that is usable is taken as it is, each one that is not gets its default (five attempts, waits of 1, 10 and 60 minutes, a lease of 10 minutes), and the result is always usable |
| `JobTable.Backoff` | internal/queue/queue.go:219-222 | the wait after the n-th failed attempt is the n-th of the list, and the last one for every later attempt |
| `JobTable.NextExists` | internal/queue/queue.go:156-162 | the second statement of Claim finds a row whenever one is due: ordering by run_after and id always has a first row |
| `JobTable.Queue.constructor` | internal/queue/queue.go:53-67 | an empty table with unique ids |
| `JobTable.Queue.Enqueue` | internal/queue/queue.go:96-135 | rejected exactly for a missing kind or key or a negative limit, left alone exactly when the job waits or runs, otherwise in the queue from scratch with its old id, zero attempts and no lease, and no other row changes |
| `JobTable.Queue.Claim` | internal/queue/queue.go:140-169 | nothing exactly when no row is due after the sweep; otherwise the first due row, with one attempt more and a lease of the configured length, and a handle that holds it |
| `JobTable.Queue.ExpireLeases` | internal/queue/queue.go:142-149 | the first statement alone: exactly the running rows whose lease ran out on their last attempt fail, column by column, keeping an error they have |
| `JobTable.Queue.TakeNext` | internal/queue/queue.go:150-168 | the second statement alone: nothing exactly when no row is claimable, otherwise the row with the least run_after and, among equals, the least id, column by column |
| `JobTable.Queue.Complete` | internal/queue/queue.go:176-181 | done exactly when the handle still holds the row, otherwise a lost lease and an unchanged table |
| `JobTable.Queue.Fail` | internal/queue/queue.go:185-205 | failed when the attempts are used up, queued again after the backoff otherwise, a lost lease and an unchanged table when the handle does not hold the row |
| `QueueProtocol.StepKeepsInv` | internal/queue/queue.go:96-216 | every atomic step of every worker keeps the invariant that ties rows, handles and the history of lives together |
| `QueueProtocol.BehaviourKeepsInv` | internal/queue/queue.go:96-216 | so it holds in every reachable state of any number of workers |
| `QueueProtocol.AttemptsAndOutcomesPerLife` | internal/queue/queue.go:96-216 | each life hands out the attempt numbers 1, 2, 3 and so on, each once; at most one done or failed outcome is recorded for it, and none exactly while its row waits or runs |
| `QueueProtocol.ReportCountsForNewestClaimOnly` | internal/queue/queue.go:171-216 | fencing: within a life a report is recorded exactly when the row runs and no later attempt was handed out; otherwise it changes no row |
| `QueueProtocol.WhatAReportMeets` | internal/queue/queue.go:171-216 | across lives: a report on any handle ever given out is recorded exactly when the row with its id runs and the life it is in now has handed out as many attempts as the handle says; if that is another life, the life of the handle has ended |
| `QueueProtocol.WhatAReportDoes` | internal/queue/queue.go:174-216 | a report that is recorded ends the job as done or as failed, or queues it again when the handle has an attempt left, counts for the life the row is in, and changes no other row |
| `QueueProtocol.BehaviourIssuesEveryClaim` | internal/queue/queue.go:140-169 | every attempt number in the history belongs to a handle that some worker was given |
| `QueueProtocol.OutstandingJobIsLeftAlone` | internal/queue/queue.go:92-135 | over every behaviour a job that waits or runs, however often it is enqueued meanwhile, stays the same row in the same life with no attempt taken back, until that life has its outcome |
| `QueueProtocol.SweepKeepsRowLimit` | internal/queue/queue.go:142-149 | after its own sweep a Claim sees no expired lease on a last attempt |
| `QueueProtocol.TakeKeepsRowLimit` | internal/queue/queue.go:150-162 | a lease set by a prompt Claim is not over for any Claim that has swept before it |
| `QueueProtocol.HolderKnowsLimit` | internal/queue/queue.go:191-199 | a handle that holds a row carries the row's own limit, also a handle from an earlier life of the key |
| `QueueProtocol.AttemptsStayWithinLimit` | internal/queue/queue.go:140-205 | over all interleavings of the two statements of Claim, for workers with clocks of their own that may even run backwards: queued rows have an attempt left, running rows used between one and all, a lease is set exactly while a row runs, and no life is claimed more often than its limit; for any key that keeps its max_attempts and is claimed late by at most a lease |
| `QueueLimits.LimitHoldsExactlyWhen` | internal/queue/queue.go:140-205 | for every configuration and every allowed delay: rows and lives stay within their limits on every behaviour if and only if Claims are late by at most a lease and keys keep their max_attempts |
| `QueueLimits.SlowClaimBreaksLimit` | internal/queue/queue.go:141-162 | for every configuration, any delay longer than a lease has a behaviour, with keys that keep their attempts, in which a job with one attempt is claimed twice |
| `QueueLimits.StaleReportReachesNextLife` | internal/queue/queue.go:113-122 | for every configuration, and without any delay, a behaviour with a key that changes its max_attempts in which a late report of an earlier life is taken for the next life and queues a job with no attempt left |
| `WorkerPool.StepKeepsInv` | internal/queue/worker.go:38-108 | every step of every goroutine, with Claims that pass over locked rows, keeps the busy counter exact, the idle signal due when nobody is left, and the table drained when everyone found nothing |
| `WorkerPool.ReturnsOnlyWhenNothingIsDue` | internal/queue/worker.go:38-108 | when RunUntilIdle returns without error or cancellation, no job is claimable at the clock reading of its last Claim, whatever its handlers queued and whenever they did, and although a Claim may miss a due job whose row another goroutine holds |
| `WorkerPool.EveryoneWaitingMeansIdle` | internal/queue/worker.go:63-98 | if every goroutine waits or has left and no error occurred, the idle channel is closed, so nobody waits for ever |
| `WorkerPool.NobodyLeavesEarly` | internal/queue/worker.go:84-97 | as long as the pool is neither idle nor cancelled every goroutine is there |
| `WorkerPool.ReadingsAreClocks` | internal/queue/worker.go:63-69 | every reading a Claim works with, and so the last one, is what the clock showed at some moment |
| `WorkerPool.TakenJobIsNotClaimable` | internal/queue/worker.go:67-70 | a job that a goroutine took is claimable by nobody until its lease is over |
| `WorkerPool.LastOneSeesNobodyBusy` | internal/queue/worker.go:63-77 | a goroutine that leaves sees busy at zero exactly when no goroutine is claiming, working or reporting |
| `RunKeys.ParseDec` | internal/pipeline/schedule.go:134 | a number written in decimal is read back |
| `RunKeys.LikeIsPrefix` | internal/pipeline/schedule.go:268 | LIKE with a literal and a final % is a prefix test |
| `RunKeys.PatternPicksRun` | internal/pipeline/schedule.go:225-243 | the pattern of run r matches a built key exactly when it was built for r, so run 1 never touches run 12, and the second field of the key gives the run back |
| `RunKeys.PatternMatch` | internal/pipeline/schedule.go:249-270 | for any text, a match of the pattern of run r is the prefix of run r and means that the second field is r |
| `RunKeys.PatternAgreesWithField` | internal/pipeline/schedule.go:225-243 | on built keys and on keys of no run, LIKE and split_part pick out the same run |
| `RunKeys.KeysDiffer` | internal/pipeline/schedule.go:134 | different items of a run have different keys |
| `RunTheorems.StepKeepsInv` | internal/pipeline/schedule.go:21-325 | every step of RunNow, Nightly, StopRun, the restart and the workers keeps the invariant of runs, keys and calls |
| `RunTheorems.PatternsPickJobsOfRun` | internal/pipeline/schedule.go:249-270 | in every reachable table the pattern of run r matches exactly the jobs of run r |
| `RunTheorems.RunEndsOnce` | internal/pipeline/schedule.go:29-32 | over all interleavings, `ended` is written at most once, is never overwritten, and is set exactly when finished_at is |
| `RunEnds.HowARunEnds` | internal/pipeline/schedule.go:27-32 | for every step of everyone: a run without an end gets one in exactly four ways, by FinishRun, by a cancelled Nightly, by StopRun when it has a job left, and by a restart that interrupted it, with the time of the step; a run with an end keeps it |
| `RunEnds.RestartEndsInterruptedRuns` | internal/pipeline/schedule.go:220-243 | whatever others do between the two statements of a restart, every run with a waiting or running check, read or lookup at the first has ended after the second, by the restart unless it had ended before, and every other run is as it was |
| `RunEnds.InterruptEndsJobs` | internal/pipeline/schedule.go:225-236 | the first statement leaves no check, read or lookup of any run waiting or running, and touches nothing else |
| `RunEnds.LeftoversAreReplaced` | internal/pipeline/schedule.go:69-76 | EnqueueDue ends the waiting checks, reads and lookups of all other runs, and leaves its own jobs, running jobs and other kinds alone |
| `RunTheorems.DroppingMakesQuiet` | internal/pipeline/schedule.go:249-270 | the second statement of StopRun makes a run quiet unless a call passed the `ended` check before |
| `RunTheorems.RunJobsAreNotRetried` | internal/pipeline/schedule.go:48-51 | a handle on a job of a run has no attempt left, so Fail with it ends the job |
| `RunTheorems.RunJobIsTriedOnce` | internal/pipeline/schedule.go:48-51 | with prompt Claims a job of a run is claimed at most once in each life, and once its lease ran out the sweep of any Claim ends it |
| `RunTheorems.StoppedRunStaysQuiet` | internal/pipeline/schedule.go:36-51 | once a run was stopped, its queued jobs dropped and nobody is between the check and the Enqueue, no job of it is ever queued again, whatever workers, callers and restarts do |
| `RunLimits.StopReachesExactlySoFar` | internal/pipeline/schedule.go:245-262 | the comment on StopRun made exact: for a stopped run with nothing queued, no job is ever queued again on any continuation if and only if no call is between the `ended` check and the Enqueue |
| `RunLimits.StopMissesWhoeverIsQueueing` | internal/pipeline/read.go:52-76 | from every state there is a behaviour in which a stopped run whose jobs were dropped gets a new one |
| `RunOverlap.ExclusionHoldsExactlyWhen` | internal/pipeline/schedule.go:168-218 | for every configuration: no two runs have work at once on any behaviour if and only if runs are started through RunNow alone, handlers finish inside their lease, and a restart cleans up while nobody works |
| `RunOverlap.NightlyRunsCanOverlap` | internal/pipeline/schedule.go:292-301 | from every state, with the other two premises in force, a behaviour after which two nightly runs have work at once, since Nightly takes no lock |
| `RunOverlap.SlowHandlerBreaksExclusion` | internal/pipeline/schedule.go:171-218 | with the other two premises in force, a behaviour in which a handler that outlives its lease gives its run work beside the next run |
| `RunOverlap.RestartBesideWorkerBreaksExclusion` | internal/pipeline/schedule.go:220-243 | with the other two premises in force, a behaviour in which a restart clean-up beside a working process has the same effect |
| `RunExclusion.WorkingHandlerKeepsJob` | internal/pipeline/schedule.go:171-218 | no step but its own report takes the job from a handler that works within its lease |
| `RunExclusion.QuietRunNeverWakes` | internal/pipeline/schedule.go:197-206 | a run with no outstanding job and nobody to queue one for it never gains one again |
| `RunExclusion.LookFindsNobodyBusy` | internal/pipeline/schedule.go:197-206 | what RunNow sees under the lock is enough: a busy run has a job that the query finds |
| `RunExclusion.AtMostOneRunHasWork` | internal/pipeline/schedule.go:168-218 | with runs started through RunNow and handlers inside their lease, at most one unfinished nightly or manual run has a queued or running check, read or lookup, over all interleavings |
| `SearchBudget.CountSeesMonth` | internal/search/pool.go:189-207 | counting from the start of an earlier month sees every call of the later one |
| `SearchBudget.MonthStaysWithinBudget` | internal/search/pool.go:185-212 | for any number of workers and processes with clocks of their own, a provider's calls dated in one month never exceed the budget that the last of them was made under, also when the month turns between the count and the insert |
| `SearchBudget.MonthStaysWithinFixedBudget` | internal/search/pool.go:185-212 | with a budget that never changed the bound is that budget |
| `SearchBudget.RefusedExactlyWhenSpent` | internal/search/pool.go:202-208 | a reservation is refused exactly when its count reached the budget it read, and then inserts nothing |
| `SearchBudget.BudgetHoldsExactlyWhen` | internal/search/pool.go:185-212 | for every calendar and whatever the clocks may do: calls stay within the budget on every behaviour if and only if no clock falls back into an earlier month between the count and the insert |
| `SearchBudget.BackwardClockBreaksBudget` | internal/search/pool.go:195-207 | for every calendar and budget, a clock that falls back from one month into an earlier one has a behaviour with one call too many |
| `SearchTry.OrderIsStable` | internal/search/pool.go:143-152 | the providers are tried by the share of budget left, largest first, equal shares in the order of the list |
| `SearchTry.OrderedIsMostLeftFirst` | internal/search/pool.go:137-152 | on the numbers and without a division: x before y when (Bx-Ux)*By > (By-Uy)*Bx, the list between equals, and a provider without a budget after all that have something left and before all past theirs |
| `SearchTry.MoreLeftIsLargerShare` | internal/search/pool.go:137-142 | the shares compare exactly as these numbers do |
| `SearchTry.OrderIsUnique` | internal/search/pool.go:143-152 | no other order of the same providers is sorted in that way |
| `SearchTry.Try` | internal/search/pool.go:132-183 | every provider is in the order, whoever has more of its budget left earlier, and outcome and writes are those of the turns taken in that order |
| `SearchTry.TryInOrder` | internal/search/pool.go:153-182 | the loop gives the outcome and the log that the turns determine |
| `SearchTry.OutcomeMeans` | internal/search/pool.go:153-182 | the provider returned is the first neither spent nor failing, ErrNoBudget comes back exactly when every provider was spent at its turn, the errors of all failed turns in order exactly when the others all failed, and a database error exactly when one ends the search |
| `SearchTry.EveryCallIsCounted` | internal/search/pool.go:129-131 | each inserted row is followed at once by its call, and each call follows its row |
| `SearchTry.EveryTurnIsRecorded` | internal/search/pool.go:155-176 | the events of each turn stand together: row, call, then results and error to that row, and nothing for a spent or broken reservation |
| `SearchTry.NoProviderIsCalledTwice` | internal/search/pool.go:153-182 | one search makes at most one call to each provider |
| `SiteLimiter.Limiter.Reserve` | internal/queue/sitelimit.go:33-50 | an error exactly for a URL without host, otherwise the slot and the row that the history lemmas are about |
| `SiteLimiter.RowFollowsLastSlot` | internal/queue/sitelimit.go:39-45 | a website has a row exactly when it was requested, and the row is one interval after its latest slot |
| `SiteLimiter.SlotIsEarliestAllowed` | internal/queue/sitelimit.go:33-50 | with arbitrary, even backward, clocks a slot is the earliest time that is not before its caller's clock and an interval clear of all earlier slots |
| `SiteLimiter.SlotsKeepTheirDistance` | internal/queue/sitelimit.go:13-15 | any two slots of a website are at least one interval apart |
| `SiteLimiter.BurstIsSpread` | internal/queue/sitelimit.go:33-50 | at any point of any history, a burst at time t, mixed with requests for other websites, gets f, f+I, f+2I and so on, where f is t exactly when the website is free at t, and the time it becomes free otherwise |
| `LoginWindow.Sessions.AllowAttempt` | internal/server/auth.go:73-90 | the loop prunes to the attempts inside the window, allows when fewer than five are left, and adds the new one only then |
| `LoginWindow.ListIsRecentAllowed` | internal/server/auth.go:77-82 | in whatever order attempts are handled, the pruned list is exactly the allowed attempts of the address still inside a window that ends no earlier than any of them |
| `LoginWindow.AllowedIffWindowHasRoom` | internal/server/auth.go:83-89 | an attempt that is not earlier than those before it is allowed exactly when fewer than five were allowed in the window that ends there |
| `LoginWindow.SixAreSpaced` | internal/server/auth.go:73-90 | with attempts out of order by at most a skew, of any six allowed one after the other the last comes at least sixty seconds less the skew after one of the others |
| `LoginWindow.AnyWindowHoldsAtMostFive` | internal/server/auth.go:72-90 | in clock order any six allowed attempts of an address span at least sixty seconds, so every window holds at most five |
| `LoginWindow.WindowHoldsExactlyInOrder` | internal/server/auth.go:75-76 | any six allowed attempts span sixty seconds on every history if and only if attempts are handled in the order of their clock readings |
| `LoginWindow.LateMutexBreaksWindow` | internal/server/auth.go:75-76 | for every skew, a history in which an attempt that waited for the mutex is allowed too early |
| `Lifecycle.Source.CheckSource` | internal/pipeline/check.go:127-202 | one check is one of the four transitions; a manual source keeps its row and nothing becomes a candidate |
| `Lifecycle.Source.PatchSource` | internal/server/private.go:597-645 | an edit by hand is turned down as a whole or applied as a whole, and starts the counter again exactly when it changes the status |
| `Lifecycle.HowEachStatusIsEntered` | internal/pipeline/lifecycle.go:14-50 | for every status, exactly the checks that lead into it, and status_changed_at is the time of the last change |
| `Lifecycle.SlackIsTwoHours` | internal/pipeline/lifecycle.go:51-56 | a source that a run checks is due in the run at the same hour one interval later if and only if the check came within two hours of the start of the run |
| `Lifecycle.FailureKeepsRhythm` | internal/pipeline/check.go:213-220 | after a failure that does not retire it a source is due one active interval later if and only if the check came within two hours of the start of the run |
| `Lifecycle.RetiredWaitsForItsRecheck` | internal/pipeline/check.go:221-223 | a source that its check leaves retired is due exactly from its recheck on, with the slack unless the check failed, and a search not at all |
| `Lifecycle.GoneWaitsTenYears` | internal/pipeline/check.go:214-216 | a page that is gone is due at no time within ten years of the check, and a site that refuses at no time |
| `Lifecycle.FailedSearchComesBack` | internal/pipeline/posts.go:109-118 | a search that its provider failed keeps its row and is due one active interval after the check |
| `Lifecycle.ChecksAreCounted` | internal/pipeline/lifecycle.go:62-64 | over every history the column checks counts exactly the checks that got an answer, good or bad |
| `Lifecycle.DueInEveryRun` | internal/pipeline/lifecycle.go:51-56 | so a source that is due once and checked within two hours in every run is due in every run |
| `Lifecycle.ActiveStaysBelowThreshold` | internal/pipeline/lifecycle.go:22-50 | from any row and over every sequence of checks and edits by hand, an active source has fewer than N empty checks in a row, and its counter is exactly their number |
| `Lifecycle.LeavesActiveOnlyWhenDue` | internal/pipeline/check.go:204-223 | on the same histories a source leaves active if and only if the page is gone, the site refuses, this is its N-th fruitless check in a row, or the owner says so |
| `Lifecycle.OnlyTheOwnerMovesIt` | internal/pipeline/portfolio.go:139-179 | manual is left and candidate entered again by an edit only; while it is only checked a manual source keeps its whole row |
| `Lifecycle.MiscountedPeopleBreakThreshold` | internal/pipeline/resolve.go:90-95 | without "kept with people means kept" the threshold fails: a concrete check |
| `Utf8.CutAtBoundary` | internal/llm/people.go:294-304 | cutting valid text between two characters leaves two valid texts |
| `Utf8.AsciiStandsAlone` | internal/rubric/rubric.go:359-371 | before and after an ASCII byte there is always a place between characters |
| `Utf8.TrimIsSlice` | internal/rubric/rubric.go:372 | trimming gives a slice of whole characters with no white space at either end, and takes away white space only |
| `Utf8.BlankMeans` | internal/llm/people.go:313 | text is blank exactly when it is white space from end to end |
| `Utf8Encoding.ValidIffEncoded` | internal/rubric/rubric.go:373 | text is valid exactly when it is the encoding of Unicode scalar values, and its number of characters is theirs |
| `Utf8Encoding.SpaceIsEncoded` | internal/llm/people.go:313 | the bytes that count as white space are exactly the encodings of the white-space characters |
| `SplitText.CutMakesProgressIff` | internal/llm/people.go:291-305 | a cut makes progress exactly when the first character of the line fits, and never cuts into a character |
| `SplitText.FourBytesFitAll` | internal/llm/people.go:287 | from four bytes on every character of every text fits |
| `SplitText.CutPoint` | internal/llm/people.go:292-298 | the last space that leaves the part something, or else the last place within size that is not inside a character |
| `SplitEnds.StuckIffTooWide` | internal/llm/people.go:291-305 | the inner loop never ends on a line exactly when some character of the line is wider than a part |
| `SplitEnds.NeverEndsIffTooWide` | internal/llm/people.go:287-312 | splitting never ends exactly on the texts with such a character, wherever it is |
| `SplitEnds.SmallPartsNeverEnd` | internal/llm/people.go:291-305 | a text of a letter and a wider character on which parts of two bytes never end |
| `SplitText.FindCut` | internal/llm/people.go:292-298 | the loop stops at the last space, or at the last start of a character |
| `SplitText.CutLongLine` | internal/llm/people.go:291-305 | the inner loop ends with a line that fits, the cut parts being full stretches of the page |
| `SplitText.CutLine` | internal/llm/people.go:290-312 | one line goes into parts and builder without losing a byte, and the builder is emptied only when the line has no room in it |
| `SplitText.CutLines` | internal/llm/people.go:290-312 | so do all lines |
| `SplitText.FirstParts` | internal/llm/people.go:316-323 | the first max parts come back and unread is exactly the bytes of the others |
| `SplitText.Split` | internal/llm/people.go:287-324 | all parts are stretches between cuts that lie between characters; every part has at most size bytes, or size+1 for one line of exactly size bytes; no part could have been longer; what is dropped is white space; the first max parts come back and unread is exactly the bytes of the others |
| `SplitText.SplitIsDetermined` | internal/llm/people.go:287-324 | that specification has one result only, so it says everything about what split returns |
| `SplitText.PartsJoinToPage` | internal/llm/people.go:287-324 | all parts in order with the dropped tail are the text plus one line break, byte for byte |
| `SplitText.EveryPartIsValid` | internal/llm/people.go:287-324 | every part is valid UTF-8 |
| `SplitText.BytesBetweenCuts` | internal/llm/people.go:316-322 | the bytes of the later parts are the distance between their cuts |
| `SplitText.PartsAreDetermined` | internal/llm/people.go:287-324 | any two ways to cut a page into full parts agree, as far as both go |
| `Passage.StartFrom` | internal/rubric/rubric.go:358-364 | the nearest sentence break before the match, or the start of the text |
| `Passage.EndFrom` | internal/rubric/rubric.go:365-371 | the nearest sentence break after the match, or the end of the text |
| `Passage.BackToSpace` | internal/rubric/rubric.go:377-380 | the nearest space before, but not past the sentence start |
| `Passage.OnToSpace` | internal/rubric/rubric.go:381-383 | the nearest space after, but not past the sentence end |
| `Passage.FindStart` | internal/rubric/rubric.go:358-364 | the backward loop finds that start |
| `Passage.FindEnd` | internal/rubric/rubric.go:365-371 | the forward loop finds that end |
| `Passage.CutAround` | internal/rubric/rubric.go:376-391 | the two cutting loops and the ellipses |
| `Passage.Passage` | internal/rubric/rubric.go:354-392 | never out of range; the whole sentence when it has at most 160 characters, otherwise the stretch around the match, with an ellipsis exactly where it was cut |
| `Passage.EndsAreBoundaries` | internal/rubric/rubric.go:357-383 | all four ends lie between characters although the loops step byte by byte |
| `Passage.WhereSentencesEnd` | internal/rubric/rubric.go:360-370 | a sentence ends before white space that follows a full stop, an exclamation mark, a question mark or a line break |
| `Passage.HowMuchIsQuoted` | internal/rubric/rubric.go:372-383 | the whole sentence exactly when it has at most 160 characters; otherwise each cut is the nearest to 70 bytes from the match that is not inside a word |
| `Passage.PassageIsQuote` | internal/rubric/rubric.go:354-392 | the quote is one contiguous stretch of whole characters of s, trimmed from a stretch that covers the whole match |
| `Robots.ExpressionFollowsStandard` | internal/fetch/robots.go:121-134 | the expression built from the parts between stars matches octet by octet as section 2.2.3 of RFC 9309 says |
| `Robots.RobotsMatchFollowsStandard` | internal/fetch/robots.go:121-134 | so does robotsMatch for every pattern and path |
| `Robots.Allowed` | internal/fetch/robots.go:97-118 | the verdict is that of a matching rule with the most octets, allow on a tie, allowed without a match (section 2.2.2 of RFC 9309) |
| `Robots.OrderAndRepetitionDoNotMatter` | internal/fetch/robots.go:97-118 | the verdict depends on the set of rules only |
| `Robots.EmptyPatternsDoNotCount` | internal/fetch/robots.go:102-106 | rules without a pattern change no verdict |
| `Robots.AppliesMeans` | internal/fetch/robots.go:101-109 | a rule applies where the standard says its pattern matches, and nowhere without one |
| `RobotsFile.Collect` | internal/fetch/robots.go:181-190 | the rules of one group count for the bot exactly when an agent line names it, and for everyone exactly when one is a star |
| `RobotsFile.ParseRobots` | internal/fetch/robots.go:138-195 | said of the lines of the file: the rules are those in one group with an agent line that names the bot, or with a star when no agent line does (section 2.2.1 of RFC 9309) |
| `RobotsFile.GroupsAreTogether` | internal/fetch/robots.go:149-175 | after any number of lines some group has an agent and a rule exactly when the lines put them together: no agent line between them comes after a rule or another key |
| `RobotsFile.RulesOfTheFile` | internal/fetch/robots.go:176-195 | so the rules for a bot are a matter of the lines alone |
| `RobotsFile.NamesMeans` | internal/fetch/robots.go:185 | a token names the bot when it stands somewhere in the name of the bot and is neither empty nor a star |
| `RobotsFile.FileIsItsBlocks` | internal/fetch/robots.go:149-175 | a file of whole groups is read group by group |
| `RobotsFile.GroupOrderDoesNotMatter` | internal/fetch/robots.go:138-195 | rearranging or repeating whole groups of a file changes no verdict for any bot and path |
| `ICal.UnfoldingGivesLinesBack` | internal/extract/ical.go:11-18 | for every folding as in section 3.1 of RFC 5545, with space or tab, CRLF or line feed and repeated folds, the three replacements and the split give the content lines back |
| `ICal.EscapedTextComesBack` | internal/extract/ical.go:81-84 | for every text escaped as in section 3.3.11 of RFC 5545, the replacer gives it back |
| `ICal.NoEscapeNoChange` | internal/extract/ical.go:81-84 | text without an escape is read as it is |
| `ICal.TrimMeans` | internal/extract/ical.go:83 | white space is taken off both ends, all of it and nothing else |
| `ICal.PropertyRoundTrip` | internal/extract/ical.go:9-22 | escaped, put on a line, folded in any way and read again, a text property is what it was up to outer white space if and only if no colon comes before the one that ends its name and parameters |
| `ICal.QuotedColonIsMisread` | internal/extract/ical.go:19-22 | a description with a colon inside a quoted parameter, and what it is read as |
| `Resolve.WhichEventIsTheSame` | internal/pipeline/resolve.go:225-255 | none is found exactly when no event has the address or the start and a near-identical title; an address match wins over a title match |
| `Resolve.WhenTitlesAreTheSame` | internal/pipeline/resolve.go:255-265 | titles are the same when equal, or when one of at least twelve letters stands in the other |
| `Resolve.WhoIsTheSamePerson` | internal/pipeline/resolve.go:332-390 | the same name is the same person exactly when they appear at the event, share an organisation, or neither names a different one; the first of these wins, the oldest of several, and one word matches within the event only |
| `ResolveAgain.UpsertSettles` | internal/pipeline/resolve.go:286-312 | after an upsert the organisation is found again, has nothing left to fill in, and no other row lost anything |
| `ResolveAgain.PersonStepSettles` | internal/pipeline/resolve.go:336-421 | after a person was resolved, resolving them again finds the same row and has nothing to add |
| `ResolveAgain.StaysSettled` | internal/pipeline/resolve.go:174-215 | later steps of the same event keep earlier ones settled |
| `ResolveAgain.StoredEventIsFound` | internal/pipeline/resolve.go:225-255 | the event just stored is the one that is found next, also by title after its address was new |
| `ResolveAgain.StoreAgain` | internal/pipeline/resolve.go:129-167 | storing it again changes its row no more, except that an event without a type is rejected |
| `ResolveAgain.ResolvingAgainChangesNothing` | internal/pipeline/resolve.go:113-216 | resolving the same event right again creates and changes no event, person, organisation or link, finds the same rows, reports nothing new and decides the same; exactly for events that have a type |
| `ResolveAgain.ExtractedEventResolvesAgain` | internal/extract/extract.go:124-126 | for every event as extracted, whose missing type is guessed, resolving again changes nothing, without exception |
| `ResolveAgain.EventWithoutTypeFailsTheSecondTime` | internal/pipeline/resolve.go:138-167 | an event without a type that resolves once and fails the second time |
| `ResolveReport.ReportIsTheRow` | internal/pipeline/resolve.go:113-167 | kept is reported as the row of the event says: what was decided by hand if it was, whatever the rules say, and what the rules say otherwise; new exactly when no row was found; and every column is the news, or what was known when there is none |
| `ResolveReport.WhenResolvingFails` | internal/pipeline/resolve.go:113-216 | a resolve fails exactly when the row breaks a constraint of the table or an organisation has a name that folds to nothing |
| `ResolveReport.WhenStoringFails` | internal/pipeline/resolve.go:129-159 | the row is rejected exactly for an end before the start, or a format or a type that the table does not allow |
| `ResolveReport.WhatUpsertDoes` | internal/pipeline/resolve.go:286-312 | an organisation is new exactly when no row has its name; otherwise what is empty is filled in, what is known stays, and no other row changes |
| `ResolveReport.WhatPersonStepDoes` | internal/pipeline/resolve.go:392-421 | the row of a person: new as announced, or found with an empty headline filled in, and a founder marked unless marked otherwise |
| `ResolveReport.EveryoneIsLinked` | internal/pipeline/resolve.go:172-215 | after a resolve the venue, every organiser with a name and everyone on stage with their organisation are linked to the event |
| `ResolveReport.NobodyElseIsLinked` | internal/pipeline/resolve.go:172-215 | and every link that is new is one of these |
| `ResolveReport.NewMeansAdded` | internal/pipeline/resolve.go:131-215 | as many events and people are reported as new as rows were added |
| `ResolveHistory.Resolver.ResolveOne` | internal/pipeline/resolve.go:113-216 | one transaction: all steps or none, reporting what the row says |
| `ResolveHistory.Resolver.Resolve` | internal/pipeline/resolve.go:63-104 | the events of a check one after the other up to the first error; the counters are the numbers of events kept, new, and kept with people, and of people found and added, and equal the rows added |
| `ResolveHistory.CheckIsDetermined` | internal/pipeline/resolve.go:63-104 | what a check resolved is determined by its events and the tables |
| `ResolveHistory.UrlsStayDistinct` | internal/pipeline/resolve.go:129-159 | over any history of resolves and decisions the non-empty canonical addresses stay pairwise distinct |
| `ResolveHistory.HandDecisionsStay` | internal/pipeline/resolve.go:155-167 | a fit decided by hand changes by hand only |
| `ResolveHistory.DecisionHolds` | internal/server/private.go:212-220 | from a decision by hand on the row says what was decided, over any history up to the next decision about it |
| `ResolveHistory.NothingKnownIsLost` | internal/pipeline/resolve.go:142-159 | over any history rows keep their place and names, links stay, and no known field is lost |

## Left out

- HTTP, the browser, the filter proxy, the language model and the search provider clients: their answers are arbitrary values or errors in the model.
- Regular expressions, HTML and URL parsing and Unicode normalisation: their results come in as arbitrary inputs, such as normalised names, the fit of an event and the parts of an affiliation.
- Database errors in the queue and in runs, beyond a Claim that fails in `WorkerPool` and a call that ends early: an error leaves the tables as they are.
- Payloads as JSON, and which sources, events and startups EnqueueDue selects: any job of a run may be queued.
- QueueProtocol.AttemptsStayWithinLimit: assumes Claims that are late by at most a lease and keys that keep their max_attempts, because without either it is false (`QueueLimits.LimitHoldsExactlyWhen`).
- WorkerPool.ReturnsOnlyWhenNothingIsDue: only the pool's own goroutines and their handlers touch the table, as the promise of RunUntilIdle is about the work it does itself.
- RunTheorems.RunJobIsTriedOnce: assumes Claims that are late by at most a lease, because a later one can claim a job with one attempt twice (`QueueLimits.SlowClaimBreaksLimit`).
- RunExclusion.AtMostOneRunHasWork: assumes runs started through RunNow, handlers inside their lease and restarts on their own, because without any of them it is false (`RunOverlap.ExclusionHoldsExactlyWhen`).
- SearchBudget.MonthStaysWithinBudget: assumes that within one reservation the clock does not fall back into an earlier month, because otherwise it is false (`SearchBudget.BudgetHoldsExactlyWhen`); all processes use the same time zone.
- SearchTry.OrderIsStable: shares are exact fractions, so two shares that only rounding makes equal are not equal here.
- LoginWindow.AnyWindowHoldsAtMostFive: assumes attempts handled in clock order, because otherwise it is false (`LoginWindow.WindowHoldsExactlyInOrder`).
- SplitText.Split: the text is valid UTF-8, and each of its characters fits into a part.
- Passage.Passage: the text is valid UTF-8 and the match begins and ends between characters, as matches of the rubric's expressions do.
- Robots.RobotsMatchFollowsStandard: paths without line breaks and with valid UTF-8, where the dot of the expression is any character.
- RobotsFile.ParseRobots: starts from lines already cut into key and value; the size limits of the reader and the cache are not modelled.
- ICal.PropertyRoundTrip: covers text properties; dates, parameters and the building of events are not modelled.
- ResolveAgain.ResolvingAgainChangesNothing: is about one event; for a whole list it does not hold, because a later event can move an earlier one. Rows are scanned in the order of their ids. Profile links, sightings and update times are not modelled.
- ResolveHistory.UrlsStayDistinct: resolves follow one another; two at once are kept apart by the unique index, which makes one of them fail.
- ResolveHistory.NothingKnownIsLost: deleting rows is not modelled.
- Lifecycle.Source.CheckSource: checks and edits of one source follow one another; a hand edit in the middle of a check, the fetch mode, the notes and last_checked_at are not modelled.
- Lifecycle.ActiveStaysBelowThreshold: the threshold is the same in every check; a lower one counts from the next check on.
- Lifecycle.DueInEveryRun: a run takes a limited number of due sources, and which ones is not modelled.
- The rubric's sentences, signals and scores, the startups of portfolio pages and the retry loop of the nightly run: they would add easy members only.
- The web server, its reports, the importer, deployment and the interface.
