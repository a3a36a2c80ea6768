# Verification of the transfer platform's protocols

This project models the parts of the platform whose correctness depends on order, concurrency or arithmetic that is
easy to get wrong, and proves what they keep. Each module follows one source file or one protocol.

| modules | what they model |
|---|---|
| `MerchantEvents`, `MerchantSnapshots`, `MerchantReceiver`, `MerchantConvergence`, `MerchantRuns`, `MerchantAnswers` | the merchant webhook receiver: an inbox for exactly-once processing and a status mirror, under snapshot transactions with first-committer-wins on two unique keys |
| `Decimals`, `TransferNumbers`, `Ledgers`, `TransferSaga`, `SagaRequests`, `SagaRuns`, `TransferRun` | web transfers on a database without transactions: guarded debits, ledger, journal and transaction rows, and compensations run in reverse |
| `LoginOtp`, `LoginOtpRuns`, `LoginOtpBounds`, `LoginDesk` | the login code challenge of one account, raced by verify and issue requests |
| `Calendar`, `SystemTime`, `DayBoundaries`, `DayGaps` | `Date.UTC`, the wall-clock fixed-point loop, day boundaries and report ranges |
| `MemoryCache`, `CacheTraces` | the in-memory cache with expiry times and clean-up timers |
| `SettingsCache`, `TenantCache` | the settings and tenant caches, filled and invalidated by interleaved requests |
| `SecurityPolicy`, `SecurityBreaches` | the production environment check and the one-time-password bypass |
| `Metrics` | the counters and the clamped gauge of active transfers |

Two forms are used throughout. What the program does step by step is a class whose methods update its fields and are
proved equal to a function of the old state. What many requests do together is a machine: a total step function, a run
over any list of actions (an action that cannot be taken changes nothing), and theorems about every run. Each database
call is one step.

## What the proofs say about the code

* **Receiver.** Every interleaving equals the serial replay of the committed events, stale "ignored" decisions
  included. Delivery orders converge exactly when a transfer's events do not mix a completion with a cancellation, and
  two concurrent runs that have answered the same unmixed events show the same status. The `RECEIVER_BUSY` exit is never
  taken.
* **Transfers.** Balance, ledger sum and the debits not yet posted always balance. A failed transfer is rolled back
  without trace *exactly when* the process does not run with `NODE_ENV=production` or nothing had been debited. The
  exception is in the code: `utils/financialRecordImmutability.js:3-43`, installed by `models/Ledger.js:30` and
  `models/AgencyJournal.js:77`, makes every `deleteMany` on those collections throw in production, and a leg's
  compensation deletes its ledger row before it refunds, so in production the debit stays. Standalone writes are
  possible there only in the emergency window (`services/walletService.js:9-15`), which
  `SecurityPolicy.WindowsCloseWithinADay` limits to a day from a start that passed the check.
* **Login codes.** A challenge is consumed at most once and only by its own session. Sequential requests evaluate at
  most five wrong codes; overlapping ones are bounded only by the requests that wait to clear the challenge, and for
  every n there is a run in which n of them count n wrong codes.
* **Dates.** A boundary that is returned always lies on the requested date, whatever the zone does. Days and months tile
  the time line wherever the offset does not change around them; at a change two days meet exactly when both boundaries
  have the same offset. Where the clock jumps over midnight, the date's start is its first instant only if the gap begins
  at midnight; a gap that straddles midnight makes the start too late, or `systemDayStart` returns nothing, depending on
  whether UTC midnight is past the jump. Keys of years below 1000 never have a boundary, because `systemDateKey` prints the year without
  padding (`config/systemTime.js:34-37`) while the key needs four digits.
* **Memory cache.** However late its timers run, it answers as a plain map with deadlines as long as its calls are
  careful: no `set` without a TTL writes over a deadline, past ones included; no `incr` comes at or after a deadline, and
  no `expire` either, except one of zero seconds at the deadline itself; TTLs are at most 2147483 seconds, where Node
  starts to shorten timers to one millisecond. The condition is exact for the answers: for every other call there is a
  state of the timers after which the cache answers wrongly, at once or when a timer runs
  (`CacheTraces.CarefulExactly`). The late timer is the case that matters: a counter that is counted after its deadline
  but before its timer has run loses the new count when the timer does run (`CacheTraces.LateTimerLosesTheCount`). `incr`
  rounds the remaining time up to whole seconds, so a counter that is incremented at least once a second never expires.
* **Environment check.** The check trims its variables and accepts `1`, `yes` and `on` for yes, while the wallet service
  compares `NODE_ENV` untrimmed and accepts only `true` (`services/walletService.js:9-15`). So a production environment
  that passes the check can still leave Mongo transactions optional (`SecurityPolicy.SpellingLosesTheRequirement`). No
  production falls back to the in-memory cache in `initRedis`.
* **Settings cache.** A hit is less than 30 seconds old. An update takes effect for every later hit exactly when no
  query that began within the last 30 seconds still carries an answer the update has replaced; otherwise that query
  brings the old document back after the invalidation.
* **Tenant cache.** A hit is at most five minutes plus the filling query's duration old, and that bound is reached, so
  a suspended tenant can pass for that long. Clearing the cache takes effect exactly when no query carries a tenant the
  database no longer holds; otherwise that query brings the old tenant back for another five minutes.
* **Gauge.** It equals the largest created-minus-finished count over all suffixes of the events, and shows the true
  difference exactly when at no point more transfers had finished than had been created.

## Assumptions

Money is in integer thousandths of a dinar; `minimumBalanceForDebit(cost, limit)` is `cost - limit`, costs are positive
and limits do not change during a run. A failing database call has had no effect, and outside production compensating
writes succeed. The code comparison `verifyOtp`, `Date.parse` and the time zone's offset are parameters. A new login
challenge has a fresh id. API key hashes are injective. The clock does not go back. `Date.UTC` and its year rule follow
sections 21.4.1 and 21.4.3.4 of ECMA-262.

## Model

| member | source | states |
|---|---|---|
| MerchantEvents.Validate | examples/merchant-webhook-receiver.js:18-26 | a body is accepted as an event exactly when it is the printing of that event, with an id of 1 to 180 characters, a 24-digit object id and a status that agrees with its type; every other body whose fields are strings or absent is refused |
| MerchantEvents.KnownWords | examples/merchant-webhook-receiver.js:20-23 | exactly the three event types and the nine statuses are known |
| MerchantEvents.HexDigitExactly | examples/merchant-webhook-receiver.js:21 | an object id is made of the 22 hexadecimal characters of either case |
| MerchantEvents.TerminalNeedsItsOwnEventType | examples/merchant-webhook-receiver.js:38-39 | a completed or cancelled status reaches the mirror only through its own event type; a creation never carries one |
| MerchantEvents.HistoryOnlyClimbs | examples/merchant-webhook-receiver.js:31-48 | receipts never change, status height and applied count never drop, a status changes only upwards, a terminal state is never left |
| MerchantEvents.AppliedCountIsTheInbox | examples/merchant-webhook-receiver.js:47-48 | after any events, `appliedCount` is the number of non-ignored inbox rows of the transfer and at most 4, and no row is without a state |
| MerchantEvents.StaleDecisionStaysRight | examples/merchant-webhook-receiver.js:45-47 | a decision that does not write the state is still right after any further history that leaves the event id unused |
| MerchantEvents.SameKeysSameDecision | examples/merchant-webhook-receiver.js:31-47 | a write decision depends only on the inbox key and the state row of its transfer |
| MerchantSnapshots.CommitDecidesAsNow | examples/merchant-webhook-receiver.js:30-50 | a commit that first-committer-wins admits decided on its snapshot what it would decide at its commit |
| MerchantSnapshots.SnapshotRunsAreSerial | examples/merchant-webhook-receiver.js:27-58 | every interleaving yields the inbox rows, ignored flags and states of the serial replay in commit order; event ids differ; every answer is the serial answer at a moment while its call was open |
| MerchantSnapshots.SnapshotRunsOnlyClimb | examples/merchant-webhook-receiver.js:27-58 | over any concurrent run and continuation receipts are permanent, states climb, terminal states stay, applied counts agree with the inbox |
| MerchantSnapshots.RunExtendsLog | examples/merchant-webhook-receiver.js:48-49 | committed deliveries are never reordered or lost |
| MerchantReceiver.Receiver.constructor | examples/merchant-webhook-receiver.js:13-14 | both collections start empty |
| MerchantReceiver.Receiver.OthersCommit | examples/merchant-webhook-receiver.js:27-58 | what other calls commit meanwhile is a serial replay of their events |
| MerchantReceiver.Receiver.Apply | examples/merchant-webhook-receiver.js:27-58 | one delivery leaves one receipt at its place in commit order or nothing; its answer is the serial one; a known id is answered as a duplicate for the same body and as a conflict for another; `RECEIVER_BUSY` is never returned; a duplicate-key error escapes only after eight races on the call's own keys were lost to one |
| MerchantReceiver.LostToOwnKeys | examples/merchant-webhook-receiver.js:47-48 | a race is only lost to a commit with the event's id or its transfer |
| MerchantReceiver.WinnerDecidesAsNow | examples/merchant-webhook-receiver.js:47-49 | a call that loses no race on its keys decided as a serial receiver would now |
| MerchantConvergence.UnmixedReachesSummit | examples/merchant-webhook-receiver.js:38-47 | without a mix of completion and cancellation the mirror stands at the highest status delivered so far |
| MerchantConvergence.DeliveryOrderDoesNotMatter | examples/merchant-webhook-receiver.js:31-50 | two deliveries of the same unmixed events, in any order with any repetition, end in the same status up to the cancellation word |
| MerchantConvergence.FirstTerminalEventWins | examples/merchant-webhook-receiver.js:41-47 | the first terminal event of a transfer decides its final word, whatever follows |
| MerchantConvergence.MixedOrdersDisagree | examples/merchant-webhook-receiver.js:40-42 | a set that mixes completion and cancellation has two orders with different final statuses |
| MerchantConvergence.ConvergesExactlyWhenUnmixed | examples/merchant-webhook-receiver.js:31-50 | all orders and repetitions agree if and only if the set does not mix completion and cancellation |
| MerchantRuns.AnsweredAreTheCommitted | examples/merchant-webhook-receiver.js:27-58 | in every concurrent run the answered events of an unmixed transfer are exactly its committed ones |
| MerchantRuns.RunsReachTheSummit | examples/merchant-webhook-receiver.js:27-58 | in every concurrent run the mirror of an unmixed transfer stands at the highest status among its answered events |
| MerchantRuns.ConcurrentRunsConverge | examples/merchant-webhook-receiver.js:27-58 | two concurrent runs that have answered the same events of an unmixed transfer show the same status up to the cancellation word |
| MerchantAnswers.FreshDelivery | examples/merchant-webhook-receiver.js:38-49 | the delivery of a new id, word by word: refused without a trace against an opposed final word, otherwise one receipt, and one state row with one more application exactly if the status climbs |
| MerchantAnswers.RedeliveryIsAnswered | examples/merchant-webhook-receiver.js:33-36 | after any log an event whose id was received is answered as a duplicate if its body is the same and as a conflict otherwise, and changes nothing |
| MerchantAnswers.RepliesAreExact | examples/merchant-webhook-receiver.js:33-36 | in every concurrent run a call is answered as a duplicate, or as a conflict, exactly when the same id with the same body, or with another, had been committed when it began |
| MerchantAnswers.UndisturbedCallIsServed | examples/merchant-webhook-receiver.js:27-51 | a call that nobody disturbs has the serial answer and the serial effect |
| MerchantAnswers.RefusedExactly | examples/merchant-webhook-receiver.js:47-53 | a commit is refused exactly when a later commit has its id or wrote the state row it also writes, and then leaves nothing |
| Decimals.DecimalDenotes | controllers/clientTransactionController.js:370 | the printed numeral of a number denotes that number |
| Decimals.PaddedNumeralsDiffer | controllers/clientTransactionController.js:370 | zero-padded numerals of different numbers differ, also past the padding width |
| TransferNumbers.TransferNumbersNeverRepeat | repositories/transactionRepository.js:27-41 | transfer numbers with different counter values differ, in one month and across months and years |
| TransferNumbers.TransferNumberReadsBack | repositories/transactionRepository.js:37-40 | the number reads as `ATT-`, the year's last two digits, the two-digit month, a dash and the whole counter |
| Ledgers.DeletionMovesOneSum | controllers/clientTransactionController.js:419 | deleting a transfer's rows on a wallet takes exactly their sum out of that wallet's calculated balance and out of no other |
| Ledgers.DeletionKeepsOtherRows | controllers/clientTransactionController.js:419 | the deletion empties its own number and wallet and leaves every other number and wallet its rows in order |
| Ledgers.DeletionOnlyRemoves | controllers/clientTransactionController.js:442 | a row remains exactly when it was there and does not match |
| Ledgers.AppendedRow | repositories/ledgerRepository.js:73-80 | a new row adds its amount to its own wallet's calculated balance only |
| SagaRequests.ForwardIsGood | controllers/clientTransactionController.js:411-555 | a forward call changes only its own request's rows, and moves balances and ledger sums by exactly the change in its held and posted shares |
| SagaRequests.BackwardIsGood | controllers/clientTransactionController.js:631-636 | the same for one call of a compensation |
| SagaRequests.ForwardKeepsShape | controllers/clientTransactionController.js:411-560 | going forward, the stack holds exactly the compensations of the effects in place |
| SagaRequests.BackwardKeepsShape | controllers/clientTransactionController.js:631-638 | going back, the stack still covers exactly the remaining effects, or in production the effects that cannot be deleted stay |
| SagaRuns.RunsKeepBooks | controllers/clientTransactionController.js:363-638 | in every run each request owns exactly its rows under a number of its own, and all sums agree |
| SagaRuns.BalanceIsLedgerMinusUnposted | repositories/ledgerRepository.js:73-80 | at every moment a balance is the opening plus the sum of its ledger rows minus the debits not yet posted |
| SagaRuns.SettledWalletAgreesWithLedger | repositories/ledgerRepository.js:69-80 | once all requests settled, balance and ledger agree if and only if no request was lost in production between a debit of the wallet and its row |
| SagaRuns.RollbackLeavesNoTraceExactly | controllers/clientTransactionController.js:631-638 | a rolled-back request has no money and no row left if and only if it ran outside production or failed before its first debit |
| SagaRuns.LostDebitHappens | controllers/clientTransactionController.js:498-503 | a run in production that fails right after its debit ends rolled back with the money gone and no ledger row |
| SagaRuns.StuckDebitHappens | controllers/clientTransactionController.js:498-510 | a run in production that fails after its ledger row ends rolled back with debit and row both still there |
| SagaRuns.FailedTransfersCostNothing | controllers/clientTransactionController.js:631-638 | outside production a settled wallet has paid for the committed transfers only |
| SagaRuns.CommittedTransfersSurvive | controllers/clientTransactionController.js:548-584 | a committed transfer keeps one row of the right amount per debit, its journal row and its transaction row through everybody else's rollbacks |
| SagaRuns.AdvanceDebitsExactly | controllers/clientTransactionController.js:411-416 | a debit is refused exactly when the wallet does not exist or would end up below minus its credit limit; otherwise exactly the cost is taken |
| SagaRuns.DirectTransferCommits | controllers/clientTransactionController.js:490-584 | an affordable transfer that nobody disturbs is committed with its debit, its row and its transaction |
| SagaRuns.ProductionGivesNothingBack | controllers/clientTransactionController.js:631-636 | in production a compensation leaves balances, ledger and journal as they are |
| SagaRuns.RowsReportTheirDebits | controllers/clientTransactionController.js:424-429 | in every run each ledger row reports the balances of its wallet right before and right after a debit of its amount |
| SagaRuns.CreditFloor | controllers/clientTransactionController.js:396-437 | over every interleaving a wallet that opens at or above minus its limit stays there, one that opens below is never debited, and every ledger row reports a consistent balance above the floor |
| TransferRun.Bank.constructor | controllers/clientTransactionController.js:363-367 | the bank starts from the opening balances without rows |
| TransferRun.Bank.Debit | controllers/clientTransactionController.js:411-416 | the debit succeeds exactly when the wallet exists and does not end up below minus its credit limit, and then moves exactly the cost |
| TransferRun.Bank.Charge | controllers/clientTransactionController.js:411-430 | a leg is refused without effect, or its compensation is pushed with its debit, and its row follows unless the next call fails |
| TransferRun.Bank.Compensate | controllers/clientTransactionController.js:417-422 | outside production a compensation deletes its rows and gives back its cost; in production a deletion of ledger or journal rows throws before the refund |
| TransferRun.Bank.Forward | controllers/clientTransactionController.js:411-570 | at every stop the database shows exactly the effects on the stack; the run succeeds exactly when both guards hold and no call fails |
| TransferRun.Bank.Rollback | controllers/clientTransactionController.js:631-638 | draining the stack in reverse restores the database outside production, and in production leaves exactly what cannot be deleted |
| TransferRun.Bank.PostTransfer | controllers/clientTransactionController.js:363-638 | the whole run: committed exactly when every leg is affordable and no call fails, and then with all its effects; debited exactly when a call succeeds and the first leg is affordable; failed without any change if and only if not in production or not debited |
| TransferRun.CommittedTransfer | controllers/clientTransactionController.js:411-555 | spelled out: each wallet minus its cost, one ledger row per leg with the balances before and after, the transaction row, and the journal row for sub-accounts only |
| TransferRun.UndoneInTurn | controllers/clientTransactionController.js:632-636 | each compensation takes its own effect back to the database before it |
| LoginOtpRuns.RunsKeepProtocol | controllers/executorAuthController.js:337-390 | the protocol invariant holds over every interleaving of verify, issue and clear |
| LoginOtpRuns.LoginNeedsItsOwnLiveChallenge | controllers/executorAuthController.js:373-387 | a login completes only if at its compare-and-swap the stored challenge was the session's own, unexpired, issued with the code that was checked, and not closed since |
| LoginOtpRuns.EachChallengeConsumedOnce | controllers/clientAuthController.js:395-412 | a later login consumes a later challenge, so each challenge is consumed at most once |
| LoginOtpRuns.NoLoginAfterCloseWithoutIssue | controllers/executorAuthController.js:359-364 | after a challenge is cleared or consumed no login succeeds before another is issued |
| LoginOtpRuns.AttemptsAreTheWrongCodes | controllers/executorAuthController.js:352-366 | the stored attempts are the wrong codes counted against the live challenge; five or more imply a request about to clear it |
| LoginOtpBounds.AttemptsBoundedByClearing | controllers/executorAuthController.js:354-364 | over every interleaving a live challenge has at most four wrong codes plus one per request that is about to clear it |
| LoginOtpBounds.OverlappingRequestsHaveNoBound | controllers/clientAuthController.js:379-388 | for every n there is a run in which n overlapping requests count n wrong codes against one live challenge |
| LoginDesk.Desk.constructor | controllers/executorAuthController.js:133-137 | the session carries the issued challenge id |
| LoginDesk.Desk.PostVerify | controllers/executorAuthController.js:337-390 | one verify run: it completes exactly when the stored challenge is the session's own, has not expired and carries the submitted code; the exact new challenge, outcome, session and date for every input |
| LoginDesk.UndisturbedVerifyExactly | controllers/executorAuthController.js:344-390 | an undisturbed request logs in exactly under those three conditions, whatever the attempts; otherwise it counts against its own challenge and clears it with the fifth wrong code |
| LoginDesk.RightCodeLogsInExactly | services/loginOtpService.js:235-250 | after an issue and any number of wrong codes, the right code logs in exactly if there were at most four and at most five minutes have passed |
| LoginDesk.DroppedChallengeIsGone | services/loginOtpService.js:211-213 | once the stored challenge is dropped no code logs in |
| LoginDesk.StepsAreVerifyAlone | controllers/clientAuthController.js:367-412 | the three database calls of an undisturbed request add up to the handler's own result |
| LoginDesk.ScriptKeepsGuessed | controllers/executorAuthController.js:352-366 | between undisturbed calls a live challenge has at most four wrong codes, all counted |
| LoginDesk.AtMostFiveWrongCodes | controllers/executorAuthController.js:358-365 | in sequential runs at most five wrong codes are evaluated against a challenge |
| Calendar.CivilRoundTrip | config/systemTime.js:39-44 | every existing date of every year survives conversion to a day number and back |
| Calendar.DayRoundTrip | config/systemTime.js:39-44 | every day number survives conversion to a date and back, and the date exists |
| Calendar.ValidCalendarDateExactly | config/systemTime.js:39-44 | the check accepts, for years 0 to 9999 and two-digit months and days, exactly the existing dates of year 100 on |
| Calendar.DayNumberCounts | config/systemTime.js:39-40 | the day number of an existing date is the signed count of days from 1970-01-01, by year and month lengths |
| Calendar.DateUtcCounts | config/systemTime.js:49-58 | `Date.UTC` counts milliseconds from 1970-01-01T00:00Z and reads the years 0 to 99 as 1900 to 1999 |
| Calendar.EpochIsZero | config/systemTime.js:50 | 1970-01-01T00:00Z is 0 |
| SystemTime.ErasMirror | config/systemTime.js:54-58 | years before 1 are shown by their number in the earlier era |
| SystemTime.ZonedDateTime | config/systemTime.js:49-64 | the loop computes the bounded fixed-point iteration |
| SystemTime.RepresentedIsLocal | config/systemTime.js:54-58 | from year 100 on the displayed parts read back as the wall time |
| SystemTime.LoopResultExactly | config/systemTime.js:52-63 | for any bounded offset function, gaps included, the result is the first try whose wall time is the target, or the fifth try; it shows the target exactly if and only if one of the five does |
| SystemTime.TwoRoundsSettleExactly | config/systemTime.js:52-62 | two rounds are enough if and only if the offset at the target read as UTC is also the offset at the instant it leads to, and more rounds then change nothing |
| DayBoundaries.SystemDateRange | config/systemTime.js:87-94 | the filter holds the start of the first date and the end of the second, each only if it exists, and is null if neither does |
| DayBoundaries.NewYearOfTripoli | config/systemTime.js:66-85 | two hours ahead of UTC, 2026-01-01 is from 2025-12-31T22:00Z to a millisecond before 2026-01-01T22:00Z |
| DayBoundaries.BoundaryLiesOnItsDate | config/systemTime.js:66-82 | in any bounded zone, settled or not, a boundary that is returned lies on the requested local date, which exists and has a year of at least 1000 |
| DayBoundaries.BoundaryInstant | config/systemTime.js:66-85 | where those two offsets agree for a boundary, it is the target less that offset |
| DayBoundaries.SteadyDay | config/systemTime.js:66-85 | in a stretch of one offset the boundaries of a day are its first and last millisecond |
| DayBoundaries.BoundaryExistsExactly | config/systemTime.js:66-82 | where the offset is consistent a text has a boundary exactly when it is a key of an existing date of year 1000 on |
| DayBoundaries.NextDateIsNextDay | config/systemTime.js:39-44 | the calendar's next date, across months, years and leap days, is the next day number |
| DayBoundaries.DaysMeet | config/systemTime.js:84-85 | one millisecond after a day's end is the next date's start if and only if both boundaries have the same offset |
| DayBoundaries.InstantLiesInItsDayOnly | config/systemTime.js:66-85 | where the offset does not change around a date, an instant lies between its boundaries exactly when that is its local date |
| DayBoundaries.MonthIsTheUnionOfItsDays | routes/adminTransactions.js:226-231 | where the offset does not change around a month, its range holds exactly the instants whose local date is one of its days |
| DayGaps.GapHasNoInstant | config/systemTime.js:49-64 | a wall time in a gap is shown at no instant |
| DayGaps.GapResult | config/systemTime.js:52-63 | for a target in a gap the four rounds run out; the result misses the target by the width of the gap, past it if the zone has its new offset at the target read as UTC, and before it otherwise |
| DayGaps.BoundaryInGap | config/systemTime.js:66-82 | of a day's start and end in a gap only the one moved into the day is returned, the other is null |
| DayGaps.StartIsFirstInstantExactly | config/systemTime.js:66-84 | a date whose midnight is skipped begins at the jump, and its start is that instant if and only if the gap begins at midnight and UTC midnight is past the jump |
| MemoryCache.Memory.constructor | config/redis.js:12-15 | a new cache is empty |
| MemoryCache.Memory.GetValue | config/redis.js:17-25 | reads the value, or drops an expired item and returns nothing |
| MemoryCache.Memory.SetValue | config/redis.js:27-37 | stores value and expiry and replaces the timer only when there is a TTL |
| MemoryCache.Memory.Delete | config/redis.js:39-43 | removes item and timer |
| MemoryCache.Memory.Increment | config/redis.js:45-52 | one more than the number read, with the seconds that were left |
| MemoryCache.Memory.ExpireIn | config/redis.js:54-62 | sets expiry and timer of a stored item only |
| MemoryCache.Memory.FlushAll | config/redis.js:64-68 | clears items and timers |
| MemoryCache.Memory.RunTimer | config/redis.js:35 | a due timer deletes its key |
| MemoryCache.SetRefinesExactly | config/redis.js:27-37 | a `set` keeps cache and plain map with deadlines in step if and only if it has a TTL that fits a timer or meets no pending timer |
| MemoryCache.ForbiddenSetLosesItsValue | config/redis.js:27-37 | any other `set` loses its value while the plain map still has it |
| MemoryCache.GetRefines | config/redis.js:17-25 | a read returns only what the plain map holds, and everything that is not yet over |
| MemoryCache.ExpireRefines | config/redis.js:54-62 | `expire` keeps the refinement up to the deadline, also with zero seconds |
| MemoryCache.FireRefines | config/redis.js:35-61 | a timer that runs when due takes only values that are over |
| MemoryCache.IncrRefines | config/redis.js:45-52 | `incr` keeps the refinement and returns the plain map's count |
| CacheTraces.CarefulTracesStaySound | config/redis.js:11-69 | over every careful trace, with timers that run any time after they are due, each live item's timer is its expiry, no timer is due before its key's deadline, and nothing live is missing |
| CacheTraces.CarefulTracesAnswerAsPlain | config/redis.js:11-69 | after every careful trace `get` and `incr` answer as the plain map with deadlines; in the instant of the deadline a value may already be gone |
| CacheTraces.CarefulExactly | config/redis.js:17-62 | a call leaves every later answer of `get` and `incr` right, whatever the timers have done and will do, if and only if it is careful |
| CacheTraces.CarelessWriteIsLost | config/redis.js:27-52 | every `set` or `incr` that is not careful loses a live value in the cache whose timers have not run |
| CacheTraces.LateExpireRevives | config/redis.js:54-62 | an `expire` after the deadline brings the value back while its timer has not run |
| CacheTraces.LongExpireIsLost | config/redis.js:54-62 | an `expire` whose TTL does not fit a timer loses a live value one millisecond later |
| CacheTraces.LateTimerLosesTheCount | config/redis.js:27-52 | a counter counted after its deadline but before its timer loses the new count |
| CacheTraces.IncrMovesDeadline | config/redis.js:45-52 | before the deadline `incr` answers and stores one more, and moves expiry and timer by less than a second, to a whole number of seconds from now |
| CacheTraces.IncrementsAddUp | config/redis.js:45-52 | before the deadline n calls of `incr` add n to what the cache stores and answers, whatever is done to other keys and whichever timers run, and move the deadline by less than n seconds |
| CacheTraces.FrequentCountsKeepTheWindowOpen | config/redis.js:49-50 | in every trace that counts a key at least once a second, the cache's expiry and timer of the key stay ahead of the clock without end |
| SettingsCache.SettingsRepository.constructor | repositories/settingsRepository.js:10-11 | nothing is cached at first |
| SettingsCache.SettingsRepository.Look | repositories/settingsRepository.js:18-22 | answers from the cache exactly when not forced, filled and younger than 30 seconds |
| SettingsCache.SettingsRepository.Fill | repositories/settingsRepository.js:24-26 | caches the query's answer with the time read before the query |
| SettingsCache.SettingsRepository.Forget | repositories/settingsRepository.js:33-37 | an update drops the document and keeps the time |
| SettingsCache.SettingsRepository.InvalidateCache | repositories/settingsRepository.js:42-45 | drops both |
| SettingsCache.LookAsksExactly | repositories/settingsRepository.js:18-24 | a read asks the database exactly when it is forced or nothing younger than 30 seconds is cached |
| SettingsCache.HitsAreRecent | repositories/settingsRepository.js:18-27 | over all interleavings a hit is a document the database held less than 30 seconds ago, and a miss one it held after its read began |
| SettingsCache.ForgettingTakesEffectExactly | repositories/settingsRepository.js:33-45 | after an update's or a manual invalidation no later hit is older than it if and only if no query younger than 30 seconds still carries a replaced answer |
| TenantCache.TenantResolver.constructor | middlewares/tenantResolver.js:11 | the cache starts empty |
| TenantCache.TenantResolver.GetFromCache | middlewares/tenantResolver.js:179-187 | an entry answers up to and including its expiry, afterwards it is dropped |
| TenantCache.TenantResolver.Remember | middlewares/tenantResolver.js:147-155 | only a tenant that was found is cached, for five minutes from the end of its query |
| TenantCache.TenantResolver.Invalidate | middlewares/tenantResolver.js:193-195 | clears all entries |
| TenantCache.LookAsksExactly | middlewares/tenantResolver.js:147-153 | a lookup asks the database exactly when the key has no entry or its five minutes are over |
| TenantCache.HitsAreRecent | middlewares/tenantResolver.js:147-191 | a hit is a tenant the database held at most five minutes plus the filling query's duration ago |
| TenantCache.SlowFillOutlivesFiveMinutes | middlewares/tenantResolver.js:189-191 | the bound is reached for every query duration |
| TenantCache.InvalidationTakesEffectExactly | middlewares/tenantResolver.js:193-195 | after the cache is cleared no later hit is older than that if and only if no answered query carries a tenant the database no longer holds |
| SecurityPolicy.TrimIsTheMiddle | config/securityPolicy.js:5 | cleaned text is the text less the space at its two ends |
| SecurityPolicy.SpacesExactly | config/securityPolicy.js:5 | what is trimmed is exactly the 25 white-space and line-end characters of ECMA-262 |
| SecurityPolicy.LowerLetters | config/securityPolicy.js:6 | lower case changes the letters A to Z into a to z and nothing else |
| SecurityPolicy.SharedSecrets | config/securityPolicy.js:111-117 | the nested loops report exactly the pairs that hold the same secret |
| SecurityPolicy.WindowErrors | config/securityPolicy.js:144-166 | an enabled window is refused exactly for a missing expiry, one more than a day ahead, or an active window without a reason |
| SecurityPolicy.Misconfigurations | config/securityPolicy.js:124-251 | the faults reported are exactly those of the given checks that the environment has |
| SecurityPolicy.ValidateProductionSecurityEnv | config/securityPolicy.js:93-256 | outside production nothing is refused; in production the errors are exactly the violations, and there are none if and only if every variable reads as accepted |
| SecurityPolicy.PolicyHoldsExactly | config/securityPolicy.js:101-256 | nothing is violated if and only if the secrets are long and different, every variable reads one of its accepted words, the alternatives are met and each emergency window ends within a day with a reason |
| SecurityBreaches.EachBreachIsNamed | config/securityPolicy.js:124-251 | in every accepted environment a change that breaks one check is reported with exactly that check's error |
| SecurityBreaches.EachFlagIsNamed | config/securityPolicy.js:119-122 | in every accepted environment turning on a forbidden flag is reported, and nothing else |
| SecurityBreaches.BlankSecretIsNamed | config/securityPolicy.js:101-117 | in every accepted environment blanking a secret is reported as short, and not as shared |
| SecurityBreaches.OptionalModeIsNamed | config/securityPolicy.js:125-143 | an optional or absent mode is reported as verification not required, and not as unknown |
| SecurityBreaches.SampleIsAccepted | config/securityPolicy.js:93-256 | a concrete production environment is accepted at any time |
| SecurityPolicy.SecretsSoundExactly | config/securityPolicy.js:101-117 | no secret is refused if and only if the four are at least 32 long and pairwise different |
| SecurityPolicy.BypassExactly | config/securityPolicy.js:81-91 | with a valid production policy the one-time password is skipped exactly when client OTP is disabled by name or its emergency window is open |
| SecurityPolicy.BypassOutsideProductionExactly | config/securityPolicy.js:81-90 | outside production the one-time password is skipped exactly if verification is not required, client OTP is disabled, or no code is forced and one of the waivers is on |
| SecurityPolicy.WindowsCloseWithinADay | config/securityPolicy.js:32-44 | no emergency window that passed the check is open a day later |
| SecurityPolicy.BypassEndsExactly | config/securityPolicy.js:81-91 | from a day after a valid production start on, the one-time password is never skipped, if and only if client OTP is not disabled by name |
| SecurityPolicy.TransactionsRequiredAt | services/walletService.js:9-15 | at any time transfers require Mongo transactions unless the emergency window is open or neither variable is spelled so |
| SecurityPolicy.TransactionsRequiredExactly | services/walletService.js:9-15 | corollary of the closing windows: from a day after a valid start on, transfers require Mongo transactions if and only if one of the two variables is spelled as the wallet service reads it |
| SecurityPolicy.SpellingLosesTheRequirement | services/walletService.js:9-15 | every valid production environment has a spelling that is still valid and under which nothing requires transactions |
| SecurityPolicy.CacheStoreExactly | config/redis.js:93-141 | the in-memory cache is used exactly when nothing demands Redis and it is switched off, not configured or not reached |
| SecurityPolicy.ProductionNeverFallsBack | config/redis.js:93-141 | no production, checked or not, falls back to the in-memory cache |
| SecurityPolicy.ProductionUsesRedis | config/redis.js:93-141 | corollary of the check: a valid production's start is refused exactly when Redis does not connect |
| Metrics.Store.constructor | middlewares/metrics.js:12-25 | all counters start at zero |
| Metrics.Store.RecordEvent | middlewares/metrics.js:94-102 | every counter is the number of its events so far and the gauge their clamped fold |
| Metrics.NetIsCreatedMinusFinished | middlewares/metrics.js:98-100 | the net count of a run of events is what was created less what was completed or cancelled |
| Metrics.GaugeIsTheBestSuffix | middlewares/metrics.js:98-100 | the gauge is the largest created-minus-finished count over all suffixes, the empty one included |
| Metrics.GaugeIsTrueExactly | middlewares/metrics.js:98-100 | the gauge is never below the true difference, and equals it if and only if no prefix finished more than it created |

## Left out

- Mongo transactions in `postTransfer`: an abort is atomic there; only the standalone mode is modelled.
- Idempotency, transfer cooldown, wallet lock, pricing, audit and auto-route of `postTransfer`: nothing is claimed about replay or exclusion.
- Rounding of money: `roundMoney` works on floating-point numbers; amounts here are whole thousandths.
- Balance changes from outside the transfers, changed credit limits, and a database call that fails although it took effect.
- TransferRun.Bank.PostTransfer: one run without other requests in between; interleavings are the subject of `SagaRuns`.
- The admin lifecycle (`acceptTask`, assign-executor, pull-task): pull-task saves unconditionally, so "completed" is not final there.
- MongoDB's `withTransaction` inside the receiver: a transient retry is one more round with a fresh snapshot; commit errors of unknown outcome are not modelled.
- MerchantEvents.Validate: the regular expression coerces `transaction_id`, so the code also lets a one-element array of 24 hex digits through; here only a string passes.
- The receiver's HMAC check, body parsing and HTTP answers; a body arrives as its four fields.
- The client's `postVerify` for business logins and authenticator apps, and the code hash: `verifyOtp` is any predicate.
- LoginDesk.AtMostFiveWrongCodes: for requests that do not overlap; `LoginOtpBounds` says what overlapping ones can do.
- Reuse of a live challenge, delivery of codes and password resets.
- The text formatting of `Intl.DateTimeFormat`: a zone is a function from instants to whole-second offsets.
- DayBoundaries.InstantLiesInItsDayOnly: for days around which the offset does not change, and so for the month ranges; at a change of offset the soundness results, `DaysMeet` and, where the clock jumps forward, `DayGaps` hold; which of two midnights is returned where the clock falls back is not stated.
- SystemTime.LoopResultExactly: for targets from the third day of year 100 on; earlier ones can be displayed with a two-digit year, which `Date.UTC` reads as 19xx.
- Parsing of `monthDateRange`'s text: year and month arrive as numbers, and the month's last day is computed on the calendar, not in the process's own zone.
- MemoryCache.Memory.Increment: one clock reading per call, and `parseInt` reads digits only (no sign, space or `0x`); negative TTLs and an expiry of exactly 0 are left out.
- CacheTraces.CarefulTracesAnswerAsPlain: for careful traces; `CarefulExactly` shows for each single call that the condition cannot be weaker.
- Overlapping calls of `incr` (each awaits its read) and the Redis client itself.
- The tenant resolver's host, header and session checks, and `isSystemClosed`.
- The warnings and message texts of the environment check; lengths count characters, not UTF-16 units; lower case concerns the letters A to Z, which decide all compared words; one clock reading per check.
- The HTTP metrics, the webhook queue sample and the text output of the metrics endpoint.
- Notifications, sockets, receipts, reports, page rendering, schemas and permission tables: not algorithmic.
