# Verified models of the GiroMesa protocols

GiroMesa is a restaurant platform. A dozen places in it are more than storing rows: queues shared
by several workers, a command log kept in the browser, a sanitizer walking object graphs, small
codecs, ledgers and rate limits. The Dafny files here model those places, one module per source
file or component, and prove what their code and documentation promise, for every input or every
interleaving. Where the code does not keep a promise, a lemma shows the failing case and another
one says exactly when the promise holds.

`dafny verify dfyconfig.toml` checks everything.

## How the models are built

- A statement sent to the database, or a closure run under the browser's storage lock, is one
  atomic step. A run is a list of steps; theorems about runs quantify over all lists.
- Clocks, random draws, HTTP answers, DNS answers, HMAC digests and the text redaction are
  parameters that may take any value.
- Code that changes state in place is a class or a loop whose contract equals a specification
  function or a run of the shared machine; the theorems are about those.

The modules:

| module | what it is |
|---|---|
| `Options`, `Ascii`, `Decimals`, `Powers` | an absent value, letter case, decimal text, powers of two |
| `RetryPolicy` | exponential back-off with jitter, over real draws |
| `WorkerOutbox`, `WorkerSteps` | publishers sharing the outbox table, with crashes and operator retries, and each of their statements written out |
| `FiscalQueue`, `FiscalSteps`, `FiscalFaults`, `FiscalOrder`, `FiscalWorker` | the lease queue of fiscal operations: two-statement claims and unfenced settlements, each statement written out, what they do not prevent and when, runs with timely ones, and the worker's loop |
| `SafePayload`, `OperationalOutbox`, `OutboxRuns`, `OutboxReconcile`, `OutboxVerdicts`, `OutboxDrivers`, `OutboxLaziness` | the browser's command log, what its answers decide, its drivers, and its pruning |
| `SensitiveKeys`, `Sanitizer`, `Resanitizing`, `Fidelity`, `Secrets` | which keys are secret, the traversal of an object graph, a second pass over its output, what a copy keeps at each place, and what it shows of records and Errors |
| `CopiedNodes`, `Idempotence`, `Losses`, `Spotless` | properties of all copies read off the object graph: when a second pass changes nothing, when every object met is copied, when no text at all leaks |
| `Base32`, `Spelling`, `Totp` | the codec on 32-bit accumulators (section 6 of RFC 4648), how a secret may be written, truncation (section 5.3 of RFC 4226) and the step window (section 5.2 of RFC 6238) |
| `PaymentLedger`, `PaymentReadings`, `NfcePayments` | the signed ledger against the per-charge allocation and against the database's sum, and the invoice's payment block |
| `EscPos`, `EscPosPrinter`, `EscPosSettings` | the bytes of a receipt, a printer that reads them, and what the settings come to |
| `SafeHttp`, `PrivateAddress` | the outbound client's redirect loop (section 15.4 of RFC 9110), and its test of addresses |
| `SlidingLog`, `MessageGate`, `MessageAnswers`, `RateLimit` | the message endpoint's sliding window and memory, and the fixed-window limiter |
| `FiscalWebhook`, `WebhookOutcomes` | folding provider events over a document, and what they leave on it |

## What was found

- Sanitizing is not idempotent for Errors. A cause given to the constructor is copied by the first
  pass as a property, which the second pass reads twice and replaces by the circular marker; and
  an Error's inherited name is redacted only by the second pass. `Idempotence.IdempotentIff` gives
  the object graphs for which the second pass changes nothing, exactly.
- An Error whose cause is one of its properties loses it in the first pass: the cause is copied, and
  then overwritten by the marker. `Losses.AllAreCopiedIff` says exactly when every object met is
  copied, and `Losses.CopiesAndLosses` how many are not.
- Names of fields and keys of Maps come out as they are, no key hides its value, and neither does
  redaction reach an inherited name. `Spotless.SpotlessIff` says exactly when that shows a text that
  redaction would change.
- A publisher holding a stale snapshot claims an event before its retry time, because the claim
  repeats the status test and not the date: exactly when the event was written since the snapshot and
  the delay that write set is not over (`WorkerOutbox.ClaimedEarlyIff`). A fiscal worker does the same,
  exactly when an attempt failed since its select and the delay of the last failure is not over
  (`FiscalFaults.ClaimedEarlyIff`).
- Between operator retries the receiver may accept one event up to eight times: a request whose answer was lost
  is sent back as if it had been refused. It accepts an event a second time exactly when an answer was so
  lost before (`WorkerOutbox.SecondAcceptanceIff`); 2xx answers come back at most once.
- An event whose owner crashes, whose owner's pass is ended by an exception, or that has no tenant,
  stays in `processing` for good.
- In the fiscal queue the limit of eight attempts does not bound claims. `FiscalFaults.NinthClaimIff`
  says exactly when a ninth claim is made: the lease of the last one ran out unsettled, an event of
  unknown result or a late failure of an earlier attempt put the row back, or the row is closed and
  was selected before. No crash is needed: events alone allow any number of claims. A stale claim can
  revive a finished operation, and a late settlement can overwrite one.
- In the browser's log a key is forgotten a day after its confirmation; the same command executed
  later is sent again, exactly then (`OutboxRuns.SentAgainIffExpired`). `pruneConfirmed`'s count is
  the only thing that shows when pruning happened, and does so exactly when something had expired.
- A key of the browser's log may be used again for another method or operation, which the log does not
  compare: the stored command is sent, not the one given (`OutboxRuns.AnotherCommandIsSentIff`).
- The database sums payments by its own case distinction: it leaves out confirmed rows without a type and
  takes off refunds with an empty link. `PaymentReadings.TheDatabaseReadsNoMore` says exactly when that
  differs from the ledger.
- The limiter lets through up to twice the limit less one in a window's length, and that is reached
  for every limit.
- Outside the printer's table pages a letter may encode to a command byte: what is printed is the
  text exactly when no character shares its low byte with one (`EscPosPrinter.PrintsItsLettersIff`),
  and U+011B does.
- A webhook event that arrives before its document is recorded, and so lost: everything ends as if it
  had never been sent.
- The outbound client refuses IPv4 addresses, dotted or after `::ffff:`, exactly when their number is in
  the ranges (`PrivateAddress.WrittenIsPrivateIff`). It also refuses IPv6 addresses whose first group is
  short and starts like a local one, and refuses none that writes its leading zero groups out
  (`PrivateAddress.LongFormIsNotRefused`). After `::ffff:` it takes any four numbers, beyond 255 too.

## Model

| member | source | states |
|---|---|---|
| RetryPolicy.DelayBand | apps/worker/src/outbox.ts:220-231 | every delay is between three and five quarters of the capped exponential, at least 750 ms and at most 15 minutes, for any attempt and draw |
| RetryPolicy.DelayIsNearest | apps/worker/src/outbox.ts:226-231 | the delay is the whole millisecond nearest to the jittered exponential, halves up, and never more than fifteen minutes |
| RetryPolicy.RetryAtIsInTheFuture | apps/worker/src/fiscal-operations.ts:15-18 | a retry is due between 750 ms and 15 minutes after now |
| RetryPolicy.DelaysGrowDespiteJitter | apps/worker/src/outbox.ts:226-230 | for attempts 1 to 11 each delay exceeds the one before whatever the two draws |
| RetryPolicy.GrowthStopsAtTheCap | apps/worker/src/outbox.ts:226-230 | from the eleventh attempt on, some pair of draws makes the next delay shorter |
| RetryPolicy.WaitsBeforeDeadLetter | apps/worker/src/outbox.ts:220-232 | the seven waits before a dead letter total between 95,250 and 158,750 ms |
| WorkerOutbox.StepKeepsInv | apps/worker/src/outbox.ts:80-215 | each step of any publisher, insert, operator retry or crash keeps: one owner per event, the owner's attempt number, attempts bounds, requests at most attempts |
| WorkerOutbox.RunKeepsInv | apps/worker/src/outbox.ts:74-218 | so does every interleaving |
| WorkerOutbox.Safety | apps/worker/src/outbox.ts:80-215 | in every run an event has at most one owner, at most 8 attempts (7 when pending), and no more acceptances than requests and requests than attempts; requests ever made are bounded by operator retries |
| WorkerOutbox.AcknowledgedAtMostOnce | apps/worker/src/outbox.ts:182-199 | between operator retries at most one 2xx answer comes back for an event, none while it waits, and processed means one did |
| WorkerOutbox.SecondAcceptanceIff | apps/worker/src/outbox.ts:155-213 | in any run the receiver accepts an event it accepted before, with no operator's retry in between, if and only if an answer to an accepted request was lost, or denied it, and the event was sent back below the eighth attempt |
| WorkerOutbox.AcceptedOnceIff | apps/worker/src/outbox.ts:155-213 | throughout a run the receiver accepts an event at most once between operator retries if and only if no request is accepted after such a loss |
| WorkerOutbox.LostAnswersAreAcceptedAgain | apps/worker/src/outbox.ts:171-213 | for every n from one to eight a run without an operator in which the receiver accepts one event n times and one 2xx answer comes back |
| WorkerOutbox.SettlementFollowsContract | apps/worker/src/outbox.ts:182-214 | exactly which answers make a row processed, pending or dead letter at each attempt, and when it is due again |
| WorkerOutbox.SettledForever | apps/worker/src/outbox.ts:93-104 | processed and dead-letter rows never change in any run without an operator retry of them |
| WorkerOutbox.OtherTopicsAreNotSent | apps/worker/src/outbox.ts:13-104 | in every run an event of any topic but the seven stays pending with no attempt, and no request is ever made for it |
| WorkerSteps.InsertAdds | apps/api/src/modules/integrations/club-whisky-events.ts:69-92 | a new event waits from its date on, without attempts or requests |
| WorkerSteps.StartsIff | apps/worker/src/outbox.ts:80-90 | a pass may begin exactly with at most 25 distinct rows that are pending, due and of a club topic |
| WorkerSteps.ClaimTakes | apps/worker/src/outbox.ts:92-104 | the claim asks for the status alone and takes the row under one attempt more, to be held if it has a tenant |
| WorkerSteps.SendCounts | apps/worker/src/outbox.ts:155-183 | what a request, its acceptance and its answer count for, and that nothing counts when none was made |
| WorkerSteps.SettlementWrites | apps/worker/src/outbox.ts:182-214 | what each outcome writes over the held row, that it touches no other, and when it sends an acceptance back |
| WorkerSteps.RetryResets | apps/api/src/modules/integrations/outbox.service.ts:53-96 | an operator puts a dead letter of a club topic with a tenant back to pending without attempts, and nothing else |
| WorkerOutbox.StrandedForever | apps/worker/src/outbox.ts:80-104 | an unowned row in processing never changes again, in any run |
| WorkerOutbox.MovesOnIffOwned | apps/worker/src/outbox.ts:80-104 | a row in processing can leave it in some run if and only if a live publisher owns it |
| WorkerOutbox.CrashStrands | apps/worker/src/outbox.ts:92-120 | the crash of its owner, or an exception outside the try that ends its owner's pass, leaves an event in processing for good |
| WorkerOutbox.ClaimWithoutTenantStrands | apps/worker/src/outbox.ts:102-104 | so does claiming an event without a tenant |
| WorkerOutbox.ClaimedEarlyIff | apps/worker/src/outbox.ts:80-100 | from any snapshot, over any steps and at any clock, the claim goes through, and precedes the retry time if and only if the event was written since the snapshot and the due time of the last write lies beyond the clock |
| WorkerOutbox.AttemptedSinceIff | apps/worker/src/outbox.ts:201-232 | without an operator's retry a waiting event was written since the snapshot if and only if its attempts grew; it is not due for three quarters of the capped delay after the last write, and is due after five |
| WorkerOutbox.StaleSnapshotSkipsBackoff | apps/worker/src/outbox.ts:80-100 | a run in which a sent-back event is claimed again before its retry time |
| WorkerOutbox.TwoSnapshotsReachable | apps/worker/src/outbox.ts:80-90 | two publishers can hold one event in their snapshots, as that run starts |
| WorkerOutbox.PassRowsPointwise | apps/worker/src/outbox.ts:92-215 | an undisturbed pass gives each selected row exactly one attempt and touches no other |
| WorkerOutbox.OutboxTable.SelectPending | apps/worker/src/outbox.ts:80-90 | the select returns at most 25 distinct rows, each pending, due and of one of the seven club topics, and all such rows when there are fewer |
| WorkerOutbox.OutboxTable.ClaimRow | apps/worker/src/outbox.ts:93-100 | a returned row is the stored one, processing under one attempt more; nothing returned means the event was not pending and no row has changed; other rows never change |
| WorkerOutbox.OutboxTable.PublishOne | apps/worker/src/outbox.ts:92-215 | one loop body, with anything happening between its statements and an exception ending it, is a run of the machine and ends owning nothing |
| WorkerOutbox.OutboxTable.PublishPending | apps/worker/src/outbox.ts:74-218 | the whole pass is a run of the machine; undisturbed, it equals the pointwise pass |
| FiscalQueue.StepKeepsInv | apps/worker/src/fiscal-operations.ts:20-87 | each step of any worker or webhook keeps lease spacing, growing attempt numbers, single holders and the count of failures sent back |
| FiscalQueue.ClaimsAreALeaseApart | apps/worker/src/fiscal-operations.ts:42-61 | two claims of an operation with no release between them are at least 60,000 ms apart, in every run |
| FiscalQueue.AttemptNumbersIncrease | apps/worker/src/fiscal-operations.ts:42-61 | claims of one operation carry strictly increasing attempt numbers, and no claim is held twice |
| FiscalQueue.AtMostSevenRetries | apps/worker/src/fiscal-operations.ts:64-81 | in any run failures send an operation back at most seven times; every other write of retryable to it is an event of unknown result |
| FiscalSteps.InsertAdds | apps/api/src/modules/fiscal/fiscal.service.ts:579-593 | a new operation waits from its date on, without attempts or a lease, and one that exists is left alone |
| FiscalSteps.SelectsTheOldest | apps/worker/src/fiscal-operations.ts:22-41 | a row may be selected exactly if it is pending, retryable or processing, its date and its lease have come, and no such row was created before it |
| FiscalSteps.ClaimTakesTheLease | apps/worker/src/fiscal-operations.ts:42-61 | the claim asks for the lease alone, by the clock of the select, and takes the row for 60,000 ms under one attempt more; otherwise it gives up |
| FiscalSteps.SettlementLeaves | apps/worker/src/fiscal-operations.ts:64-87 | a settlement succeeds, fails, or sends back below the eighth attempt, by the worker's copy; it frees the row whoever holds it and touches no other |
| FiscalSteps.EventTakesOver | apps/api/src/modules/fiscal/fiscal-webhook.controller.ts:148-163 | a provider's event frees a running operation as retryable or succeeded, and no other |
| FiscalFaults.NinthClaimIff | apps/worker/src/fiscal-operations.ts:42-81 | in any run an operation goes from eight attempts to nine if and only if a worker that selected it claims it through an open loophole: lease ran out, unknown result, earlier failure, stale selection |
| FiscalFaults.EightClaimsIff | apps/worker/src/fiscal-operations.ts:20-87 | an operation is claimed at most eight times in a run if and only if no step of the run is such a claim |
| FiscalFaults.EveryLoopholeOpens | apps/worker/src/fiscal-operations.ts:20-87 | each of the four loopholes is open in some run on a row with eight attempts, to a worker that then claims it |
| FiscalFaults.CrashingWorkersExceedTheLimit | apps/worker/src/fiscal-operations.ts:20-69 | for every n there is a run in which crashing workers claim one operation n times |
| FiscalFaults.UnknownResultsExceedTheLimit | apps/api/src/modules/fiscal/fiscal-webhook.controller.ts:148-163 | for every n there is a run without a crash in which events of unknown result let n workers claim one operation, all of them still at work on it |
| FiscalFaults.TerminalChangesIff | apps/worker/src/fiscal-operations.ts:42-81 | a step changes a terminal status exactly by a claim selected earlier or a late settlement with another verdict |
| FiscalFaults.StaleClaimRevives | apps/worker/src/fiscal-operations.ts:51-59 | a reachable state in which a claim revives a succeeded operation |
| FiscalFaults.LateSettlementOverwrites | apps/worker/src/fiscal-operations.ts:70-81 | a run in which a late failure overwrites a succeeded operation |
| FiscalFaults.SentBackIsNotSelected | apps/worker/src/fiscal-operations.ts:22-41 | after a failed attempt no worker can select the operation for 750 ms, and it is claimable within 15 minutes |
| FiscalFaults.StaleSelectionSkipsBackoff | apps/worker/src/fiscal-operations.ts:42-59 | a reachable state from which a failed operation is claimed again at once, 750 ms or more before its due time |
| FiscalFaults.OneClaimedReachable | apps/worker/src/fiscal-operations.ts:20-62 | two workers can select one operation and one of them claim it, as those runs start |
| FiscalFaults.ClaimedEarlyIff | apps/worker/src/fiscal-operations.ts:20-87 | over any steps between a worker's select and its update, at any clock, the claim goes through whatever the status, and precedes the due time if and only if an attempt failed since the select and the delay of the last failure is not over |
| FiscalFaults.DueWithinTheBand | apps/worker/src/fiscal-operations.ts:15-81 | after its last failure an operation is not due for three quarters of the capped delay, and is due after five |
| FiscalOrder.AllowedStepKeepsOrder | apps/worker/src/fiscal-operations.ts:20-102 | steps with an atomic claim and a settlement inside the lease keep: a processing row has its one worker, and claims equal attempts |
| FiscalOrder.TerminalForever | apps/worker/src/fiscal-operations.ts:20-102 | in such runs succeeded, failed and dead-letter rows never change |
| FiscalOrder.OrderlyLimits | apps/worker/src/fiscal-operations.ts:20-102 | in such runs no operation is claimed more than 8 times and retryable means at most 7 attempts |
| FiscalWorker.PassIsOrderly | apps/worker/src/fiscal-operations.ts:89-101 | a worker alone that settles in time makes such a run |
| FiscalWorker.OperationTable.SelectCandidate | apps/worker/src/fiscal-operations.ts:22-41 | the select returns an oldest claimable operation, or nothing when none is claimable |
| FiscalWorker.OperationTable.ClaimFiscalOperation | apps/worker/src/fiscal-operations.ts:20-62 | the two statements of a claim, with anything between them, and when they return nothing |
| FiscalWorker.OperationTable.ProcessFiscalOperations | apps/worker/src/fiscal-operations.ts:89-102 | the worker's loop is a run of the machine; it stops early only with nothing claimable, and alone and in time its run is an orderly one |
| SafePayload.TheWalkIsComplete | apps/web/src/lib/operational-outbox.ts:67-79 | the walk refuses a payload exactly when some name at some depth is sensitive, and names such a one |
| SafePayload.SensitiveAnywhere | apps/web/src/lib/operational-outbox.ts:44 | a listed word anywhere inside a name, in any letter case, makes it sensitive |
| SafePayload.SensitiveIff | apps/web/src/lib/operational-outbox.ts:44 | a name is sensitive if and only if one of the eight words stands in it somewhere, in any case |
| SafePayload.RefusedIff | apps/web/src/lib/operational-outbox.ts:67-79 | a payload is refused if and only if such a name occurs in it at some depth |
| OutboxRuns.UpdateReplaces | apps/web/src/lib/operational-outbox.ts:120-134 | an update of an entry that is not confirmed succeeds and replaces it alone, whatever the clock says |
| OutboxRuns.DeliverReplaces | apps/web/src/lib/operational-outbox.ts:234-246 | a delivery sends the entry's command once and leaves it with one more attempt and its outcome |
| OutboxRuns.PerformKeepsInv | apps/web/src/lib/operational-outbox.ts:138-329 | each call of enqueue, resolve, discard, prune, execute, retry or reconcile keeps unique keys, the capacity, attempts equal to sends, and at most one answer of acceptance per key |
| OutboxRuns.RunKeepsInv | apps/web/src/lib/operational-outbox.ts:138-329 | so does every run of them |
| OutboxRuns.OneMoreCall | apps/web/src/lib/operational-outbox.ts:138-329 | a run makes its calls one after the other |
| OutboxRuns.SafeRuns | apps/web/src/lib/operational-outbox.ts:138-329 | the same from an empty store, spelled out, and every command sent is the one stored under its key |
| OutboxRuns.StoredCommandsAreSafe | apps/web/src/lib/operational-outbox.ts:142-148 | no stored payload has a sensitive name at any depth and no authentication request is stored |
| OutboxRuns.ConfirmedForever | apps/web/src/lib/operational-outbox.ts:138-329 | a confirmed or removed command is not sent again and does not wait again, through any run, until its key is stored anew |
| OutboxRuns.AnsweredIsFinal | apps/web/src/lib/operational-outbox.ts:234-237 | once the answer that the server accepted a command has come back, no run sends it again before it is stored anew |
| OutboxRuns.UnansweredIsSentAgain | apps/web/src/lib/operational-outbox.ts:234-294 | whatever the server did with it, a delivered command is sent again by the next retry, and by executing it anew, if and only if that answer did not come back |
| OutboxRuns.SentAgainIffExpired | apps/web/src/lib/operational-outbox.ts:85-170 | executing any command under a confirmed key sends if and only if the entry has expired, the command is not refused and there is room; otherwise nothing is sent |
| OutboxRuns.ForgottenAfterADay | apps/web/src/lib/operational-outbox.ts:85-91 | after an accepted delivery the same command is sent a second time if and only if more than a day has passed since its receipt and there is room |
| OutboxRuns.BareMarkerRevives | apps/web/src/lib/operational-outbox.ts:171-177 | an attempt marked directly on a confirmed entry makes it active and adds one to the active count |
| OutboxRuns.ReusedKeySendsTheStored | apps/web/src/lib/operational-outbox.ts:149-156 | executing any command under the key of a waiting entry sends the stored command if the one given passes the refusals and has its payload and path, and nothing otherwise |
| OutboxRuns.AnotherCommandIsSentIff | apps/web/src/lib/operational-outbox.ts:149-156 | a command other than the one given is sent if and only if, besides, the method or the operation differs |
| OutboxRuns.DeletionSendsTheCreation | apps/web/src/lib/operational-outbox.ts:149-156 | a deletion executed under the key of a waiting creation sends the creation |
| OutboxReconcile.CountersAddUp | apps/web/src/lib/operational-outbox.ts:310-326 | the three counters of a pass add up to the entries it sent |
| OutboxReconcile.PassLowersThePotential | apps/web/src/lib/operational-outbox.ts:298-329 | each pass lowers the sum of attempts left over eligible entries by at least the number it sends |
| OutboxReconcile.PassReplaces | apps/web/src/lib/operational-outbox.ts:304-327 | a pass sends exactly the eligible entries, in order; each is there afterwards as delivered, unless confirmed and expired meanwhile; no other entry appears, and none that waits is gone |
| OutboxReconcile.PassIsOneMoreTry | apps/web/src/lib/operational-outbox.ts:304-312 | a pass adds one attempt to every entry still eligible |
| OutboxReconcile.ComesToRest | apps/web/src/lib/operational-outbox.ts:298-329 | after maxAttempts passes, whatever was answered, a further pass sends nothing and changes nothing |
| OutboxDrivers.CreateOperationalOutbox | apps/web/src/lib/operational-outbox.ts:103-112 | no log without a scope or with a capacity below one; the default capacity is a hundred |
| OutboxDrivers.Outbox.Enqueue | apps/web/src/lib/operational-outbox.ts:138-170 | enqueue on the stored list: its errors, the existing entry, or a fresh one under capacity |
| OutboxDrivers.Outbox.Update | apps/web/src/lib/operational-outbox.ts:120-134 | prune, find and replace under the lock; a missing entry leaves the store as it was |
| OutboxDrivers.Outbox.ResolveManually | apps/web/src/lib/operational-outbox.ts:192-201 | the entry is confirmed with a manual receipt |
| OutboxDrivers.Outbox.Discard | apps/web/src/lib/operational-outbox.ts:202-210 | no entry of the key remains, or the key was not found |
| OutboxDrivers.Outbox.PruneConfirmed | apps/web/src/lib/operational-outbox.ts:211-217 | expired confirmed entries go, and their number is returned |
| OutboxDrivers.Outbox.Deliver | apps/web/src/lib/operational-outbox.ts:277-295 | the part the drivers share: attempt, send, outcome, and what the caller gets |
| OutboxDrivers.ExecuteOperationalCommand | apps/web/src/lib/operational-outbox.ts:272-296 | a command already confirmed is answered from the store without sending; any success is a confirmed stored entry |
| OutboxDrivers.RetryOperationalOutboxEntry | apps/web/src/lib/operational-outbox.ts:221-247 | only a replayable entry is retried, and a refusal changes nothing |
| OutboxDrivers.ReconcileOperationalOutbox | apps/web/src/lib/operational-outbox.ts:298-329 | the pass delivers every eligible entry once; its summary counts the answers and adds up to them |
| OutboxLaziness.PruneTwice | apps/web/src/lib/operational-outbox.ts:85-91 | pruning at an earlier time first makes no difference |
| OutboxLaziness.LazinessIsUnobservable | apps/web/src/lib/operational-outbox.ts:85-218 | for a clock that does not go back, every call on a lazily pruned store answers as on one pruned at every tick |
| OutboxLaziness.TheTickTellsThemApart | apps/web/src/lib/operational-outbox.ts:85-91 | the two stores compared differ: after a tick the eager one holds nothing expired and the lazy one what it held |
| OutboxLaziness.CountsAgreeIff | apps/web/src/lib/operational-outbox.ts:211-217 | the count returned is the same as on a store pruned before if and only if nothing had expired then |
| OutboxVerdicts.DeliveredIsLeft | apps/web/src/lib/operational-outbox.ts:171-191 | after an answer the entry has one attempt more and is confirmed with the first identifier given, or failed if the status is in the four hundreds and none of 408, 409, 425 and 429, or requires attention |
| OutboxVerdicts.MarkersWrite | apps/web/src/lib/operational-outbox.ts:120-201 | what each of the four markers writes over an entry and what it keeps, that it touches no other, and that it finds none that has expired |
| OutboxVerdicts.PassSendsIff | apps/web/src/lib/operational-outbox.ts:304-312 | a pass sends for an entry exactly if it is pending or requires attention, may be replayed and has attempts left |
| OutboxVerdicts.RefusedIsSentAgainIff | apps/web/src/lib/operational-outbox.ts:255-326 | after an error the next pass sends the command again exactly if its status was not such a one, the entry may be replayed and it has attempts left |
| OutboxVerdicts.CountersAre | apps/web/src/lib/operational-outbox.ts:310-328 | the three counters of a pass are the numbers of acceptances, of errors with such a status and of all other errors |
| OutboxVerdicts.PrunedIff | apps/web/src/lib/operational-outbox.ts:85-91 | pruning takes exactly the confirmed entries more than 86,400,000 ms past their receipt, or past their last change without one, and none with an unreadable date |
| OutboxVerdicts.AllowedIff | apps/web/src/lib/operational-outbox.ts:142-148 | a command may be stored exactly if it has a key and an operation, a path that begins with a slash and not as the authentication routes do, and no sensitive name at any depth |
| OutboxVerdicts.RefusedFor | apps/web/src/lib/operational-outbox.ts:142-148 | which of the three refusals is given, and that an unsafe field named is one of the payload's |
| OutboxVerdicts.EnqueueDecides | apps/web/src/lib/operational-outbox.ts:149-169 | enqueueing gives the kept entry of the key if payload and path are its own, refuses the key otherwise, and stores a fresh entry while there is room |
| OutboxVerdicts.ActiveAre | apps/web/src/lib/operational-outbox.ts:157 | the entries counted against the capacity are those not confirmed |
| SensitiveKeys.NormalizedIsSnake | packages/config/src/sensitive-data.ts:102-106 | every key is brought to lower snake case with single underscores |
| SensitiveKeys.SpellingDoesNotMatter | packages/config/src/sensitive-data.ts:102-111 | all spellings of one name are judged alike |
| SensitiveKeys.PlainWord | packages/config/src/sensitive-data.ts:107-110 | a single word is sensitive exactly when it is listed |
| SensitiveKeys.ErrorKeysAreKept | packages/config/src/sensitive-data.ts:68-73 | the names an Error copy writes itself are not sensitive |
| SensitiveKeys.CamelIsCut | packages/config/src/sensitive-data.ts:103-106 | an underscore may be written where a lower-case letter meets an upper-case one |
| SensitiveKeys.SeparatorsAreOne | packages/config/src/sensitive-data.ts:103-106 | any run of other characters may be written as one underscore |
| SensitiveKeys.TheRestIsLowered | packages/config/src/sensitive-data.ts:103-106 | a name with nothing to cut and single underscores is only brought to lower case |
| SensitiveKeys.SensitiveIff | packages/config/src/sensitive-data.ts:107-110 | a key is sensitive if and only if its normal form is none of the five safe names and is a listed name or has a listed word between underscores, wherever it stands |
| Secrets.RecordShows | packages/config/src/sensitive-data.ts:94-99 | in the copy of a record, wherever it is met, a field that names a secret holds the marker whatever it held, and every other text is redacted and primitive kept |
| Secrets.ErrorShows | packages/config/src/sensitive-data.ts:64-75 | so it is with an Error's properties |
| Secrets.OutputHides | packages/config/src/sensitive-data.ts:59-111 | at every depth of the output a field that names a secret holds the marker |
| Secrets.ErrorPartsAre | packages/config/src/sensitive-data.ts:64-75 | an Error's copy has its class, its message and nonempty stack redacted, and no hidden cause |
| Secrets.AddedUnlessThere | packages/config/src/sensitive-data.ts:82-87 | a Set's copy takes each member's copy behind the others, but for a text or primitive equal to one of them |
| Secrets.SetHasNoTwins | packages/config/src/sensitive-data.ts:82-87 | no text and no primitive stands twice in the copy of a Set |
| Secrets.RepeatIsMarked | packages/config/src/sensitive-data.ts:62 | an object met before is replaced by the circular marker |
| Sanitizer.San | packages/config/src/sensitive-data.ts:59-100 | the traversal terminates on every finite graph, cyclic or shared, and only adds to the objects seen |
| Sanitizer.ExpandsExactlyTheReachable | packages/config/src/sensitive-data.ts:62-99 | the objects expanded are exactly those reachable from the root without passing a sensitive key |
| Sanitizer.CopiesAtMostOnce | packages/config/src/sensitive-data.ts:62-99 | the copy has no more objects than were met for the first time |
| Sanitizer.SanitizedIsClean | packages/config/src/sensitive-data.ts:59-100 | in the output every sensitive field of a record or Error holds the marker and every text value but an Error's name is redacted; labels are left to Spotless |
| Fidelity.SeenIsAfter | packages/config/src/sensitive-data.ts:61-100 | the objects met after visiting a value are those met before and those reachable from it through objects not met yet, past no sensitive key |
| Fidelity.SanitizedFits | packages/config/src/sensitive-data.ts:59-100 | the output is a copy of the input: the same labels and no others, primitives and dates, texts redacted, and at every depth an object is cut if and only if it was met before the moment its place is visited |
| Fidelity.FitsIff | packages/config/src/sensitive-data.ts:59-100 | a tree is such a copy if and only if it is the traversal's output, so the description leaves nothing open |
| Fidelity.ErrorCopyFits | packages/config/src/sensitive-data.ts:64-75 | an Error's copy has the cause, the name and the properties in the order first written and nothing else; each property copied after the cause was read |
| Fidelity.SetCopyFits | packages/config/src/sensitive-data.ts:82-87 | a Set's copy holds its members' copies as inserted one by one, equal texts and primitives once, and nothing else |
| CopiedNodes.AllNodesIff | packages/config/src/sensitive-data.ts:59-100 | a test holds of every object in the output if and only if the traversal copies no object that fails it at its moment; what an own cause overwrites does not count |
| Losses.CopiesAndLosses | packages/config/src/sensitive-data.ts:61-100 | the copies in the output and the objects met first through an overwritten cause add up to the objects met |
| Losses.AllAreCopiedIff | packages/config/src/sensitive-data.ts:64-75 | every object met is copied, and so once, if and only if no Error copied meets an object first through a cause that is one of its properties |
| Losses.OwnCauseIsLost | packages/config/src/sensitive-data.ts:68-73 | such an Error's copy has the marker under its cause, and an object met is copied nowhere |
| Losses.SmallestOverwrittenCause | packages/config/src/sensitive-data.ts:68-73 | an Error with an empty record as its own cause property: the record is met and no copy of it remains |
| Spotless.SpotlessIff | packages/config/src/sensitive-data.ts:59-100 | every text of the output is redacted, labels, Map keys and names of Errors included, and nothing a record would hide shows, if and only if the traversal copies no object with a label that leaks and no Error whose inherited name does |
| Spotless.LabelsAreKept | packages/config/src/sensitive-data.ts:76-99 | the copy of a record or Map has every label as it was, and a Map's every text value redacted and no more, whatever its key |
| Spotless.SmallestLeaks | packages/config/src/sensitive-data.ts:76-99 | a Map of one entry, or a record of one field, under a text that redaction changes comes out with that text, and the Map with its value |
| Sanitizer.Sanitizing.Sanitize | packages/config/src/sensitive-data.ts:59-63 | the run with its seen set updated in place equals the traversal |
| Sanitizer.Sanitizing.SanitizeNode | packages/config/src/sensitive-data.ts:64-100 | so does each object, marked seen before its children are visited |
| Sanitizer.Sanitizing.FillError | packages/config/src/sensitive-data.ts:64-75 | an Error's cause, name and then properties, assigned over them |
| Sanitizer.Sanitizing.AssignProperties | packages/config/src/sensitive-data.ts:71-73 | the properties in order, by assignment |
| Sanitizer.Sanitizing.FillSet | packages/config/src/sensitive-data.ts:82-87 | a Set copy merges equal texts and primitives |
| Sanitizer.Sanitizing.FillInOrder | packages/config/src/sensitive-data.ts:76-99 | records, arrays and Maps keep their order and labels |
| Resanitizing.SanitizedHasShape | packages/config/src/sensitive-data.ts:64-87 | every output has the shape of a copy: merged sets, an Error's cause and name in front |
| Resanitizing.Resanitize | packages/config/src/sensitive-data.ts:59-100 | a copy held in the heap is returned unchanged by the traversal exactly when it is stable |
| Resanitizing.SecondPass | packages/config/src/sensitive-data.ts:59-100 | sanitizing the output changes nothing exactly when no Error copy has a cause with children or a name that redaction changes |
| Idempotence.StableIff | packages/config/src/sensitive-data.ts:64-75 | the output is stable if and only if the traversal copies into it no Error that brings, not as a property, an object not met yet as its cause, or an inherited name that redaction changes |
| Idempotence.IdempotentIff | packages/config/src/sensitive-data.ts:59-100 | sanitizing twice is sanitizing once if and only if the same holds of the object graph |
| Idempotence.IdempotentIfQuiet | packages/config/src/sensitive-data.ts:59-100 | a graph whose Errors keep their causes among their properties and have names redaction keeps, in particular one without Errors, is sanitized once and for all |
| Idempotence.CauseIsUnstable | packages/config/src/sensitive-data.ts:68 | the copy of any Error made with an object not met yet as its cause is one the second pass changes |
| Idempotence.SmallestLostCause | packages/config/src/sensitive-data.ts:68 | the smallest such Error, changed by a second pass |
| Idempotence.NameIsUnstable | packages/config/src/sensitive-data.ts:69 | the copy of any Error whose inherited name redaction changes is one the second pass changes |
| Idempotence.SmallestLateName | packages/config/src/sensitive-data.ts:69 | the smallest such Error, changed by a second pass |
| Resanitizing.TheKeysAreWellBehaved | packages/config/src/sensitive-data.ts:102-111 | the concrete key test and the two markers meet what the theorems ask of a policy |
| Base32.RoundTrip | apps/api/src/common/totp.ts:68-112 | decoding an encoding, padded or not, gives the bytes back, and the length is the ceiling of 8n/5 |
| Base32.ReencodedIffCanonical | apps/api/src/common/totp.ts:68-112 | encoding a decoding gives the text back exactly when its unused trailing bits are zero; always for whole blocks of eight |
| Base32.WholeBlocksAreCanonical | apps/api/src/common/totp.ts:90-112 | lengths that are multiples of eight leave no unused bits |
| Base32.EncodedLength | apps/api/src/common/totp.ts:68-88 | the encoded length is the ceiling of 8n/5 |
| Base32.SymbolCharsAreTheAlphabet | apps/api/src/common/totp.ts:3 | the symbols are the alphabet in order |
| Base32.PushWord | apps/api/src/common/totp.ts:74 | shifting a word into the wrapping accumulator appends its bits to the pending ones |
| Base32.TakeWord | apps/api/src/common/totp.ts:78 | the unsigned shift and mask take the oldest pending bits |
| Base32.EncodeBase32 | apps/api/src/common/totp.ts:68-88 | the loop on 32-bit accumulators computes the bit-string encoding |
| Base32.EmitSymbols | apps/api/src/common/totp.ts:77-80 | the inner loop emits the symbols of all whole groups of five bits |
| Base32.DecodeBase32 | apps/api/src/common/totp.ts:90-112 | the loop computes the bit-string decoding, or refuses a character outside the alphabet |
| Spelling.SpellingIsFree | apps/api/src/common/totp.ts:90-101 | a secret with white space anywhere, in small or capital letters and with closing equals signs decodes as its symbols do |
| Spelling.DecodedIsShown | apps/api/src/common/totp.ts:90-101 | whatever decodes is such a spelling |
| Totp.TruncationIs31Bits | apps/api/src/common/totp.ts:32-47 | truncation reads four bytes inside the digest as a 31-bit big-endian number |
| Totp.CodeIsSixDigits | apps/api/src/common/totp.ts:49 | every code is six digits and writes the truncated digest modulo a million |
| Totp.CodeOfIff | apps/api/src/common/totp.ts:32-49 | a text is a digest's code if and only if it is six digits whose value is the 31-bit word at the offset modulo a million |
| Totp.GeneratedIs | apps/api/src/common/totp.ts:26-50 | the code generated at a time is that of the digest of the number of half minutes since the epoch under the bytes the secret encodes; no secret and no such number are errors |
| Totp.VerifyTotpCode | apps/api/src/common/totp.ts:52-66 | the loop over steps answers what trying them in order answers, errors included |
| Totp.AcceptedIffInWindow | apps/api/src/common/totp.ts:52-66 | a code is accepted exactly when, white space apart, it is the code of the digest of a half minute within the window under the bytes the secret encodes |
| Totp.DriftIsTolerated | apps/api/src/common/totp.ts:26-66 | a code made at t is accepted at every time at most the window's half minutes away |
| Totp.RefusedOrThrown | apps/api/src/common/totp.ts:52-66 | what is not six digits, white space apart, is refused, so is everything with a negative window, and then a text that is no secret is an error |
| Totp.SpacesDoNotCount | apps/api/src/common/totp.ts:53 | white space in a code makes no difference |
| Totp.EarlyClockThrows | apps/api/src/common/totp.ts:27-29 | at a time the window reaches before the epoch verification throws |
| PaymentLedger.CollectRefunds | apps/api/src/common/payment-ledger.ts:36-45 | the loop's map holds, for every identifier, the sum of its refunds |
| PaymentLedger.SummarizeNetChargeAllocations | apps/api/src/common/payment-ledger.ts:35-65 | the allocations in row order, each of a confirmed charge, positive and at most its amount, and their total |
| PaymentLedger.ExactDifference | apps/api/src/common/payment-ledger.ts:17-65 | for any rows, how far the allocated total is from the signed net |
| PaymentLedger.DoubleCounting | apps/api/src/common/payment-ledger.ts:35-57 | refunds summed by charge equal charges summed by refund |
| PaymentLedger.Conservation | apps/api/src/common/payment-ledger.ts:17-65 | with distinct charges the allocated total is the net plus over-refunds plus orphaned refunds, and lies between the net and the charges |
| PaymentLedger.AgreeIff | apps/api/src/common/payment-ledger.ts:17-65 | the two totals agree exactly when no charge is over-refunded and every refund of a positive amount names a confirmed charge |
| PaymentLedger.SharedIdentifierLosesMoney | apps/api/src/common/payment-ledger.ts:50-54 | with two charges under one identifier the allocated total falls below the net |
| PaymentReadings.OneMoreRow | apps/api/src/common/payment-ledger.ts:17-33 | one more row moves the net up by a confirmed charge, down by a linked refund, whatever the sign of its amount, and not at all otherwise |
| PaymentReadings.OneMoreRefund | apps/api/src/common/payment-ledger.ts:36-45 | one more row adds to the refunds of an identifier exactly what it refunds of it |
| PaymentReadings.TotalsAgreeIff | apps/api/src/common/payment-ledger.ts:17-65 | for charges named apart the two totals agree if and only if no charge is refunded beyond its worth and every refund of something names a charge, in terms of the rows' fields |
| PaymentReadings.TheDatabaseReadsNoMore | apps/api/src/common/payment-ledger.ts:67-83 | the database's sum is never more than the net, and equal if and only if no amount stands on a confirmed row without a type or on a refund whose link is empty |
| NfcePayments.MoneyReads | apps/api/src/modules/fiscal/focus-nfe.mapper.ts:147-149 | an amount in text reads back as its cents |
| NfcePayments.PaymentsLessChangeIsTheTotal | apps/api/src/modules/fiscal/focus-nfe.mapper.ts:81-138 | in every block produced, payments less change equal the order total as read from the text |
| NfcePayments.CoveredIff | apps/api/src/modules/fiscal/focus-nfe.mapper.ts:132-138 | a block is produced exactly when the net, over-refunds and orphaned refunds cover the order |
| NfcePayments.DetailsDeclareTheAllocations | apps/api/src/modules/fiscal/focus-nfe.mapper.ts:68-130 | each detail has the code of its allocation's means of payment and, as a decimal with two places, what is left of it, in order |
| NfcePayments.ChangeIsTheRest | apps/api/src/modules/fiscal/focus-nfe.mapper.ts:119 | the change is, as such a decimal, what is allocated beyond the order's total |
| EscPos.BuildEscPosPayload | apps/local-connector/src/index.ts:157-189 | the chunks pushed line by line are the payload |
| EscPosPrinter.TicketPrints | apps/local-connector/src/index.ts:157-204 | the printer shows each line, bold when non-blank among the first two, feeds two lines, cuts once, and ends ready and not bold |
| EscPosPrinter.AnyPrinterPrints | apps/local-connector/src/index.ts:157-204 | the same on any ready printer, whatever was set on it or printed before |
| EscPosPrinter.PrintsTheTextIff | apps/local-connector/src/index.ts:157-212 | it prints exactly the encoded text and three newlines if and only if the encoding has no command byte |
| EscPosPrinter.SplitJoins | apps/local-connector/src/index.ts:170 | the lines with a newline after each are the text with one more newline |
| EscPosPrinter.LinesHaveNoNewline | apps/local-connector/src/index.ts:170 | no line of the split holds a newline, so with the row above the split is the only one |
| EscPosPrinter.DecodesIff | apps/local-connector/src/index.ts:206-251 | on code page 850 decoding gives the text back exactly when each character is ASCII or in the table |
| EscPosPrinter.PlainIff | apps/local-connector/src/index.ts:214-251 | on code page 850 the encoding has a command byte exactly when the text has the character |
| EscPosPrinter.PlainLatin1Iff | apps/local-connector/src/index.ts:211 | elsewhere exactly when the low byte of some code unit is one |
| EscPosPrinter.PrintsItsLettersIff | apps/local-connector/src/index.ts:157-251 | for every text and style the printer prints the text if and only if no character of it reaches the printer as a command byte, in terms of the text alone |
| EscPosPrinter.LetterIsACommand | apps/local-connector/src/index.ts:206-212 | a text holding U+011B prints as something else in the latin1 encoding and as itself on the table's code pages |
| EscPosSettings.PayloadIs | apps/local-connector/src/index.ts:157-204 | the bytes around the lines for every setting: reset, code table, drawer, bell, feed and cut |
| EscPosSettings.LineIs | apps/local-connector/src/index.ts:170-181 | a line is bold exactly when it is one of the first two, not blank, and bold headers are not switched off |
| EscPosSettings.EncodedBy | apps/local-connector/src/index.ts:206-212 | code pages 850 and 860, in any case, and no setting are encoded by the table, every other name by low bytes |
| EscPosSettings.EncodedFirst | apps/local-connector/src/index.ts:208-210 | the table takes one character after the other, a surrogate pair as one question mark |
| EscPosSettings.LettersAre | apps/local-connector/src/index.ts:220-251 | the characters the table has are ASCII and its twenty-seven letters |
| SafeHttp.Fetch | packages/config/src/safe-http-client.ts:61-104 | the loop makes the requests of the redirect trace and ends as it does |
| SafeHttp.EveryRequestIsSafe | packages/config/src/safe-http-client.ts:61-131 | for any answers, at most maxRedirects + 1 requests, each over HTTPS without credentials to the address its own lookup validated |
| SafeHttp.FollowIsAChain | packages/config/src/safe-http-client.ts:80-102 | each request goes where the answer before it points, by one of the five redirect statuses and a location, and the reason the loop ends for is the one that holds of the last answer |
| SafeHttp.FetchEndsWell | packages/config/src/safe-http-client.ts:61-131 | the same of a whole fetch, its first URL and lookup included |
| SafeHttp.FollowCarries | packages/config/src/safe-http-client.ts:93-102 | the headers, method and body of every request, exactly |
| SafeHttp.CredentialsStayHome | packages/config/src/safe-http-client.ts:93-218 | a header with one of the six names, or beginning like the signature's, in any case, reaches a request exactly when all requests up to it had one scheme, host and port |
| SafeHttp.BodyFollowsTheMethod | packages/config/src/safe-http-client.ts:94-101 | method, body and content headers last until an answer 303, or 301 or 302 to a POST; after that the method is GET and there is no body and no such header |
| SafeHttp.OtherHeadersAreCarried | packages/config/src/safe-http-client.ts:204-227 | every other header reaches every request unchanged |
| PrivateAddress.DottedIsPrivateIff | packages/config/src/safe-http-client.ts:229-257 | a dotted address is refused if and only if its number is in one of the private ranges |
| PrivateAddress.MappedIsPrivateIff | packages/config/src/safe-http-client.ts:239-257 | so is an IPv4-mapped address written with dots |
| PrivateAddress.MappedHexIsPrivateIff | packages/config/src/safe-http-client.ts:240-264 | and one written as two hexadecimal groups, in any letter case |
| PrivateAddress.GroupedIsPrivateIff | packages/config/src/safe-http-client.ts:231-238 | an address starting with a group is refused if and only if the group is in fc00::/7, fe80::/10 or ff00::/8, or is shorter than four digits and starts like fc, fd or ff |
| PrivateAddress.WrittenIsPrivateIff | packages/config/src/safe-http-client.ts:229-264 | in any of the three writings an IPv4 address is refused if and only if its number is in the private ranges |
| PrivateAddress.OnlyBytesAreDotted | packages/config/src/safe-http-client.ts:245-257 | four numbers with dots are refused if and only if all are at most 255 and the address they make is in the private ranges |
| PrivateAddress.MappedNumbers | packages/config/src/safe-http-client.ts:239-257 | after ::ffff: any four numbers with dots are judged by the first two alone, beyond 255 too |
| PrivateAddress.LocalStartIsPrivate | packages/config/src/safe-http-client.ts:231-238 | every text that starts with fc, fd or ff is refused, an address or not |
| PrivateAddress.ColonIsPrivateIff | packages/config/src/safe-http-client.ts:231-247 | a text starting with a colon and not with ::ffff: is refused if and only if it is :: or ::1 |
| PrivateAddress.LongFormIsNotRefused | packages/config/src/safe-http-client.ts:231-247 | an IPv6 address that writes its leading zero groups out is not refused |
| PrivateAddress.NoRequestIsPrivate | packages/config/src/safe-http-client.ts:61-131 | whatever the lookups and servers answer, no request of a fetch goes to an IPv4 address of those ranges in any of the three writings, to :: or ::1, or to a local IPv6 group |
| SlidingLog.AtMostInWindow | apps/whatsapp-connector/src/index.ts:116-122 | entries n apart in the log that are a gap apart in time are at most n in any window of the gap |
| MessageGate.Connector.PostMessage | apps/whatsapp-connector/src/index.ts:95-142 | the handler on its map and array, shift loop included, and its response |
| MessageGate.HandleKeepsInv | apps/whatsapp-connector/src/index.ts:108-134 | each request keeps the stamps and the memory equal to the tail of the full send log |
| MessageGate.AtMostSixtyAMinute | apps/whatsapp-connector/src/index.ts:116-131 | no closed interval of 60,000 ms holds more than 60 sends |
| MessageGate.LimitedIff | apps/whatsapp-connector/src/index.ts:116-122 | a fresh message is refused exactly when the sixtieth send before it is at most 60,000 ms old |
| MessageGate.RememberedKeysAreNotSentAgain | apps/whatsapp-connector/src/index.ts:108-115 | a key among the last 10,000 sent is answered with its old identifier and not sent |
| MessageGate.TheMemoryIsExact | apps/whatsapp-connector/src/index.ts:132-134 | the memory is exactly the last 10,000 sends, so sends of one key are more than 10,000 apart |
| MessageAnswers.AnswersAre | apps/whatsapp-connector/src/index.ts:95-142 | every answer, after any requests in the clock's order, by the log of all messages sent: unauthorized, bad key, duplicate of one of the last 10,000, limited by the sixtieth before it, failed, or accepted under its own identifier and logged |
| MessageAnswers.SixtyAMinute | apps/whatsapp-connector/src/index.ts:116-122 | no closed interval of 60,000 ms holds more than 60 sends |
| RateLimit.RateLimitService.AssertAllowed | apps/api/src/common/rate-limit.ts:41-65 | the verdict and the one bucket that changes |
| RateLimit.KeysAreIndependent | apps/api/src/common/rate-limit.ts:44-55 | a verdict depends only on earlier requests of the same key |
| RateLimit.OthersDoNotMatter | apps/api/src/common/rate-limit.ts:44-55 | a request under another key, anywhere before, changes no verdict |
| RateLimit.LessThanTwiceTheLimit | apps/api/src/common/rate-limit.ts:41-65 | fewer than twice the limit are allowed in any half-open interval of a window's length |
| RateLimit.TheBoundIsReached | apps/api/src/common/rate-limit.ts:41-65 | for every limit and every window longer than a millisecond a run in order reaches twice the limit less one |
| RateLimit.RetryAfterReachesTheEnd | apps/api/src/common/rate-limit.ts:56-63 | the retry-after is the least whole number of seconds that reaches the window's end, when the key is allowed again |
| FiscalWebhook.Tables.ReceiveSimulatorWebhook | apps/api/src/modules/fiscal/fiscal-webhook.controller.ts:85-173 | the transaction on the three tables, and its reply |
| FiscalWebhook.FreshIff | apps/api/src/modules/fiscal/fiscal-webhook.controller.ts:86-99 | an event counts only the first time it is delivered under a credential |
| FiscalWebhook.DuplicatesDoNotMatter | apps/api/src/modules/fiscal/fiscal-webhook.controller.ts:86-99 | all the deliveries leave what the fresh ones alone would leave |
| FiscalWebhook.DocumentFold | apps/api/src/modules/fiscal/fiscal-webhook.controller.ts:100-147 | a document is moved by its own fresh events and nothing else |
| FiscalWebhook.StatusIsMonotonic | apps/api/src/modules/fiscal/fiscal-webhook.controller.ts:139-147 | the final status is canceled if the start or any fresh event is, else authorized if any is, else the last event's, whatever the order |
| FiscalWebhook.IssuedForever | apps/api/src/modules/fiscal/fiscal-webhook.controller.ts:120-147 | after an authorization the identifiers, links and issue time never change; after a cancellation nothing does |
| FiscalWebhook.AuthorizationIssues | apps/api/src/modules/fiscal/fiscal-webhook.controller.ts:121-130 | the external identifier, access key, links and issue time after the first authorization, and after any later events |
| FiscalWebhook.OperationFold | apps/api/src/modules/fiscal/fiscal-webhook.controller.ts:148-163 | over any deliveries an operation is settled by its document's first fresh event if it runs, even when the move is blocked, and touched by nothing else |
| FiscalWebhook.NoOperationIsLeftRunning | apps/api/src/modules/fiscal/fiscal-webhook.controller.ts:148-163 | once any fresh event of its document has come no operation of it runs |
| FiscalWebhook.EarlyEventIsLost | apps/api/src/modules/fiscal/fiscal-webhook.controller.ts:99-118 | after an event that precedes its document, whatever documents appear and whatever is delivered, redeliveries included, documents and operations end as if it had never been sent |
| WebhookOutcomes.AnswerIs | apps/api/src/modules/fiscal/fiscal-webhook.controller.ts:86-173 | what is answered and recorded: duplicate exactly if recorded before, ignored exactly if the document is unknown, canceled, or authorized and not being canceled |
| WebhookOutcomes.FirstCancellationStays | apps/api/src/modules/fiscal/fiscal-webhook.controller.ts:131-147 | over any deliveries the first cancellation dates the document, clears its error, leaves the rest, and is the last to touch it |
| WebhookOutcomes.FirstAuthorizationStays | apps/api/src/modules/fiscal/fiscal-webhook.controller.ts:120-147 | without one, the first authorization clears the error and is the last to touch the document |
| WebhookOutcomes.Unsettled | apps/api/src/modules/fiscal/fiscal-webhook.controller.ts:134-147 | with neither, the last event's time, status and error show, and the rest is as it was |
| WebhookOutcomes.SettledIsLeft | apps/api/src/modules/fiscal/fiscal-webhook.controller.ts:119-147 | an authorized document that is not canceled, and a canceled one, are left as they are |

## Left out

Of the repository:

- Database plumbing, controllers, schemas, pages, seed data and state tables: no algorithm to prove.
- Cryptography: HMAC is a parameter with 20-byte digests; tokens, password hashing and certificates are not modelled.
- The text redaction's regular expressions, DNS, the HTTPS transport, URL parsing, Redis, TCP printing and the messaging library: parameters, or absent.
- The worker's updates of fiscal documents, and the query that an unknown issue queues: `FiscalQueue` follows operations only.
- Two browser tabs driving one log at once, and a tab closed between a send and its outcome: the drivers of `OutboxRuns` run one at a time to their end.
- Concurrent message requests: `MessageGate` handles one request at a time, as its sliding window assumes.
- The distributed limiter: it depends on Redis.
- Order items, taxes and the other fields of the invoice: only its payment block is modelled.

Of the modelled members:

- Sanitizer.SanitizedIsClean: labels are kept as they are and Map keys hide nothing; Spotless says when that shows.
- Sanitizer.San: a reference that leads nowhere, which no real heap has, reads as one met before; an Error's message or stack made enumerable, an empty stack, a name that is not a string and a property called `__proto__` are not modelled.
- Resanitizing.SecondPass: the text redaction is assumed idempotent, to keep the two markers and to empty no text; that the real patterns do is not proved.
- OutboxRuns.RunKeepsInv: payload numbers are integers and payloads hold no undefined value, since the store keeps them as JSON text; a corrupted or absent storage is not modelled; the clock readings of one locked closure are one.
- OutboxRuns.AnsweredIsFinal: a write to the storage that fails after the answer came back is not modelled; the entry would stay pending and be sent again.
- WorkerOutbox.AcknowledgedAtMostOnce: that the receiver may recognise an event by its identifier and ignore the second acceptance is not modelled.
- FiscalOrder.TerminalForever: a settlement is one write; closing an operation writes it and then its document, and if the second write fails the failure path takes the closed operation back to retryable.
- OutboxLaziness.LazinessIsUnobservable: the count returned by pruneConfirmed is not among the answers compared, because it does differ.
- Base32.DecodeBase32: letters outside ASCII whose upper case is an ASCII letter are not modelled.
- NfcePayments.MoneyReads: amounts are exact decimals; rounding of binary fractions is not modelled.
- PaymentLedger.Conservation: amounts are whole cents without an upper bound.
- EscPosPrinter.DecodesIff: stated for code page 850; code page 860 selects another table while the bytes stay those of 850.
- SafeHttp.Fetch: the method comes in upper case and header names are ASCII; which addresses are private is a parameter there, and the test itself is in PrivateAddress.
- PrivateAddress.OnlyBytesAreDotted: the numbers have no leading zeros; a text after `::ffff:` that is neither four numbers nor two groups has no theorem.
- RateLimit.LessThanTwiceTheLimit: the hashing of the client identifier into the key is not modelled.
- FiscalWebhook.Tables.ReceiveSimulatorWebhook: the signature and the credential were accepted before; documents are those the credential can see.
- RetryPolicy.DelayBand: draws are reals in the half-open unit interval and the product is exact.
