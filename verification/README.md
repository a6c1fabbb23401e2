# Verified model of the workflow core

This project models, in Dafny 4.11, the parts of the automation backend whose correctness depends on how
many things happen at once, and proves what they guarantee in every run. `dafny verify dfyconfig.toml`
checks all of it.

## What is modelled

* **The durable lease** (`LeaseTable`, `LeaseProtocol`, `LeaseInvariants`, `LeaseTheorems`, `LeaseRepository`,
  `Timestamps`). One table, unique on workflow, step and key. Any number of clients run reserve, finalize and
  cancel against it, one SQL statement at a time; between two statements every other client and the clock may
  move. `LeaseProtocol` is that transition system, `LeaseRepository` the repository functions as imperative
  methods over a database object whose history is always a run of it.
* **External effects under a lease** (`LeaseEffects`, `LeaseOnce`, `SmtpActivity`, `AttemptLock`). Reserve, send, finalize; and
  the attempt lock of a sale, which is a reservation with its own key and result.
* **The sale row** (`Text`, `SaleRow`, `SaleProtocol`, `SaleTheorems`, `SaleBudget`, `SaleRepository`). Six statuses,
  an attempt count, attempt times and a message, changed only by guarded updates, which may be replayed.
* **The two workflows that drive it** (`SaleProcessing`, `SaleTimes`, `ManualStart`, `ManualWorkflow`, `AutomaticWorkflow`,
  `LockedSale`), with their catch and finally paths. Remote activities are oracles that may answer, refuse or throw; claims,
  finalizations, recovery and rollback really write the row, with everybody else moving in between. `LockedSale` puts the
  automatic workflow and its attempt lock together, over both tables.
* **Smaller cores**: the bounded child pool and its summary (`ChildPool`), the windowed calendar (`Calendar`),
  runtime scopes, workflow ids and lock keys (`RuntimeScope`), and the single-flight cache (`HealthCache`).

A step that is not enabled does nothing, so "every run" is "every sequence of actions".

## Assumptions

* Row ids and lease tokens are never reused: a token is the number of the reserve call that drew it. The
  database clock does not go back. The clocks reserve callers read are arbitrary; the process clock of the health cache
  does not go back. Hashes are compared as values.
* A holder sends at most once under one token, which is what the activity does.
* Nobody cancels the reservation of an SMTP step: the one caller of cancel is the attempt lock
  (`src/temporal/activities/nfe/nfe-email-dispatch-sale-attempt-lock.activity.ts:111`).
* The table is unique on its three lookup columns and compares them without regard to letter case
  (`src/infra/system-db/migrations/001_create_workflow_step_idempotency.sql:20-23`), so the keys of the model are folded
  texts, of the characters that keys are made of. A new sale has no attempts
  (`src/infra/system-db/migrations/003_create_nfe_email_dispatch_tables.sql:25`).
* Two attempts on one sale have different start times. Claims and finalizations of an attempt may be replayed at
  any time after they were first sent; the manual client sends its own claim once. So nobody closes an automatic attempt
  before its workflow's first finalization, and until then the row it claimed stays as it is
  (`SaleTheorems.OwnedRowIsStable`).
* An update reports whether a row matched its guard.
* A child workflow's result carries the id of the sale it was started for, the eligible sales are distinct, the
  limit on children is positive, and the window's hours, minutes and interval are in the ranges the configuration enforces.

## What the code does not give

* **At most one e-mail per key.** The lease lasts 90 seconds and the sending activity may run for ten minutes. Another accepted
  send is possible from exactly the states in which the row of the key is not final or a granted token has not sent
  (`LeaseOnce.RepeatsExactlyWhileOpen`, and the run of `LeaseEffects.EffectsMayRepeat`); it is impossible if every accepted
  sender sends its finalizing statement before its lease runs out (`LeaseOnce.TimelySendersSendOnce`).
* **"Pending" for a live lease** is answered only if the caller's own clock agrees that the lease is live. A clock ahead of
  the database turns it into the reservation race error (`LeaseTheorems.ReserveIsAtomic`, `LeaseTheorems.FastClockRaces`).
* **FAILED_TRANSIENT means retryable.** A transient failure leaves the sale with no attempts left if and only if the row has used up
  the limit and the attempt is a manual one, which never fails for good on its count, or judges by a count below the row's, which
  a claim replayed after its attempt was finalized brings about (`SaleBudget.StrandsExactly`, `SaleBudget.StrandedExactlyBy`, and
  the runs of `SaleBudget.ManualFailureStrandsTheSale` and `SaleBudget.LateClaimStrandsTheSale`).
* **A manual start that fails leaves the sale as it was.** Once the claim reached the row, that holds if and only if the service
  answered that the workflow is absent and the rollback reached the row. The claim is made before the connection, outside the
  block that rolls back: if the service cannot be reached, or the answer to the claim is lost, the sale stays IN_PROGRESS with no
  workflow, and nothing but closing that attempt ever frees it (`ManualStart.StartManualSale`, `ManualStart.StuckForGood`, and the
  run of `ManualStart.UnreachableServiceStrandsTheSale`).
* **Rollback undoes a claim** only if nobody wrote between the load and the claim; otherwise it restores the older
  record and forgets the attempts in between (`SaleTheorems.RollbackRestoresWhatWasLoaded`, `SaleTheorems.StaleRollbackForgets`).
* **A manual run that sent its mail ends as SENT.** It answers another status only if recovery answered and another run for the same
  attempt, whose own stages failed, finalized it as a failure before anybody else closed it and before this run's own write; if
  nobody claims the sale again, exactly then (`ManualWorkflow.ProcessManualSale`, and the run of `ManualWorkflow.RivalDowngrades`).
* **A failure of the automatic run means nothing was sent.** Without rivals, a failure is returned over an accepted mail if and only if
  the finalization as SENT failed before its write, the second finalization was answered, and nobody wrote SENT in between
  (`AutomaticWorkflow.ProcessAutomaticSale`, and the run of `AutomaticWorkflow.FailureOverAcceptedMail`).
* **A finalization the automatic run gets answered is its own attempt's.** The replay check compares only the status, so over
  another attempt's row that shows it the call is answered too: undisturbed, the status was recorded for its own attempt if and only
  if the row was at this attempt when the call was made or the status had been recorded before (`AutomaticWorkflow.FinalizeAutomatic`,
  and the runs of `AutomaticWorkflow.ReplayCheckMistakesAttempts` and `AutomaticWorkflow.AnswersForAnotherAttempt`). For the whole run that fails only when an unsent outcome was written, its
  answer lost, and the sale claimed again before the second call was answered (`AutomaticWorkflow.ProcessAutomaticSale`).
* **Different runs never share an attempt lock.** Run ids are case-sensitive, the table is not: scopes that differ in letter case share
  their locks, and the second run's is refused (`AttemptLock.AttemptKeysAgree`, `AttemptLock.TwinsBlockEachOther`).
* **A policy rebuilt from a scope** permits reruns of completed children even if the original did not (`RuntimeScope.ScopeRoundTrip`).
* **A failure of the SMTP activity means the mail was not accepted.** It is answered over an accepted mail if and only if recording the
  success met a permanent error of the database, recording that failure was answered, and the lease was not lost meanwhile
  (`SmtpActivity.SendSmtpEmail`, and the runs of `SmtpActivity.AcceptedMailRecordedAsFailure` and
  `SmtpActivity.FailureAnsweredOverStoredSuccess`; in the latter the stored result contradicts the answer).
* Invalid input of the manual workflow is thrown as a non-retryable failure inside its own try block and therefore goes through recovery (`ManualWorkflow.ProcessManualSale`).

## Model

| member | source | states |
|---|---|---|
| LeaseTheorems.LeaseExclusion | src/infra/system-db/workflow-step-idempotency.repository.ts:87-222 | over every interleaving of any number of clients, two reservations handed out for one key are 90 seconds of database time apart, unless the earlier holder itself cancelled in between |
| LeaseTheorems.PayloadHashIsForever | src/infra/system-db/workflow-step-idempotency.repository.ts:540-581 | although a reclaim rewrites the payload hash from a stale read, in no run does a row id ever change its key, payload hash or creation time |
| LeaseTheorems.FinalRowIsFrozen | src/infra/system-db/workflow-step-idempotency.repository.ts:395-478 | once a row is completed or failed, every column of it stays the same for the rest of every run |
| LeaseTheorems.StoredResultsAgree | src/infra/system-db/workflow-step-idempotency.repository.ts:227-305 | any two reserve calls of a key that were answered with a stored result got the same status, record and result, and had the same hash |
| LeaseTheorems.LaterReservesReplay | src/infra/system-db/workflow-step-idempotency.repository.ts:178-305 | every reserve begun after a finalization answers with exactly that stored result, or with the mismatch error exactly when its hash differs |
| LeaseTheorems.ZombieIsHarmless | src/infra/system-db/workflow-step-idempotency.repository.ts:333-478 | a token that lost its row never matches it again in any run: its finalize and cancel are no-ops and no call with it ever ends as a success |
| LeaseTheorems.ImpossibleErrors | src/infra/system-db/workflow-step-idempotency.repository.ts:389-478 | FINALIZE_NOT_FOUND, CANCEL_NOT_FOUND and RESULT_MISSING are raised in no run |
| LeaseTheorems.ReserveReturns | src/infra/system-db/workflow-step-idempotency.repository.ts:92-311 | a reserve call returns within nine statements of its own, whatever other clients do meanwhile |
| LeaseTheorems.ReserveIsAtomic | src/infra/system-db/workflow-step-idempotency.repository.ts:87-311 | an undisturbed round has the effect of one atomic reserve, and gives its answer exactly when the caller's clock is not past an expiry the database still holds to be ahead |
| LeaseTheorems.UndisturbedRound | src/infra/system-db/workflow-step-idempotency.repository.ts:92-226 | the three statements of an undisturbed round leave the table an atomic reserve leaves, and move no other call |
| LeaseTheorems.FastClockRaces | src/infra/system-db/workflow-step-idempotency.repository.ts:224-311 | a caller with such a clock is not told pending: three undisturbed rounds, and not two, end in the reservation race error and leave the table as it was |
| LeaseTheorems.LeaseLastsNinetySeconds | src/infra/system-db/workflow-step-idempotency.repository.ts:87-249 | over a pending row with the caller's payload an undisturbed round reserves from ninety seconds after the last reservation on, and reports the row pending before that |
| LeaseTheorems.AtomicAnswers | src/infra/system-db/workflow-step-idempotency.repository.ts:87-305 | the five cases an atomic reserve tells apart, and what it answers in each: a new row, another payload, a final result, a live reservation, and one of ninety seconds ago or more |
| LeaseTheorems.AtomicEffects | src/infra/system-db/workflow-step-idempotency.repository.ts:92-222 | a reservation leaves a pending row of the caller's with one more attempt, live for ninety seconds, and no other row changes; every other answer leaves the table as it was |
| LeaseInvariants.ReclaimHitsOwnKey | src/infra/system-db/workflow-step-idempotency.repository.ts:155-195 | when a reclaim matches, however stale its row was, it hits the one row of the caller's key, with the caller's hash, and no other row changes |
| LeaseInvariants.FreshToken | src/infra/system-db/workflow-step-idempotency.repository.ts:91-91 | the token of a reserve call that has not returned is in no row, in no log entry and in no other call |
| LeaseInvariants.GrantKeepsExclusion | src/infra/system-db/workflow-step-idempotency.repository.ts:92-222 | at each new grant every earlier grant of the key has run out or was cancelled |
| LeaseInvariants.StepKeeps | src/infra/system-db/workflow-step-idempotency.repository.ts:87-478 | every statement of every client, every clock tick and every send keeps the invariant of rows, calls and history |
| LeaseInvariants.RunKeeps | src/infra/system-db/workflow-step-idempotency.repository.ts:87-478 | the invariant holds in every state of every run |
| LeaseRepository.ReserveWorkflowStepIdempotency | src/infra/system-db/workflow-step-idempotency.repository.ts:87-311 | the imperative retry loop, with any interference before each statement, is a run of the protocol and its returned outcome is the one the protocol records; undisturbed it is one atomic reserve, answer and table, unless the caller's clock is ahead of a live lease in all three rounds; the result is never missing |
| LeaseRepository.ReserveRound | src/infra/system-db/workflow-step-idempotency.repository.ts:93-305 | one pass of the loop returns the outcome the protocol records, or goes on to the next round; undisturbed it is one atomic reserve, and goes on exactly when the caller's clock disagrees |
| LeaseRepository.ReleaseReservation | src/infra/system-db/workflow-step-idempotency.repository.ts:333-478 | finalize and cancel are runs of the protocol, return the outcome it records, and never the not-found errors; undisturbed, the owner's finalize writes just its verdict and its cancel deletes just its row, and over a lost row the answer says what the row is |
| LeaseRepository.Database.InsertIgnore | src/infra/system-db/workflow-step-idempotency.repository.ts:93-153 | the insert grants exactly when one row was inserted, and otherwise goes on to the select |
| LeaseRepository.Database.TryReclaim | src/infra/system-db/workflow-step-idempotency.repository.ts:540-581 | the conditional update, and what the call does next for each of its answers |
| LeaseRepository.Database.ReleaseStatement | src/infra/system-db/workflow-step-idempotency.repository.ts:333-412 | one row is affected exactly when the token owns the pending row |
| Timestamps.TextOrderIsTimeOrder | src/infra/system-db/workflow-step-idempotency.repository.ts:669-679 | for four-digit years the string order of the formatted times is the order of the instants |
| Timestamps.TextExpiryIsExpiry | src/infra/system-db/workflow-step-idempotency.repository.ts:669-675 | the string comparison that decides expiry agrees with the comparison of seconds the protocol uses |
| LeaseEffects.EffectsAreBounded | src/temporal/activities/shared/send-smtp-email.activity.ts:85-159 | in every run sends under a key never exceed its grants; if nobody cancels, grants are the row's attempt_count; and attempt n takes at least 90 (n - 1) seconds since creation |
| LeaseEffects.DoubleEffectNeedsLostLease | src/temporal/activities/shared/send-smtp-email.activity.ts:111-133 | two accepted sends under one key mean that the earlier holder let its lease run out or cancelled, and never finalized |
| LeaseEffects.FinalizedSendersSendOnce | src/temporal/activities/shared/send-smtp-email.activity.ts:115-133 | if every holder whose send was accepted got to finalize, at most one send was ever accepted |
| LeaseEffects.EffectsMayRepeat | src/temporal/activities/shared/send-smtp-email.activity.ts:111-131 | at-most-once is not unconditional: a run in which a holder outlives its lease has two accepted sends |
| LeaseOnce.RepeatsExactlyWhileOpen | src/temporal/activities/shared/send-smtp-email.activity.ts:85-133 | from any reachable state another accepted send under a key can be brought about if and only if its row is not final or some token granted for it has not sent |
| LeaseOnce.HeldInTime | src/infra/system-db/workflow-step-idempotency.repository.ts:113-115 | within ninety seconds of its grant a holder that did not cancel still owns its row, or the row is final |
| LeaseOnce.TimelyIsLast | src/infra/system-db/workflow-step-idempotency.repository.ts:395-430 | once a holder has finalized in time, no later grant of its key ever follows its own |
| LeaseOnce.TimelySendersSendOnce | src/temporal/activities/shared/send-smtp-email.activity.ts:115-131 | if every holder whose send was accepted sends its finalizing statement before its lease runs out, at most one send is accepted in the whole run |
| SmtpActivity.SendSmtpEmail | src/temporal/activities/shared/send-smtp-email.activity.ts:71-159 | the activity sends exactly when its reserve was granted; reserved undisturbed, a final step is replayed with its stored result, a live one awaited, one with another payload refused for good, and a new or lapsed one sent; over an accepted mail it answers a failure if and only if recording the success failed for good, recording that failure was answered, and the lease was not lost, which within ninety seconds it cannot be; undisturbed, answer and row are given for every delivery and all fates |
| SmtpActivity.ReserveStep | src/temporal/activities/shared/send-smtp-email.activity.ts:85-109 | what the reservation alone answers: the replay of a stored result, the wait for a live holder, or an error, and otherwise the step is granted |
| SmtpActivity.Record | src/temporal/activities/shared/send-smtp-email.activity.ts:124-152 | recording is answered normally only over a final row, and over the recorded result if its own update matched; undisturbed it takes effect unless the call failed before its write |
| SmtpActivity.Conclude | src/temporal/activities/shared/send-smtp-email.activity.ts:114-158 | the try and catch after the send: over an accepted mail a failure exactly as said; an answered recording fails, for now, exactly if the lease was lost, and a failed one fails as it did; undisturbed the exact answer and row for all fates of the two recording calls |
| SmtpActivity.AcceptedMailRecordedAsFailure | src/temporal/activities/shared/send-smtp-email.activity.ts:134-154 | a run in which the mail is accepted and both the answer and the row say that it failed |
| SmtpActivity.FailureAnsweredOverStoredSuccess | src/temporal/activities/shared/send-smtp-email.activity.ts:134-154 | a run in which the mail is accepted, the answer says that it failed, and the row that it succeeded |
| AttemptLock.AcquireAttemptLock | src/temporal/activities/nfe/nfe-email-dispatch-sale-attempt-lock.activity.ts:34-75 | a lock is acquired only with every earlier acquisition of its row lapsed or cancelled; undisturbed, a new or lapsed lock is acquired for this workflow and request, a live one is busy, a final one reports its stored status, and one held with another payload is refused for good; ids below one and invalid scopes touch nothing |
| AttemptLock.CompleteAttemptLock | src/temporal/activities/nfe/nfe-email-dispatch-sale-attempt-lock.activity.ts:77-102 | completion answers normally only over a final row, and over its own final status if its update matched; undisturbed, the holder's completion is stored, and without the lock nothing changes and the answer says why |
| AttemptLock.CancelAttemptLock | src/temporal/activities/nfe/nfe-email-dispatch-sale-attempt-lock.activity.ts:104-124 | whatever the cancel answers, its token no longer owns the lock; undisturbed, the holder's cancel deletes just its row, and without the lock nothing changes and the answer says why |
| AttemptLock.AttemptKeysAgree | src/temporal/activities/nfe/nfe-email-dispatch-sale-attempt-lock.activity.ts:177-190 | two attempt locks are the same row if and only if sale and attempt are the same and the scopes differ at most in letter case |
| AttemptLock.CaseTwins | src/infra/system-db/migrations/001_create_workflow_step_idempotency.sql:20-23 | two different development scopes whose attempts share all their locks |
| AttemptLock.TwinsBlockEachOther | src/temporal/activities/nfe/nfe-email-dispatch-sale-attempt-lock.activity.ts:34-75 | two runs of such scopes: the first acquires the lock, the second is refused with a permanent error |
| AttemptLock.LockResultRoundTrip | src/temporal/activities/nfe/nfe-email-dispatch-sale-attempt-lock.activity.ts:208-232 | a stored lock result is read back as written, exactly when its status is one of the four final ones and its release time is not blank |
| SaleTheorems.SaleRowInvariant | src/infra/system-db/nfe-email-dispatch/workflow.repository.ts:79-394 | in every state of every run: SENT iff sent_at is set, PENDING iff no attempts, attempts iff first and last attempt times are set, and IN_PROGRESS carries no error message |
| SaleTheorems.SentIsAbsorbing | src/infra/system-db/nfe-email-dispatch/workflow.repository.ts:79-394 | a SENT sale never changes again, in any column |
| SaleTheorems.OneOwner | src/infra/system-db/nfe-email-dispatch/workflow.repository.ts:222-264 | a row in progress has exactly one owning attempt, and an owner that matched once remembers the row's attempt count |
| SaleTheorems.OwnedRowIsStable | src/infra/system-db/nfe-email-dispatch/workflow.repository.ts:79-394 | nothing changes an owned row until its owner finalizes or rolls back, and the owner's confirmed count stays the row's |
| SaleTheorems.ReplayedClaimsCountOnce | src/infra/system-db/nfe-email-dispatch/workflow.repository.ts:79-264 | a claim and any number of replays of it, among any moves of others, add exactly one attempt as long as the attempt is not finalized or rolled back; a replay after that can add another |
| SaleTheorems.ReleasedStaysReleased | src/infra/system-db/nfe-email-dispatch/workflow.repository.ts:266-394 | an attempt that does not own the row and does not claim again can change nothing any more |
| SaleTheorems.ReplayedFinalizationsAreNoOps | src/infra/system-db/nfe-email-dispatch/workflow.repository.ts:266-394 | after a finalization took effect, replaying it with any status, or rolling back, changes nothing |
| SaleTheorems.RollbackRestoresWhatWasLoaded | src/infra/system-db/nfe-email-dispatch/workflow.repository.ts:266-334 | a rolled back manual claim leaves the row exactly as it was loaded, so it undoes the claim if and only if nobody wrote between load and claim |
| SaleTheorems.StaleRollbackForgets | src/temporal/client/nfe-email-dispatch-single-sale.client.ts:147-200 | the load precedes the claim: a run in which the rollback erases an attempt made in between |
| SaleProtocol.LoadedIsNormal | src/infra/system-db/nfe-email-dispatch/workflow.repository.ts:474-488 | the date and message normalizers leave every value the row can hold unchanged |
| SaleProtocol.StepKeeps | src/infra/system-db/nfe-email-dispatch/workflow.repository.ts:79-394 | insertion, both claims, confirmation, finalization and rollback from a possibly stale snapshot keep the invariant |
| SaleProtocol.RunKeeps | src/infra/system-db/nfe-email-dispatch/workflow.repository.ts:79-394 | the invariant holds in every state of every run |
| SaleBudget.RetryBudget | src/infra/system-db/nfe-email-dispatch/workflow.repository.ts:46-118 | in automatic runs attempts never exceed the limit, the row changes at most twice per allowed attempt, and FAILED_TRANSIENT is still eligible unless some attempt's claim matched twice |
| SaleBudget.StrandsExactly | src/temporal/activities/nfe/finalize-nfe-email-dispatch-sale.activity.ts:114-125 | a finalization strands the sale, failed transiently with no attempts left, exactly when it fails transiently, the row has used up the limit, and either the attempt is manual or the count it was given is below the limit |
| SaleBudget.StrandedExactlyBy | src/infra/system-db/nfe-email-dispatch/workflow.repository.ts:46-394 | in every run, manual attempts and replays included, a sale becomes stranded by such a finalization, by a rollback to a record that was stranded already, and by no other step |
| SaleBudget.BudgetHolds | src/infra/system-db/nfe-email-dispatch/workflow.repository.ts:79-118 | changes made plus credit left (twice the attempts left, and one while running) is constant over every automatic run |
| SaleBudget.DoneIsLeftAlone | src/infra/system-db/nfe-email-dispatch/workflow.repository.ts:46-118 | a sale that is sent, failed for good, of unknown delivery, or out of attempts is left exactly as it is by every run in which only automatic attempts claim |
| SaleBudget.RetriedExactly | src/infra/system-db/nfe-email-dispatch/workflow.repository.ts:79-118 | and every other sale that is not running, that is, a pending one or a transient failure with attempts left, is claimed as soon as an automatic attempt asks |
| SaleBudget.LateClaimStrandsTheSale | src/infra/system-db/nfe-email-dispatch/workflow.repository.ts:79-118 | a run that strands a sale: its claim is replayed after the attempt was finalized |
| SaleBudget.ManualFailureStrandsTheSale | src/temporal/activities/nfe/finalize-manual-nfe-email-dispatch-sale.activity.ts:17-40 | a run without any replay that strands a sale: the manual finalization keeps a transient failure transient at whatever count |
| SaleRepository.ClaimSale | src/infra/system-db/nfe-email-dispatch/workflow.repository.ts:79-220 | a returned count is that of the row the attempt owns; as long as nobody closes the attempt, an automatic one claims exactly pending sales and transient failures below its limit, a manual one exactly those neither sent nor in progress, and the row is then in progress at one attempt more, with this start time, its first one kept and no message |
| SaleRepository.FinalizeSale | src/infra/system-db/nfe-email-dispatch/workflow.repository.ts:336-394 | finalized is answered exactly when the attempt owned the row; the record it wrote has the attempt's columns, the status, or FAILED_FINAL for the transient failure of a last automatic attempt, the sent time of the call exactly for SENT, and the normalized message |
| SaleRepository.RollbackClaim | src/infra/system-db/nfe-email-dispatch/workflow.repository.ts:266-334 | restored is answered exactly when the attempt owns the row, which then is the loaded record; otherwise the row is untouched |
| Text.NormalizeDateTime3 | src/infra/system-db/nfe-email-dispatch/date-time.ts:5-27 | every accepted text becomes its own digits in the form with exactly three fraction digits, the missing ones zero |
| Text.StoredDateTimeIsNormal | src/infra/system-db/nfe-email-dispatch/date-time.ts:10-27 | a stored date-time is its own normal form |
| Text.NormalizeMessage | src/infra/system-db/nfe-email-dispatch/workflow.repository.ts:482-488 | a message is stored trimmed or not at all, and a stored one is its own normal form |
| Text.MessageIsKept | src/infra/system-db/nfe-email-dispatch/workflow.repository.ts:482-488 | a message is dropped exactly when it is all white space, and otherwise kept but for the white space around it |
| Text.DateTimeIsAccepted | src/infra/system-db/nfe-email-dispatch/date-time.ts:5-27 | the texts accepted are exactly dates with times to the second and no or one to three fraction digits, inside white space |
| ManualStart.StartManualSale | src/temporal/client/nfe-email-dispatch-single-sale.client.ts:91-238 | a refusal names what the row is; a started or unconfirmed attempt is claimed with its count confirmed; unless somebody else closes the attempt, the sale is left claimed exactly if the claim reached the row and was not undone, so a start that gave up after its claim leaves the row as it was loaded if and only if the service answered that the workflow is absent and the rollback reached the row |
| ManualStart.StuckForGood | src/temporal/client/nfe-email-dispatch-single-sale.client.ts:173-191 | a sale left claimed stays as it is in every run in which nobody closes the attempt: no later start loads it and no claim ever matches |
| ManualStart.UnreachableServiceStrandsTheSale | src/temporal/client/nfe-email-dispatch-single-sale.client.ts:91-97 | the start run with the workflow service out of reach: it fails to connect and leaves a fresh sale claimed |
| ManualWorkflow.LoadAndLock | src/temporal/workflows/nfe/process-manual-nfe-email-dispatch-sale.workflow.ts:106-200 | a settled attempt is answered for at once with its status; processing starts exactly when load and match succeed, the attempt owned the row when it was loaded, and the lock was acquired; every other answer of the lock leads where it should; and where the row then stands is decided by the first close of the attempt meanwhile |
| ManualWorkflow.Execute | src/temporal/workflows/nfe/process-manual-nfe-email-dispatch-sale.workflow.ts:268-353 | the target is SENT exactly when the mail was accepted, DELIVERY_UNKNOWN exactly when the send is pending, and FAILED_TRANSIENT exactly when the first stage that threw did so transiently; its message is the first that went wrong |
| ManualWorkflow.FinalizeManual | src/temporal/activities/nfe/finalize-manual-nfe-email-dispatch-sale.activity.ts:17-59 | over an owned row it is answered with the requested status, which it wrote; an answer means that the row had that status at that attempt count; it is not given over another status that stayed, and refused only if somebody closed the attempt before |
| ManualWorkflow.RecoverManual | src/temporal/activities/nfe/recover-manual-nfe-email-dispatch-sale.activity.ts:17-44 | a recovered status was the row's in this very attempt: the requested one if nobody closed the attempt before, and otherwise the one it was first closed with; it is answered unless the attempt was rolled back or the sale claimed again |
| ManualWorkflow.FinishManual | src/temporal/workflows/nfe/process-manual-nfe-email-dispatch-sale.workflow.ts:163-207 | finalize, and recover if that does not answer: the reply is the target's status, or the one somebody else closed the attempt with first, exactly as said for the whole run |
| ManualWorkflow.ProcessManualSale | src/temporal/workflows/nfe/process-manual-nfe-email-dispatch-sale.workflow.ts:94-220 | a processed run answers the status its stages call for, SENT if and only if the mail was accepted and so on, or the one somebody else closed the attempt with before its own write: the latter only if recovery answered, and, if nobody claims the sale again, exactly if it is another status; undisturbed the row is written with just that status, time and message; a run that ends before processing answers a settled attempt's own status, that the attempt is running, or a transient failure; the lock is completed exactly when it was acquired and a status was returned, and with that status |
| ManualWorkflow.RivalDowngrades | src/temporal/workflows/nfe/process-manual-nfe-email-dispatch-sale.workflow.ts:94-220 | the workflow run with a rival finalization of its attempt: its mail is accepted and it answers the rival's failure |
| SaleTimes.TimesRun | src/infra/system-db/nfe-email-dispatch/workflow.repository.ts:79-394 | over every run the attempt times in the row and in loaded records are those of attempts that claimed, and a running manual attempt is in no loaded record |
| SaleTimes.FirstCloseDecides | src/infra/system-db/nfe-email-dispatch/workflow.repository.ts:154-394 | whatever others do, the first close of a manual attempt decides where its row stands: owned without one, off the attempt for good after a rollback, and otherwise showing that status for good wherever it shows the attempt, which it does if it was sent or as long as nobody claims the sale again |
| AutomaticWorkflow.Process | src/temporal/workflows/nfe/process-single-nfe-email-dispatch-sale.workflow.ts:120-183 | SMTP is called at most once; the outcome is SENT exactly when the mail was accepted, DELIVERY_UNKNOWN exactly when the send is pending, and a throw exactly when a stage threw first, with its permanence and message |
| AutomaticWorkflow.FinalizeAutomatic | src/temporal/activities/nfe/finalize-nfe-email-dispatch-sale.activity.ts:18-57 | an answer is the effective status; undisturbed it comes exactly over an owned row or one that shows that status, and that status was then recorded for this attempt if and only if the row was at this attempt when the call was made or it had been recorded before; over an owned row the call answers exactly when it did not fail; SENT is answered only over a SENT row, which is never overwritten |
| AutomaticWorkflow.Settle | src/temporal/workflows/nfe/process-single-nfe-email-dispatch-sale.workflow.ts:170-222 | from the outcome of the stages to the reply: an outcome is answered as it is if its finalization answers; what threw, a stage or that finalization, is finalized for good if it was permanent or the attempt was the last, and else as a transient failure; undisturbed the row is given for all fates |
| AutomaticWorkflow.ProcessClaimed | src/temporal/workflows/nfe/process-single-nfe-email-dispatch-sale.workflow.ts:120-226 | a stage that threw is answered with FAILED_FINAL if it was permanent or the limit is reached and with FAILED_TRANSIENT otherwise, a pending send with DELIVERY_UNKNOWN, an accepted mail with SENT, whatever others do, as long as the finalization answers; a returned status was recorded for this very attempt at the claim's count if nobody claims the sale around the finalizations, and, without rivals, also if somebody does, unless an unsent outcome was written and its answer lost; over an accepted mail, without rivals, a failure is returned if and only if the first finalization failed before its write, the second was answered, and nobody wrote SENT in between |
| AutomaticWorkflow.ProcessAutomaticSale | src/temporal/workflows/nfe/process-single-nfe-email-dispatch-sale.workflow.ts:82-252 | the lock is cancelled exactly when no claim was returned, completed exactly when a status was returned and with that status, and otherwise left pending; without a claim the sale is skipped exactly if somebody else has the lock or it was not eligible; SMTP runs at most once and only under a claim; and the statements on returned statuses hold for the whole run |
| AutomaticWorkflow.FailureOverAcceptedMail | src/temporal/workflows/nfe/process-single-nfe-email-dispatch-sale.workflow.ts:200-222 | a run that returns a failure although its mail was accepted |
| AutomaticWorkflow.ReplayCheckMistakesAttempts | src/temporal/activities/nfe/finalize-nfe-email-dispatch-sale.activity.ts:127-154 | a run after which a finalization writes nothing and the replay check passes over another attempt's row, with a status never recorded at its own count |
| AutomaticWorkflow.AnswersForAnotherAttempt | src/temporal/activities/nfe/finalize-nfe-email-dispatch-sale.activity.ts:18-57 | the activity called at that point answers that status |
| LockedSale.RunLocked | src/temporal/workflows/nfe/process-single-nfe-email-dispatch-sale.workflow.ts:82-252 | the workflow over the table of locks and the sale row together: mail is sent only under a lock all whose earlier holders were a lease older or had cancelled; a busy or processed lock makes it skip, an error fail; afterwards, untouched by others, the lock is completed with the returned status, deleted if no claim was returned, and still held if the sale was claimed and nothing could be reported |
| LockedSale.ReleaseLock | src/temporal/workflows/nfe/process-single-nfe-email-dispatch-sale.workflow.ts:227-252 | the finally block against the table of locks: it asks for a completion, a cancellation or nothing as the run ended; what it asked for leaves the token owning nothing, and undisturbed leaves a holder's lock completed with that status, or deleted |
| LockedSale.RunsAreALeaseApart | src/temporal/activities/nfe/nfe-email-dispatch-sale-attempt-lock.activity.ts:34-75 | two runs of one attempt that both got past the lock are 90 seconds apart, or the earlier one cancelled in between |
| ChildPool.RunChildren | src/temporal/workflows/nfe/process-nfe-email-dispatch-sales.workflow.ts:119-191 | for any order of settlement: sales start in order, below the limit, the pool waits only when it is full or all are started, and the returned lists are the settled children's outcomes in order |
| ChildPool.PoolIsComplete | src/temporal/workflows/nfe/process-nfe-email-dispatch-sales.workflow.ts:119-191 | any such history kept the limit at every moment and settled every sale exactly once |
| ChildPool.LimitHolds | src/temporal/workflows/nfe/process-nfe-email-dispatch-sales.workflow.ts:151-157 | never more active children than the limit, at any moment |
| ChildPool.EachIsSomewhere | src/temporal/workflows/nfe/process-nfe-email-dispatch-sales.workflow.ts:151-190 | at every moment settled and active sales together are the started ones, each once |
| ChildPool.CountIgnoresOrder | src/temporal/workflows/nfe/process-nfe-email-dispatch-sales.workflow.ts:173-190 | no count depends on the order in which children settle |
| ChildPool.CountsAddUp | src/temporal/workflows/nfe/process-nfe-email-dispatch-sales.shared.ts:74-118 | the six ways a sale can end partition the eligible sales |
| ChildPool.BuildSummary | src/temporal/workflows/nfe/process-nfe-email-dispatch-sales.shared.ts:74-118 | each counter is the number of results with its status |
| ChildPool.ProcessSales | src/temporal/workflows/nfe/process-nfe-email-dispatch-sales.workflow.ts:37-117 | every eligible sale is counted once under the way its own child ended, the failed ids are the broken children's, and the run is a success exactly when no child broke |
| Calendar.BuildWindowedCalendarSpecs | src/temporal/client/cobrancas-equipment-retrieval-schedule.client.ts:226-265 | the specs list each hour once and in order, with increasing minutes of that hour, and together fire at every tick of the window and at no other time; the error is raised exactly when the window's end, hour and minute, is before its start |
| Calendar.CoveredWindow | src/temporal/client/cobrancas-equipment-retrieval-schedule.client.ts:241-257 | the firings are start, start + interval and so on, (end - start) / interval + 1 of them |
| RuntimeScope.NormalizedPolicyIsFixed | src/domain/shared/automation-runtime-policy.ts:18-73 | a normalized policy normalizes to itself, production is exactly the production scope and never permits reruns, and a development scope names its run |
| RuntimeScope.PolicyIsAccepted | src/domain/shared/automation-runtime-policy.ts:18-73 | exactly those policies are accepted that ask for production, without a test run, a rerun or another strategy, or for development with a well-formed test run; and what each becomes |
| RuntimeScope.ScopeIsAccepted | src/domain/shared/automation-runtime-policy.ts:75-97 | a missing or blank scope is production's, a development scope must name a well-formed run, and every other is refused |
| RuntimeScope.ScopeRoundTrip | src/temporal/client/nfe-email-dispatch-single-sale.client.ts:311-328 | rebuilding a policy from a policy's scope restores mode, run id and scope, and the whole policy exactly when it is production's or permits reruns |
| RuntimeScope.ScopeComesBack | src/domain/shared/automation-runtime-policy.ts:75-97 | every normalized scope is the scope of the policy rebuilt from it |
| RuntimeScope.SaleWorkflowIdsAreUnique | src/domain/shared/automation-runtime-policy.ts:99-113 | two sale workflow ids are equal if and only if they are for the same kind of run, sale, attempt and scope |
| RuntimeScope.LockKeysAreUnique | src/domain/shared/automation-runtime-policy.ts:122-136 | two attempt lock keys are the same text only for the same sale, attempt and scope |
| HealthCache.RunKeeps | src/app/health/health.service.ts:192-225 | every run of requests, completions, failures, finally callbacks and clock ticks keeps the cache invariant |
| HealthCache.OneLoadAtATime | src/app/health/health.service.ts:202-222 | of two loads of one key the second starts only after the first has ended |
| HealthCache.ArrivalsShareTheLoad | src/app/health/health.service.ts:196-206 | while a load is outstanding, a request for its key gets a cached value or that very load's promise |
| HealthCache.OutcomeIsFinal | src/app/health/health.service.ts:209-224 | what a load came to never changes, so all who hold its promise see the same outcome |
| HealthCache.ServedInTime | src/app/health/health.service.ts:196-200 | a cached answer is the value of a load of that key that succeeded less than its time to live ago, and the latest to have done so |
| HealthCache.ServedWhileFresh | src/app/health/health.service.ts:196-206 | a request is answered with the value of the latest successful load of its key exactly while that is younger than its time to live, and otherwise waits for an outstanding load |
| HealthCache.NothingToServe | src/app/health/health.service.ts:196-222 | a key none of whose loads has succeeded is never answered from the cache, and a load is started exactly if none is outstanding |
| HealthCache.FailureIsForgotten | src/app/health/health.service.ts:209-220 | a failed load leaves the cache as it was and frees the key: the next request is served a fresh entry or starts its own load |
| HealthCache.HealthService.GetCached | src/app/health/health.service.ts:192-225 | an entry that has not expired is served; otherwise the promise of the key's one outstanding load is returned, started, with the time to live asked for, only if there was none |
| HealthCache.HealthService.OnFulfilled | src/app/health/health.service.ts:210-217 | success stores the value with its expiry under the load's key |
| HealthCache.HealthService.OnRejected | src/app/health/health.service.ts:209-220 | failure writes nothing, and leaves the load in flight until its finally callback |
| HealthCache.HealthService.OnFinally | src/app/health/health.service.ts:218-220 | the finally callback frees the key and leaves the cache alone |

## Left out

- SQL text, connection pooling and driver errors: each statement is one atomic guarded change that reports whether a row matched. Calls that throw are modelled where they decide what is reported: recording in the SMTP activity, finalization and recovery in the workflows, claim and rollback of the manual start. Closing the connection after a manual start is not modelled: if that throws, it hides how the start ended.
- Affected-row counts of the insert and upsert reports: they depend on driver flags.
- `finalizeNfeEmailDispatchSaleDirect`: it has no caller, and with an arbitrary expected status it would let SENT be overwritten.
- Deletion of customers with their sales, and rows from before the lease columns existed.
- Temporal itself: retries, replays and the order in which children settle are nondeterminism.
- The IXC, OPA, ERP and SMTP clients, HTTP routes, authentication, configuration, metrics, logging, templates, PDF files and time zones.
- The CSAT and cobrancas activities: they use the same reserve, effect, finalize pattern as the SMTP activity; the rest of them is branching and counters.
- The discovery pool (`runDiscoveryChildrenWithConcurrency`): the same loop as the sale pool, with failures folded into the results.
- JSON: stored results are opaque texts, so results that do not parse are not modelled outside the attempt lock, whose two fields are joined by a separator.
- The letter case of scopes in the sale table, whose lists and guards also compare them without regard to case: the model follows one row, which its id names.
- Trimming and hashing of the SMTP keys and payloads; operator messages are opaque texts and normalized as such.
- Whether the linked ERP sale matches the request is one answer of an oracle in the manual workflow and client; the attempt lock of the manual workflow is an oracle too, whose own behaviour is in `AttemptLock`. That of the automatic workflow is composed with it in `LockedSale`.
- Best-effort completion and cancellation of the attempt lock swallow their errors: the workflows record which of the two was sent, not whether it succeeded.
- The limit of safe integers: numeric ids are naturals written in decimal.
- Text.NormalizeDateTime3: only the textual forms; Date objects and texts handed to the Date parser are not modelled.
- SmtpActivity.SendSmtpEmail: when a success is reported after somebody else finalized the row, the stored result may be another holder's; only that the row is final is stated.
- Retry budgets of runs that mix limits or manual attempts: a manual attempt may always be added to a failed sale, so there is no bound to state.
- Child workflow ids and reuse policies in the pool: a child that cannot be started is one that breaks.
- Promise machinery of the cache: a promise is the number of its load, and loads, being async functions, never throw before they return it.
