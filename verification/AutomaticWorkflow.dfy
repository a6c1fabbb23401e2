/**
processSingleNfeEmailDispatchSaleWorkflow: take the attempt lock, claim, process, finalize, and in the
finally block cancel, complete or leave the lock. Activities are oracles; claim and finalization really
work on the row, with every other attempt moving in between.
*/
module AutomaticWorkflow {
  import opened Prelude
  import opened Text
  import opened SaleRow
  import opened SaleProtocol
  import opened SaleTheorems
  import opened SaleRepository
  import opened SaleProcessing

  datatype Reply = Skipped | Returned(status: SaleStatus, attemptCount: nat) | Failed

  /** What the workflow did with the attempt lock. */
  datatype LockUse = NeverHeld | CancelSent | CompleteSent(status: SaleStatus) | LeftPending

  /** The attempt this workflow runs: only its own claim tells it its count. */
  predicate NoConfirms(actions: seq<SaleAction>, a: nat) {
    forall i :: 0 <= i < |actions| ==> actions[i] != Confirm(a)
  }

  predicate Respectful(others: seq<seq<SaleAction>>, a: nat) {
    forall n :: 0 <= n < |others| ==> NoConfirms(others[n], a)
  }

  ghost predicate Running(db: SaleDatabase, a: nat, max: nat, startedAt: string)
    reads db
  {
    db.Valid() && a < |db.attempts| && db.attempts[a].kind == Automatic(max) && db.attempts[a].startedAt == startedAt
  }

  ghost predicate Counting(db: SaleDatabase, a: nat, max: nat, startedAt: string, attemptCount: nat)
    reads db
  {
    Running(db, a, max, startedAt) && db.attempts[a].remembered == Some(attemptCount)
  }

  lemma {:induction false} CountStays(w: SaleWorld, actions: seq<SaleAction>, a: nat)
    requires a < |w.attempts| && NoConfirms(actions, a)
    ensures a < |Run(w, actions).attempts| && Run(w, actions).attempts[a].remembered == w.attempts[a].remembered
    decreases |actions|
  {
    if actions != [] {
      assert actions[0] != Confirm(a) && NoConfirms(actions[1..], a);
      CountStays(Step(w, actions[0]), actions[1..], a);
    }
  }

  ghost predicate EverHad(db: SaleDatabase, status: SaleStatus)
    reads db
  {
    exists sale :: sale in db.past && sale.status == status
  }

  /** finalizeNfeEmailDispatchSaleActivity */
  method FinalizeAutomatic(db: SaleDatabase, a: nat, max: nat, startedAt: string, attemptCount: nat, target: Target,
                           now: string, fate: Fate, others: seq<SaleAction>)
    returns (result: Answer<SaleStatus>)
    requires Counting(db, a, max, startedAt, attemptCount) && FinalStatus(target.status) && IsDateTime3(now)
    requires NoConfirms(others, a)
    modifies db
    ensures Counting(db, a, max, startedAt, attemptCount) && old(db.past) <= db.past
    ensures result.Answered? ==> fate.Answers? && EverHad(db, result.value)
    ensures result.Threw? ==> result.permanent == if fate.Answers? then true else fate.permanent
    ensures result.Answered? ==> result.value == EffectiveStatus(target.status, attemptCount, max)
    ensures result == Answered(SENT) ==> db.row.Some? && db.row.value.status == SENT
    // a SENT row is never overwritten, nor answered for with anything else
    ensures old(db.row.Some? && db.row.value.status == SENT) ==>
              db.row == old(db.row) && (result.Answered? ==> result.value == SENT)
    // over the attempt's own row: what is answered was recorded for it
    ensures old(AtAttempt(db.row, attemptCount, startedAt)) && result.Answered? ==>
              RecordedBy(db.past, result.value, attemptCount, startedAt)
    ensures old(AtAttempt(db.row, attemptCount, startedAt)) && NoRival(others, a) &&
            (target.status == SENT || fate.FailsBefore?) ==>
              AtAttempt(db.row, attemptCount, startedAt)
    // undisturbed, it is answered exactly over an owned row or one that shows the status, whoever's it is; and what it
    // answers was recorded for this attempt if and only if the row showed the attempt, or it had been recorded before
    ensures others == [] && fate.Answers? ==>
              (result.Answered? <==>
                 old(OwnedBy(db.row, startedAt) ||
                     Idempotent(db.row, EffectiveStatus(target.status, attemptCount, max), None)))
    ensures others == [] && result.Answered? ==>
              (RecordedBy(db.past, result.value, attemptCount, startedAt) <==>
                 old(ShowsAttempt(db.row, attemptCount, startedAt)) ||
                 RecordedBy(old(db.past), result.value, attemptCount, startedAt))
    ensures others == [] && !old(OwnedBy(db.row, startedAt)) ==> db.row == old(db.row) && db.past == old(db.past)
    ensures old(ShowsAttempt(db.row, attemptCount, startedAt)) && Unclaimed(others) ==>
              ShowsAttempt(db.row, attemptCount, startedAt) &&
              (result.Answered? ==> RecordedBy(db.past, result.value, attemptCount, startedAt))
    // over an owned row: it is written unless the call failed before writing, and then only SENT comes from elsewhere
    ensures old(OwnedBy(db.row, startedAt)) ==> (result.Answered? <==> fate.Answers?)
    ensures old(OwnedBy(db.row, startedAt)) && target.status == SENT && !fate.FailsBefore? ==>
              db.row.Some? && db.row.value.status == SENT
    ensures old(OwnedBy(db.row, startedAt)) && others == [] ==>
              db.row == if fate.FailsBefore? then old(db.row)
                        else Some(Written(old(db.row).value, old(db.attempts)[a], target.status, now, target.message))
    ensures old(OwnedBy(db.row, startedAt)) && fate.FailsBefore? && NoRival(others, a) ==>
              if ClosesAsSent(others, a) then db.row.Some? && db.row.value.status == SENT else db.row == old(db.row)
  {
    Reachable(db.trace);
    ghost var before := db.Now();
    if fate.FailsBefore? {
      AttemptKeepsIdentity(before, others, a);
      CountStays(before, others, a);
      PastGrows(before, others);
      if NoRival(others, a) && OwnedBy(db.row, startedAt) {
        HeldUntilSent(before, others, a);
      }
      if NoRival(others, a) && AtAttempt(db.row, attemptCount, startedAt) {
        StaysAtAttempt(before, others, a, attemptCount);
      }
      if Unclaimed(others) && ShowsAttempt(db.row, attemptCount, startedAt) {
        UnclaimedStays(before, others, a, attemptCount);
      }
      if db.row.Some? && db.row.value.status == SENT {
        SentIsAbsorbing(before, others);
      }
      db.Interleave(others);
      return Threw(fate.permanent, "finalization failed");
    }
    var finalized, snapshot := WriteAutomatic(db, a, max, startedAt, attemptCount, target, now, others);
    var status := EffectiveStatus(target.status, attemptCount, max);
    if fate.FailsAfter? {
      result := Threw(fate.permanent, "finalization answer lost");
    } else if finalized || Idempotent(snapshot, status, None) {
      result := Answered(status);
    } else {
      result := Threw(true, "finalization mismatch");
    }
  }

  /** The write of the effective status, others' moves and the reload. */
  method WriteAutomatic(db: SaleDatabase, a: nat, max: nat, startedAt: string, attemptCount: nat, target: Target,
                        now: string, others: seq<SaleAction>)
    returns (finalized: bool, snapshot: Option<Sale>)
    requires Counting(db, a, max, startedAt, attemptCount) && FinalStatus(target.status) && IsDateTime3(now)
    requires NoConfirms(others, a)
    modifies db
    ensures Counting(db, a, max, startedAt, attemptCount) && old(db.past) <= db.past && snapshot == db.row
    ensures db.row.Some? ==> db.row.value in db.past
    ensures finalized <==> old(OwnedBy(db.row, startedAt))
    ensures finalized ==> EverHad(db, EffectiveStatus(target.status, attemptCount, max))
    ensures finalized && old(db.row).value.attemptCount == attemptCount ==>
              RecordedBy(db.past, EffectiveStatus(target.status, attemptCount, max), attemptCount, startedAt)
    ensures finalized && target.status == SENT ==>
              db.row.Some? && db.row.value.status == SENT &&
              AtAttempt(db.row, old(db.row).value.attemptCount, startedAt)
    ensures old(db.row.Some? && db.row.value.status == SENT) ==> db.row == old(db.row)
    ensures others == [] ==>
              (ShowsAttempt(db.row, attemptCount, startedAt) <==> old(ShowsAttempt(db.row, attemptCount, startedAt)))
    ensures others == [] && finalized ==> db.row.Some? && db.past == old(db.past) + {db.row.value}
    ensures others == [] && !finalized ==> db.past == old(db.past)
    ensures others == [] && !finalized ==> db.row == old(db.row)
    ensures others == [] && finalized ==>
              db.row == Some(Written(old(db.row).value, old(db.attempts)[a], target.status, now, target.message))
    ensures old(ShowsAttempt(db.row, attemptCount, startedAt)) && Unclaimed(others) ==>
              ShowsAttempt(db.row, attemptCount, startedAt) && (!finalized ==> db.row == old(db.row))
  {
    Reachable(db.trace);
    ghost var before := db.Now();
    ghost var written := Step(before, Finalize(a, target.status, now, target.message));
    StepKeeps(before, Finalize(a, target.status, now, target.message));
    AttemptKeepsIdentity(written, others, a);
    CountStays(written, others, a);
    PastGrows(written, others);
    if written.row.Some? && written.row.value.status == SENT {
      SentIsAbsorbing(written, others);
    }
    if Unclaimed(others) && ShowsAttempt(written.row, attemptCount, startedAt) {
      UnclaimedStays(written, others, a, attemptCount);
    }
    finalized, snapshot := FinalizeSale(db, a, target.status, now, target.message, others);
    Reachable(db.trace);
    assert finalized ==> written.row.value in db.past;
  }

  /** The processing stages up to the answer of the mail server; sends counts the calls of the SMTP activity. */
  method Process(o: Oracles) returns (outcome: Answer<Target>, sends: nat)
    ensures outcome.Answered? ==> FinalStatus(outcome.value.status)
    ensures outcome.Answered? && outcome.value.status == SENT <==> MailAccepted(o)
    ensures outcome.Answered? && outcome.value.status == DELIVERY_UNKNOWN <==> MailPending(o)
    ensures outcome == Outcome(o)
    ensures outcome.Answered? ==> outcome.value.status != FAILED_TRANSIENT
    ensures FirstThrow(o) == if outcome.Threw? then Some(outcome.permanent) else None
    ensures sends <= 1
    ensures MailAccepted(o) ==> sends == 1
  {
    sends := 0;
    if o.erp.Threw? {
      return Threw(o.erp.permanent, o.erp.message), sends;
    }
    if o.erp.value.ContextRejected? {
      return Answered(Target(FAILED_FINAL, Some(o.erp.value.message))), sends;
    }
    if o.pdf.Threw? {
      return Threw(o.pdf.permanent, o.pdf.message), sends;
    }
    if o.render.Threw? {
      return Threw(o.render.permanent, o.render.message), sends;
    }
    sends := 1;
    if o.smtp.Threw? {
      return Threw(o.smtp.permanent, o.smtp.message), sends;
    }
    return Answered(ResolveSmtp(o.smtp.value)), sends;
  }

  /** Processing came to an end with an answer, but not with an accepted mail. */
  predicate EndsUnsent(o: Oracles) {
    FirstThrow(o).None? && !MailAccepted(o)
  }

  /** Over an accepted mail: what makes the run report a failure all the same. */
  predicate ReportsFailure(first: Fate, second: Fate, between: seq<SaleAction>, a: nat) {
    first.FailsBefore? && second.Answers? && !ClosesAsSent(between, a)
  }

  /** How a thrown error is finalized: for good if it is permanent or the attempt was the last one allowed. */
  function ThrownStatus(permanent: bool, attemptCount: nat, max: nat): SaleStatus {
    if permanent || max <= attemptCount then FAILED_FINAL else FAILED_TRANSIENT
  }

  /** What processing comes to. */
  function Outcome(o: Oracles): Answer<Target> {
    if FirstThrow(o).Some? then Threw(FirstThrow(o).value, if FirstMessage(o).Some? then FirstMessage(o).value else "")
    else Answered(Target(Verdict(o), FirstMessage(o)))
  }

  /** What an undisturbed row is left as: by the first finalization that reached it, with the message it was given. */
  predicate Settled(before: Sale, at: Attempt, row: Option<Sale>, outcome: Answer<Target>, now: string,
                    first: Fate, second: Fate, attemptCount: nat, max: nat)
    requires at.remembered.Some?
  {
    if outcome.Threw? then
      row == if second.FailsBefore? then Some(before)
             else Some(Written(before, at, if outcome.permanent then FAILED_FINAL else FAILED_TRANSIENT, now,
                               Some(outcome.message)))
    else if !first.FailsBefore? then row == Some(Written(before, at, outcome.value.status, now, outcome.value.message))
    else if second.FailsBefore? then row == Some(before)
    else row.Some? && row.value.status == ThrownStatus(first.permanent, attemptCount, max)
  }

  /** From the outcome of the stages to the reply: finalize it, and finalize over a failure of that once. */
  method Settle(db: SaleDatabase, a: nat, max: nat, startedAt: string, attemptCount: nat, outcome: Answer<Target>,
                now: string, first: Fate, second: Fate, others: seq<seq<SaleAction>>)
    returns (reply: Reply)
    requires Counting(db, a, max, startedAt, attemptCount) && IsDateTime3(now) && Respectful(others, a)
    requires OwnedBy(db.row, startedAt) && db.row.value.attemptCount == attemptCount
    requires outcome.Answered? ==> FinalStatus(outcome.value.status) && outcome.value.status != FAILED_TRANSIENT
    modifies db
    ensures db.Valid() && !reply.Skipped?
    ensures reply.Returned? ==>
              reply.attemptCount == attemptCount && FinalStatus(reply.status) && EverHad(db, reply.status)
    ensures reply.Returned? && NoRivals(others, a) &&
            !(first.FailsAfter? && outcome.Answered? && outcome.value.status != SENT) ==>
              RecordedBy(db.past, reply.status, attemptCount, startedAt)
    ensures reply.Returned? && Unclaimed(Gap(others, 2)) && Unclaimed(Gap(others, 3)) ==>
              RecordedBy(db.past, reply.status, attemptCount, startedAt)
    ensures reply.Returned? && reply.status == SENT ==>
              outcome.Answered? && outcome.value.status == SENT && db.row.Some? && db.row.value.status == SENT
    ensures outcome.Threw? ==>
              (reply.Returned? <==> second.Answers?) &&
              (reply.Returned? ==> reply.status == ThrownStatus(outcome.permanent, attemptCount, max))
    ensures outcome.Answered? && first.Answers? ==> reply == Returned(outcome.value.status, attemptCount)
    ensures outcome.Answered? && !first.Answers? && reply.Returned? ==>
              second.Answers? && reply.status == ThrownStatus(first.permanent, attemptCount, max)
    ensures Gap(others, 2) == [] && Gap(others, 3) == [] ==>
              && Settled(old(db.row).value, old(db.attempts)[a], db.row, outcome, now, first, second, attemptCount, max)
              && (outcome.Answered? && first.FailsBefore? ==> (reply.Returned? <==> second.Answers?))
              && (outcome.Answered? && first.FailsAfter? ==>
                    (reply.Returned? <==>
                       second.Answers? && ThrownStatus(first.permanent, attemptCount, max) == outcome.value.status))
    ensures outcome.Answered? && outcome.value.status == SENT && NoRivals(others, a) ==>
              (reply.Returned? && reply.status != SENT <==> ReportsFailure(first, second, Gap(others, 2), a))
  {
    var failure;
    if outcome.Answered? {
      var result := FinalizeAutomatic(db, a, max, startedAt, attemptCount, outcome.value, now, first, Gap(others, 2));
      if result.Answered? {
        return Returned(result.value, attemptCount);
      }
      failure := Classify(result.permanent, result.message);
    } else {
      failure := Classify(outcome.permanent, outcome.message);
    }
    var result := FinalizeAutomatic(db, a, max, startedAt, attemptCount, failure, now, second, Gap(others, 3));
    reply := if result.Answered? then Returned(result.value, attemptCount) else Failed;
  }

  /** The try/catch around processing: the first finalization's failure is caught and finalized over once. */
  method ProcessClaimed(db: SaleDatabase, a: nat, max: nat, startedAt: string, attemptCount: nat, o: Oracles,
                        now: string, first: Fate, second: Fate, others: seq<seq<SaleAction>>)
    returns (reply: Reply, sends: nat)
    requires Counting(db, a, max, startedAt, attemptCount) && IsDateTime3(now) && Respectful(others, a)
    requires OwnedBy(db.row, startedAt) && db.row.value.attemptCount == attemptCount
    modifies db
    ensures db.Valid() && sends <= 1 && !reply.Skipped? && (MailAccepted(o) ==> sends == 1)
    ensures reply.Returned? ==>
              reply.attemptCount == attemptCount && FinalStatus(reply.status) && EverHad(db, reply.status)
    // recorded for this very attempt, unless an unsent outcome was written, its answer lost, and the sale claimed again
    ensures reply.Returned? && NoRivals(others, a) && !(first.FailsAfter? && EndsUnsent(o)) ==>
              RecordedBy(db.past, reply.status, attemptCount, startedAt)
    ensures reply.Returned? && Unclaimed(Gap(others, 2)) && Unclaimed(Gap(others, 3)) ==>
              RecordedBy(db.past, reply.status, attemptCount, startedAt)
    ensures reply.Returned? && reply.status == SENT ==>
              MailAccepted(o) && sends == 1 && db.row.Some? && db.row.value.status == SENT
    // a stage that threw is finalized as failed, for now or for good as it failed; an outcome is answered as it is; and
    // what a failed finalization of an outcome leaves is finalized as that call failed
    ensures FirstThrow(o).Some? ==>
              (reply.Returned? <==> second.Answers?) &&
              (reply.Returned? ==> reply.status == ThrownStatus(FirstThrow(o).value, attemptCount, max))
    ensures FirstThrow(o).None? && first.Answers? ==> reply == Returned(Verdict(o), attemptCount)
    ensures FirstThrow(o).None? && !first.Answers? && reply.Returned? ==>
              second.Answers? && reply.status == ThrownStatus(first.permanent, attemptCount, max)
    ensures MailPending(o) && first.Answers? ==> reply == Returned(DELIVERY_UNKNOWN, attemptCount)
    // undisturbed, the row ends as the first finalization that reached it left it
    ensures Gap(others, 2) == [] && Gap(others, 3) == [] ==>
              && Settled(old(db.row).value, old(db.attempts)[a], db.row, Outcome(o), now, first, second, attemptCount,
                         max)
              && (FirstThrow(o).None? && first.FailsBefore? ==> (reply.Returned? <==> second.Answers?))
              && (FirstThrow(o).None? && first.FailsAfter? ==>
                    (reply.Returned? <==>
                       second.Answers? && ThrownStatus(first.permanent, attemptCount, max) == Verdict(o)))
    ensures MailAccepted(o) && NoRivals(others, a) ==>
              (reply.Returned? && reply.status != SENT <==> ReportsFailure(first, second, Gap(others, 2), a))
  {
    var outcome;
    outcome, sends := Process(o);
    reply := Settle(db, a, max, startedAt, attemptCount, outcome, now, first, second, others);
  }

  /**
  The workflow. The attempt lock is cancelled exactly when no claim was returned, completed exactly when
  a final status was returned, and with that status, and otherwise left to expire. The mail is sent at
  most once, under a claim; SENT is answered only after the mail was accepted, over a SENT row. Without rivals, a
  failure is answered over an accepted mail if and only if the finalization as SENT failed before it reached
  the row, the second finalization was answered, and nobody else had written SENT in between.
  */
  method ProcessAutomaticSale(db: SaleDatabase, a: nat, max: nat, startedAt: string, lockAcquired: bool,
                              claimAnswers: bool, o: Oracles, now: string, first: Fate, second: Fate,
                              others: seq<seq<SaleAction>>)
    returns (reply: Reply, lock: LockUse, claimed: bool, sends: nat)
    requires Running(db, a, max, startedAt) && IsDateTime3(now) && Respectful(others, a)
    modifies db
    ensures db.Valid()
    ensures lock == NeverHeld <==> !lockAcquired
    ensures lock == CancelSent <==> lockAcquired && !claimed
    ensures forall s :: lock == CompleteSent(s) <==> reply.Returned? && reply.status == s
    ensures lock == LeftPending <==> claimed && reply.Failed?
    ensures claimed ==> lockAcquired && claimAnswers && !reply.Skipped?
    // without a claim: skipped if somebody else has the lock or the sale is not eligible, and otherwise failed
    ensures !lockAcquired ==> reply.Skipped? && db.Now() == old(db.Now())
    ensures lockAcquired && !claimAnswers ==> reply.Failed?
    ensures lockAcquired && claimAnswers && !claimed ==>
              (reply.Skipped? <==> !Eligible(Run(old(db.Now()), Gap(others, 0)).row, max)) &&
              (reply.Skipped? || reply.Failed?)
    ensures var asked := Run(old(db.Now()), Gap(others, 0)).row;
            lockAcquired && claimAnswers && NeverCloses(Gap(others, 1), a) && Eligible(asked, max) ==> claimed
    ensures lockAcquired && claimAnswers && others == [] && Eligible(old(db.row), max) ==> claimed
    ensures claimed && others == [] && reply.Returned? && Eligible(old(db.row), max) ==>
              reply.attemptCount == old(db.row).value.attemptCount + 1
    ensures sends <= 1 && (sends == 1 ==> claimed) && (claimed && MailAccepted(o) ==> sends == 1)
    ensures reply.Returned? ==> FinalStatus(reply.status) && EverHad(db, reply.status)
    ensures reply.Returned? && NoRivals(others, a) && !(first.FailsAfter? && EndsUnsent(o)) ==>
              RecordedBy(db.past, reply.status, reply.attemptCount, startedAt)
    ensures reply.Returned? && Unclaimed(Gap(others, 2)) && Unclaimed(Gap(others, 3)) ==>
              RecordedBy(db.past, reply.status, reply.attemptCount, startedAt)
    ensures reply.Returned? && reply.status == SENT ==>
              MailAccepted(o) && sends == 1 && db.row.Some? && db.row.value.status == SENT
    // a stage that threw is finalized as failed, for now or for good as it failed; an outcome is answered as it is; and
    // what a failed finalization of an outcome leaves is finalized as that call failed
    ensures claimed && FirstThrow(o).Some? ==>
              (reply.Returned? <==> second.Answers?) &&
              (reply.Returned? ==> reply.status == ThrownStatus(FirstThrow(o).value, reply.attemptCount, max))
    ensures claimed && FirstThrow(o).None? && first.Answers? ==> reply.Returned? && reply.status == Verdict(o)
    ensures claimed && FirstThrow(o).None? && !first.Answers? && reply.Returned? ==>
              second.Answers? && reply.status == ThrownStatus(first.permanent, reply.attemptCount, max)
    ensures claimed && MailPending(o) && first.Answers? ==> reply.Returned? && reply.status == DELIVERY_UNKNOWN
    ensures MailAccepted(o) && NoRivals(others, a) ==>
              (reply.Returned? && reply.status != SENT <==> claimed && ReportsFailure(first, second, Gap(others, 2), a))
  {
    claimed, sends := false, 0;
    if !lockAcquired {
      return Reply.Skipped, NeverHeld, claimed, sends;
    }
    lock := CancelSent;
    AttemptKeepsIdentity(db.Now(), Gap(others, 0), a);
    db.Interleave(Gap(others, 0));
    if !claimAnswers {
      return Failed, lock, claimed, sends;
    }
    var claim := ClaimSale(db, a, Gap(others, 1));
    if claim.ReloadFailed? {
      return Failed, lock, claimed, sends;
    }
    if claim.Skipped? {
      return Reply.Skipped, lock, claimed, sends;
    }
    claimed, lock := true, LeftPending;
    reply, sends := ProcessClaimed(db, a, max, startedAt, claim.attemptCount, o, now, first, second, others);
    if reply.Returned? {
      lock := CompleteSent(reply.status);
    }
  }

  // ----- the exact cases happen -----

  lemma OneAutomaticAttempt()
    ensures Run(EMPTY, [InsertSale, StartAutomatic(T0, 2)]) ==
            SaleWorld(Some(Sale(PENDING, 0, None, None, None, None)),
                      [Attempt(T0, Automatic(2), false, 0, None, false)],
                      {Sale(PENDING, 0, None, None, None, None)})
  {
    RunSnoc(EMPTY, [], InsertSale);
    RunSnoc(EMPTY, [InsertSale], StartAutomatic(T0, 2));
    assert [] + [InsertSale] == [InsertSale] &&
           [InsertSale, StartAutomatic(T0, 2)] == [InsertSale] + [StartAutomatic(T0, 2)];
  }

  /** A run that reports a failure although its mail was accepted. */
  method FailureOverAcceptedMail() returns (reply: Reply, sends: nat)
    ensures sends == 1 && MailAccepted(ALL_WELL)
    ensures reply.Returned? && reply.status != SENT
  {
    var db := new SaleDatabase();
    db.Interleave([InsertSale, StartAutomatic(T0, 2)]);
    OneAutomaticAttempt();
    var lock, claimed;
    reply, lock, claimed, sends :=
      ProcessAutomaticSale(db, 0, 2, T0, true, true, ALL_WELL, T1, FailsBefore(false), Answers, []);
  }

  /** An attempt whose unsent outcome was written, and another one that fails for good after it. */
  function OvertakenAttempt(): seq<SaleAction> {
    [InsertSale] + ([StartAutomatic(T0, 2), Claim(0), Confirm(0), Finalize(0, DELIVERY_UNKNOWN, T1, None)] +
                    [StartManual(T2), Claim(1), Confirm(1), Finalize(1, FAILED_FINAL, T2, None)])
  }

  predicate FirstOnly(past: set<Sale>) {
    forall sale :: sale in past && sale.attemptCount == 1 ==> sale.status in {IN_PROGRESS, DELIVERY_UNKNOWN}
  }

  lemma EndsUnknown(w: SaleWorld, x: seq<SaleAction>)
    requires w.row == Some(Sale(PENDING, 0, None, None, None, None)) && w.attempts == [] && FirstOnly(w.past)
    requires x == [StartAutomatic(T0, 2), Claim(0), Confirm(0), Finalize(0, DELIVERY_UNKNOWN, T1, None)]
    ensures var w' := Run(w, x);
            && w'.row == Some(Sale(DELIVERY_UNKNOWN, 1, Some(T0), Some(T0), None, None))
            && w'.attempts == [Attempt(T0, Automatic(2), true, 1, Some(1), true)] && FirstOnly(w'.past)
  {
    RunFour(w, x[0], x[1], x[2], x[3]);
    var w2 := Step(Step(w, x[0]), x[1]);
    assert w2.row == Some(Sale(IN_PROGRESS, 1, Some(T0), Some(T0), None, None));
    assert w2.attempts == [Attempt(T0, Automatic(2), true, 1, None, false)];
    var w3 := Step(w2, x[2]);
    assert w3.row == w2.row && w3.attempts == [Attempt(T0, Automatic(2), true, 1, Some(1), false)];
  }

  lemma OvertakenBy(w: SaleWorld, y: seq<SaleAction>)
    requires w.row == Some(Sale(DELIVERY_UNKNOWN, 1, Some(T0), Some(T0), None, None))
    requires w.attempts == [Attempt(T0, Automatic(2), true, 1, Some(1), true)]
    requires y == [StartManual(T2), Claim(1), Confirm(1), Finalize(1, FAILED_FINAL, T2, None)]
    requires FirstOnly(w.past)
    ensures var w' := Run(w, y);
            && w'.row == Some(Sale(FAILED_FINAL, 2, Some(T0), Some(T2), None, None))
            && |w'.attempts| == 2 && w'.attempts[0] == w.attempts[0] && FirstOnly(w'.past)
  {
    RunFour(w, y[0], y[1], y[2], y[3]);
    var w1 := Step(w, y[0]);
    assert w1.attempts == w.attempts + [Attempt(T2, Manual(w.row.value), false, 0, None, false)];
    var w2 := Step(w1, y[1]);
    assert w2.row == Some(Sale(IN_PROGRESS, 2, Some(T0), Some(T2), None, None));
    assert w2.attempts[1] == Attempt(T2, Manual(w.row.value), true, 1, None, false);
    var w3 := Step(w2, y[2]);
    assert w3.row == w2.row && w3.attempts[1].remembered == Some(2);
  }

  lemma OvertakenState()
    ensures var w := Run(EMPTY, OvertakenAttempt());
            && w.row == Some(Sale(FAILED_FINAL, 2, Some(T0), Some(T2), None, None))
            && |w.attempts| == 2 && w.attempts[0] == Attempt(T0, Automatic(2), true, 1, Some(1), true) &&
            FirstOnly(w.past)
  {
    var x := [StartAutomatic(T0, 2), Claim(0), Confirm(0), Finalize(0, DELIVERY_UNKNOWN, T1, None)];
    var y := [StartManual(T2), Claim(1), Confirm(1), Finalize(1, FAILED_FINAL, T2, None)];
    var w1 := Step(EMPTY, InsertSale);
    RunAppend(EMPTY, [InsertSale], x + y);
    assert Run(EMPTY, [InsertSale]) == w1 by { assert [InsertSale][1..] == []; }
    RunAppend(w1, x, y);
    EndsUnknown(w1, x);
    OvertakenBy(Run(w1, x), y);
  }

  lemma CheckPasses(w: SaleWorld)
    requires w.row == Some(Sale(FAILED_FINAL, 2, Some(T0), Some(T2), None, None)) && FirstOnly(w.past)
    requires |w.attempts| > 0 && w.attempts[0] == Attempt(T0, Automatic(2), true, 1, Some(1), true)
    ensures Step(w, Finalize(0, FAILED_FINAL, T2, None)).row == w.row && Idempotent(w.row, FAILED_FINAL, None)
    ensures !RecordedBy(w.past, FAILED_FINAL, 1, T0)
  {
  }

  /**
  The replay check compares the status alone: here finalizing the first attempt as FAILED_FINAL writes nothing, and the
  check passes over the row of the second, although no FAILED_FINAL was ever recorded at the first one's count.
  */
  lemma ReplayCheckMistakesAttempts()
    ensures var w := Run(EMPTY, OvertakenAttempt());
            && Step(w, Finalize(0, FAILED_FINAL, T2, None)).row == w.row && Idempotent(w.row, FAILED_FINAL, None)
            && !RecordedBy(w.past, FAILED_FINAL, 1, T0)
  {
    OvertakenState();
    CheckPasses(Run(EMPTY, OvertakenAttempt()));
  }

  method OvertakenDatabase() returns (db: SaleDatabase)
    ensures fresh(db) && Counting(db, 0, 2, T0, 1)
    ensures db.row == Some(Sale(FAILED_FINAL, 2, Some(T0), Some(T2), None, None)) && FirstOnly(db.past)
  {
    db := new SaleDatabase();
    db.Interleave(OvertakenAttempt());
    OvertakenState();
  }

  /** The activity itself, called at that point: it answers FAILED_FINAL for an attempt that never had that status. */
  method AnswersForAnotherAttempt() returns (result: Answer<SaleStatus>, row: Option<Sale>, past: set<Sale>)
    ensures result == Answered(FAILED_FINAL) && row.Some? && row.value.attemptCount == 2
    ensures !RecordedBy(past, FAILED_FINAL, 1, T0)
  {
    var db := OvertakenDatabase();
    assert IsDateTime3(T2);
    result := FinalizeAutomatic(db, 0, 2, T0, 1, Target(FAILED_FINAL, None), T2, Answers, []);
    row, past := db.row, db.past;
  }
}
