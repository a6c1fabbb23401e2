/**
processManualNfeEmailDispatchSaleWorkflow, with its recovery and finally paths. Activities are oracles
that answer or throw; finalization and recovery really write the row, and every other attempt, replays
of this one included, may move before each of them.
*/
module ManualWorkflow {
  import opened Prelude
  import opened Text
  import opened SaleRow
  import opened SaleProtocol
  import opened SaleTheorems
  import opened SaleRepository
  import opened SaleProcessing
  import opened SaleTimes

  datatype Lock = Acquired | Pending | AlreadyProcessed | LockFailed(message: string)

  /**
  What the outside world answers in one run of the workflow. A finalization that throws after its write is one that
  does not answer, with that write among the others' moves before recovery.
  */
  datatype Script = Script(
    loads: bool,
    erpSaleMatches: bool,
    lock: Lock,
    reloads: bool,
    oracles: Oracles,
    finalizes: bool,
    recovers: bool,
    error: string)

  datatype Failure = NotFound | AlreadyRunning | Unrecovered

  datatype Reply = Returned(status: SaleStatus, attemptCount: nat) | Failed(failure: Failure)

  /** Where the first half of the workflow leads. */
  datatype Start = Answer(reply: Reply) | Throw(message: string) | Proceed

  /** The row had this status at this attempt count at some moment. */
  ghost predicate Recorded(db: SaleDatabase, status: SaleStatus, attemptCount: nat)
    reads db
  {
    exists sale :: sale in db.past && sale.status == status && sale.attemptCount == attemptCount
  }

  /** The manual attempt the client prepared: it has claimed once and knows its count. */
  ghost predicate Prepared(db: SaleDatabase, a: nat, attemptCount: nat, startedAt: string)
    reads db
  {
    db.Valid() && a < |db.attempts| && db.attempts[a].kind.Manual? && db.attempts[a].startedAt == startedAt &&
    db.attempts[a].remembered == Some(attemptCount)
  }

  method LetOthersMove(db: SaleDatabase, a: nat, ghost attemptCount: nat, ghost startedAt: string,
                       actions: seq<SaleAction>)
    requires Prepared(db, a, attemptCount, startedAt)
    modifies db
    ensures Prepared(db, a, attemptCount, startedAt) && old(db.past) <= db.past
    ensures db.Now() == Run(old(db.Now()), actions) && db.trace == old(db.trace) + actions
    ensures db.attempts[a].kind == old(db.attempts)[a].kind
  {
    Reachable(db.trace);
    ManualCountStays(db.Now(), actions, a);
    PastGrows(db.Now(), actions);
    db.Interleave(actions);
  }

  /** mapLoadedSaleToIdempotentWorkflowResult */
  function IdempotentReply(row: Option<Sale>, attemptCount: nat, startedAt: string): Option<Reply> {
    if SettledAt(row, attemptCount, startedAt) then Some(Returned(row.value.status, attemptCount)) else None
  }

  predicate Owns(row: Option<Sale>, attemptCount: nat, startedAt: string) {
    OwnedBy(row, startedAt) && row.value.attemptCount == attemptCount
  }

  /** What others do before the first half of the workflow ends over a row it found to be its own. */
  function BeforeThrow(script: Script, others: seq<seq<SaleAction>>): seq<SaleAction> {
    if script.loads && script.erpSaleMatches then Gap(others, 1) else []
  }

  /** Where the answer of the lock leads; a processed attempt is answered for if the row, loaded again, has settled. */
  predicate FollowsLock(start: Start, script: Script, row: Option<Sale>, attemptCount: nat, startedAt: string) {
    match script.lock
    case Acquired => start == Proceed
    case Pending => start == Answer(Failed(AlreadyRunning))
    case LockFailed(message) => start == Throw(message)
    case AlreadyProcessed =>
      if !script.reloads then start == Throw(script.error)
      else if SettledAt(row, attemptCount, startedAt) then start == Answer(Returned(row.value.status, attemptCount))
      else start == Throw(NO_SNAPSHOT)
  }

  const INVALID_INPUT := "invalid input"
  const NO_SNAPSHOT := "processed attempt without final snapshot"

  /** What the operator is told of a run that threw before its processing, over a row of its own. */
  function EarlyMessage(script: Script): string {
    if !script.loads then script.error
    else if !script.erpSaleMatches then INVALID_INPUT
    else if script.lock.LockFailed? then script.lock.message
    else if !script.reloads then script.error
    else NO_SNAPSHOT
  }

  /** Load, idempotence check, input validation and attempt lock. */
  method LoadAndLock(db: SaleDatabase, a: nat, attemptCount: nat, startedAt: string, script: Script,
                     others: seq<seq<SaleAction>>)
    returns (start: Start)
    requires Prepared(db, a, attemptCount, startedAt)
    modifies db
    ensures Prepared(db, a, attemptCount, startedAt) && old(db.past) <= db.past
    ensures start.Answer? && start.reply.Returned? ==>
              start.reply.attemptCount == attemptCount && FinalStatus(start.reply.status) &&
              RecordedBy(db.past, start.reply.status, attemptCount, startedAt)
    ensures start.Answer? && start.reply.Failed? ==> start.reply.failure != Unrecovered
    ensures start.Proceed? <==>
              script.loads && script.erpSaleMatches && script.lock.Acquired? &&
              Owns(Run(old(db.Now()), Gap(others, 0)).row, attemptCount, startedAt)
    ensures start.Proceed? ==>
              Stands(db.row, db.attempts, attemptCount, startedAt, FirstClose(Gap(others, 1), a),
                     Unclaimed(Gap(others, 1)))
    // the other ways on, by where the row was when it was loaded
    ensures !script.loads ==> start == Throw(script.error)
    ensures var loaded := Run(old(db.Now()), Gap(others, 0)).row;
            && (script.loads && SettledAt(loaded, attemptCount, startedAt) ==>
                  start == Answer(Returned(loaded.value.status, attemptCount)) && db.row == loaded)
            && (script.loads && loaded.Some? && !SettledAt(loaded, attemptCount, startedAt) ==>
                  start.Throw? || (Owns(loaded, attemptCount, startedAt) && script.erpSaleMatches))
            && (Owns(loaded, attemptCount, startedAt) ==>
                  && Stands(db.row, db.attempts, attemptCount, startedAt, FirstClose(BeforeThrow(script, others), a),
                            Unclaimed(BeforeThrow(script, others)))
                  && (script.loads && script.erpSaleMatches ==>
                        FollowsLock(start, script, db.row, attemptCount, startedAt))
                  && (script.loads && !script.erpSaleMatches ==> start == Throw(INVALID_INPUT)))
    ensures others == [] ==> db.Now() == old(db.Now())
  {
    LetOthersMove(db, a, attemptCount, startedAt, Gap(others, 0));
    Reachable(db.trace);
    if OwnedBy(db.row, startedAt) { OwnedIsUnloaded(db.trace, a); }
    if !script.loads {
      return Throw(script.error);
    }
    if db.row.None? {
      return Answer(Failed(NotFound));
    }
    var sale := db.row.value;
    var early := IdempotentReply(db.row, attemptCount, startedAt);
    if early.Some? {
      return Answer(early.value);
    }
    if !script.erpSaleMatches || sale.status != IN_PROGRESS || sale.attemptCount != attemptCount ||
       sale.lastAttemptAt != Some(startedAt) {
      return Throw(INVALID_INPUT);
    }
    FirstCloseDecides(db.Now(), Gap(others, 1), a, attemptCount, startedAt, None, true);
    LetOthersMove(db, a, attemptCount, startedAt, Gap(others, 1));
    Reachable(db.trace);
    match script.lock {
      case Acquired => start := Proceed;
      case Pending => start := Answer(Failed(AlreadyRunning));
      case LockFailed(message) => start := Throw(message);
      case AlreadyProcessed =>
        if !script.reloads {
          return Throw(script.error);
        }
        if db.row.None? {
          return Answer(Failed(NotFound));
        }
        var again := IdempotentReply(db.row, attemptCount, startedAt);
        start := if again.Some? then Answer(again.value) else Throw(NO_SNAPSHOT);
    }
  }

  /** executeManualSaleProcessing: every failure of a stage becomes a status to write. */
  method Execute(o: Oracles) returns (target: Target)
    ensures FinalStatus(target.status)
    ensures target.status == SENT <==> MailAccepted(o)
    ensures target.status == DELIVERY_UNKNOWN <==> MailPending(o)
    ensures target.status == FAILED_TRANSIENT <==> FirstThrow(o) == Some(false)
    ensures target.status == Verdict(o) && target.message == FirstMessage(o)
    ensures target.message.None? <==> target.status == SENT
  {
    if o.erp.Threw? {
      return Classify(o.erp.permanent, o.erp.message);
    }
    if o.erp.value.ContextRejected? {
      return Target(FAILED_FINAL, Some(o.erp.value.message));
    }
    if o.pdf.Threw? {
      return Classify(o.pdf.permanent, o.pdf.message);
    }
    if o.render.Threw? {
      return Classify(o.render.permanent, o.render.message);
    }
    if o.smtp.Threw? {
      return Classify(o.smtp.permanent, o.smtp.message);
    }
    return ResolveSmtp(o.smtp.value);
  }

  /** One write of a final status in this attempt's name, followed by the others and the reload. */
  method WriteFinal(db: SaleDatabase, a: nat, attemptCount: nat, startedAt: string, target: Target, now: string,
                    others: seq<SaleAction>)
    returns (finalized: bool, snapshot: Option<Sale>)
    requires Prepared(db, a, attemptCount, startedAt) && FinalStatus(target.status) && IsDateTime3(now)
    modifies db
    ensures Prepared(db, a, attemptCount, startedAt) && old(db.past) <= db.past
    ensures db.Now() == Run(Step(old(db.Now()), Finalize(a, target.status, now, target.message)), others)
    ensures snapshot == db.row && (finalized <==> old(OwnedBy(db.row, startedAt)))
    ensures finalized ==> RecordedBy(db.past, target.status, attemptCount, startedAt)
    ensures finalized && others == [] ==>
              db.row == Some(Written(old(db.row).value, old(db.attempts)[a], target.status, now, target.message))
  {
    ghost var before := db.Now();
    Reachable(db.trace);
    assert AttemptOk(before, before.attempts[a]);
    ghost var write := Finalize(a, target.status, now, target.message);
    StepKeeps(before, write);
    ManualCountStep(before, write, a);
    ManualCountStays(Step(before, write), others, a);
    PastGrows(Step(before, write), others);
    finalized, snapshot := FinalizeSale(db, a, target.status, now, target.message, others);
    assert finalized ==> Step(before, write).row.value in db.past;
  }

  /** What the run's own write, and others' moves after it, leave of the attempt's first close. */
  lemma WriteDecides(w: SaleWorld, a: nat, attemptCount: nat, startedAt: string, target: Target, now: string,
                     others: seq<SaleAction>, first: Option<SaleAction>, unclaimed: bool)
    requires Inv(w) && IsManual(w, a, attemptCount, startedAt) && FinalStatus(target.status) && IsDateTime3(now)
    requires Stands(w.row, w.attempts, attemptCount, startedAt, first, unclaimed)
    ensures var write := Finalize(a, target.status, now, target.message);
            var w' := Run(Step(w, write), others);
            Stands(w'.row, w'.attempts, attemptCount, startedAt, if first.Some? then first else Some(write),
                   unclaimed && Unclaimed(others))
  {
    var write := Finalize(a, target.status, now, target.message);
    StandsStep(w, write, a, attemptCount, startedAt, first, unclaimed);
    OneClose(write, a);
    StepKeeps(w, write);
    ManualCountStep(w, write, a);
    FirstCloseDecides(Step(w, write), others, a, attemptCount, startedAt, Then(first, [write], a), unclaimed);
  }

  /** If the caller knows where the attempt's row stands: first is the attempt's first close so far. */
  ghost predicate Standing(db: SaleDatabase, attemptCount: nat, startedAt: string, known: bool,
                           first: Option<SaleAction>, unclaimed: bool)
    reads db
  {
    known ==> Stands(db.row, db.attempts, attemptCount, startedAt, first, unclaimed)
  }

  /**
  finalizeManualNfeEmailDispatchSaleActivity; None is a throw. It is answered if nobody closed the attempt before, or
  first with the same status and that stayed, and not over another status that stayed.
  */
  method FinalizeManual(db: SaleDatabase, a: nat, attemptCount: nat, startedAt: string, target: Target, now: string,
                        others: seq<SaleAction>, ghost first: Option<SaleAction>, ghost unclaimed: bool)
    returns (result: Option<SaleStatus>)
    requires Prepared(db, a, attemptCount, startedAt) && FinalStatus(target.status) && IsDateTime3(now)
    requires Stands(db.row, db.attempts, attemptCount, startedAt, first, unclaimed)
    modifies db
    ensures Prepared(db, a, attemptCount, startedAt) && old(db.past) <= db.past
    ensures result.Some? ==> result.value == target.status && Recorded(db, result.value, attemptCount)
    ensures old(OwnedBy(db.row, startedAt)) ==> result == Some(target.status)
    ensures result.None? ==>
              first.Some? && Stands(db.row, db.attempts, attemptCount, startedAt, first, unclaimed && Unclaimed(others))
    ensures unclaimed && Unclaimed(others) && ClosedAs(first, target.status) ==> result.Some?
    ensures unclaimed && Unclaimed(others) && ClosedOtherwise(first, target.status) ==> result.None?
    ensures others == [] && old(OwnedBy(db.row, startedAt)) ==>
              db.row == Some(Written(old(db.row).value, old(db.attempts)[a], target.status, now, target.message))
  {
    Reachable(db.trace);
    WriteDecides(db.Now(), a, attemptCount, startedAt, target, now, others, first, unclaimed);
    var finalized, snapshot := WriteFinal(db, a, attemptCount, startedAt, target, now, others);
    Reachable(db.trace);
    if finalized || Idempotent(snapshot, target.status, Some(attemptCount)) {
      result := Some(target.status);
    } else {
      result := None;
    }
  }

  /** recoverManualNfeEmailDispatchSaleActivity: the snapshot decides; None is a throw. */
  method RecoverManual(db: SaleDatabase, a: nat, attemptCount: nat, startedAt: string, target: Target, now: string,
                       others: seq<SaleAction>, ghost known: bool, ghost first: Option<SaleAction>,
                       ghost unclaimed: bool)
    returns (result: Option<SaleStatus>)
    requires Prepared(db, a, attemptCount, startedAt) && FinalStatus(target.status) && IsDateTime3(now)
    requires Standing(db, attemptCount, startedAt, known, first, unclaimed)
    modifies db
    ensures Prepared(db, a, attemptCount, startedAt) && old(db.past) <= db.past
    ensures result.Some? ==> FinalStatus(result.value) && RecordedBy(db.past, result.value, attemptCount, startedAt)
    ensures known && result.Some? ==>
              if first.None? then result.value == target.status else ClosedAs(first, result.value)
    ensures known && unclaimed && Unclaimed(others) ==> (result.Some? <==> first.None? || first.value.Finalize?)
    ensures known && first.None? && Unclaimed(others) ==> result.Some?
    ensures others == [] && old(SettledAt(db.row, attemptCount, startedAt)) ==> result == Some(old(db.row).value.status)
    ensures others == [] && old(OwnedBy(db.row, startedAt)) ==>
              db.row == Some(Written(old(db.row).value, old(db.attempts)[a], target.status, now, target.message))
  {
    Reachable(db.trace);
    if known {
      WriteDecides(db.Now(), a, attemptCount, startedAt, target, now, others, first, unclaimed || first.None?);
    }
    var finalized, snapshot := WriteFinal(db, a, attemptCount, startedAt, target, now, others);
    Reachable(db.trace);
    result := if SettledAt(snapshot, attemptCount, startedAt) then Some(snapshot.value.status) else None;
  }

  /** The catch block. */
  method RecoverOrFail(db: SaleDatabase, a: nat, attemptCount: nat, startedAt: string, target: Target, now: string,
                       recovers: bool, others: seq<seq<SaleAction>>, ghost known: bool,
                       ghost first: Option<SaleAction>, ghost unclaimed: bool)
    returns (reply: Reply)
    requires Prepared(db, a, attemptCount, startedAt) && FinalStatus(target.status) && IsDateTime3(now)
    requires Standing(db, attemptCount, startedAt, known, first, unclaimed)
    modifies db
    ensures Prepared(db, a, attemptCount, startedAt) && old(db.past) <= db.past
    ensures reply.Returned? ==>
              recovers && reply.attemptCount == attemptCount && FinalStatus(reply.status) &&
              RecordedBy(db.past, reply.status, attemptCount, startedAt)
    ensures reply.Failed? ==> reply.failure == Unrecovered
    ensures known && reply.Returned? ==>
              var closed := Then(first, Gap(others, 4), a);
              if closed.None? then reply.status == target.status else ClosedAs(closed, reply.status)
    ensures known && recovers && unclaimed && Unclaimed(Gap(others, 4)) && Unclaimed(Gap(others, 5)) ==>
              var closed := Then(first, Gap(others, 4), a);
              (reply.Returned? <==> closed.None? || closed.value.Finalize?)
    ensures known && recovers && Then(first, Gap(others, 4), a).None? && Unclaimed(Gap(others, 5)) ==> reply.Returned?
    ensures others == [] && recovers && old(SettledAt(db.row, attemptCount, startedAt)) ==>
              reply == Returned(old(db.row).value.status, attemptCount)
    ensures others == [] && recovers && old(OwnedBy(db.row, startedAt)) ==>
              db.row == Some(Written(old(db.row).value, old(db.attempts)[a], target.status, now, target.message))
  {
    Reachable(db.trace);
    if known {
      FirstCloseDecides(db.Now(), Gap(others, 4), a, attemptCount, startedAt, first, unclaimed);
    }
    LetOthersMove(db, a, attemptCount, startedAt, Gap(others, 4));
    if !recovers {
      return Failed(Unrecovered);
    }
    var recovered := RecoverManual(db, a, attemptCount, startedAt, target, now, Gap(others, 5), known,
                                   Then(first, Gap(others, 4), a), unclaimed && Unclaimed(Gap(others, 4)));
    reply := if recovered.None? then Failed(Unrecovered) else Returned(recovered.value, attemptCount);
  }

  /** Everything others do before the run's own write can take effect. */
  function BeforeWrite(others: seq<seq<SaleAction>>, finalizes: bool): seq<SaleAction> {
    Gap(others, 1) + (Gap(others, 2) + if finalizes then [] else Gap(others, 4))
  }

  predicate NobodyClaims(others: seq<seq<SaleAction>>) {
    forall n :: 0 <= n < |others| ==> Unclaimed(others[n])
  }

  /**
  What a processed run answers, with verdict the status its stages call for and closed the first close of the attempt
  before its own write. It is the verdict, or the status somebody else closed the attempt with first; if nobody claims
  the sale again, it is the latter exactly if that is another status, and recovery answers.
  */
  predicate Reports(reply: Reply, attemptCount: nat, verdict: SaleStatus, closed: Option<SaleAction>, script: Script,
                    others: seq<seq<SaleAction>>)
  {
    && (reply.Returned? ==>
          reply.status == verdict || (script.recovers && ClosedAs(closed, reply.status)))
    && (NobodyClaims(others) ==>
          (reply.Returned? && reply.status != verdict <==> script.recovers && ClosedOtherwise(closed, verdict)))
    && (closed.None? && (script.finalizes || (script.recovers && Unclaimed(Gap(others, 5)))) ==>
          reply == Returned(verdict, attemptCount))
  }

  /** Finalize, and recover if that does not answer; first is the attempt's first close so far. */
  method WriteOrRecover(db: SaleDatabase, a: nat, attemptCount: nat, startedAt: string, target: Target, now: string,
                        script: Script, others: seq<seq<SaleAction>>, ghost first: Option<SaleAction>,
                        ghost unclaimed: bool)
    returns (reply: Reply)
    requires Prepared(db, a, attemptCount, startedAt) && FinalStatus(target.status) && IsDateTime3(now)
    requires Stands(db.row, db.attempts, attemptCount, startedAt, first, unclaimed)
    requires NobodyClaims(others) ==> unclaimed
    modifies db
    ensures Prepared(db, a, attemptCount, startedAt) && old(db.past) <= db.past
    ensures reply.Returned? ==>
              reply.attemptCount == attemptCount && FinalStatus(reply.status) &&
              Recorded(db, reply.status, attemptCount)
    ensures Reports(reply, attemptCount, target.status,
                    if script.finalizes then first else Then(first, Gap(others, 4), a), script, others)
    ensures others == [] && old(OwnedBy(db.row, startedAt)) && (script.finalizes || script.recovers) ==>
              db.row == Some(Written(old(db.row).value, old(db.attempts)[a], target.status, now, target.message))
  {
    ghost var unclaimed' := unclaimed;
    if script.finalizes {
      var result := FinalizeManual(db, a, attemptCount, startedAt, target, now, Gap(others, 3), first, unclaimed);
      if result.Some? {
        return Returned(result.value, attemptCount);
      }
      unclaimed' := unclaimed && Unclaimed(Gap(others, 3));
    }
    reply := RecoverOrFail(db, a, attemptCount, startedAt, target, now, script.recovers, others, true, first,
                           unclaimed');
  }

  /** From the processed target to the reply. */
  method FinishManual(db: SaleDatabase, a: nat, attemptCount: nat, startedAt: string, target: Target, now: string,
                      script: Script, others: seq<seq<SaleAction>>)
    returns (reply: Reply)
    requires Prepared(db, a, attemptCount, startedAt) && FinalStatus(target.status) && IsDateTime3(now)
    requires Stands(db.row, db.attempts, attemptCount, startedAt, FirstClose(Gap(others, 1), a),
                    Unclaimed(Gap(others, 1)))
    modifies db
    ensures Prepared(db, a, attemptCount, startedAt) && old(db.past) <= db.past
    ensures reply.Returned? ==>
              reply.attemptCount == attemptCount && FinalStatus(reply.status) &&
              Recorded(db, reply.status, attemptCount)
    ensures Reports(reply, attemptCount, target.status, FirstClose(BeforeWrite(others, script.finalizes), a), script,
                    others)
    ensures others == [] && (script.finalizes || script.recovers) ==>
              db.row == Some(Written(old(db.row).value, old(db.attempts)[a], target.status, now, target.message))
  {
    Reachable(db.trace);
    FirstCloseDecides(db.Now(), Gap(others, 2), a, attemptCount, startedAt, FirstClose(Gap(others, 1), a),
                      Unclaimed(Gap(others, 1)));
    FirstCloseAppends(Gap(others, 1), Gap(others, 2) + if script.finalizes then [] else Gap(others, 4), a);
    FirstCloseAppends(Gap(others, 2), if script.finalizes then [] else Gap(others, 4), a);
    LetOthersMove(db, a, attemptCount, startedAt, Gap(others, 2));
    reply := WriteOrRecover(db, a, attemptCount, startedAt, target, now, script, others,
                            Then(FirstClose(Gap(others, 1), a), Gap(others, 2), a),
                            Unclaimed(Gap(others, 1)) && Unclaimed(Gap(others, 2)));
  }

  /** The second half of the workflow, under the lock. */
  method ExecuteAndFinish(db: SaleDatabase, a: nat, attemptCount: nat, startedAt: string, now: string, script: Script,
                          others: seq<seq<SaleAction>>)
    returns (reply: Reply)
    requires Prepared(db, a, attemptCount, startedAt) && IsDateTime3(now)
    requires Stands(db.row, db.attempts, attemptCount, startedAt, FirstClose(Gap(others, 1), a),
                    Unclaimed(Gap(others, 1)))
    modifies db
    ensures Prepared(db, a, attemptCount, startedAt)
    ensures reply.Returned? ==>
              reply.attemptCount == attemptCount && FinalStatus(reply.status) &&
              Recorded(db, reply.status, attemptCount)
    ensures Reports(reply, attemptCount, Verdict(script.oracles),
                    FirstClose(BeforeWrite(others, script.finalizes), a), script, others)
    ensures MailAccepted(script.oracles) && NoRivals(others, a) && reply.Returned? ==> reply.status == SENT
    ensures MailAccepted(script.oracles) && reply.Returned? && reply.status != SENT ==>
              script.recovers && FailsFirst(BeforeWrite(others, script.finalizes), a)
    ensures MailAccepted(script.oracles) && NobodyClaims(others) ==>
              (reply.Returned? && reply.status != SENT <==>
                 script.recovers && FailsFirst(BeforeWrite(others, script.finalizes), a))
    ensures others == [] && (script.finalizes || script.recovers) ==>
              && reply.Returned?
              && (reply.status == SENT <==> MailAccepted(script.oracles))
              && (reply.status == DELIVERY_UNKNOWN <==> MailPending(script.oracles))
              && (reply.status == FAILED_TRANSIENT <==> FirstThrow(script.oracles) == Some(false))
              && db.row == Some(Written(old(db.row).value, old(db.attempts)[a], reply.status, now,
                                        FirstMessage(script.oracles)))
  {
    var target := Execute(script.oracles);
    if NoRivals(others, a) {
      NoRivalNeverFails(BeforeWrite(others, script.finalizes), a);
    }
    reply := FinishManual(db, a, attemptCount, startedAt, target, now, script, others);
  }

  /**
  The workflow. completed is the status the attempt lock was completed with in the finally block. Whatever happens, a
  returned status was the row's at that attempt count. A run that got to process its sale answers the status its stages
  call for, or the one somebody else closed this attempt with before it wrote. So once the mail was accepted, it answers
  a failure only if recovery answered and somebody else's finalization of this attempt as a failure was its first close
  before the run's own SENT; and if nobody claims the sale again, exactly then.
  */
  method ProcessManualSale(db: SaleDatabase, a: nat, attemptCount: nat, startedAt: string, now: string, script: Script,
                           others: seq<seq<SaleAction>>)
    returns (reply: Reply, acquired: bool, mailAccepted: bool, completed: Option<SaleStatus>)
    requires Prepared(db, a, attemptCount, startedAt) && IsDateTime3(now)
    modifies db
    ensures Prepared(db, a, attemptCount, startedAt)
    ensures reply.Returned? ==> reply.attemptCount == attemptCount && Recorded(db, reply.status, attemptCount)
    ensures reply.Returned? ==> FinalStatus(reply.status)
    ensures acquired <==> script.loads && script.erpSaleMatches && script.lock.Acquired? &&
                          Owns(Run(old(db.Now()), Gap(others, 0)).row, attemptCount, startedAt)
    ensures mailAccepted <==> acquired && MailAccepted(script.oracles)
    ensures acquired ==> Reports(reply, attemptCount, Verdict(script.oracles),
                                 FirstClose(BeforeWrite(others, script.finalizes), a), script, others)
    ensures mailAccepted && NoRivals(others, a) && reply.Returned? ==> reply.status == SENT
    ensures mailAccepted && reply.Returned? && reply.status != SENT ==>
              script.recovers && FailsFirst(BeforeWrite(others, script.finalizes), a)
    ensures mailAccepted && NobodyClaims(others) ==>
              (reply.Returned? && reply.status != SENT <==>
                 script.recovers && FailsFirst(BeforeWrite(others, script.finalizes), a))
    // undisturbed
    ensures acquired && others == [] && (script.finalizes || script.recovers) ==>
              && reply.Returned?
              && (reply.status == SENT <==> MailAccepted(script.oracles))
              && (reply.status == DELIVERY_UNKNOWN <==> MailPending(script.oracles))
              && (reply.status == FAILED_TRANSIENT <==> FirstThrow(script.oracles) == Some(false))
              && db.row == Some(Written(old(db.row).value, old(db.attempts)[a], reply.status, now,
                                        FirstMessage(script.oracles)))
    ensures !acquired ==> EndsEarly(reply, attemptCount, startedAt, script, others,
                                    Run(old(db.Now()), Gap(others, 0)).row, a)
    ensures !acquired && others == [] && script.recovers && old(Owns(db.row, attemptCount, startedAt)) &&
            !(script.loads && script.erpSaleMatches && script.lock.Pending?) ==>
              reply == Returned(FAILED_TRANSIENT, attemptCount) &&
              db.row == Some(Written(old(db.row).value, old(db.attempts)[a], FAILED_TRANSIENT, now,
                                     Some(EarlyMessage(script))))
    ensures completed.Some? <==> acquired && reply.Returned?
    ensures completed.Some? ==> completed.value == reply.status
  {
    acquired, mailAccepted, completed := false, false, None;
    FirstCloseAppends(BeforeThrow(script, others), Gap(others, 4), a);
    var start := LoadAndLock(db, a, attemptCount, startedAt, script, others);
    match start {
      case Answer(r) => reply := r;
      case Throw(message) =>
        var target := Target(FAILED_TRANSIENT, Some(message));
        ghost var owned := Owns(Run(old(db.Now()), Gap(others, 0)).row, attemptCount, startedAt);
        reply := RecoverOrFail(db, a, attemptCount, startedAt, target, now, script.recovers, others, owned,
                               FirstClose(BeforeThrow(script, others), a), Unclaimed(BeforeThrow(script, others)));
      case Proceed =>
        acquired := true;
        mailAccepted := MailAccepted(script.oracles);
        reply := ExecuteAndFinish(db, a, attemptCount, startedAt, now, script, others);
        if reply.Returned? {
          completed := Some(reply.status);
        }
    }
  }

  /** The attempt was closed with a status that its row goes on to show. */
  predicate Settles(closed: Option<SaleAction>, unclaimed: bool) {
    closed.Some? && closed.value.Finalize? && (closed.value.status == SENT || unclaimed)
  }

  /**
  What a run answers that did not get to process its sale, over the row it loaded. A settled attempt is answered for
  with its own status. An attempt of its own it reports as running, if the lock is held, and otherwise as failed
  transiently, unless somebody else closed it before, or recovery did not answer either.
  */
  predicate EndsEarly(reply: Reply, attemptCount: nat, startedAt: string, script: Script, others: seq<seq<SaleAction>>,
                      loaded: Option<Sale>, a: nat)
  {
    && (script.loads && SettledAt(loaded, attemptCount, startedAt) ==>
          reply == Returned(loaded.value.status, attemptCount))
    && (Owns(loaded, attemptCount, startedAt) ==>
          if script.loads && script.erpSaleMatches && script.lock.Pending? then reply == Failed(AlreadyRunning)
          else
            && (reply.Failed? ==> reply.failure == Unrecovered)
            && (script.loads && script.erpSaleMatches && script.lock.AlreadyProcessed? && script.reloads &&
                Settles(FirstClose(Gap(others, 1), a), Unclaimed(Gap(others, 1))) ==>
                  reply == Returned(FirstClose(Gap(others, 1), a).value.status, attemptCount))
            && (reply.Returned? ==>
                  ClosedAs(FirstClose(BeforeThrow(script, others) + Gap(others, 4), a), reply.status) ||
                  (script.recovers && reply.status == FAILED_TRANSIENT)))
  }

  // ----- the exact case happens -----

  method PreparedSale() returns (db: SaleDatabase)
    ensures fresh(db) && Prepared(db, 0, 1, T0) && Owns(db.row, 1, T0)
  {
    db := new SaleDatabase();
    db.Interleave([InsertSale] + [StartManual(T0), Claim(0), Confirm(0)]);
    RunAppend(EMPTY, [InsertSale], [StartManual(T0), Claim(0), Confirm(0)]);
    assert Run(EMPTY, [InsertSale]) == Step(EMPTY, InsertSale) by { assert [InsertSale][1..] == []; }
    ClaimsOnce(Step(EMPTY, InsertSale));
  }

  lemma ClaimsOnce(w: SaleWorld)
    requires w.row == Some(Sale(PENDING, 0, None, None, None, None)) && w.attempts == []
    ensures var w' := Run(w, [StartManual(T0), Claim(0), Confirm(0)]);
            && Owns(w'.row, 1, T0) && |w'.attempts| == 1
            && w'.attempts[0] == Attempt(T0, Manual(w.row.value), true, 1, Some(1), false)
  {
    RunSnoc(w, [], StartManual(T0));
    RunSnoc(w, [StartManual(T0)], Claim(0));
    RunSnoc(w, [StartManual(T0), Claim(0)], Confirm(0));
    assert [] + [StartManual(T0)] == [StartManual(T0)] && [StartManual(T0)] + [Claim(0)] == [StartManual(T0), Claim(0)];
    assert [StartManual(T0), Claim(0)] + [Confirm(0)] == [StartManual(T0), Claim(0), Confirm(0)];
    var w1 := Step(w, StartManual(T0));
    assert w1.attempts == [Attempt(T0, Manual(w.row.value), false, 0, None, false)];
    var w2 := Step(w1, Claim(0));
    assert w2.row == Some(Sale(IN_PROGRESS, 1, Some(T0), Some(T0), None, None));
    assert w2.attempts == [Attempt(T0, Manual(w.row.value), true, 1, None, false)];
  }

  /**
  Another run of the workflow for this very attempt, whose own stages failed, finalizes it first: this run's mail is
  accepted, and it answers that run's failure.
  */
  method RivalDowngrades() returns (reply: Reply, mailAccepted: bool)
    ensures mailAccepted && reply.Returned? && reply.status != SENT
  {
    var db := PreparedSale();
    var rival := Finalize(0, FAILED_FINAL, T1, None);
    var script := Script(true, true, Acquired, true, ALL_WELL, true, true, "");
    var others := [[], [rival]];
    OneClose(rival, 0);
    assert BeforeWrite(others, true) == [rival];
    var acquired, completed;
    reply, acquired, mailAccepted, completed := ProcessManualSale(db, 0, 1, T0, T1, script, others);
  }
}
