/**
The automatic workflow together with its attempt lock: the lock activities work on the table of reservations, claim
and finalization on the sale row, and others move on both.
*/
module LockedSale {
  import opened Prelude
  import opened Text
  import opened AttemptLock
  import opened LeaseRepository
  import opened SaleRow
  import opened SaleProtocol
  import opened SaleRepository
  import opened SaleProcessing
  import LeaseTable
  import LeaseProtocol
  import LeaseInvariants
  import LeaseTheorems
  import AutomaticWorkflow

  /**
  What a run asks of the lock activities, and what others do to the locks before, during and after its processing.
  */
  datatype LockScript = LockScript(
    workflowId: string,
    saleId: int,
    attemptNumber: int,
    scope: Option<string>,
    releasedAt: string,
    acquiring: seq<seq<LeaseProtocol.Action>>,
    meanwhile: seq<LeaseProtocol.Action>,
    releasing: seq<seq<LeaseProtocol.Action>>,
    clock: seq<nat>)

  function KeyOf(script: LockScript): Option<LeaseTable.Key> {
    LockFor(script.saleId, script.attemptNumber, script.scope)
  }

  /** The run still has its reservation on record, and had the lock to itself when it got it. */
  ghost predicate HasLock(locks: Database, key: LeaseTable.Key, token: nat)
    reads locks
  {
    LeaseProtocol.HoldsGrant(locks.calls, key, token) && HoldsAlone(locks.log, key, token)
  }

  /** What a holder's finally block leaves of its lock: completed with the run's own status, deleted, or still held. */
  ghost predicate LeftAs(t: LeaseTable.Table, key: LeaseTable.Key, token: nat, use: AutomaticWorkflow.LockUse,
                         releasedAt: string)
  {
    match use
    case CompleteSent(status) =>
      LeaseInvariants.SettledAs(t, key, LeaseTable.Completed, StoredLock(status, releasedAt))
    case CancelSent => key !in t.rows
    case _ => LeaseTable.Owns(t, key, token)
  }

  /** The finally block, whose errors are swallowed; None if it leaves the lock alone. */
  method ReleaseLock(locks: Database, key: LeaseTable.Key, token: nat, use: AutomaticWorkflow.LockUse,
                     script: LockScript)
    returns (done: Option<Done>)
    requires locks.Valid() && LeaseProtocol.HoldsGrant(locks.calls, key, token)
    requires use.CompleteSent? ==> FinalStatus(use.status)
    modifies locks
    ensures locks.Valid() && HasLock(locks, key, token)
    ensures done.None? <==> use.NeverHeld? || use.LeftPending?
    ensures done.None? ==> locks.Now() == old(locks.Now())
    ensures use.CompleteSent? && done == Some(Done.Done) ==> LeaseTable.IsFinal(locks.table, key)
    ensures done.Some? ==> !LeaseTable.Owns(locks.table, key, token)
    ensures script.releasing == [] && old(LeaseTable.Owns(locks.table, key, token)) ==>
              LeftAs(locks.table, key, token, use, script.releasedAt)
  {
    done := None;
    match use {
      case CompleteSent(status) =>
        var d, o := CompleteAttemptLock(locks, script.workflowId, key, token, status, script.releasedAt,
                                        script.releasing);
        done := Some(d);
      case CancelSent =>
        var d, o := CancelAttemptLock(locks, key, token, script.releasing);
        done := Some(d);
      case _ =>
    }
    LeaseInvariants.Reachable(locks.trace);
    GrantsHoldAlone(locks.Now(), key, token);
  }

  function AsksFor(script: LockScript, hash: (int, int, string) -> string): Option<LeaseTable.Request> {
    Asks(script.workflowId, script.workflowId, script.saleId, script.attemptNumber, script.scope, hash)
  }

  /** What an undisturbed acquire answers: it goes by the lock's row, and by the caller's clock if that is live. */
  predicate GoesByRow(t: LeaseTable.Table, req: LeaseTable.Request, clock: seq<nat>, answer: LockAnswer) {
    && (req.key !in t.rows || LeaseTheorems.LapsedFor(t, req) ==> answer.Acquired?)
    && (LeaseTheorems.Mismatches(t, req) ==> answer == LockAnswer.Error(true))
    && (LeaseTheorems.LiveFor(t, req) ==>
          answer == if ClockIsAhead(t, req, clock) then LockAnswer.Error(false) else Busy)
    && (LeaseTheorems.FinalFor(t, req) ==> answer.AlreadyProcessed? || answer == LockAnswer.Error(true))
  }

  /** Taking the lock, and what others do to the locks while the run processes its sale. */
  method TakeLock(locks: Database, script: LockScript, hash: (int, int, string) -> string) returns (answer: LockAnswer)
    requires locks.Valid()
    modifies locks
    ensures locks.Valid()
    ensures answer.Acquired? ==>
              KeyOf(script).Some? && |old(locks.calls)| <= answer.leaseToken &&
              LeaseProtocol.HoldsGrant(locks.calls, KeyOf(script).value, answer.leaseToken)
    ensures answer.Acquired? && script.meanwhile == [] ==>
              LeaseTable.Owns(locks.table, KeyOf(script).value, answer.leaseToken)
    ensures script.acquiring == [] && AsksFor(script, hash).Some? ==>
              GoesByRow(old(locks.table), AsksFor(script, hash).value, script.clock, answer)
  {
    answer := AcquireAttemptLock(locks, script.workflowId, script.workflowId, script.saleId, script.attemptNumber,
                                 script.scope, hash, script.acquiring, script.clock);
    if answer.Acquired? {
      locks.Interleave(script.meanwhile, answer.leaseToken);
    }
  }

  /** How a run that had the lock disposes of it. */
  function UseOf(claimed: bool, reply: AutomaticWorkflow.Reply): AutomaticWorkflow.LockUse {
    if !claimed then AutomaticWorkflow.CancelSent
    else if reply.Returned? then AutomaticWorkflow.CompleteSent(reply.status)
    else AutomaticWorkflow.LeftPending
  }

  /** Processing under the lock, and letting go of it. */
  method RunUnderLock(locks: Database, key: LeaseTable.Key, token: nat, db: SaleDatabase, a: nat, max: nat,
                      startedAt: string, script: LockScript, claimAnswers: bool, o: Oracles, now: string,
                      first: Fate, second: Fate, others: seq<seq<SaleAction>>)
    returns (reply: AutomaticWorkflow.Reply, claimed: bool, sends: nat, done: Option<Done>)
    requires locks.Valid() && LeaseProtocol.HoldsGrant(locks.calls, key, token)
    requires AutomaticWorkflow.Running(db, a, max, startedAt) && IsDateTime3(now)
    requires AutomaticWorkflow.Respectful(others, a)
    modifies locks, db
    ensures locks.Valid() && db.Valid() && HasLock(locks, key, token)
    ensures sends <= 1 && (sends == 1 ==> claimed)
    ensures reply.Returned? ==> FinalStatus(reply.status)
    ensures reply.Returned? && reply.status == SENT ==>
              MailAccepted(o) && sends == 1 && db.row.Some? && db.row.value.status == SENT
    ensures claimed && FirstThrow(o).None? && first.Answers? ==> reply.Returned? && reply.status == Verdict(o)
    ensures claimed && FirstThrow(o).Some? ==>
              (reply.Returned? <==> second.Answers?) &&
              (reply.Returned? ==> reply.status in {FAILED_TRANSIENT, FAILED_FINAL})
    ensures done.None? <==> claimed && reply.Failed?
    ensures done.Some? ==> !LeaseTable.Owns(locks.table, key, token)
    ensures reply.Returned? && done == Some(Done.Done) ==> LeaseTable.IsFinal(locks.table, key)
    ensures script.releasing == [] && old(LeaseTable.Owns(locks.table, key, token)) ==>
              LeftAs(locks.table, key, token, UseOf(claimed, reply), script.releasedAt)
  {
    var use;
    reply, use, claimed, sends :=
      AutomaticWorkflow.ProcessAutomaticSale(db, a, max, startedAt, true, claimAnswers, o, now, first, second, others);
    assert reply.Returned? ==> use == AutomaticWorkflow.CompleteSent(reply.status);
    assert use.CompleteSent? ==> use == AutomaticWorkflow.CompleteSent(use.status);
    done := ReleaseLock(locks, key, token, use, script);
  }

  /**
  The whole run. A mail is sent only under a lock that no earlier run of the same sale, attempt and scope can still have
  held: each earlier lock of that key was a lease older, or cancelled. When the run is over it has let go of the lock,
  unless it claimed the sale and could not report; and a completion that was confirmed leaves the lock final, so that
  no later run of the attempt is granted it.
  */
  method RunLocked(locks: Database, db: SaleDatabase, a: nat, max: nat, startedAt: string, script: LockScript,
                   hash: (int, int, string) -> string, claimAnswers: bool, o: Oracles, now: string,
                   first: Fate, second: Fate, others: seq<seq<SaleAction>>)
    returns (answer: LockAnswer, reply: AutomaticWorkflow.Reply, token: Option<nat>, claimed: bool, sends: nat,
             done: Option<Done>)
    requires locks.Valid() && AutomaticWorkflow.Running(db, a, max, startedAt) && IsDateTime3(now)
    requires AutomaticWorkflow.Respectful(others, a)
    modifies locks, db
    ensures locks.Valid() && db.Valid()
    ensures sends <= 1 && (sends == 1 ==> claimed) && (claimed ==> token.Some?)
    ensures token.Some? ==>
              KeyOf(script).Some? && |old(locks.calls)| <= token.value &&
              HasLock(locks, KeyOf(script).value, token.value)
    ensures token.None? ==> !reply.Returned? && db.Now() == old(db.Now())
    // a lock somebody else has, or has had to the end, makes it skip the sale; only an error makes it fail
    ensures token == if answer.Acquired? then Some(answer.leaseToken) else None
    ensures answer.Busy? || answer.AlreadyProcessed? ==> reply.Skipped?
    ensures answer.Error? ==> reply.Failed?
    ensures script.acquiring == [] && AsksFor(script, hash).Some? ==>
              GoesByRow(old(locks.table), AsksFor(script, hash).value, script.clock, answer)
    ensures reply.Returned? ==> FinalStatus(reply.status)
    ensures reply.Returned? && reply.status == SENT ==>
              MailAccepted(o) && sends == 1 && db.row.Some? && db.row.value.status == SENT
    ensures claimed && FirstThrow(o).None? && first.Answers? ==> reply.Returned? && reply.status == Verdict(o)
    ensures claimed && FirstThrow(o).Some? ==>
              (reply.Returned? <==> second.Answers?) &&
              (reply.Returned? ==> reply.status in {FAILED_TRANSIENT, FAILED_FINAL})
    ensures token.Some? ==> (done.None? <==> claimed && reply.Failed?)
    ensures token.Some? && done.Some? ==> !LeaseTable.Owns(locks.table, KeyOf(script).value, token.value)
    ensures reply.Returned? && done == Some(Done.Done) ==> LeaseTable.IsFinal(locks.table, KeyOf(script).value)
    // if nobody else touches the locks from its acquisition on
    ensures token.Some? && script.meanwhile == [] && script.releasing == [] ==>
              LeftAs(locks.table, KeyOf(script).value, token.value, UseOf(claimed, reply), script.releasedAt)
  {
    token, claimed, sends, done := None, false, 0, None;
    answer := TakeLock(locks, script, hash);
    match answer {
      case Error(_) => reply := AutomaticWorkflow.Reply.Failed;
      case Busy => reply := AutomaticWorkflow.Reply.Skipped;
      case AlreadyProcessed(_) => reply := AutomaticWorkflow.Reply.Skipped;
      case Acquired(t) =>
        token := Some(t);
        reply, claimed, sends, done :=
          RunUnderLock(locks, KeyOf(script).value, t, db, a, max, startedAt, script, claimAnswers, o, now,
                       first, second, others);
    }
  }

  /** Two runs of one attempt that both got past the lock are a lease apart, or the earlier one cancelled. */
  lemma RunsAreALeaseApart(locks: Database, key: LeaseTable.Key, s: nat, t: nat)
    requires locks.Valid() && s != t
    requires LeaseProtocol.HoldsGrant(locks.calls, key, s) && LeaseProtocol.HoldsGrant(locks.calls, key, t)
    ensures exists i: nat, j: nat :: LeaseTheorems.Apart(locks.log, key, i, s, j, t)
  {
    LeaseTheorems.LeaseExclusion(locks.trace, s, t);
  }
}
