/**
The SMTP activity: reserve the step, send once, then record the outcome under the lease.
The mail transport is an oracle; other clients move before every statement and during the send.
*/
module SmtpActivity {
  import opened Prelude
  import opened LeaseTable
  import opened LeaseProtocol
  import opened LeaseInvariants
  import opened LeaseTheorems
  import opened LeaseEffects
  import opened LeaseOnce
  import opened LeaseRepository

  /** What the mail server says. */
  datatype Delivery =
    | Delivered(messageId: string, result: string)
    | Rejected(result: string)  // a permanent integration error
    | Broken  // a transient or unknown error

  /** How recording ended: with an answer of the database, or with an error the call threw. */
  datatype Recording = Reported(outcome: ReleaseOutcome) | Thrown(permanent: bool)

  datatype Answer =
    | Replayed(status: Status, result: string)
    | Awaiting  // the "pending" failure result
    | Success(result: string)
    | Failure(result: string)  // the "permanent" failure result
    | Threw(permanent: bool)

  /** A key that was granted and never cancelled still has its row. */
  lemma GrantedRowStays(w: World, k: Key, token: nat)
    requires Inv(w) && HoldsGrant(w.calls, k, token) && NeverCancelled(w.log, k)
    ensures k in w.table.rows
  {
    assert LoggedGrant(w.log, k, token);
    SendsAreTokens(w.log, k);
    GrantsAreTokens(w.log, k);
    UncancelledGrants(w.log, k);
    assert token in GrantedTokens(w.log, k);
    assert Attempts(w.table, k) == GrantsSince(w.log, k);
  }

  ghost predicate HasSent(log: seq<Event>, k: Key, token: nat, accepted: bool) {
    exists i :: 0 <= i < |log| &&
      log[i].Sent? && log[i].key == k && log[i].token == token && log[i].accepted == accepted
  }

  lemma OnlyHoldersSend(w: World, k: Key, token: nat, accepted: bool)
    requires Inv(w)
    ensures HasSent(w.log, k, token, accepted) ==> HoldsGrant(w.calls, k, token)
  {
    if HasSent(w.log, k, token, accepted) {
      var i :| 0 <= i < |w.log| && w.log[i].Sent? && w.log[i].key == k && w.log[i].token == token &&
               w.log[i].accepted == accepted;
      assert EventOk(w, i);
    }
  }

  lemma PrefixRun(before: seq<Action>, after: seq<Action>)
    requires before <= after
    ensures Run(START, after) == Run(Run(START, before), after[|before|..])
  {
    RunAppend(START, before, after[|before|..]);
    assert before + after[|before|..] == after;
  }

  lemma UnseenToken(w: World, token: nat)
    requires Inv(w) && |w.calls| <= token
    ensures forall i :: 0 <= i < |w.log| ==> w.log[i].token != token
  {
    forall i | 0 <= i < |w.log| ensures w.log[i].token != token { assert EventOk(w, i); }
  }

  /** A token has no events before its call begins, so its grant comes no earlier than the call. */
  lemma NewTokenIsGrantedNow(before: seq<Action>, after: seq<Action>, k: Key, token: nat) returns (g: int)
    requires before <= after && |Run(START, before).calls| <= token && HoldsGrant(Run(START, after).calls, k, token)
    ensures GrantAt(Run(START, after).log, g, k, token)
    ensures Run(START, before).table.now <= Run(START, after).log[g].at
  {
    var w, w' := Run(START, before), Run(START, after);
    Reachable(before);
    Reachable(after);
    assert LoggedGrant(w'.log, k, token);
    g :| 0 <= g < |w'.log| && w'.log[g].Granted? && w'.log[g].key == k && w'.log[g].token == token;
    PrefixRun(before, after);
    LaterIsLater(w, after[|before|..]);
    LogOnlyGrows(w, after[|before|..]);
    UnseenToken(w, token);
  }

  lemma {:induction false} LaterIsLater(w: World, actions: seq<Action>)
    ensures w.table.now <= Run(w, actions).table.now
    ensures forall i :: |w.log| <= i < |Run(w, actions).log| ==> w.table.now <= Run(w, actions).log[i].at
    decreases |actions|
  {
    if actions != [] {
      LaterIsLater(Step(w, actions[0]), actions[1..]);
      LogOnlyGrows(Step(w, actions[0]), actions[1..]);
    }
  }

  /** The holder's lease was lost to somebody else: it never is within ninety seconds. */
  ghost predicate LeaseIsLost(db: Database, k: Key, token: nat)
    reads db
  {
    k in db.table.rows && db.table.rows[k].status == Pending && !Owns(db.table, k, token)
  }

  lemma NotLostInTime(before: seq<Action>, after: seq<Action>, k: Key, token: nat)
    requires before <= after && |Run(START, before).calls| <= token && HoldsGrant(Run(START, after).calls, k, token)
    requires NeverCancelled(Run(START, after).log, k)
    requires Run(START, after).table.now < Run(START, before).table.now + 90
    ensures Owns(Run(START, after).table, k, token) || IsFinal(Run(START, after).table, k)
  {
    var g := NewTokenIsGrantedNow(before, after, k, token);
    Reachable(after);
    HeldInTime(Run(START, after), k, token, g);
  }

  /** The key's row is final with just this verdict. */
  predicate Stores(t: Table, k: Key, v: Verdict) {
    k in t.rows && t.rows[k].status == v.status && t.rows[k].result == Some(v.result) &&
    t.rows[k].externalReference == v.externalReference
  }

  /**
  One of the two recording calls, as the activity sees it. It may also throw: the database may refuse it
  before its update took effect, or its answer may be refused after.
  */
  method Record(db: Database, key: Key, token: nat, v: Verdict, fate: Fate, others: seq<seq<Action>>)
    returns (r: Recording)
    requires db.Valid() && Final(v) && HoldsGrant(db.calls, key, token)
    modifies db
    ensures db.Valid() && old(db.trace) <= db.trace && old(db.log) <= db.log
    ensures HoldsGrant(db.calls, key, token)
    ensures r.Reported? <==> fate.Answers?
    ensures r.Thrown? ==> r.permanent == fate.permanent
    ensures r.Reported? && r.outcome in {Released, AlreadyFinal} ==> IsFinal(db.table, key)
    ensures r == Reported(Released) ==> SettledAs(db.table, key, v.status, v.result)
    ensures r == Reported(LeaseLost) ==> LeaseIsLost(db, key, token)
    ensures r == Reported(RowNotFound) ==> !NeverCancelled(db.log, key)
    ensures r != Reported(NotReleasable)
    // undisturbed, the owner's write takes effect unless the call failed before it
    ensures others == [] && fate.FailsBefore? ==> db.table == old(db.table)
    ensures others == [] && !fate.FailsBefore? && old(Owns(db.table, key, token)) ==>
              Stores(db.table, key, v) && (fate.Answers? ==> r == Reported(Released))
    ensures others == [] && old(IsFinal(db.table, key)) ==>
              db.table == old(db.table) && (fate.Answers? ==> r.outcome in {Released, AlreadyFinal})
  {
    ghost var before := db.trace;
    if fate.FailsBefore? {
      db.Interleave(Gap(others, 0), token);
      PrefixRun(before, db.trace);
      LogOnlyGrows(Run(START, before), db.trace[|before|..]);
      return Thrown(fate.permanent);
    }
    var c := |db.calls|;
    var outcome := ReleaseReservation(db, FinalizeCall(key, token, v, Updating), others);
    Reachable(db.trace);
    assert CallOk(db.Now(), db.calls[c]);
    PrefixRun(before, db.trace);
    LogOnlyGrows(Run(START, before), db.trace[|before|..]);
    if outcome == RowNotFound && NeverCancelled(db.log, key) {
      GrantedRowStays(db.Now(), key, token);
    }
    r := if fate.FailsAfter? then Thrown(fate.permanent) else Reported(outcome);
  }

  /** The error the activity sees, if any: was it permanent? */
  function RecordingError(r: Recording): Option<bool> {
    match r
    case Thrown(permanent) => Some(permanent)
    case Reported(Released) => None
    case Reported(AlreadyFinal) => None
    case Reported(LeaseLost) => Some(false)
    case Reported(_) => Some(true)
  }

  /** The failure result built from a permanent error met while recording a success, whatever its code. */
  const RECORDING_FAILED := "permanent recording error"

  /** The recording of the success failed for good, and then the recording of that failure was answered. */
  predicate RecordsAFailure(first: Fate, second: Fate) {
    !first.Answers? && first.permanent && second.Answers?
  }

  /**
  What the answer after a send says. A success or failure is only reported over a final row. As long as nobody cancels
  reservations of the step, an accepted mail ends as a failure exactly if its success failed to be recorded for good
  and that failure was recorded, unless the lease was lost; and an answered recording fails, for now, exactly if it was.
  */
  ghost predicate Reports(db: Database, key: Key, leaseToken: nat, delivery: Delivery, first: Fate, second: Fate,
                          answer: Answer)
    reads db
  {
    && (answer.Success? || answer.Failure? || answer.Threw?)
    && (delivery.Broken? ==> answer == Threw(false))
    && (answer.Success? ==> delivery.Delivered? && answer.result == delivery.result && IsFinal(db.table, key))
    && (answer.Failure? ==> IsFinal(db.table, key))
    && (answer.Failure? && delivery.Rejected? ==> answer.result == delivery.result)
    && (answer.Failure? && delivery.Delivered? ==> answer.result == RECORDING_FAILED)
    && (delivery.Delivered? && NeverCancelled(db.log, key) ==>
          (answer.Failure? <==> RecordsAFailure(first, second) && !LeaseIsLost(db, key, leaseToken)))
    && (!delivery.Broken? && first.Answers? && NeverCancelled(db.log, key) ==>
          (answer.Threw? <==> LeaseIsLost(db, key, leaseToken)) && (answer.Threw? ==> !answer.permanent))
    // a recording that failed fails the activity just so
    && (delivery.Rejected? && !first.Answers? ==> answer == Threw(first.permanent))
    && (delivery.Delivered? && !first.Answers? && !first.permanent ==> answer == Threw(false))
    && (delivery.Delivered? && !first.Answers? && first.permanent && !second.Answers? ==>
          answer == Threw(second.permanent))
  }

  /** What the activity answers after its send when nobody disturbs it. */
  function UndisturbedAnswer(delivery: Delivery, first: Fate, second: Fate): Answer {
    match delivery
    case Broken => Threw(false)
    case Rejected(result) => if first.Answers? then Failure(result) else Threw(first.permanent)
    case Delivered(_, result) =>
      if first.Answers? then Success(result)
      else if !first.permanent then Threw(false)
      else if second.Answers? then Failure(RECORDING_FAILED)
      else Threw(second.permanent)
  }

  /** And what it then leaves: the result of the send, the recording error, or a reservation still pending. */
  predicate UndisturbedRow(before: Table, t: Table, k: Key, delivery: Delivery, first: Fate, second: Fate) {
    match delivery
    case Broken => t == before
    case Rejected(result) => if first.FailsBefore? then t == before else Stores(t, k, Verdict(Failed, result, None))
    case Delivered(messageId, result) =>
      if !first.FailsBefore? then Stores(t, k, Verdict(Completed, result, Some(messageId)))
      else if first.permanent && !second.FailsBefore? then Stores(t, k, Verdict(Failed, RECORDING_FAILED, None))
      else t == before
  }

  /**
  The two recording calls after the mail server answered. first and second are the fates of recording the outcome
  and, after a permanent error from recording a success, of recording that error as a failure.
  */
  method Conclude(db: Database, key: Key, leaseToken: nat, delivery: Delivery, first: Fate, second: Fate,
                  recording: seq<seq<Action>>, retrying: seq<seq<Action>>)
    returns (answer: Answer)
    requires db.Valid() && HoldsGrant(db.calls, key, leaseToken)
    modifies db
    ensures db.Valid() && old(db.trace) <= db.trace && old(db.log) <= db.log
    ensures HoldsGrant(db.calls, key, leaseToken)
    ensures Reports(db, key, leaseToken, delivery, first, second, answer)
    ensures recording == [] && retrying == [] && old(Owns(db.table, key, leaseToken)) ==>
              && answer == UndisturbedAnswer(delivery, first, second)
              && UndisturbedRow(old(db.table), db.table, key, delivery, first, second)
  {
    if delivery.Broken? {
      return Threw(false);
    }
    var verdict := if delivery.Delivered? then Verdict(Completed, delivery.result, Some(delivery.messageId))
                   else Verdict(Failed, delivery.result, None);
    var recorded := Record(db, key, leaseToken, verdict, first, recording);
    var error := RecordingError(recorded);
    if error.None? {
      return if delivery.Delivered? then Success(delivery.result) else Failure(delivery.result);
    }
    if delivery.Rejected? || !error.value {
      return Threw(error.value);
    }
    var again := Record(db, key, leaseToken, Verdict(Failed, RECORDING_FAILED, None), second, retrying);
    var secondError := RecordingError(again);
    answer := if secondError.None? then Failure(RECORDING_FAILED) else Threw(secondError.value);
  }

  /** The reservation: an answer without a send, or None for a step that is granted. */
  method ReserveStep(db: Database, req: Request, reserving: seq<seq<Action>>, clock: seq<nat>)
    returns (early: Option<Answer>, leaseToken: nat)
    requires db.Valid()
    modifies db
    ensures db.Valid() && old(db.trace) <= db.trace && |old(db.calls)| == leaseToken < |db.calls|
    ensures if early.None? then MaySend(db.Now(), leaseToken) && Owns(db.table, req.key, leaseToken)
            else !HoldsGrant(db.calls, req.key, leaseToken)
    ensures early.None? ==> HoldsGrant(db.calls, req.key, leaseToken)
    ensures early.Some? ==> early.value.Replayed? || early.value.Awaiting? || early.value.Threw?
    ensures early.Some? && early.value.Replayed? ==>
              SettledAs(db.table, req.key, early.value.status, early.value.result)
    ensures reserving == [] && (req.key !in old(db.table).rows || LapsedFor(old(db.table), req)) ==> early.None?
    ensures reserving == [] && FinalFor(old(db.table), req) ==>
              var row := old(db.table).rows[req.key];
              row.result.Some? && early == Some(Replayed(row.status, row.result.value))
    ensures reserving == [] && LiveFor(old(db.table), req) ==>
              early == Some(if ClockIsAhead(old(db.table), req, clock) then Threw(false) else Awaiting)
    ensures reserving == [] && Mismatches(old(db.table), req) ==> early == Some(Threw(true))
    ensures reserving == [] ==>
              db.table == if early.None? then Effect(old(db.table), req, leaseToken) else old(db.table)
  {
    Reachable(db.trace);
    QuietAnswers(db.Now(), req, clock);
    var outcome;
    leaseToken, outcome := ReserveWorkflowStepIdempotency(db, req, reserving, clock);
    Reachable(db.trace);
    assert CallOk(db.Now(), db.calls[leaseToken]);
    match outcome {
      case Stored(status, _, _, result) => early := Some(Replayed(status, result));
      case StillPending(_, _) => early := Some(Awaiting);
      case ReservationRace => early := Some(Threw(false));
      case PayloadMismatch => early := Some(Threw(true));
      case ResultMissing => early := Some(Threw(true));
      case Reserved(_) => early := None;
    }
  }

  /** From the reservation on: send, and record what came of it. */
  method SendReserved(db: Database, key: Key, leaseToken: nat, delivery: Delivery, first: Fate, second: Fate,
                      sending: seq<Action>, recording: seq<seq<Action>>, retrying: seq<seq<Action>>)
    returns (answer: Answer)
    requires db.Valid() && MaySend(db.Now(), leaseToken) && HoldsGrant(db.calls, key, leaseToken)
    modifies db
    ensures db.Valid() && old(db.trace) <= db.trace && HoldsGrant(db.calls, key, leaseToken)
    ensures HasSent(db.log, key, leaseToken, delivery.Delivered?)
    ensures Reports(db, key, leaseToken, delivery, first, second, answer)
    ensures sending == [] && recording == [] && retrying == [] && old(Owns(db.table, key, leaseToken)) ==>
              && answer == UndisturbedAnswer(delivery, first, second)
              && UndisturbedRow(old(db.table), db.table, key, delivery, first, second)
  {
    db.Interleave(sending, leaseToken);
    db.SendEffect(leaseToken, delivery.Delivered?);
    assert db.log[|db.log| - 1].Sent?;
    answer := Conclude(db, key, leaseToken, delivery, first, second, recording, retrying);
  }

  /**
  sendSmtpEmailActivity. It answers from the stored result, or it sends exactly when it was granted the step.
  An accepted mail ends as a failure if and only if recording the success failed for good, recording that
  failure was answered, and the lease was not lost; within ninety seconds it cannot have been lost.
  */
  method SendSmtpEmail(db: Database, req: Request, delivery: Delivery, first: Fate, second: Fate,
                       reserving: seq<seq<Action>>, sending: seq<Action>, recording: seq<seq<Action>>,
                       retrying: seq<seq<Action>>, clock: seq<nat>)
    returns (answer: Answer, sent: bool, leaseToken: nat)
    requires db.Valid()
    modifies db
    ensures db.Valid() && old(db.trace) <= db.trace
    ensures leaseToken < |db.calls| && (sent <==> HoldsGrant(db.calls, req.key, leaseToken))
    ensures sent <==> HasSent(db.log, req.key, leaseToken, delivery.Delivered?)
    ensures if sent then Reports(db, req.key, leaseToken, delivery, first, second, answer)
            else answer.Replayed? || answer.Awaiting? || answer.Threw?
    ensures answer.Replayed? ==> SettledAs(db.table, req.key, answer.status, answer.result)
    ensures sent && NeverCancelled(db.log, req.key) && db.table.now < old(db.table.now) + 90 ==>
              !LeaseIsLost(db, req.key, leaseToken)
    // reserved undisturbed: a new or lapsed step is sent; a final one is replayed; a live one is awaited, unless the
    // caller's clock is ahead; one with another payload is a permanent error; and without a send nothing is written
    ensures reserving == [] && req.key !in old(db.table).rows ==> sent
    ensures reserving == [] && LapsedFor(old(db.table), req) ==> sent
    ensures reserving == [] && FinalFor(old(db.table), req) ==>
              var row := old(db.table).rows[req.key];
              row.result.Some? && answer == Replayed(row.status, row.result.value) && !sent
    ensures reserving == [] && LiveFor(old(db.table), req) ==>
              !sent && answer == if ClockIsAhead(old(db.table), req, clock) then Threw(false) else Awaiting
    ensures reserving == [] && Mismatches(old(db.table), req) ==> !sent && answer == Threw(true)
    ensures reserving == [] && !sent ==> db.table == old(db.table)
    ensures sent && sending == [] && recording == [] && retrying == [] ==>
              answer == UndisturbedAnswer(delivery, first, second)
    ensures sent && reserving == [] && sending == [] && recording == [] && retrying == [] ==>
              UndisturbedRow(Effect(old(db.table), req, leaseToken), db.table, req.key, delivery, first, second)
    ensures sent && delivery.Delivered? && sending == [] && recording == [] && retrying == [] ==>
              && (!first.FailsBefore? ==> SettledAs(db.table, req.key, Completed, delivery.result))
              && (first.FailsBefore? && first.permanent && !second.FailsBefore? ==>
                    SettledAs(db.table, req.key, Failed, RECORDING_FAILED))
  {
    ghost var before := db.trace;
    var early;
    early, leaseToken := ReserveStep(db, req, reserving, clock);
    Reachable(db.trace);
    OnlyHoldersSend(db.Now(), req.key, leaseToken, delivery.Delivered?);
    sent := early.None?;
    if early.Some? {
      answer := early.value;
      return;
    }
    answer := SendReserved(db, req.key, leaseToken, delivery, first, second, sending, recording, retrying);
    if NeverCancelled(db.log, req.key) && db.table.now < old(db.table.now) + 90 {
      NotLostInTime(before, db.trace, req.key, leaseToken);
    }
  }

  /** The exact case happens: the server accepts the mail, and the row and the answer both say it failed. */
  method AcceptedMailRecordedAsFailure(req: Request, delivery: Delivery)
    returns (answer: Answer, sent: bool, row: Option<Row>)
    requires delivery.Delivered?
    ensures sent && answer == Failure(RECORDING_FAILED)
    ensures row.Some? && row.value.status == Failed && row.value.result == Some(RECORDING_FAILED)
  {
    var db := new Database();
    var leaseToken;
    answer, sent, leaseToken := SendSmtpEmail(db, req, delivery, FailsBefore(true), Answers, [], [], [], [], []);
    row := Lookup(db.table, req.key);
  }

  /** If the error came after the write, the answer is a failure over a row that stores the success. */
  method FailureAnsweredOverStoredSuccess(req: Request, delivery: Delivery)
    returns (answer: Answer, sent: bool, row: Option<Row>)
    requires delivery.Delivered?
    ensures sent && answer == Failure(RECORDING_FAILED)
    ensures row.Some? && row.value.status == Completed && row.value.result == Some(delivery.result)
  {
    var db := new Database();
    var leaseToken;
    answer, sent, leaseToken := SendSmtpEmail(db, req, delivery, FailsAfter(true), Answers, [], [], [], [], []);
    row := Lookup(db.table, req.key);
  }
}
