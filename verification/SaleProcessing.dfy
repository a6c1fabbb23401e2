/**
What both workflows share: the four processing stages, how their failures are classified, and how the
finalization and recovery activities read the row back.
*/
module SaleProcessing {
  import opened Prelude
  import opened Text
  import opened SaleRow
  import opened SaleProtocol
  import opened SaleTheorems

  /** An activity call either answers or throws; message is the operator text its failure is given. */
  datatype Answer<+T> = Answered(value: T) | Threw(permanent: bool, message: string)

  datatype ErpContext = ContextFound | ContextRejected(message: string)
  datatype SmtpResult = SmtpSuccess | SmtpPending(message: string) | SmtpPermanent(message: string)

  /** The oracles for one attempt's processing. */
  datatype Oracles = Oracles(erp: Answer<ErpContext>, pdf: Answer<()>, render: Answer<()>, smtp: Answer<SmtpResult>)

  /** A status to write, with its operator message. */
  datatype Target = Target(status: SaleStatus, message: Option<string>)

  /** classifyUnhandledProcessingFailure */
  function Classify(permanent: bool, message: string): Target {
    Target(if permanent then FAILED_FINAL else FAILED_TRANSIENT, Some(message))
  }

  /** resolveSmtpResultToFinalization */
  function ResolveSmtp(r: SmtpResult): Target {
    match r
    case SmtpSuccess => Target(SENT, None)
    case SmtpPending(message) => Target(DELIVERY_UNKNOWN, Some(message))
    case SmtpPermanent(message) => Target(FAILED_FINAL, Some(message))
  }

  predicate MailAccepted(o: Oracles) {
    o.erp == Answered(ContextFound) && o.pdf.Answered? && o.render.Answered? && o.smtp == Answered(SmtpSuccess)
  }

  /** Every stage answers, and the mail is accepted. */
  const ALL_WELL := Oracles(Answered(ContextFound), Answered(()), Answered(()), Answered(SmtpSuccess))

  /** The first stage that threw, if one did before the processing came to an end: was its error permanent? */
  function FirstThrow(o: Oracles): Option<bool> {
    if o.erp.Threw? then Some(o.erp.permanent)
    else if o.erp.value.ContextRejected? then None
    else if o.pdf.Threw? then Some(o.pdf.permanent)
    else if o.render.Threw? then Some(o.render.permanent)
    else if o.smtp.Threw? then Some(o.smtp.permanent)
    else None
  }

  /** What the operator is told of the first thing that went wrong, if something did. */
  function FirstMessage(o: Oracles): Option<string> {
    if o.erp.Threw? then Some(o.erp.message)
    else if o.erp.value.ContextRejected? then Some(o.erp.value.message)
    else if o.pdf.Threw? then Some(o.pdf.message)
    else if o.render.Threw? then Some(o.render.message)
    else if o.smtp.Threw? then Some(o.smtp.message)
    else if o.smtp.value.SmtpSuccess? then None
    else Some(o.smtp.value.message)
  }

  /** The status the oracles call for. */
  function Verdict(o: Oracles): SaleStatus {
    if MailAccepted(o) then SENT
    else if MailPending(o) then DELIVERY_UNKNOWN
    else if FirstThrow(o) == Some(false) then FAILED_TRANSIENT
    else FAILED_FINAL
  }

  /** Every stage answered, and the send is pending: another holder of the step may yet have sent. */
  predicate MailPending(o: Oracles) {
    o.erp == Answered(ContextFound) && o.pdf.Answered? && o.render.Answered? && o.smtp.Answered? &&
    o.smtp.value.SmtpPending?
  }

  /** ensureIdempotentFinalization, automatic and manual; the manual one also compares the attempt count. */
  predicate Idempotent(snapshot: Option<Sale>, status: SaleStatus, attemptCount: Option<nat>) {
    snapshot.Some? && (attemptCount.Some? ==> snapshot.value.attemptCount == attemptCount.value) &&
    snapshot.value.status == status && (status == SENT ==> snapshot.value.sentAt.Some?)
  }

  /** The row is at this very attempt and final: what recovery and a repeated run may report. */
  predicate SettledAt(snapshot: Option<Sale>, attemptCount: nat, startedAt: string) {
    snapshot.Some? && snapshot.value.attemptCount == attemptCount && snapshot.value.lastAttemptAt == Some(startedAt) &&
    FinalStatus(snapshot.value.status)
  }

  // ----- the record of one attempt -----

  /** The row had this status, at this attempt count, in this very attempt. */
  ghost predicate RecordedBy(past: set<Sale>, status: SaleStatus, attemptCount: nat, startedAt: string) {
    exists sale :: sale in past && sale.status == status && sale.attemptCount == attemptCount &&
                   sale.lastAttemptAt == Some(startedAt)
  }

  /** The row is at this attempt, with this count, still in progress or sent. */
  predicate AtAttempt(row: Option<Sale>, attemptCount: nat, startedAt: string) {
    row.Some? && row.value.attemptCount == attemptCount && row.value.lastAttemptAt == Some(startedAt) &&
    row.value.status in {IN_PROGRESS, SENT}
  }

  /** The row is at this attempt, with this count, in whatever status. */
  predicate ShowsAttempt(row: Option<Sale>, attemptCount: nat, startedAt: string) {
    row.Some? && row.value.attemptCount == attemptCount && row.value.lastAttemptAt == Some(startedAt)
  }

  // ----- interference around one attempt -----

  /** Nobody claims the sale. */
  predicate Unclaimed(actions: seq<SaleAction>) {
    forall i :: 0 <= i < |actions| ==> !actions[i].Claim?
  }

  /** Then a row that shows an automatic attempt goes on to show it, and a final one does not change. */
  lemma {:induction false} UnclaimedStays(w: SaleWorld, actions: seq<SaleAction>, a: nat, attemptCount: nat)
    requires Inv(w) && a < |w.attempts| && w.attempts[a].kind.Automatic? && Unclaimed(actions)
    requires ShowsAttempt(w.row, attemptCount, w.attempts[a].startedAt)
    ensures ShowsAttempt(Run(w, actions).row, attemptCount, w.attempts[a].startedAt)
    ensures w.row.value.status != IN_PROGRESS ==> Run(w, actions).row == w.row
    decreases |actions|
  {
    if actions != [] {
      var action := actions[0];
      assert !action.Claim? && Unclaimed(actions[1..]);
      if OwnedBy(w.row, w.attempts[a].startedAt) && !Closes(action, a) {
        OwnedStep(w, action, a);
      }
      AttemptKeepsIdentity(w, [action], a);
      assert Run(w, [action]) == Step(w, action) by { assert [action][1..] == []; }
      StepKeeps(w, action);
      UnclaimedStays(Step(w, action), actions[1..], a, attemptCount);
    }
  }

  /** Nobody finalizes the attempt with anything but SENT behind the workflow's back. */
  predicate NoRival(actions: seq<SaleAction>, a: nat) {
    forall i :: 0 <= i < |actions| ==> actions[i].Finalize? && actions[i].a == a ==> actions[i].status == SENT
  }

  ghost predicate NoRivals(others: seq<seq<SaleAction>>, a: nat) {
    forall n :: 0 <= n < |others| ==> NoRival(others[n], a)
  }

  predicate SendsSent(action: SaleAction, a: nat) {
    action.Finalize? && action.a == a && action.status == SENT && IsDateTime3(action.now)
  }

  /** Somebody finalizes the attempt as SENT. */
  predicate ClosesAsSent(actions: seq<SaleAction>, a: nat) {
    exists i :: 0 <= i < |actions| && SendsSent(actions[i], a)
  }

  /** Under such interference an automatic attempt's row stays as it is, unless somebody finalizes it as SENT. */
  lemma {:induction false} HeldUntilSent(w: SaleWorld, actions: seq<SaleAction>, a: nat)
    requires Inv(w) && a < |w.attempts| && w.attempts[a].kind.Automatic? && w.attempts[a].remembered.Some?
    requires OwnedBy(w.row, w.attempts[a].startedAt) && NoRival(actions, a)
    ensures var row := Run(w, actions).row;
            if ClosesAsSent(actions, a)
            then row.Some? && row.value.status == SENT &&
                 AtAttempt(row, w.row.value.attemptCount, w.attempts[a].startedAt)
            else row == w.row
    decreases |actions|
  {
    if actions != [] {
      var action, rest, w' := actions[0], actions[1..], Step(w, actions[0]);
      assert NoRival(rest, a);
      StepKeeps(w, action);
      if SendsSent(action, a) {
        SentIsAbsorbing(w', rest);
      } else {
        if !Closes(action, a) { OwnedStep(w, action, a); }
        HeldUntilSent(w', rest, a);
        assert ClosesAsSent(rest, a) ==> ClosesAsSent(actions, a) by {
          if i :| 0 <= i < |rest| && SendsSent(rest[i], a) { assert actions[i + 1] == rest[i]; }
        }
      }
    }
  }

  /** So a row at the attempt stays at it. */
  lemma StaysAtAttempt(w: SaleWorld, actions: seq<SaleAction>, a: nat, attemptCount: nat)
    requires Inv(w) && a < |w.attempts| && w.attempts[a].kind.Automatic? && w.attempts[a].remembered.Some?
    requires AtAttempt(w.row, attemptCount, w.attempts[a].startedAt) && NoRival(actions, a)
    ensures AtAttempt(Run(w, actions).row, attemptCount, w.attempts[a].startedAt)
  {
    if w.row.value.status == SENT {
      SentIsAbsorbing(w, actions);
    } else {
      HeldUntilSent(w, actions, a);
    }
  }

  lemma ManualCountStep(w: SaleWorld, action: SaleAction, a: nat)
    requires Inv(w) && a < |w.attempts| && w.attempts[a].kind.Manual? && w.attempts[a].remembered.Some?
    ensures a < |Step(w, action).attempts|
    ensures var at := Step(w, action).attempts[a];
            at.kind == w.attempts[a].kind && at.startedAt == w.attempts[a].startedAt &&
            at.remembered == w.attempts[a].remembered
  {
    assert AttemptOk(w, w.attempts[a]);
  }

  /** A manual attempt's remembered count never changes. */
  lemma {:induction false} ManualCountStays(w: SaleWorld, actions: seq<SaleAction>, a: nat)
    requires Inv(w) && a < |w.attempts| && w.attempts[a].kind.Manual? && w.attempts[a].remembered.Some?
    ensures a < |Run(w, actions).attempts|
    ensures var at := Run(w, actions).attempts[a];
            at.kind == w.attempts[a].kind && at.startedAt == w.attempts[a].startedAt &&
            at.remembered == w.attempts[a].remembered
    decreases |actions|
  {
    if actions != [] {
      ManualCountStep(w, actions[0], a);
      StepKeeps(w, actions[0]);
      ManualCountStays(Step(w, actions[0]), actions[1..], a);
    }
  }
}
