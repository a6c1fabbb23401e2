/**
startManualNfeEmailDispatchSaleWorkflow: load the record, claim the sale, connect to the workflow service, start
the workflow, and undo the claim when the workflow is known not to have started.
*/
module ManualStart {
  import opened Prelude
  import opened SaleRow
  import opened SaleProtocol
  import opened SaleTheorems
  import opened SaleRepository
  import opened ManualWorkflow

  /**
  What comes of the workflow service: the workflow started (or was found running), is known absent, or gave no
  answer; or no connection to the service could be made at all.
  */
  datatype Launch = Launched | NotStarted | NoAnswer | Unreachable

  datatype StartResult =
    | Started(attemptCount: nat)
    | SaleNotFound
    | SaleMismatch
    | AlreadySent
    | AlreadyInProgress
    | ClaimThrew
    | ClaimReloadFailed
    | ConnectionFailed
    | Unconfirmed(attemptCount: nat)
    | StartFailed
    | RollbackFailed
    | RollbackThrew

  /** How the claim, the service and the rollback answer. */
  datatype StartScript = StartScript(claim: Fate, launch: Launch, rollback: Fate)

  /** throwManualClaimSkippedError, and the same checks before the claim. */
  function Refusal(row: Option<Sale>): StartResult {
    if row.None? then SaleNotFound
    else if row.value.status == SENT then AlreadySent
    else if row.value.status == IN_PROGRESS then AlreadyInProgress
    else SaleMismatch
  }

  /** The claim's update reaches the row. */
  predicate ClaimLands(w: SaleWorld, startedAt: string, erpSaleMatches: bool, script: StartScript,
                       others: seq<seq<SaleAction>>) {
    MayLoad(w) && erpSaleMatches && !script.claim.FailsBefore? &&
    ManuallyClaimable(BeforeClaim(w, startedAt, Gap(others, 0)).row)
  }

  /**
  The client undoes its claim: only over a workflow it knows to be absent, and only if the rollback reaches the row.
  */
  predicate Undoes(script: StartScript) {
    script.claim.Answers? && script.launch.NotStarted? && !script.rollback.FailsBefore?
  }

  /** The client is told that nothing was started. */
  predicate GaveUp(result: StartResult) {
    result in {ClaimThrew, ConnectionFailed, StartFailed, RollbackThrew}
  }

  /** Nobody else closes this attempt. */
  predicate LeftAlone(others: seq<seq<SaleAction>>, a: nat) {
    forall n :: 0 <= n < |others| ==> NeverCloses(others[n], a)
  }

  /** The load, and others' moves up to the claim. */
  method Load(db: SaleDatabase, startedAt: string, others: seq<SaleAction>)
    requires db.Valid() && MayLoad(db.Now()) && FreshStart(db.Now(), startedAt) && NeverClaims(others, |db.attempts|)
    modifies db
    ensures db.Valid() && db.Now() == BeforeClaim(old(db.Now()), startedAt, others)
    ensures |old(db.attempts)| < |db.attempts|
    ensures var at := db.attempts[|old(db.attempts)|];
            && !at.asked && at.startedAt == startedAt && at.kind == Manual(old(db.row).value)
            && !OwnedBy(db.row, startedAt)
  {
    ghost var a := |db.attempts|;
    Reachable(db.trace);
    LoadsBeforeClaim(db.Now(), startedAt, others);
    assert ([StartManual(startedAt)] + others)[1..] == others;
    db.Interleave([StartManual(startedAt)] + others);
    assert AttemptOk(db.Now(), db.attempts[a]);
  }

  /** A claim whose answer never comes. */
  method ClaimUnheard(db: SaleDatabase, a: nat, startedAt: string, others: seq<SaleAction>)
    requires db.Valid() && a < |db.attempts| && db.attempts[a].kind.Manual? && !db.attempts[a].asked
    requires db.attempts[a].startedAt == startedAt
    modifies db
    ensures db.Valid()
    ensures NeverCloses(others, a) ==> (OwnedBy(db.row, startedAt) <==> old(ManuallyClaimable(db.row)))
  {
    Reachable(db.trace);
    if !ManuallyClaimable(db.row) {
      UnmatchedNeverOwns(db.Now(), a, others);
    }
    var affectedRows := db.ClaimStatement(a);
    Reachable(db.trace);
    AttemptKeepsIdentity(db.Now(), others, a);
    if affectedRows == 1 && NeverCloses(others, a) {
      OwnedRowIsStable(db.Now(), others, a);
    }
    db.Interleave(others);
  }

  /** From the confirmed claim on: connect, start, and roll back over an absent workflow. */
  method Launching(db: SaleDatabase, a: nat, attemptCount: nat, startedAt: string, ghost loaded: Sale,
                   script: StartScript, others: seq<seq<SaleAction>>)
    returns (result: StartResult)
    requires Prepared(db, a, attemptCount, startedAt) && Owns(db.row, attemptCount, startedAt)
    requires db.attempts[a].kind == Manual(loaded)
    modifies db
    ensures db.Valid()
    ensures match script.launch
            case Launched => result == Started(attemptCount) && Prepared(db, a, attemptCount, startedAt)
            case NoAnswer => result == Unconfirmed(attemptCount) && Prepared(db, a, attemptCount, startedAt)
            case Unreachable => result == ConnectionFailed
            case NotStarted =>
              if script.rollback.Answers? then result.StartFailed? || result.RollbackFailed?
              else result == RollbackThrew
    ensures result.StartFailed? ==> db.row == Some(loaded)
    ensures LeftAlone(others, a) ==>
              if script.launch.NotStarted? && !script.rollback.FailsBefore? then
                db.row == Some(loaded) && !result.RollbackFailed?
              else db.row == old(db.row)
  {
    Reachable(db.trace);
    if NeverCloses(Gap(others, 2), a) {
      OwnedRowIsStable(db.Now(), Gap(others, 2), a);
    }
    LetOthersMove(db, a, attemptCount, startedAt, Gap(others, 2));
    match script.launch {
      case Launched => result := Started(attemptCount);
      case NoAnswer => result := Unconfirmed(attemptCount);
      case Unreachable => result := ConnectionFailed;
      case NotStarted =>
        if script.rollback.FailsBefore? {
          return RollbackThrew;
        }
        var restored := RollbackClaim(db, a);
        result := if script.rollback.FailsAfter? then RollbackThrew
                  else if restored then StartFailed
                  else RollbackFailed;
    }
  }

  /**
  The start. As long as nobody else closes the attempt, the sale is left claimed exactly if the claim reached the row
  and was not undone; in particular a start that gave up after its claim leaves the row as it was loaded if and only
  if the service was reached and answered that the workflow is absent, and the rollback reached the row.
  */
  method StartManualSale(db: SaleDatabase, startedAt: string, erpSaleMatches: bool, script: StartScript,
                         others: seq<seq<SaleAction>>)
    returns (result: StartResult, a: nat)
    requires db.Valid() && FreshStart(db.Now(), startedAt)
    requires NeverClaims(Gap(others, 0), |db.attempts|)
    modifies db
    ensures db.Valid() && a == |old(db.attempts)|
    // a started or unconfirmed attempt is what the workflow needs
    ensures result.Started? || result.Unconfirmed? ==> Prepared(db, a, result.attemptCount, startedAt)
    ensures (result.Started? ==> script.launch.Launched?) && (result.Unconfirmed? ==> script.launch.NoAnswer?)
    ensures result.ConnectionFailed? ==> script.launch.Unreachable?
    ensures result.ClaimThrew? <==> old(MayLoad(db.Now())) && erpSaleMatches && !script.claim.Answers?
    // a refusal names what the row is now
    ensures result.SaleNotFound? ==> db.row.None?
    ensures result.AlreadySent? ==> db.row.Some? && db.row.value.status == SENT
    ensures result.AlreadyInProgress? ==> db.row.Some? && db.row.value.status == IN_PROGRESS
    ensures result.SaleMismatch? && erpSaleMatches ==> db.row.Some? && db.row.value.status !in {SENT, IN_PROGRESS}
    ensures old(db.row.Some? && db.row.value.status == IN_PROGRESS) && erpSaleMatches ==>
              result == AlreadyInProgress && db.Now() == old(db.Now())
    ensures old(db.row.Some? && db.row.value.status == SENT) && erpSaleMatches ==>
              result == AlreadySent && db.Now() == old(db.Now())
    ensures old(db.row.None?) ==> result == SaleNotFound && db.Now() == old(db.Now())
    ensures old(db.row.Some?) && !erpSaleMatches ==> result == SaleMismatch && db.Now() == old(db.Now())
    // a failed start leaves the row as it was loaded
    ensures result.StartFailed? ==> script.launch.NotStarted? && db.row == old(db.row)
    // if nobody else closes this attempt
    ensures LeftAlone(others, a) ==> result != ClaimReloadFailed && result != RollbackFailed
    ensures LeftAlone(others, a) && old(ClaimLands(db.Now(), startedAt, erpSaleMatches, script, others)) &&
            script.claim.Answers? ==>
              match script.launch
              case Launched => result.Started?
              case NoAnswer => result.Unconfirmed?
              case Unreachable => result.ConnectionFailed?
              case NotStarted => if script.rollback.Answers? then result.StartFailed? else result.RollbackThrew?
    ensures LeftAlone(others, a) ==>
              (OwnedBy(db.row, startedAt) <==>
                old(ClaimLands(db.Now(), startedAt, erpSaleMatches, script, others)) && !Undoes(script))
    ensures LeftAlone(others, a) && GaveUp(result) &&
            old(ClaimLands(db.Now(), startedAt, erpSaleMatches, script, others)) ==>
              (db.row == old(db.row) <==> Undoes(script))
  {
    a := |db.attempts|;
    Reachable(db.trace);
    if db.row.None? {
      return SaleNotFound, a;
    }
    if !erpSaleMatches {
      return SaleMismatch, a;
    }
    if db.row.value.status == SENT || db.row.value.status == IN_PROGRESS {
      return Refusal(db.row), a;
    }
    ghost var loaded := db.row.value;
    Load(db, startedAt, Gap(others, 0));
    if script.claim.FailsBefore? {
      return ClaimThrew, a;
    }
    if script.claim.FailsAfter? {
      ClaimUnheard(db, a, startedAt, Gap(others, 1));
      return ClaimThrew, a;
    }
    var claim := ClaimSale(db, a, Gap(others, 1));
    if claim.ReloadFailed? {
      return ClaimReloadFailed, a;
    }
    if claim.Skipped? {
      return Refusal(db.row), a;
    }
    result := Launching(db, a, claim.attemptCount, startedAt, loaded, script, others);
  }

  // ----- the exact case happens -----

  /** A sale left claimed is stuck: in every run in which nobody closes the attempt, no one can ever claim it again. */
  lemma StuckForGood(w: SaleWorld, actions: seq<SaleAction>, a: nat, max: nat)
    requires Inv(w) && a < |w.attempts| && OwnedBy(w.row, w.attempts[a].startedAt) && NeverCloses(actions, a)
    ensures var w' := Run(w, actions);
            w'.row == w.row && !Eligible(w'.row, max) && !ManuallyClaimable(w'.row) && !MayLoad(w') &&
            Refusal(w'.row) == AlreadyInProgress
  {
    OwnedRowIsStable(w, actions, a);
  }

  lemma FreshSaleLands()
    ensures var w := Run(EMPTY, [InsertSale]);
            && FreshStart(w, T0) && |w.attempts| == 0
            && ClaimLands(w, T0, true, StartScript(Answers, Unreachable, Answers), [])
  {
    var w := Run(EMPTY, [InsertSale]);
    assert w == Step(EMPTY, InsertSale) by { assert [InsertSale][1..] == []; }
    assert BeforeClaim(w, T0, []) == Step(w, StartManual(T0));
  }

  /** With the workflow service out of reach, a start leaves a fresh sale claimed and no workflow to run it. */
  method UnreachableServiceStrandsTheSale() returns (result: StartResult, row: Option<Sale>)
    ensures result == ConnectionFailed && OwnedBy(row, T0) && Refusal(row) == AlreadyInProgress
  {
    var db := new SaleDatabase();
    db.Interleave([InsertSale]);
    FreshSaleLands();
    var a;
    result, a := StartManualSale(db, T0, true, StartScript(Answers, Unreachable, Answers), []);
    row := db.row;
  }
}
