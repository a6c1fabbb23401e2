/**
The attempt lock of a sale: one reservation per sale, attempt and runtime scope, taken before the claim and
completed with the final status or cancelled. The activities validate their input, build the key and map
the reservation's answer.
*/
module AttemptLock {
  import opened Prelude
  import opened Text
  import opened RuntimeScope
  import opened LeaseTable
  import opened LeaseProtocol
  import opened LeaseInvariants
  import opened LeaseTheorems
  import LeaseEffects
  import opened LeaseRepository
  import opened SaleRow

  const LOCK_WORKFLOW := "nfe-email-dispatch-sale-attempt-lock"
  const LOCK_STEP := "attempt-lock"

  datatype LockAnswer =
    | Acquired(leaseToken: nat)
    | Busy
    | AlreadyProcessed(finalStatus: SaleStatus)
    | Error(permanent: bool)

  datatype Done = Done | Fault(permanent: bool)

  // ----- the stored result -----

  datatype LockResult = LockResult(finalStatus: SaleStatus, releasedAt: string)

  function StatusName(status: SaleStatus): string {
    match status
    case PENDING => "PENDING"
    case IN_PROGRESS => "IN_PROGRESS"
    case SENT => "SENT"
    case FAILED_TRANSIENT => "FAILED_TRANSIENT"
    case FAILED_FINAL => "FAILED_FINAL"
    case DELIVERY_UNKNOWN => "DELIVERY_UNKNOWN"
  }

  function FinalStatusNamed(name: string): Option<SaleStatus> {
    if name == "SENT" then Some(SENT)
    else if name == "FAILED_TRANSIENT" then Some(FAILED_TRANSIENT)
    else if name == "FAILED_FINAL" then Some(FAILED_FINAL)
    else if name == "DELIVERY_UNKNOWN" then Some(DELIVERY_UNKNOWN)
    else None
  }

  /** The two fields as one text; the bar stands for their JSON encoding. */
  function StoredLock(status: SaleStatus, releasedAt: string): string {
    StatusName(status) + ("|" + releasedAt)
  }

  predicate NotBar(c: char) {
    c != '|'
  }

  /** parseAttemptLockStoredResult */
  function ParseLock(text: string): (r: Option<LockResult>)
    ensures r.Some? ==> FinalStatus(r.value.finalStatus) && r.value.releasedAt != "" && Trimmed(r.value.releasedAt)
  {
    var n := Span(NotBar, text);
    if n == |text| then None
    else
      var status, releasedAt := FinalStatusNamed(text[..n]), Trim(text[n + 1..]);
      if status.None? || releasedAt == "" then None else Some(LockResult(status.value, releasedAt))
  }

  lemma NameRoundTrip(status: SaleStatus)
    ensures AllMatch(NotBar, StatusName(status))
    ensures FinalStatusNamed(StatusName(status)) == if FinalStatus(status) then Some(status) else None
  {
  }

  lemma BarCuts(name: string, rest: string)
    requires AllMatch(NotBar, name)
    ensures var text := name + ("|" + rest);
            Span(NotBar, text) == |name| < |text| && text[..|name|] == name && text[|name| + 1..] == rest
  {
    SpanFindsTheCut(NotBar, name, "|" + rest);
  }

  /** A stored result is read back as it was completed, if its status is final and it says when. */
  lemma LockResultRoundTrip(status: SaleStatus, releasedAt: string)
    ensures ParseLock(StoredLock(status, releasedAt)) ==
            if FinalStatus(status) && Trim(releasedAt) != "" then Some(LockResult(status, Trim(releasedAt))) else None
  {
    NameRoundTrip(status);
    BarCuts(StatusName(status), releasedAt);
  }

  // ----- the key, as the table compares it -----

  function Lower(c: char): char {
    if 'A' <= c <= 'Z' then c + 32 as char else c
  }

  /** Equal folded texts are what the table's collation holds to be equal, for the characters keys are made of. */
  function Fold(s: string): (r: string)
    ensures |r| == |s|
  {
    seq(|s|, i requires 0 <= i < |s| => Lower(s[i]))
  }

  predicate NotUpper(c: char) {
    !('A' <= c <= 'Z')
  }

  lemma FoldKeeps(s: string)
    requires AllMatch(NotUpper, s)
    ensures Fold(s) == s
  {
    forall i | 0 <= i < |s| ensures Fold(s)[i] == s[i] {
      assert NotUpper(s[i]);
    }
  }

  lemma FoldAppends(s: string, t: string)
    ensures Fold(s + t) == Fold(s) + Fold(t)
  {
  }

  lemma FoldNumber(n: nat)
    ensures Fold(Decimal(n)) == Decimal(n)
  {
    DecimalIsDigits(n);
    var s := Decimal(n);
    forall i | 0 <= i < |s| ensures NotUpper(s[i]) {
      assert IsDigit(s[i]);
    }
    FoldKeeps(s);
  }

  function AttemptKey(saleId: nat, attempt: nat, scope: string): Key {
    Key(LOCK_WORKFLOW, LOCK_STEP, Fold(LockKey(saleId, attempt, scope)))
  }

  lemma FoldedTail(saleId: nat, attempt: nat)
    ensures Fold(LOCK_TAG + AttemptTail(saleId, attempt, "")) == LOCK_TAG + AttemptTail(saleId, attempt, "")
  {
    var a, b := Decimal(saleId), Decimal(attempt);
    FoldNumber(saleId);
    FoldNumber(attempt);
    FoldKeeps("/attempt-");
    FoldKeeps("nfe-email-dispatch-sale-");
    FoldKeeps("attempt-lock/sale-");
    FoldAppends("nfe-email-dispatch-sale-", "attempt-lock/sale-");
    assert b + "" == b;
    FoldAppends("/attempt-", b);
    FoldAppends(a, "/attempt-" + b);
    FoldAppends(LOCK_TAG, a + ("/attempt-" + b));
  }

  /** Folding a scope gives a scope, and production's is the only one that folds to production's. */
  lemma FoldedScope(scope: string)
    requires NormalizeScope(Some(scope)) == Some(scope)
    ensures NormalizeScope(Some(Fold(scope))) == Some(Fold(scope))
    ensures Fold(scope) == PRODUCTION <==> scope == PRODUCTION
  {
    FoldKeeps(PRODUCTION);
    if scope != PRODUCTION {
      var id := scope[|DEV|..];
      assert scope == DEV + id;
      FoldKeeps(DEV);
      FoldAppends(DEV, id);
      forall i | 0 <= i < |id| ensures RunIdChar(Fold(id)[i]) {
        assert RunIdChar(id[i]);
      }
      RunScopeIsNormal(Fold(id));
    }
  }

  lemma FoldedLockKey(saleId: nat, attempt: nat, scope: string)
    requires NormalizeScope(Some(scope)) == Some(scope)
    ensures Fold(LockKey(saleId, attempt, scope)) == LockKey(saleId, attempt, Fold(scope))
  {
    var base := LOCK_TAG + AttemptTail(saleId, attempt, "");
    FoldedTail(saleId, attempt);
    FoldedScope(scope);
    if scope != PRODUCTION {
      FoldKeeps("/");
      FoldAppends("/", base);
      FoldAppends(scope, "/" + base);
    }
  }

  /**
  Two locks are one row exactly when they are for the same sale and attempt and their scopes differ at most in letter
  case.
  */
  lemma AttemptKeysAgree(saleId: nat, attempt: nat, scope: string, saleId': nat, attempt': nat, scope': string)
    requires NormalizeScope(Some(scope)) == Some(scope) && NormalizeScope(Some(scope')) == Some(scope')
    ensures AttemptKey(saleId, attempt, scope) == AttemptKey(saleId', attempt', scope') <==>
            saleId == saleId' && attempt == attempt' && Fold(scope) == Fold(scope')
  {
    FoldedLockKey(saleId, attempt, scope);
    FoldedLockKey(saleId', attempt', scope');
    FoldedScope(scope);
    FoldedScope(scope');
    if AttemptKey(saleId, attempt, scope) == AttemptKey(saleId', attempt', scope') {
      LockKeysAreUnique(saleId, attempt, Fold(scope), saleId', attempt', Fold(scope'));
    }
  }

  const UPPER := DEV + "Run"
  const LOWER := DEV + "run"

  lemma TwinRunIds()
    ensures ValidRunId("Run") && ValidRunId("run") && "Run" != "run" && Fold("Run") == "run" == Fold("run")
  {
    assert "Run"[0] == 'R' && "run"[0] == 'r';
  }

  /** Two scopes of different runs that share the locks of all attempts. */
  lemma CaseTwins(saleId: nat, attempt: nat)
    ensures NormalizeScope(Some(UPPER)) == Some(UPPER) && NormalizeScope(Some(LOWER)) == Some(LOWER) && UPPER != LOWER
    ensures AttemptKey(saleId, attempt, UPPER) == AttemptKey(saleId, attempt, LOWER)
  {
    TwinRunIds();
    RunScopeIsNormal("Run");
    RunScopeIsNormal("run");
    FoldAppends(DEV, "Run");
    FoldAppends(DEV, "run");
    assert UPPER[|DEV|..] == "Run" && LOWER[|DEV|..] == "run";
    AttemptKeysAgree(saleId, attempt, UPPER, saleId, attempt, LOWER);
  }

  /** The token's grant is in the log, and every earlier grant of the key had lapsed or been cancelled by then. */
  ghost predicate HoldsAlone(log: seq<LeaseProtocol.Event>, k: Key, token: nat) {
    exists j: nat :: LeaseEffects.GrantAt(log, j, k, token) &&
                     forall i: nat :: i < j && log[i].Granted? && log[i].key == k ==> Follows(log, k, i, j)
  }

  lemma GrantsHoldAlone(w: World, k: Key, token: nat)
    requires Inv(w) && HoldsGrant(w.calls, k, token)
    ensures HoldsAlone(w.log, k, token)
  {
    assert LoggedGrant(w.log, k, token);
    var j: nat :| j < |w.log| && w.log[j].Granted? && w.log[j].key == k && w.log[j].token == token;
    assert LeaseEffects.GrantAt(w.log, j, k, token);
    forall i: nat | i < j && w.log[i].Granted? && w.log[i].key == k ensures Follows(w.log, k, i, j) {
      GrantsFollow(w, k, i, j);
    }
  }

  /** readPositiveInteger for the ids, and the scope normalized. */
  function LockFor(saleId: int, attempt: int, scope: Option<string>): Option<Key> {
    var s := NormalizeScope(scope);
    if saleId > 0 && attempt > 0 && s.Some? then Some(AttemptKey(saleId, attempt, s.value)) else None
  }

  /** The reservation asked for, if the input is valid; the payload hash is computed from the same three values. */
  function Asks(requestId: string, workflowId: string, saleId: int, attempt: int, scope: Option<string>,
                hash: (int, int, string) -> string): Option<Request>
  {
    var key := LockFor(saleId, attempt, scope);
    if Trim(requestId) == "" || Trim(workflowId) == "" || key.None? then None
    else Some(Request(key.value, Trim(workflowId), Trim(requestId), hash(saleId, attempt, NormalizeScope(scope).value)))
  }

  /**
  What an undisturbed reservation of a lock answers. A new or lapsed lock is acquired, a live one is busy, unless the
  caller's clock is ahead, a final one reports its status, and one held with another payload is an error.
  */
  ghost predicate AnswersQuietly(before: Table, t: Table, req: Request, clock: seq<nat>, answer: LockAnswer) {
    && (req.key !in before.rows ==> answer.Acquired? && HoldsRow(t, req, answer.leaseToken))
    && (Mismatches(before, req) ==> answer == Error(true))
    && (LapsedFor(before, req) ==> answer.Acquired? && HoldsRow(t, req, answer.leaseToken))
    && (LiveFor(before, req) ==>
          t == before && answer == if ClockIsAhead(before, req, clock) then Error(false) else Busy)
    && (FinalFor(before, req) ==>
          var result := before.rows[req.key].result;
          && t == before && result.Some?
          && answer == if ParseLock(result.value).Some?
                       then AlreadyProcessed(ParseLock(result.value).value.finalStatus) else Error(true))
    && (answer.Acquired? && req.key in t.rows ==>
          t.rows[req.key].workflowId == req.workflowId && t.rows[req.key].requestId == req.requestId)
  }

  /** The reservation, and how its answer is read. */
  method ReserveLock(db: Database, req: Request, others: seq<seq<LeaseProtocol.Action>>, clock: seq<nat>)
    returns (answer: LockAnswer)
    requires db.Valid()
    modifies db
    ensures db.Valid()
    ensures answer.Acquired? ==> answer.leaseToken == |old(db.calls)|
    ensures answer.Acquired? ==> HoldsGrant(db.calls, req.key, answer.leaseToken)
    ensures answer.Acquired? ==> HoldsRow(db.table, req, answer.leaseToken)
    ensures answer.Acquired? ==> HoldsAlone(db.log, req.key, answer.leaseToken)
    ensures others == [] ==> AnswersQuietly(old(db.table), db.table, req, clock, answer)
    ensures answer.AlreadyProcessed? ==> FinalStatus(answer.finalStatus) && IsFinal(db.table, req.key)
    ensures answer.AlreadyProcessed? ==>
              var result := db.table.rows[req.key].result;
              result.Some? && ParseLock(result.value).Some? &&
              ParseLock(result.value).value.finalStatus == answer.finalStatus
  {
    Reachable(db.trace);
    QuietAnswers(db.Now(), req, clock);
    var leaseToken, outcome := ReserveWorkflowStepIdempotency(db, req, others, clock);
    Reachable(db.trace);
    assert CallOk(db.Now(), db.calls[leaseToken]);
    match outcome {
      case Reserved(_) =>
        GrantsHoldAlone(db.Now(), req.key, leaseToken);
        answer := Acquired(leaseToken);
      case StillPending(_, _) => answer := Busy;
      case Stored(_, _, _, result) =>
        var stored := ParseLock(result);
        answer := if stored.Some? then AlreadyProcessed(stored.value.finalStatus) else Error(true);
      case PayloadMismatch => answer := Error(true);
      case ResultMissing => answer := Error(true);
      case ReservationRace => answer := Error(false);
    }
  }

  /** acquireNfeEmailDispatchSaleAttemptLockActivity */
  method AcquireAttemptLock(db: Database, requestId: string, workflowId: string, saleId: int, attempt: int,
                            scope: Option<string>, hash: (int, int, string) -> string,
                            others: seq<seq<LeaseProtocol.Action>>, clock: seq<nat>)
    returns (answer: LockAnswer)
    requires db.Valid()
    modifies db
    ensures db.Valid()
    ensures LockFor(saleId, attempt, scope).None? || Trim(requestId) == "" || Trim(workflowId) == "" ==>
              answer == Error(true) && db.Now() == old(db.Now())
    ensures saleId <= 0 || attempt <= 0 || NormalizeScope(scope).None? ==>
              answer == Error(true) && db.Now() == old(db.Now())
    ensures answer.Acquired? ==> LockFor(saleId, attempt, scope).Some? && answer.leaseToken == |old(db.calls)|
    ensures answer.Acquired? ==> HoldsGrant(db.calls, LockFor(saleId, attempt, scope).value, answer.leaseToken)
    ensures answer.Acquired? ==> Owns(db.table, LockFor(saleId, attempt, scope).value, answer.leaseToken)
    ensures answer.Acquired? ==> HoldsAlone(db.log, LockFor(saleId, attempt, scope).value, answer.leaseToken)
    ensures others == [] && Asks(requestId, workflowId, saleId, attempt, scope, hash).Some? ==>
              AnswersQuietly(old(db.table), db.table, Asks(requestId, workflowId, saleId, attempt, scope, hash).value,
                             clock, answer)
    ensures answer.Acquired? && others == [] ==>
              var row := db.table.rows[LockFor(saleId, attempt, scope).value];
              row.workflowId == Trim(workflowId) && row.requestId == Trim(requestId) &&
              row.payloadHash == hash(saleId, attempt, NormalizeScope(scope).value)
    ensures answer.AlreadyProcessed? ==> LockFor(saleId, attempt, scope).Some? && FinalStatus(answer.finalStatus)
    ensures answer.AlreadyProcessed? ==> IsFinal(db.table, LockFor(saleId, attempt, scope).value)
    ensures answer.AlreadyProcessed? ==>
              var result := db.table.rows[LockFor(saleId, attempt, scope).value].result;
              result.Some? && ParseLock(result.value).Some? &&
              ParseLock(result.value).value.finalStatus == answer.finalStatus
  {
    var asked := Asks(requestId, workflowId, saleId, attempt, scope, hash);
    if asked.None? {
      return Error(true);
    }
    answer := ReserveLock(db, asked.value, others, clock);
  }

  /** Runs whose ids differ only in letter case do block each other: the second one's lock is refused for good. */
  method TwinsBlockEachOther(saleId: nat, attempt: nat, hash: (int, int, string) -> string)
    returns (first: LockAnswer, second: LockAnswer)
    requires saleId > 0 && attempt > 0 && hash(saleId, attempt, UPPER) != hash(saleId, attempt, LOWER)
    ensures first.Acquired? && second == Error(true)
  {
    var db := new Database();
    CaseTwins(saleId, attempt);
    assert Trimmed("r") && Trimmed("w");
    first := AcquireAttemptLock(db, "r", "w", saleId, attempt, Some(UPPER), hash, [], []);
    second := AcquireAttemptLock(db, "r", "w", saleId, attempt, Some(LOWER), hash, [], []);
  }

  /** How the activities report the end of a finalize or cancel call. */
  function Reported(outcome: ReleaseOutcome): Done {
    match outcome
    case Released => Done
    case AlreadyFinal => Done
    case LeaseLost => Fault(false)
    case RowNotFound => Fault(true)
    case NotReleasable => Fault(true)
  }

  /** completeNfeEmailDispatchSaleAttemptLockActivity, called with the token acquire handed out. */
  method CompleteAttemptLock(db: Database, workflowId: string, key: Key, leaseToken: nat, finalStatus: SaleStatus,
                             releasedAt: string, others: seq<seq<LeaseProtocol.Action>>)
    returns (done: Done, ghost outcome: ReleaseOutcome)
    requires db.Valid() && HoldsGrant(db.calls, key, leaseToken) && FinalStatus(finalStatus)
    modifies db
    ensures db.Valid()
    ensures done == Done <==> outcome in {Released, AlreadyFinal}
    ensures outcome == Released ==> SettledAs(db.table, key, Completed, StoredLock(finalStatus, releasedAt))
    ensures outcome == AlreadyFinal ==> IsFinal(db.table, key)
    ensures outcome != NotReleasable && (outcome == RowNotFound ==> key !in db.table.rows)
    ensures HoldsGrant(db.calls, key, leaseToken) && !Owns(db.table, key, leaseToken)
    ensures done == Fault(false) <==> outcome == LeaseLost
    // undisturbed, the holder's completion is stored, and over a lock it lost nothing changes
    ensures others == [] && old(Owns(db.table, key, leaseToken)) ==>
              done == Done && SettledAs(db.table, key, Completed, StoredLock(finalStatus, releasedAt)) &&
              db.table.rows[key].externalReference == Some(workflowId)
    ensures others == [] && !old(Owns(db.table, key, leaseToken)) ==>
              db.table == old(db.table) &&
              done == if key !in old(db.table).rows then Fault(true)
                      else if old(IsFinal(db.table, key)) then Done
                      else Fault(false)
  {
    ghost var c := |db.calls|;
    var v := Verdict(Completed, StoredLock(finalStatus, releasedAt), Some(workflowId));
    var o := ReleaseReservation(db, FinalizeCall(key, leaseToken, v, Updating), others);
    Reachable(db.trace);
    assert CallOk(db.Now(), db.calls[c]);
    done, outcome := Reported(o), o;
  }

  /** cancelNfeEmailDispatchSaleAttemptLockActivity */
  method CancelAttemptLock(db: Database, key: Key, leaseToken: nat, others: seq<seq<LeaseProtocol.Action>>)
    returns (done: Done, ghost outcome: ReleaseOutcome)
    requires db.Valid() && HoldsGrant(db.calls, key, leaseToken)
    modifies db
    ensures db.Valid()
    ensures done == Done <==> outcome in {Released, AlreadyFinal}
    ensures outcome == AlreadyFinal ==> IsFinal(db.table, key)
    ensures outcome != NotReleasable && (outcome == RowNotFound ==> key !in db.table.rows)
    // whatever the outcome, this token owns the row no more, and by zombie safety never will
    ensures HoldsGrant(db.calls, key, leaseToken) && !Owns(db.table, key, leaseToken)
    ensures done == Fault(false) <==> outcome == LeaseLost
    // undisturbed, the holder's cancellation deletes the row, and over a lock it lost nothing changes
    ensures others == [] && old(Owns(db.table, key, leaseToken)) ==>
              done == Done && db.table == old(db.table).(rows := old(db.table).rows - {key})
    ensures others == [] && !old(Owns(db.table, key, leaseToken)) ==>
              db.table == old(db.table) &&
              done == if key !in old(db.table).rows then Fault(true)
                      else if old(IsFinal(db.table, key)) then Done
                      else Fault(false)
  {
    ghost var c := |db.calls|;
    var o := ReleaseReservation(db, CancelCall(key, leaseToken, Updating), others);
    Reachable(db.trace);
    assert CallOk(db.Now(), db.calls[c]);
    done, outcome := Reported(o), o;
  }
}
