/**
Any number of attempts, automatic and manual, working on one sale row, one SQL statement at a time
and with statements replayed at will. Attempts carry distinct start times.
*/
module SaleProtocol {
  import opened Prelude
  import opened Text
  import opened SaleRow

  /**
  One attempt. An automatic attempt fixes max; a manual one remembers the record it loaded.
  matched counts the claim updates of this attempt that matched the row; remembered is the attempt
  count its claim was confirmed with; closed says that it has sent a finalization or a rollback.
  */
  datatype Attempt = Attempt(
    startedAt: string,
    kind: Kind,
    asked: bool,
    matched: nat,
    remembered: Option<nat>,
    closed: bool)

  datatype Kind = Automatic(max: nat) | Manual(loaded: Sale)

  datatype SaleWorld = SaleWorld(row: Option<Sale>, attempts: seq<Attempt>, past: set<Sale>)

  datatype SaleAction =
    | InsertSale
    | StartAutomatic(startedAt: string, max: nat)
    | StartManual(startedAt: string)  // load the record, then read the clock
    | Claim(a: nat)
    | Confirm(a: nat)
    | Finalize(a: nat, status: SaleStatus, now: string, message: Option<string>)
    | Rollback(a: nat)

  const EMPTY: SaleWorld := SaleWorld(None, [], {})

  predicate FreshStart(w: SaleWorld, startedAt: string) {
    IsDateTime3(startedAt) && forall a :: 0 <= a < |w.attempts| ==> w.attempts[a].startedAt != startedAt
  }

  /** The client refuses to start over a sale that is sent or in progress. */
  predicate MayLoad(w: SaleWorld) {
    w.row.Some? && w.row.value.status !in {SENT, IN_PROGRESS}
  }

  /** A claim activity may run again at any time; the manual client sends its claim once. */
  predicate MayClaim(w: SaleWorld, a: nat) {
    a < |w.attempts| && (w.attempts[a].kind.Manual? ==> !w.attempts[a].asked)
  }

  predicate ClaimMatches(w: SaleWorld, a: nat)
    requires a < |w.attempts|
  {
    match w.attempts[a].kind
    case Automatic(max) => Eligible(w.row, max)
    case Manual(_) => ManuallyClaimable(w.row)
  }

  predicate Confirms(w: SaleWorld, a: nat) {
    a < |w.attempts| && OwnedBy(w.row, w.attempts[a].startedAt)
  }

  /** Only an attempt that knows its attempt count finalizes or rolls back. */
  predicate MayClose(w: SaleWorld, a: nat) {
    a < |w.attempts| && w.attempts[a].remembered.Some?
  }

  function WriteStatus(at: Attempt, status: SaleStatus): SaleStatus
    requires at.remembered.Some?
  {
    match at.kind
    case Automatic(max) => EffectiveStatus(status, at.remembered.value, max)
    case Manual(_) => status
  }

  function With(w: SaleWorld, a: nat, at: Attempt): SaleWorld
    requires a < |w.attempts|
  {
    w.(attempts := w.attempts[a := at])
  }

  function Wrote(w: SaleWorld, sale: Sale): SaleWorld {
    w.(row := Some(sale), past := w.past + {sale})
  }

  function ClaimStep(w: SaleWorld, a: nat): SaleWorld
    requires MayClaim(w, a)
  {
    var at := w.attempts[a].(asked := true);
    if ClaimMatches(w, a) then Wrote(With(w, a, at.(matched := at.matched + 1)), ClaimedSale(w.row.value, at.startedAt))
    else With(w, a, at)
  }

  function ConfirmStep(w: SaleWorld, a: nat): SaleWorld
    requires Confirms(w, a)
  {
    With(w, a, w.attempts[a].(remembered := Some(w.row.value.attemptCount)))
  }

  function FinalizeStep(w: SaleWorld, a: nat, status: SaleStatus, now: string, message: Option<string>): SaleWorld
    requires MayClose(w, a)
  {
    var at := w.attempts[a];
    var w' := With(w, a, at.(closed := true));
    if OwnedBy(w.row, at.startedAt) then Wrote(w', FinalizedSale(w.row.value, WriteStatus(at, status), now, message))
    else w'
  }

  function RollbackStep(w: SaleWorld, a: nat): SaleWorld
    requires MayClose(w, a) && w.attempts[a].kind.Manual?
  {
    var at := w.attempts[a];
    var w' := With(w, a, at.(closed := true));
    if RollsBack(w.row, at.startedAt, at.remembered.value) then Wrote(w', RolledBackSale(w.row.value, at.kind.loaded))
    else w'
  }

  function Step(w: SaleWorld, action: SaleAction): SaleWorld {
    match action
    case InsertSale => if w.row.Some? then w else Wrote(w, Inserted(None).value)
    case StartAutomatic(startedAt, max) =>
      if FreshStart(w, startedAt)
      then w.(attempts := w.attempts + [Attempt(startedAt, Automatic(max), false, 0, None, false)])
      else w
    case StartManual(startedAt) =>
      if FreshStart(w, startedAt) && MayLoad(w)
      then w.(attempts := w.attempts + [Attempt(startedAt, Manual(w.row.value), false, 0, None, false)])
      else w
    case Claim(a) => if MayClaim(w, a) then ClaimStep(w, a) else w
    case Confirm(a) => if Confirms(w, a) then ConfirmStep(w, a) else w
    case Finalize(a, status, now, message) =>
      if MayClose(w, a) && FinalStatus(status) && IsDateTime3(now) then FinalizeStep(w, a, status, now, message) else w
    case Rollback(a) => if MayClose(w, a) && w.attempts[a].kind.Manual? then RollbackStep(w, a) else w
  }

  function Run(w: SaleWorld, actions: seq<SaleAction>): SaleWorld
    decreases |actions|
  {
    if actions == [] then w else Run(Step(w, actions[0]), actions[1..])
  }

  lemma {:induction false} RunAppend(w: SaleWorld, first: seq<SaleAction>, second: seq<SaleAction>)
    ensures Run(w, first + second) == Run(Run(w, first), second)
    decreases |first|
  {
    if first == [] {
      assert first + second == second;
    } else {
      assert (first + second)[1..] == first[1..] + second;
      RunAppend(Step(w, first[0]), first[1..], second);
    }
  }

  lemma RunSnoc(w: SaleWorld, actions: seq<SaleAction>, action: SaleAction)
    ensures Run(w, actions + [action]) == Step(Run(w, actions), action)
  {
    RunAppend(w, actions, [action]);
    assert Run(Run(w, actions), [action]) == Step(Run(w, actions), action);
  }

  // ----- the invariant -----

  ghost predicate SaleOk(sale: Sale) {
    && (sale.status == SENT <==> sale.sentAt.Some?)
    && (sale.status == PENDING <==> sale.attemptCount == 0)
    && (sale.attemptCount > 0 <==> sale.firstAttemptAt.Some?)
    && (sale.attemptCount > 0 <==> sale.lastAttemptAt.Some?)
    && (sale.status == IN_PROGRESS ==> sale.lastErrorMessage.None?)
    && StoredMessage(sale.lastErrorMessage)
    && (sale.firstAttemptAt.Some? ==> IsDateTime3(sale.firstAttemptAt.value))
    && (sale.lastAttemptAt.Some? ==> IsDateTime3(sale.lastAttemptAt.value))
    && (sale.sentAt.Some? ==> IsDateTime3(sale.sentAt.value))
  }

  ghost predicate AttemptOk(w: SaleWorld, at: Attempt) {
    && IsDateTime3(at.startedAt)
    && (at.kind.Manual? ==> SaleOk(at.kind.loaded) && at.kind.loaded.status !in {SENT, IN_PROGRESS})
    && (at.matched > 0 ==> at.asked)
    && (at.kind.Manual? ==> at.matched <= 1)
    && (at.remembered.Some? ==> at.matched > 0 && at.remembered.value > 0)
    && (OwnedBy(w.row, at.startedAt) ==> at.matched > 0)
    && (OwnedBy(w.row, at.startedAt) && at.matched == 1 && at.remembered.Some? ==>
      at.remembered == Some(w.row.value.attemptCount))
  }

  ghost predicate DistinctStarts(attempts: seq<Attempt>) {
    forall a, b :: 0 <= a < b < |attempts| ==> attempts[a].startedAt != attempts[b].startedAt
  }

  ghost predicate HasOwner(w: SaleWorld) {
    exists a :: 0 <= a < |w.attempts| && OwnedBy(w.row, w.attempts[a].startedAt)
  }

  ghost predicate Inv(w: SaleWorld) {
    && (w.row.Some? ==> SaleOk(w.row.value) && w.row.value in w.past)
    && (forall sale :: sale in w.past ==> SaleOk(sale))
    && (forall a :: 0 <= a < |w.attempts| ==> AttemptOk(w, w.attempts[a]))
    && DistinctStarts(w.attempts)
    && (w.row.Some? && w.row.value.status == IN_PROGRESS ==> HasOwner(w))
  }

  lemma StartKeeps(w: SaleWorld, action: SaleAction)
    requires Inv(w) && (action.InsertSale? || action.StartAutomatic? || action.StartManual?)
    ensures Inv(Step(w, action))
  {
    var w' := Step(w, action);
    OwnerCarriesOver(w, w');
    forall a | 0 <= a < |w.attempts| ensures AttemptOk(w', w'.attempts[a]) { assert AttemptOk(w, w.attempts[a]); }
    if w'.row.Some? && w'.row.value.status == IN_PROGRESS && |w.attempts| < |w'.attempts| {
      assert HasOwner(w);
    }
  }

  lemma ClaimKeeps(w: SaleWorld, a: nat)
    requires Inv(w) && MayClaim(w, a)
    ensures Inv(ClaimStep(w, a))
  {
    var w' := ClaimStep(w, a);
    assert AttemptOk(w, w.attempts[a]);
    OwnerCarriesOver(w, w');
    if ClaimMatches(w, a) {
      assert OwnedBy(w'.row, w'.attempts[a].startedAt);
      forall b | 0 <= b < |w.attempts| ensures AttemptOk(w', w'.attempts[b]) {
        assert AttemptOk(w, w.attempts[b]);
        assert b < a ==> w.attempts[b].startedAt != w.attempts[a].startedAt;
        assert a < b ==> w.attempts[a].startedAt != w.attempts[b].startedAt;
      }
    }
  }

  lemma ConfirmKeeps(w: SaleWorld, a: nat)
    requires Inv(w) && Confirms(w, a)
    ensures Inv(ConfirmStep(w, a))
  {
    var w' := ConfirmStep(w, a);
    assert AttemptOk(w, w.attempts[a]);
    OwnerCarriesOver(w, w');
  }

  lemma FinalizeKeeps(w: SaleWorld, a: nat, status: SaleStatus, now: string, message: Option<string>)
    requires Inv(w) && MayClose(w, a) && FinalStatus(status) && IsDateTime3(now)
    ensures Inv(FinalizeStep(w, a, status, now, message))
  {
    var w' := FinalizeStep(w, a, status, now, message);
    assert AttemptOk(w, w.attempts[a]);
    OwnerCarriesOver(w, w');
    forall b | 0 <= b < |w.attempts| ensures AttemptOk(w', w'.attempts[b]) { assert AttemptOk(w, w.attempts[b]); }
  }

  lemma RollbackKeeps(w: SaleWorld, a: nat)
    requires Inv(w) && MayClose(w, a) && w.attempts[a].kind.Manual?
    ensures Inv(RollbackStep(w, a))
  {
    var w' := RollbackStep(w, a);
    assert AttemptOk(w, w.attempts[a]);
    LoadedIsNormal(w.attempts[a].kind.loaded);
    OwnerCarriesOver(w, w');
    forall b | 0 <= b < |w.attempts| ensures AttemptOk(w', w'.attempts[b]) { assert AttemptOk(w, w.attempts[b]); }
  }

  lemma StepKeeps(w: SaleWorld, action: SaleAction)
    requires Inv(w)
    ensures Inv(Step(w, action))
  {
    match action
    case Claim(a) => if MayClaim(w, a) { ClaimKeeps(w, a); }
    case Confirm(a) => if Confirms(w, a) { ConfirmKeeps(w, a); }
    case Finalize(a, status, now, message) =>
      if MayClose(w, a) && FinalStatus(status) && IsDateTime3(now) { FinalizeKeeps(w, a, status, now, message); }
    case Rollback(a) => if MayClose(w, a) && w.attempts[a].kind.Manual? { RollbackKeeps(w, a); }
    case _ => StartKeeps(w, action);
  }

  lemma {:induction false} RunKeeps(w: SaleWorld, actions: seq<SaleAction>)
    requires Inv(w)
    ensures Inv(Run(w, actions))
    decreases |actions|
  {
    if actions != [] {
      StepKeeps(w, actions[0]);
      RunKeeps(Step(w, actions[0]), actions[1..]);
    }
  }

  /** While the row does not change, neither does its owner. */
  lemma OwnerCarriesOver(w: SaleWorld, w': SaleWorld)
    requires Inv(w) && |w.attempts| <= |w'.attempts|
    requires forall a :: 0 <= a < |w.attempts| ==> w'.attempts[a].startedAt == w.attempts[a].startedAt
    ensures w'.row == w.row && w'.row.Some? && w'.row.value.status == IN_PROGRESS ==> HasOwner(w')
  {
    if w'.row == w.row && w.row.Some? && w.row.value.status == IN_PROGRESS {
      var a :| 0 <= a < |w.attempts| && OwnedBy(w.row, w.attempts[a].startedAt);
      assert OwnedBy(w'.row, w'.attempts[a].startedAt);
    }
  }

  lemma LoadedIsNormal(sale: Sale)
    requires SaleOk(sale)
    ensures NormalizeStored(sale.firstAttemptAt) == sale.firstAttemptAt
    ensures NormalizeStored(sale.lastAttemptAt) == sale.lastAttemptAt
    ensures NormalizeMessage(sale.lastErrorMessage) == sale.lastErrorMessage
  {
    if sale.firstAttemptAt.Some? { StoredDateTimeIsNormal(sale.firstAttemptAt.value); }
    if sale.lastAttemptAt.Some? { StoredDateTimeIsNormal(sale.lastAttemptAt.value); }
  }
}
