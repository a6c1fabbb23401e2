/**
The retry budget of automatic processing, in runs whose attempts are all automatic and share a limit, and the steps
by which a sale is left failed transiently with no attempts left, in every run. Claims and finalizations may be
replayed at any time.
*/
module SaleBudget {
  import opened Prelude
  import opened Text
  import opened SaleRow
  import opened SaleProtocol
  import opened SaleTheorems

  predicate AutomaticOnly(actions: seq<SaleAction>, max: nat) {
    forall i :: 0 <= i < |actions| ==> AutomaticAction(actions[i], max)
  }

  predicate AutomaticAction(action: SaleAction, max: nat) {
    !action.StartManual? && !action.Rollback? && (action.StartAutomatic? ==> action.max == max)
  }

  /** Failed transiently with the budget used up: neither retried nor final. */
  predicate Stranded(row: Option<Sale>, max: nat) {
    row.Some? && row.value.status == FAILED_TRANSIENT && !Eligible(row, max)
  }

  ghost predicate ClaimedTwice(w: SaleWorld) {
    exists a :: 0 <= a < |w.attempts| && w.attempts[a].matched > 1
  }

  ghost predicate Budgeted(w: SaleWorld, max: nat) {
    && Inv(w)
    && (w.row.Some? ==> w.row.value.attemptCount <= max)
    && (forall a :: 0 <= a < |w.attempts| ==> w.attempts[a].kind == Automatic(max))
    && (Stranded(w.row, max) ==> ClaimedTwice(w))
  }

  /** Twice the attempts left, and one more while an attempt is running. */
  function Credit(row: Option<Sale>, max: nat): int {
    if row.None? then 0 else 2 * (max - row.value.attemptCount) + (if row.value.status == IN_PROGRESS then 1 else 0)
  }

  /**
  The failure is kept as transient: always by a manual attempt, by an automatic one if its own count is below its
  limit.
  */
  predicate StaysTransient(at: Attempt)
    requires at.remembered.Some?
  {
    at.kind.Manual? || at.remembered.value < at.kind.max
  }

  /**
  A finalization strands the sale exactly when it fails transiently, keeps that failure transient, and the row
  has used up the limit.
  */
  lemma StrandsExactly(w: SaleWorld, a: nat, status: SaleStatus, now: string, message: Option<string>, max: nat)
    requires MayClose(w, a) && OwnedBy(w.row, w.attempts[a].startedAt)
    ensures Stranded(FinalizeStep(w, a, status, now, message).row, max) <==>
            status == FAILED_TRANSIENT && max <= w.row.value.attemptCount && StaysTransient(w.attempts[a])
  {
  }

  /** The action strands the sale: such a finalization, or a rollback to a record that was stranded already. */
  predicate Strands(w: SaleWorld, action: SaleAction, max: nat) {
    match action
    case Finalize(a, status, now, _) =>
      MayClose(w, a) && IsDateTime3(now) && OwnedBy(w.row, w.attempts[a].startedAt) &&
      status == FAILED_TRANSIENT && max <= w.row.value.attemptCount && StaysTransient(w.attempts[a])
    case Rollback(a) =>
      MayClose(w, a) && w.attempts[a].kind.Manual? &&
      RollsBack(w.row, w.attempts[a].startedAt, w.attempts[a].remembered.value) &&
      Stranded(Some(w.attempts[a].kind.loaded), max)
    case _ => false
  }

  /** In every run, manual attempts and replays included, a sale becomes stranded by these steps and by no others. */
  lemma StrandedExactlyBy(w: SaleWorld, action: SaleAction, max: nat)
    requires Inv(w) && !Stranded(w.row, max)
    ensures Stranded(Step(w, action).row, max) <==> Strands(w, action, max)
  {
    match action
    case Finalize(a, status, now, message) =>
      if MayClose(w, a) && OwnedBy(w.row, w.attempts[a].startedAt) { StrandsExactly(w, a, status, now, message, max); }
    case _ =>
  }

  lemma TwiceStaysTwice(w: SaleWorld, action: SaleAction)
    ensures ClaimedTwice(w) ==> ClaimedTwice(Step(w, action))
  {
    if ClaimedTwice(w) {
      var a :| 0 <= a < |w.attempts| && w.attempts[a].matched > 1;
      assert Step(w, action).attempts[a].matched > 1;
    }
  }

  /** A step that changes the inserted row costs one credit, and keeps to the limit. */
  lemma StepCosts(w: SaleWorld, action: SaleAction, max: nat)
    requires max > 0 && Budgeted(w, max) && AutomaticAction(action, max) && w.row.Some?
    ensures Step(w, action).row.Some? && Step(w, action).row.value.attemptCount <= max
    ensures Step(w, action).row != w.row ==> Credit(Step(w, action).row, max) == Credit(w.row, max) - 1
  {
  }

  lemma StrandedWasClaimedTwice(w: SaleWorld, action: SaleAction, max: nat)
    requires max > 0 && Budgeted(w, max) && AutomaticAction(action, max) && Stranded(Step(w, action).row, max)
    ensures ClaimedTwice(Step(w, action))
  {
    TwiceStaysTwice(w, action);
    if !Stranded(w.row, max) {
      StrandedExactlyBy(w, action, max);
      var at := w.attempts[action.a];
      assert AttemptOk(w, at);
      assert at.matched > 1;
      assert ClaimedTwice(w);
    }
  }

  lemma StepSpends(w: SaleWorld, action: SaleAction, max: nat)
    requires max > 0 && Budgeted(w, max) && AutomaticAction(action, max)
    ensures Budgeted(Step(w, action), max)
    ensures w.row.Some? && Step(w, action).row != w.row ==> Credit(Step(w, action).row, max) == Credit(w.row, max) - 1
  {
    StepKeeps(w, action);
    if w.row.Some? { StepCosts(w, action, max); }
    if Stranded(Step(w, action).row, max) { StrandedWasClaimedTwice(w, action, max); }
  }

  /** How many steps of the run changed the inserted row. */
  function Changes(w: SaleWorld, actions: seq<SaleAction>): nat
    decreases |actions|
  {
    if actions == [] then 0
    else (if w.row.Some? && Step(w, actions[0]).row != w.row then 1 else 0) + Changes(Step(w, actions[0]), actions[1..])
  }

  lemma {:induction false} BudgetHolds(w: SaleWorld, actions: seq<SaleAction>, max: nat)
    requires max > 0 && Budgeted(w, max) && AutomaticOnly(actions, max)
    ensures Budgeted(Run(w, actions), max)
    ensures w.row.Some? ==> Changes(w, actions) + Credit(Run(w, actions).row, max) == Credit(w.row, max)
    ensures Changes(w, actions) <= 2 * max
    decreases |actions|
  {
    if actions != [] {
      assert AutomaticAction(actions[0], max) && AutomaticOnly(actions[1..], max);
      StepSpends(w, actions[0], max);
      BudgetHolds(Step(w, actions[0]), actions[1..], max);
      if w.row.Some? {
        assert Step(w, actions[0]).row.Some?;
      }
    }
  }

  /**
  The automatic retry budget, over every run: never more attempts than the limit, at most two row
  changes per allowed attempt, and a sale left FAILED_TRANSIENT is still eligible unless the claim
  of some attempt matched the row twice.
  */
  lemma RetryBudget(actions: seq<SaleAction>, max: nat)
    requires max > 0 && AutomaticOnly(actions, max)
    ensures var w := Run(EMPTY, actions);
            && (w.row.Some? ==> w.row.value.attemptCount <= max)
            && Changes(EMPTY, actions) <= 2 * max
            && (w.row.Some? && w.row.value.status == FAILED_TRANSIENT ==>
                  Eligible(w.row, max) || exists a :: 0 <= a < |w.attempts| && w.attempts[a].matched > 1)
  {
    BudgetHolds(EMPTY, actions, max);
  }

  lemma FailedOnce(max: nat)
    requires max >= 2
    ensures var w := Run(Step(EMPTY, InsertSale), FailingAttempt(0, T0, max));
            && w.row == Some(Sale(FAILED_TRANSIENT, 1, Some(T0), Some(T0), None, None))
            && w.attempts == [Attempt(T0, Automatic(max), true, 1, Some(1), true)]
  {
    FailingAttemptRuns(Step(EMPTY, InsertSale), T0, max);
  }

  lemma ClaimedAgain(w: SaleWorld)
    requires w.row == Some(Sale(FAILED_TRANSIENT, 1, Some(T0), Some(T0), None, None))
    requires w.attempts == [Attempt(T0, Automatic(2), true, 1, Some(1), true)]
    ensures Step(Step(w, Claim(0)), Finalize(0, FAILED_TRANSIENT, T2, None)).row ==
            Some(Sale(FAILED_TRANSIENT, 2, Some(T0), Some(T0), None, None))
  {
    var w' := Step(w, Claim(0));
    assert w'.row == Some(Sale(IN_PROGRESS, 2, Some(T0), Some(T0), None, None));
    assert w'.attempts == [Attempt(T0, Automatic(2), true, 2, Some(1), true)];
  }

  /** A run with a claim replayed after its attempt was finalized. */
  function LateClaim(): seq<SaleAction> {
    ([InsertSale] + FailingAttempt(0, T0, 2)) + [Claim(0)] + [Finalize(0, FAILED_TRANSIENT, T2, None)]
  }

  /**
  Such a run strands the sale: the late claim takes the last allowed attempt, its finalization still
  counts the first, and the sale ends FAILED_TRANSIENT but no longer eligible.
  */
  lemma LateClaimStrandsTheSale()
    ensures var row := Run(EMPTY, LateClaim()).row;
            row.Some? && row.value.status == FAILED_TRANSIENT && row.value.attemptCount == 2 && !Eligible(row, 2)
  {
    var f := FailingAttempt(0, T0, 2);
    FailedOnce(2);
    RunAppend(EMPTY, [InsertSale], f);
    assert Run(EMPTY, [InsertSale]) == Step(EMPTY, InsertSale) by { assert [InsertSale][1..] == []; }
    RunSnoc(EMPTY, [InsertSale] + f, Claim(0));
    RunSnoc(EMPTY, [InsertSale] + f + [Claim(0)], Finalize(0, FAILED_TRANSIENT, T2, None));
    ClaimedAgain(Run(EMPTY, [InsertSale] + f));
  }

  // ----- which sales an automatic run leaves alone -----

  /** Every claim that is made is an automatic attempt's, with at most this limit. */
  predicate ClaimsAutomatically(w: SaleWorld, actions: seq<SaleAction>, max: nat)
    decreases |actions|
  {
    actions != [] ==>
      (actions[0].Claim? && MayClaim(w, actions[0].a) ==>
         w.attempts[actions[0].a].kind.Automatic? && w.attempts[actions[0].a].kind.max <= max) &&
      ClaimsAutomatically(Step(w, actions[0]), actions[1..], max)
  }

  /**
  A sale that was sent, failed for good, has an unknown delivery, or has used up its attempts is left as it is by every
  run in which only automatic attempts claim, whatever else they do.
  */
  lemma {:induction false} DoneIsLeftAlone(w: SaleWorld, actions: seq<SaleAction>, max: nat)
    requires w.row.Some? && ClaimsAutomatically(w, actions, max)
    requires w.row.value.status in {SENT, FAILED_FINAL, DELIVERY_UNKNOWN} ||
             (w.row.value.status == FAILED_TRANSIENT && max <= w.row.value.attemptCount)
    ensures Run(w, actions).row == w.row
    decreases |actions|
  {
    if actions != [] {
      assert Step(w, actions[0]).row == w.row;
      DoneIsLeftAlone(Step(w, actions[0]), actions[1..], max);
    }
  }

  /** And every other sale that is not running is claimed as soon as an automatic attempt with that limit asks. */
  lemma RetriedExactly(w: SaleWorld, a: nat, max: nat)
    requires Inv(w) && w.row.Some? && w.row.value.status != IN_PROGRESS
    requires a < |w.attempts| && w.attempts[a].kind == Automatic(max)
    ensures Step(w, Claim(a)).row != w.row <==>
            w.row.value.status == PENDING ||
            (w.row.value.status == FAILED_TRANSIENT && w.row.value.attemptCount < max)
    ensures Step(w, Claim(a)).row != w.row ==>
              OwnedBy(Step(w, Claim(a)).row, w.attempts[a].startedAt) &&
              Step(w, Claim(a)).row.value.attemptCount == w.row.value.attemptCount + 1
  {
  }

  // ----- no replay is needed -----

  /** A run with the limit one: the automatic attempt fails for good, and a manual one fails transiently after it. */
  function ManualFailure(): seq<SaleAction> {
    [InsertSale] + (FailingAttempt(0, T0, 1) +
                    [StartManual(T2), Claim(1), Confirm(1), Finalize(1, FAILED_TRANSIENT, T2, None)])
  }

  lemma FailsForGood(w: SaleWorld)
    requires w.row == Some(Sale(PENDING, 0, None, None, None, None)) && w.attempts == []
    ensures var w' := Run(w, FailingAttempt(0, T0, 1));
            && w'.row == Some(Sale(FAILED_FINAL, 1, Some(T0), Some(T0), None, None))
            && w'.attempts == [Attempt(T0, Automatic(1), true, 1, Some(1), true)]
  {
    var f := FailingAttempt(0, T0, 1);
    RunFour(w, f[0], f[1], f[2], f[3]);
    var w2 := Step(Step(w, f[0]), f[1]);
    assert w2.row == Some(Sale(IN_PROGRESS, 1, Some(T0), Some(T0), None, None));
    assert w2.attempts == [Attempt(T0, Automatic(1), true, 1, None, false)];
    var w3 := Step(w2, f[2]);
    assert w3.row == w2.row && w3.attempts == [Attempt(T0, Automatic(1), true, 1, Some(1), false)];
  }

  lemma ManualFails(w: SaleWorld, y: seq<SaleAction>)
    requires w.row == Some(Sale(FAILED_FINAL, 1, Some(T0), Some(T0), None, None))
    requires w.attempts == [Attempt(T0, Automatic(1), true, 1, Some(1), true)]
    requires y == [StartManual(T2), Claim(1), Confirm(1), Finalize(1, FAILED_TRANSIENT, T2, None)]
    ensures var w' := Run(w, y);
            && w'.row == Some(Sale(FAILED_TRANSIENT, 2, Some(T0), Some(T2), None, None))
            && w'.attempts == w.attempts + [Attempt(T2, Manual(w.row.value), true, 1, Some(2), true)]
  {
    RunFour(w, y[0], y[1], y[2], y[3]);
    var w2 := Step(Step(w, y[0]), y[1]);
    assert w2.row == Some(Sale(IN_PROGRESS, 2, Some(T0), Some(T2), None, None));
    assert w2.attempts == w.attempts + [Attempt(T2, Manual(w.row.value), true, 1, None, false)];
    var w3 := Step(w2, y[2]);
    assert w3.row == w2.row && w3.attempts == w.attempts + [Attempt(T2, Manual(w.row.value), true, 1, Some(2), false)];
  }

  /** Such a run strands the sale although no claim matched twice. */
  lemma ManualFailureStrandsTheSale()
    ensures var w := Run(EMPTY, ManualFailure());
            Stranded(w.row, 1) && w.row.value.attemptCount == 2 && !ClaimedTwice(w)
  {
    var f := FailingAttempt(0, T0, 1);
    var y := [StartManual(T2), Claim(1), Confirm(1), Finalize(1, FAILED_TRANSIENT, T2, None)];
    RunAppend(EMPTY, [InsertSale], f + y);
    assert Run(EMPTY, [InsertSale]) == Step(EMPTY, InsertSale) by { assert [InsertSale][1..] == []; }
    RunAppend(Step(EMPTY, InsertSale), f, y);
    FailsForGood(Step(EMPTY, InsertSale));
    ManualFails(Run(Step(EMPTY, InsertSale), f), y);
  }
}
