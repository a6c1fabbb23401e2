/** What every run over a sale row guarantees, whatever the attempts do and replay. */
module SaleTheorems {
  import opened Prelude
  import opened Text
  import opened SaleRow
  import opened SaleProtocol

  predicate Closes(action: SaleAction, a: nat) {
    (action.Finalize? || action.Rollback?) && action.a == a
  }

  predicate NeverCloses(actions: seq<SaleAction>, a: nat) {
    forall i :: 0 <= i < |actions| ==> !Closes(actions[i], a)
  }

  predicate NeverClaims(actions: seq<SaleAction>, a: nat) {
    forall i :: 0 <= i < |actions| ==> actions[i] != Claim(a)
  }

  /** The shape of the row in every state of every run. */
  lemma SaleRowInvariant(actions: seq<SaleAction>)
    ensures var row := Run(EMPTY, actions).row;
            row.Some? ==>
              && (row.value.status == SENT <==> row.value.sentAt.Some?)
              && (row.value.status == PENDING <==> row.value.attemptCount == 0)
              && (row.value.attemptCount > 0 <==> row.value.firstAttemptAt.Some?)
              && (row.value.attemptCount > 0 <==> row.value.lastAttemptAt.Some?)
              && (row.value.status == IN_PROGRESS ==> row.value.lastErrorMessage.None?)
  {
    RunKeeps(EMPTY, actions);
  }

  /** A sale that is SENT never changes again, in any column. */
  lemma {:induction false} SentIsAbsorbing(w: SaleWorld, actions: seq<SaleAction>)
    requires w.row.Some? && w.row.value.status == SENT
    ensures Run(w, actions).row == w.row
    decreases |actions|
  {
    if actions != [] {
      SentIsAbsorbing(Step(w, actions[0]), actions[1..]);
    }
  }

  /** No value the row has had is forgotten. */
  lemma {:induction false} PastGrows(w: SaleWorld, actions: seq<SaleAction>)
    ensures w.past <= Run(w, actions).past
    decreases |actions|
  {
    if actions != [] {
      PastGrows(Step(w, actions[0]), actions[1..]);
    }
  }

  // ----- ownership -----

  lemma StartsAreDistinct(w: SaleWorld, a: nat, b: nat)
    requires Inv(w) && a < |w.attempts| && b < |w.attempts|
    ensures w.attempts[a].startedAt == w.attempts[b].startedAt ==> a == b
  {
    assert a < b || b < a || a == b;
  }

  /** A row in progress has exactly one owner, and an owner that claimed once remembers the row's attempt count. */
  lemma OneOwner(actions: seq<SaleAction>)
    ensures var w := Run(EMPTY, actions);
            w.row.Some? && w.row.value.status == IN_PROGRESS ==>
              exists a :: && 0 <= a < |w.attempts| && OwnedBy(w.row, w.attempts[a].startedAt)
                          && (w.attempts[a].matched == 1 && w.attempts[a].remembered.Some? ==>
                                w.attempts[a].remembered == Some(w.row.value.attemptCount))
                          && forall b :: 0 <= b < |w.attempts| && OwnedBy(w.row, w.attempts[b].startedAt) ==> b == a
  {
    var w := Run(EMPTY, actions);
    RunKeeps(EMPTY, actions);
    if w.row.Some? && w.row.value.status == IN_PROGRESS {
      assert HasOwner(w);
      var a :| 0 <= a < |w.attempts| && OwnedBy(w.row, w.attempts[a].startedAt);
      assert AttemptOk(w, w.attempts[a]);
      forall b | 0 <= b < |w.attempts| && OwnedBy(w.row, w.attempts[b].startedAt) ensures b == a {
        StartsAreDistinct(w, a, b);
      }
    }
  }

  /** An owned row belongs to its owner: nothing changes it until the owner itself finalizes or rolls back. */
  lemma {:induction false} OwnedRowIsStable(w: SaleWorld, actions: seq<SaleAction>, a: nat)
    requires Inv(w) && a < |w.attempts| && OwnedBy(w.row, w.attempts[a].startedAt) && NeverCloses(actions, a)
    ensures Run(w, actions).row == w.row
    ensures a < |Run(w, actions).attempts|
    ensures Run(w, actions).attempts[a].startedAt == w.attempts[a].startedAt
    ensures Run(w, actions).attempts[a].kind == w.attempts[a].kind
    ensures Run(w, actions).attempts[a].matched == w.attempts[a].matched
    ensures w.attempts[a].remembered == Some(w.row.value.attemptCount) ==>
              Run(w, actions).attempts[a].remembered == w.attempts[a].remembered
    decreases |actions|
  {
    if actions != [] {
      assert !Closes(actions[0], a) && NeverCloses(actions[1..], a);
      OwnedStep(w, actions[0], a);
      StepKeeps(w, actions[0]);
      OwnedRowIsStable(Step(w, actions[0]), actions[1..], a);
    }
  }

  lemma OwnedStep(w: SaleWorld, action: SaleAction, a: nat)
    requires Inv(w) && a < |w.attempts| && OwnedBy(w.row, w.attempts[a].startedAt) && !Closes(action, a)
    ensures Step(w, action).row == w.row && a < |Step(w, action).attempts|
    ensures var at, at' := w.attempts[a], Step(w, action).attempts[a];
            && at'.startedAt == at.startedAt && at'.kind == at.kind && at'.matched == at.matched
            && (at'.remembered == at.remembered || at'.remembered == Some(w.row.value.attemptCount))
  {
    if (action.Finalize? || action.Rollback?) && MayClose(w, action.a) {
      StartsAreDistinct(w, a, action.a);
    }
  }

  /**
  However often a claim is replayed and confirmed before its attempt is finalized or rolled back, and whatever other
  attempts do, it adds one attempt. A replay after that can add another, as in SaleBudget.LateClaimStrandsTheSale.
  */
  lemma ReplayedClaimsCountOnce(w: SaleWorld, a: nat, replays: seq<SaleAction>)
    requires Inv(w) && MayClaim(w, a) && ClaimMatches(w, a) && NeverCloses(replays, a)
    ensures var row := Run(w, [Claim(a)] + replays).row;
            row == Some(ClaimedSale(w.row.value, w.attempts[a].startedAt)) &&
            row.value.attemptCount == w.row.value.attemptCount + 1
  {
    StepKeeps(w, Claim(a));
    RunAppend(w, [Claim(a)], replays);
    assert Run(w, [Claim(a)]) == Step(w, Claim(a)) by { assert [Claim(a)][1..] == []; }
    OwnedRowIsStable(Step(w, Claim(a)), replays, a);
  }

  lemma ReleasedStep(w: SaleWorld, action: SaleAction, a: nat)
    requires Inv(w) && a < |w.attempts| && !OwnedBy(w.row, w.attempts[a].startedAt) && action != Claim(a)
    ensures a < |Step(w, action).attempts| && Step(w, action).attempts[a].startedAt == w.attempts[a].startedAt
    ensures !OwnedBy(Step(w, action).row, w.attempts[a].startedAt)
  {
    if action.Claim? && MayClaim(w, action.a) {
      StartsAreDistinct(w, a, action.a);
    }
    if action.Rollback? && action.a < |w.attempts| {
      assert AttemptOk(w, w.attempts[action.a]);
    }
  }

  /** An attempt that no longer owns the row, and does not claim again, can change nothing any more. */
  lemma {:induction false} ReleasedStaysReleased(w: SaleWorld, actions: seq<SaleAction>, a: nat)
    requires Inv(w) && a < |w.attempts| && !OwnedBy(w.row, w.attempts[a].startedAt) && NeverClaims(actions, a)
    ensures forall action :: Closes(action, a) ==> Step(Run(w, actions), action).row == Run(w, actions).row
    decreases |actions|
  {
    if actions == [] {
    } else {
      assert NeverClaims(actions[1..], a);
      ReleasedStep(w, actions[0], a);
      StepKeeps(w, actions[0]);
      ReleasedStaysReleased(Step(w, actions[0]), actions[1..], a);
    }
  }

  /**
  A finalization that took effect is final for its attempt: replaying it, with any status, and rolling back are no-ops.
  */
  lemma ReplayedFinalizationsAreNoOps(w: SaleWorld, a: nat, status: SaleStatus, now: string, message: Option<string>,
                                      others: seq<SaleAction>, again: SaleAction)
    requires Inv(w) && MayClose(w, a) && FinalStatus(status) && IsDateTime3(now) &&
             OwnedBy(w.row, w.attempts[a].startedAt)
    requires NeverClaims(others, a) && Closes(again, a)
    ensures var w' := Run(Step(w, Finalize(a, status, now, message)), others);
            Step(w', again).row == w'.row
  {
    StepKeeps(w, Finalize(a, status, now, message));
    ReleasedStaysReleased(Step(w, Finalize(a, status, now, message)), others, a);
  }

  // ----- undo -----

  lemma {:induction false} AttemptKeepsIdentity(w: SaleWorld, actions: seq<SaleAction>, a: nat)
    requires a < |w.attempts|
    ensures a < |Run(w, actions).attempts|
    ensures Run(w, actions).attempts[a].startedAt == w.attempts[a].startedAt
    ensures Run(w, actions).attempts[a].kind == w.attempts[a].kind
    decreases |actions|
  {
    if actions != [] {
      AttemptKeepsIdentity(Step(w, actions[0]), actions[1..], a);
    }
  }

  /**
  The row after a manual client loads, others move, it claims, others move, it confirms, others move, it rolls back.
  */
  function AfterRollback(w: SaleWorld, startedAt: string, between: seq<SaleAction>,
                         during: seq<SaleAction>, later: seq<SaleAction>): SaleWorld
  {
    var a := |w.attempts|;
    var claimed := Step(BeforeClaim(w, startedAt, between), Claim(a));
    var confirmed := Step(Run(claimed, during), Confirm(a));
    Step(Run(confirmed, later), Rollback(a))
  }

  function BeforeClaim(w: SaleWorld, startedAt: string, between: seq<SaleAction>): SaleWorld {
    Run(Step(w, StartManual(startedAt)), between)
  }

  lemma {:induction false} NotYetAsked(w: SaleWorld, actions: seq<SaleAction>, a: nat)
    requires a < |w.attempts| && !w.attempts[a].asked && NeverClaims(actions, a)
    ensures a < |Run(w, actions).attempts| && !Run(w, actions).attempts[a].asked
    decreases |actions|
  {
    if actions != [] {
      assert NeverClaims(actions[1..], a);
      NotYetAsked(Step(w, actions[0]), actions[1..], a);
    }
  }

  /** A manual attempt that has sent its claim sends no other. */
  lemma {:induction false} ManualClaimsOnce(w: SaleWorld, actions: seq<SaleAction>, a: nat)
    requires a < |w.attempts| && w.attempts[a].kind.Manual? && w.attempts[a].asked
    ensures a < |Run(w, actions).attempts| && Run(w, actions).attempts[a].matched == w.attempts[a].matched
    decreases |actions|
  {
    if actions != [] {
      ManualClaimsOnce(Step(w, actions[0]), actions[1..], a);
    }
  }

  /** If that claim does not match, the attempt never owns the row. */
  lemma UnmatchedNeverOwns(w: SaleWorld, a: nat, others: seq<SaleAction>)
    requires Inv(w) && MayClaim(w, a) && w.attempts[a].kind.Manual? && !ClaimMatches(w, a)
    ensures !OwnedBy(Run(Step(w, Claim(a)), others).row, w.attempts[a].startedAt)
  {
    var w1 := Step(w, Claim(a));
    assert AttemptOk(w, w.attempts[a]);
    StepKeeps(w, Claim(a));
    ManualClaimsOnce(w1, others, a);
    AttemptKeepsIdentity(w1, others, a);
    RunKeeps(w1, others);
    assert AttemptOk(Run(w1, others), Run(w1, others).attempts[a]);
  }

  /** Where the manual client stands before its claim: its attempt remembers the loaded record and has not claimed. */
  lemma LoadsBeforeClaim(w: SaleWorld, startedAt: string, between: seq<SaleAction>)
    requires Inv(w) && MayLoad(w) && FreshStart(w, startedAt) && NeverClaims(between, |w.attempts|)
    ensures var w1, a := BeforeClaim(w, startedAt, between), |w.attempts|;
            && Inv(w1) && a < |w1.attempts| && !w1.attempts[a].asked
            && w1.attempts[a].startedAt == startedAt && w1.attempts[a].kind == Manual(w.row.value) &&
            SaleOk(w.row.value)
  {
    var w0 := Step(w, StartManual(startedAt));
    StepKeeps(w, StartManual(startedAt));
    RunKeeps(w0, between);
    AttemptKeepsIdentity(w0, between, |w.attempts|);
    NotYetAsked(w0, between, |w.attempts|);
  }

  /** From its claim to its rollback the attempt owns the row and knows its count. */
  lemma ClaimIsConfirmed(w1: SaleWorld, a: nat, during: seq<SaleAction>, later: seq<SaleAction>)
    requires Inv(w1) && a < |w1.attempts| && w1.attempts[a].kind.Manual? && !w1.attempts[a].asked &&
             ManuallyClaimable(w1.row)
    requires NeverCloses(during, a) && NeverCloses(later, a)
    ensures var w5 := Run(Step(Run(Step(w1, Claim(a)), during), Confirm(a)), later);
            && a < |w5.attempts| && w5.attempts[a].kind == w1.attempts[a].kind
            && w5.row.Some? && RollsBack(w5.row, w1.attempts[a].startedAt, w5.row.value.attemptCount)
            && w5.row.value.sentAt == w1.row.value.sentAt
            && w5.attempts[a].startedAt == w1.attempts[a].startedAt &&
            w5.attempts[a].remembered == Some(w5.row.value.attemptCount)
  {
    var w2 := Step(w1, Claim(a));
    StepKeeps(w1, Claim(a));
    var w3 := Run(w2, during);
    OwnedRowIsStable(w2, during, a);
    RunKeeps(w2, during);
    var w4 := Step(w3, Confirm(a));
    StepKeeps(w3, Confirm(a));
    OwnedRowIsStable(w4, later, a);
  }

  lemma RollbackWritesLoaded(w5: SaleWorld, a: nat, loaded: Sale)
    requires a < |w5.attempts| && w5.attempts[a].kind == Manual(loaded) && SaleOk(loaded) &&
             w5.attempts[a].remembered.Some?
    requires RollsBack(w5.row, w5.attempts[a].startedAt, w5.attempts[a].remembered.value) &&
             w5.row.value.sentAt == loaded.sentAt
    ensures Step(w5, Rollback(a)).row == Some(loaded)
  {
    LoadedIsNormal(loaded);
  }

  /**
  A manual claim that is rolled back leaves the row exactly as the client had loaded it, through both
  normalizers. So it undoes its claim if and only if nobody wrote the row between the load and the claim.
  */
  lemma RollbackRestoresWhatWasLoaded(w: SaleWorld, startedAt: string, between: seq<SaleAction>,
                                      during: seq<SaleAction>, later: seq<SaleAction>)
    requires Inv(w) && MayLoad(w) && FreshStart(w, startedAt)
    requires NeverClaims(between, |w.attempts|)
    requires NeverCloses(during, |w.attempts|) && NeverCloses(later, |w.attempts|)
    requires ManuallyClaimable(BeforeClaim(w, startedAt, between).row)
    ensures AfterRollback(w, startedAt, between, during, later).row == w.row
    ensures AfterRollback(w, startedAt, between, during, later).row == BeforeClaim(w, startedAt, between).row
            <==> BeforeClaim(w, startedAt, between).row == w.row
  {
    var a, w1 := |w.attempts|, BeforeClaim(w, startedAt, between);
    LoadsBeforeClaim(w, startedAt, between);
    ClaimIsConfirmed(w1, a, during, later);
    RollbackWritesLoaded(Run(Step(Run(Step(w1, Claim(a)), during), Confirm(a)), later), a, w.row.value);
  }

  // ----- what a stale load costs -----

  const T0 := "2026-01-01 08:00:00.000"
  const T1 := "2026-01-01 08:00:01.000"
  const T2 := "2026-01-01 08:00:02.000"

  /** What an automatic attempt a does when its processing fails transiently. */
  function FailingAttempt(a: nat, startedAt: string, max: nat): seq<SaleAction> {
    [StartAutomatic(startedAt, max), Claim(a), Confirm(a), Finalize(a, FAILED_TRANSIENT, T1, None)]
  }

  lemma RunFour(w: SaleWorld, a: SaleAction, b: SaleAction, c: SaleAction, d: SaleAction)
    ensures Run(w, [a, b, c, d]) == Step(Step(Step(Step(w, a), b), c), d)
  {
    RunSnoc(w, [], a);
    RunSnoc(w, [a], b);
    RunSnoc(w, [a, b], c);
    RunSnoc(w, [a, b, c], d);
    assert [] + [a] == [a] && [a] + [b] == [a, b] && [a, b] + [c] == [a, b, c] && [a, b, c] + [d] == [a, b, c, d];
  }

  /** An automatic attempt on a fresh sale that runs undisturbed and fails transiently. */
  lemma FailingAttemptRuns(w: SaleWorld, startedAt: string, max: nat)
    requires w.row == Some(Sale(PENDING, 0, None, None, None, None)) && FreshStart(w, startedAt) && max >= 2 &&
             IsDateTime3(T1)
    ensures var w' := Run(w, FailingAttempt(|w.attempts|, startedAt, max));
            && w'.row == Some(Sale(FAILED_TRANSIENT, 1, Some(startedAt), Some(startedAt), None, None))
            && w'.attempts == w.attempts + [Attempt(startedAt, Automatic(max), true, 1, Some(1), true)]
  {
    var a, f := |w.attempts|, FailingAttempt(|w.attempts|, startedAt, max);
    RunFour(w, f[0], f[1], f[2], f[3]);
    var w1 := Step(w, f[0]);
    var w2 := Step(w1, f[1]);
    assert w2.row == Some(Sale(IN_PROGRESS, 1, Some(startedAt), Some(startedAt), None, None));
    assert w2.attempts == w.attempts + [Attempt(startedAt, Automatic(max), true, 1, None, false)];
    var w3 := Step(w2, f[2]);
    assert w3.row == w2.row &&
           w3.attempts == w.attempts + [Attempt(startedAt, Automatic(max), true, 1, Some(1), false)];
  }

  /**
  With a writer between the load and the claim the rollback is not an undo: an automatic attempt that
  failed in between is forgotten, and the sale is PENDING with no attempts again.
  */
  lemma StaleRollbackForgets(max: nat)
    requires max >= 2
    ensures var w, others := Step(EMPTY, InsertSale), FailingAttempt(1, T1, max);
            && BeforeClaim(w, T0, others).row == Some(Sale(FAILED_TRANSIENT, 1, Some(T1), Some(T1), None, None))
            && AfterRollback(w, T0, others, [], []).row == Some(Sale(PENDING, 0, None, None, None, None))
  {
    var w, others := Step(EMPTY, InsertSale), FailingAttempt(1, T1, max);
    var w0 := Step(w, StartManual(T0));
    assert w0.attempts == [Attempt(T0, Manual(w.row.value), false, 0, None, false)];
    FailingAttemptRuns(w0, T1, max);
    StepKeeps(EMPTY, InsertSale);
    RollbackRestoresWhatWasLoaded(w, T0, others, [], []);
  }
}
