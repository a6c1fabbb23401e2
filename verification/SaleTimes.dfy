/**
Whose time a sale row shows: attempt times in rows and loaded records are those of attempts that claimed,
so nobody can bring a row back to a running manual attempt.
*/
module SaleTimes {
  import opened Prelude
  import opened Text
  import opened SaleRow
  import opened SaleProtocol
  import opened SaleTheorems
  import opened SaleProcessing

  ghost predicate KnownTime(w: SaleWorld, time: Option<string>) {
    time.Some? ==>
      exists b :: 0 <= b < |w.attempts| && w.attempts[b].startedAt == time.value && w.attempts[b].matched > 0
  }

  /** No manual attempt has loaded a record of the attempt that started then. */
  predicate LoadsNone(attempts: seq<Attempt>, startedAt: string) {
    forall b :: 0 <= b < |attempts| && attempts[b].kind.Manual? ==>
      attempts[b].kind.loaded.lastAttemptAt != Some(startedAt)
  }

  /**
  Attempt times in the row and in loaded records are those of attempts that claimed; a running manual one is in no
  record.
  */
  ghost predicate TimesOk(w: SaleWorld) {
    && (w.row.Some? ==> KnownTime(w, w.row.value.lastAttemptAt))
    && (forall b :: 0 <= b < |w.attempts| && w.attempts[b].kind.Manual? ==>
      KnownTime(w, w.attempts[b].kind.loaded.lastAttemptAt))
    && (forall a :: 0 <= a < |w.attempts| && w.attempts[a].kind.Manual? && OwnedBy(w.row, w.attempts[a].startedAt) ==>
          LoadsNone(w.attempts, w.attempts[a].startedAt))
  }

  lemma KnownStays(w: SaleWorld, action: SaleAction, time: Option<string>)
    requires KnownTime(w, time)
    ensures KnownTime(Step(w, action), time)
  {
    if time.Some? {
      var b :| 0 <= b < |w.attempts| && w.attempts[b].startedAt == time.value && w.attempts[b].matched > 0;
      assert Step(w, action).attempts[b].startedAt == time.value && Step(w, action).attempts[b].matched > 0;
    }
  }

  /** The loaded records of a step are the old ones and, for a manual start, the row. */
  lemma LoadsAreOld(w: SaleWorld, action: SaleAction, b: nat)
    requires b < |Step(w, action).attempts| && Step(w, action).attempts[b].kind.Manual?
    ensures var kind := Step(w, action).attempts[b].kind;
            if b < |w.attempts| then kind == w.attempts[b].kind
            else action.StartManual? && MayLoad(w) && kind.loaded == w.row.value
  {
  }

  lemma LoadsNoneStays(w: SaleWorld, action: SaleAction, startedAt: string)
    requires LoadsNone(w.attempts, startedAt)
    requires w.row.Some? && (w.row.value.lastAttemptAt == Some(startedAt) ==> w.row.value.status == IN_PROGRESS)
    ensures LoadsNone(Step(w, action).attempts, startedAt)
  {
    var w' := Step(w, action);
    forall b | 0 <= b < |w'.attempts| && w'.attempts[b].kind.Manual?
      ensures w'.attempts[b].kind.loaded.lastAttemptAt != Some(startedAt)
    {
      LoadsAreOld(w, action, b);
    }
  }

  lemma ClaimerIsUnknown(w: SaleWorld, a: nat)
    requires Inv(w) && TimesOk(w) && MayClaim(w, a) && w.attempts[a].kind.Manual?
    ensures LoadsNone(w.attempts, w.attempts[a].startedAt)
  {
    assert AttemptOk(w, w.attempts[a]);
    forall b | 0 <= b < |w.attempts| && w.attempts[b].kind.Manual?
      ensures w.attempts[b].kind.loaded.lastAttemptAt != Some(w.attempts[a].startedAt)
    {
      var time := w.attempts[b].kind.loaded.lastAttemptAt;
      assert KnownTime(w, time);
      if time == Some(w.attempts[a].startedAt) {
        var c :| 0 <= c < |w.attempts| && w.attempts[c].startedAt == time.value && w.attempts[c].matched > 0;
        StartsAreDistinct(w, a, c);
      }
    }
  }

  lemma RowTimeIsKnown(w: SaleWorld, action: SaleAction)
    requires Inv(w) && TimesOk(w) && Step(w, action).row.Some?
    ensures KnownTime(Step(w, action), Step(w, action).row.value.lastAttemptAt)
  {
    var w' := Step(w, action);
    if action.Claim? && MayClaim(w, action.a) && ClaimMatches(w, action.a) {
      assert w'.attempts[action.a].startedAt == w'.row.value.lastAttemptAt.value && w'.attempts[action.a].matched > 0;
    } else if action.Rollback? && w'.row != w.row {
      assert AttemptOk(w, w.attempts[action.a]);
      LoadedIsNormal(w.attempts[action.a].kind.loaded);
      KnownStays(w, action, w.attempts[action.a].kind.loaded.lastAttemptAt);
    } else if w.row.Some? {
      KnownStays(w, action, w.row.value.lastAttemptAt);
    }
  }

  lemma ClaimersStayUnloaded(w: SaleWorld, c: nat, a: nat)
    requires Inv(w) && TimesOk(w) && MayClaim(w, c) && ClaimMatches(w, c) && a < |w.attempts| &&
             w.attempts[a].kind.Manual?
    requires OwnedBy(ClaimStep(w, c).row, w.attempts[a].startedAt)
    ensures LoadsNone(ClaimStep(w, c).attempts, w.attempts[a].startedAt)
  {
    StartsAreDistinct(w, a, c);
    ClaimerIsUnknown(w, a);
  }

  /** A manual attempt starts only over a row that is not running. */
  lemma OwnerIsOld(w: SaleWorld, action: SaleAction, a: nat)
    requires Inv(w) && w.row.Some? && w.row.value.status == IN_PROGRESS
    requires a < |Step(w, action).attempts| && Step(w, action).attempts[a].kind.Manual?
    ensures a < |w.attempts| && w.attempts[a].kind.Manual? &&
            w.attempts[a].startedAt == Step(w, action).attempts[a].startedAt
  {
  }

  lemma OwnersStayUnloaded(w: SaleWorld, action: SaleAction, a: nat)
    requires Inv(w) && TimesOk(w) && a < |Step(w, action).attempts| && Step(w, action).attempts[a].kind.Manual?
    requires OwnedBy(Step(w, action).row, Step(w, action).attempts[a].startedAt)
    ensures LoadsNone(Step(w, action).attempts, Step(w, action).attempts[a].startedAt)
  {
    if action.Claim? && MayClaim(w, action.a) && ClaimMatches(w, action.a) {
      ClaimersStayUnloaded(w, action.a, a);
    } else {
      RunningRowStays(w, action);
      OwnerIsOld(w, action, a);
      LoadsNoneStays(w, action, w.attempts[a].startedAt);
    }
  }

  /** Only a claim makes a row run that did not. */
  lemma RunningRowStays(w: SaleWorld, action: SaleAction)
    requires Inv(w) && !(action.Claim? && MayClaim(w, action.a) && ClaimMatches(w, action.a))
    requires Step(w, action).row.Some? && Step(w, action).row.value.status == IN_PROGRESS
    ensures Step(w, action).row == w.row
  {
    if action.Rollback? && action.a < |w.attempts| {
      assert AttemptOk(w, w.attempts[action.a]);
    }
  }

  lemma TimesStep(w: SaleWorld, action: SaleAction)
    requires Inv(w) && TimesOk(w)
    ensures TimesOk(Step(w, action))
  {
    var w' := Step(w, action);
    if w'.row.Some? { RowTimeIsKnown(w, action); }
    forall b | 0 <= b < |w'.attempts| && w'.attempts[b].kind.Manual?
      ensures KnownTime(w', w'.attempts[b].kind.loaded.lastAttemptAt)
    {
      LoadsAreOld(w, action, b);
      KnownStays(w, action, w'.attempts[b].kind.loaded.lastAttemptAt);
    }
    forall a | 0 <= a < |w'.attempts| && w'.attempts[a].kind.Manual? && OwnedBy(w'.row, w'.attempts[a].startedAt)
      ensures LoadsNone(w'.attempts, w'.attempts[a].startedAt)
    {
      OwnersStayUnloaded(w, action, a);
    }
  }

  lemma {:induction false} TimesRun(w: SaleWorld, actions: seq<SaleAction>)
    requires Inv(w) && TimesOk(w)
    ensures TimesOk(Run(w, actions))
    decreases |actions|
  {
    if actions != [] {
      TimesStep(w, actions[0]);
      StepKeeps(w, actions[0]);
      TimesRun(Step(w, actions[0]), actions[1..]);
    }
  }

  lemma OwnedIsUnloaded(actions: seq<SaleAction>, a: nat)
    requires var w := Run(EMPTY, actions);
             a < |w.attempts| && w.attempts[a].kind.Manual? && OwnedBy(w.row, w.attempts[a].startedAt)
    ensures LoadsNone(Run(EMPTY, actions).attempts, Run(EMPTY, actions).attempts[a].startedAt)
  {
    TimesRun(EMPTY, actions);
  }

  // ----- what the first close of a manual attempt decides -----

  /** A finalization or rollback that takes effect over an owned row. */
  predicate Closing(action: SaleAction, a: nat) {
    action == Rollback(a) ||
    (action.Finalize? && action.a == a && FinalStatus(action.status) && IsDateTime3(action.now))
  }

  function FirstClose(actions: seq<SaleAction>, a: nat): Option<SaleAction> {
    if actions == [] then None
    else if Closing(actions[0], a) then Some(actions[0])
    else FirstClose(actions[1..], a)
  }

  function Then(first: Option<SaleAction>, actions: seq<SaleAction>, a: nat): Option<SaleAction> {
    if first.Some? then first else FirstClose(actions, a)
  }

  predicate IsFailure(first: Option<SaleAction>) {
    first.Some? && first.value.Finalize? && first.value.status != SENT
  }

  /** The first close finalizes the attempt with that status. */
  predicate ClosedAs(first: Option<SaleAction>, status: SaleStatus) {
    first.Some? && first.value.Finalize? && first.value.status == status
  }

  /** The first close finalizes the attempt with another status. */
  predicate ClosedOtherwise(first: Option<SaleAction>, status: SaleStatus) {
    first.Some? && first.value.Finalize? && first.value.status != status
  }

  /** The first close of the attempt among these actions finalizes it as a failure. */
  predicate FailsFirst(actions: seq<SaleAction>, a: nat) {
    IsFailure(FirstClose(actions, a))
  }

  lemma {:induction false} FirstCloseAppends(x: seq<SaleAction>, y: seq<SaleAction>, a: nat)
    ensures FirstClose(x + y, a) == Then(FirstClose(x, a), y, a)
  {
    if x == [] {
      assert x + y == y;
    } else {
      assert (x + y)[1..] == x[1..] + y;
      FirstCloseAppends(x[1..], y, a);
    }
  }

  lemma OneClose(action: SaleAction, a: nat)
    ensures FirstClose([action], a) == if Closing(action, a) then Some(action) else None
  {
    assert [action][1..] == [];
  }

  lemma {:induction false} NoRivalNeverFails(actions: seq<SaleAction>, a: nat)
    requires NoRival(actions, a)
    ensures !FailsFirst(actions, a)
  {
    if actions != [] {
      assert NoRival(actions[1..], a);
      NoRivalNeverFails(actions[1..], a);
    }
  }

  /** The manual attempt, with the count its claim was confirmed with. */
  predicate IsManual(w: SaleWorld, a: nat, attemptCount: nat, startedAt: string) {
    a < |w.attempts| && w.attempts[a].kind.Manual? && w.attempts[a].startedAt == startedAt &&
    w.attempts[a].remembered == Some(attemptCount)
  }

  /** If the record is the attempt's, it shows this status and count. */
  predicate ShowsOnly(sale: Sale, startedAt: string, status: SaleStatus, attemptCount: nat) {
    sale.lastAttemptAt == Some(startedAt) ==> sale.status == status && sale.attemptCount == attemptCount
  }

  predicate LoadsOnly(attempts: seq<Attempt>, startedAt: string, status: SaleStatus, attemptCount: nat) {
    forall b :: 0 <= b < |attempts| && attempts[b].kind.Manual? ==>
      ShowsOnly(attempts[b].kind.loaded, startedAt, status, attemptCount)
  }

  /** The row and the loaded records, where they are this attempt's, show this final status. */
  predicate FinalIfShown(row: Option<Sale>, attempts: seq<Attempt>, attemptCount: nat, startedAt: string,
                         status: SaleStatus)
  {
    row.Some? && FinalStatus(status) && ShowsOnly(row.value, startedAt, status, attemptCount) &&
    LoadsOnly(attempts, startedAt, status, attemptCount)
  }

  /**
  Where the row stands after the attempt's first close: with none it is still the attempt's; rolled back it has left
  the attempt for good; finalized it shows that status for good, whenever it shows the attempt; and it does show it if
  it was sent, or as long as nobody claims the sale again.
  */
  predicate Stands(row: Option<Sale>, attempts: seq<Attempt>, attemptCount: nat, startedAt: string,
                   first: Option<SaleAction>, unclaimed: bool)
  {
    row.Some? &&
    match first
    case None => OwnedBy(row, startedAt) && row.value.attemptCount == attemptCount && LoadsNone(attempts, startedAt)
    case Some(Finalize(_, status, _, _)) =>
      FinalIfShown(row, attempts, attemptCount, startedAt, status) &&
      (status == SENT || unclaimed ==> ShowsAttempt(row, attemptCount, startedAt))
    case Some(_) => row.value.lastAttemptAt != Some(startedAt) && LoadsNone(attempts, startedAt)
  }

  lemma OpenStands(w: SaleWorld, action: SaleAction, a: nat, attemptCount: nat, startedAt: string, unclaimed: bool)
    requires Inv(w) && IsManual(w, a, attemptCount, startedAt)
    requires Stands(w.row, w.attempts, attemptCount, startedAt, None, unclaimed)
    ensures Stands(Step(w, action).row, Step(w, action).attempts, attemptCount, startedAt,
                   FirstClose([action], a), unclaimed)
  {
    LoadsNoneStays(w, action, startedAt);
    OneClose(action, a);
    assert AttemptOk(w, w.attempts[a]);
    if action == Rollback(a) {
      LoadedIsNormal(w.attempts[a].kind.loaded);
    } else if Closing(action, a) {
      assert Step(w, action).row == Some(FinalizedSale(w.row.value, action.status, action.now, action.message));
    } else if !Closes(action, a) {
      OwnedStep(w, action, a);
    }
  }

  lemma RolledBackStands(w: SaleWorld, action: SaleAction, a: nat, attemptCount: nat, startedAt: string)
    requires Inv(w) && IsManual(w, a, attemptCount, startedAt)
    requires w.row.Some? && w.row.value.lastAttemptAt != Some(startedAt) && LoadsNone(w.attempts, startedAt)
    ensures Step(w, action).row.Some? && Step(w, action).row.value.lastAttemptAt != Some(startedAt)
    ensures LoadsNone(Step(w, action).attempts, startedAt)
  {
    LoadsNoneStays(w, action, startedAt);
    assert AttemptOk(w, w.attempts[a]);
    match action
    case Claim(b) => if MayClaim(w, b) { StartsAreDistinct(w, a, b); }
    case Rollback(b) =>
      if MayClose(w, b) && w.attempts[b].kind.Manual? {
        assert AttemptOk(w, w.attempts[b]);
        LoadedIsNormal(w.attempts[b].kind.loaded);
      }
    case _ =>
  }

  lemma LoadsOnlyStays(w: SaleWorld, action: SaleAction, startedAt: string, status: SaleStatus, attemptCount: nat)
    requires FinalIfShown(w.row, w.attempts, attemptCount, startedAt, status)
    ensures LoadsOnly(Step(w, action).attempts, startedAt, status, attemptCount)
  {
    var w' := Step(w, action);
    forall b | 0 <= b < |w'.attempts| && w'.attempts[b].kind.Manual?
      ensures ShowsOnly(w'.attempts[b].kind.loaded, startedAt, status, attemptCount)
    {
      LoadsAreOld(w, action, b);
    }
  }

  lemma FinalStaysShown(w: SaleWorld, action: SaleAction, a: nat, attemptCount: nat, startedAt: string,
                        status: SaleStatus)
    requires Inv(w) && IsManual(w, a, attemptCount, startedAt)
    requires FinalIfShown(w.row, w.attempts, attemptCount, startedAt, status)
    ensures FinalIfShown(Step(w, action).row, Step(w, action).attempts, attemptCount, startedAt, status)
  {
    LoadsOnlyStays(w, action, startedAt, status, attemptCount);
    assert AttemptOk(w, w.attempts[a]);
    match action
    case Claim(b) => if MayClaim(w, b) { StartsAreDistinct(w, a, b); }
    case Rollback(b) =>
      if MayClose(w, b) && w.attempts[b].kind.Manual? {
        assert AttemptOk(w, w.attempts[b]);
        LoadedIsNormal(w.attempts[b].kind.loaded);
      }
    case _ =>
  }

  lemma ClosedRowStays(w: SaleWorld, action: SaleAction)
    requires w.row.Some? && w.row.value.status != IN_PROGRESS && (w.row.value.status == SENT || !action.Claim?)
    ensures Step(w, action).row == w.row
  {
  }

  lemma StandsStep(w: SaleWorld, action: SaleAction, a: nat, attemptCount: nat, startedAt: string,
                   first: Option<SaleAction>, unclaimed: bool)
    requires Inv(w) && IsManual(w, a, attemptCount, startedAt)
    requires Stands(w.row, w.attempts, attemptCount, startedAt, first, unclaimed)
    ensures Stands(Step(w, action).row, Step(w, action).attempts, attemptCount, startedAt,
                   Then(first, [action], a), unclaimed && !action.Claim?)
  {
    match first
    case None => OpenStands(w, action, a, attemptCount, startedAt, unclaimed);
    case Some(Finalize(_, status, _, _)) =>
      FinalStaysShown(w, action, a, attemptCount, startedAt, status);
      if status == SENT || (unclaimed && !action.Claim?) {
        ClosedRowStays(w, action);
      }
    case Some(_) => RolledBackStands(w, action, a, attemptCount, startedAt);
  }

  /** Whatever others do, the attempt's first close decides where its row stands. */
  lemma {:induction false} FirstCloseDecides(w: SaleWorld, actions: seq<SaleAction>, a: nat, attemptCount: nat,
                                             startedAt: string, first: Option<SaleAction>, unclaimed: bool)
    requires Inv(w) && IsManual(w, a, attemptCount, startedAt)
    requires Stands(w.row, w.attempts, attemptCount, startedAt, first, unclaimed)
    ensures Stands(Run(w, actions).row, Run(w, actions).attempts, attemptCount, startedAt,
                   Then(first, actions, a), unclaimed && Unclaimed(actions))
    decreases |actions|
  {
    if actions != [] {
      var action, rest := actions[0], actions[1..];
      StandsStep(w, action, a, attemptCount, startedAt, first, unclaimed);
      StepKeeps(w, action);
      ManualCountStep(w, action, a);
      FirstCloseDecides(Step(w, action), rest, a, attemptCount, startedAt, Then(first, [action], a),
                        unclaimed && !action.Claim?);
      OneClose(action, a);
      assert Unclaimed(actions) ==> !action.Claim? && Unclaimed(rest);
    }
  }
}
