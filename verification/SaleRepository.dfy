/**
The sale repository as imperative methods over one shared row: a guarded UPDATE, then a reload.
Before and between the two other attempts make any moves, replays of the same attempt included.
*/
module SaleRepository {
  import opened Prelude
  import opened Text
  import opened SaleRow
  import opened SaleProtocol
  import opened SaleTheorems

  datatype ClaimResult = Claimed(attemptCount: nat) | AlreadyClaimed(attemptCount: nat) | Skipped | ReloadFailed

  class SaleDatabase {
    var row: Option<Sale>
    var attempts: seq<Attempt>
    var past: set<Sale>  // every value the row has had
    ghost var trace: seq<SaleAction>

    function Now(): SaleWorld
      reads this
    {
      SaleWorld(row, attempts, past)
    }

    ghost predicate Valid()
      reads this
    {
      Now() == Run(EMPTY, trace)
    }

    constructor ()
      ensures Valid() && Now() == EMPTY
    {
      row, attempts, past, trace := EMPTY.row, EMPTY.attempts, EMPTY.past, [];
    }

    method Interleave(actions: seq<SaleAction>)
      requires Valid()
      modifies this
      ensures Valid() && trace == old(trace) + actions && Now() == Run(old(Now()), actions)
    {
      RunAppend(EMPTY, trace, actions);
      trace := trace + actions;
      var w := Run(Now(), actions);
      row, attempts, past := w.row, w.attempts, w.past;
    }

    /** The UPDATE of either claim. */
    method ClaimStatement(a: nat) returns (affectedRows: nat)
      requires Valid() && MayClaim(Now(), a)
      modifies this
      ensures Valid() && trace == old(trace) + [Claim(a)] && Now() == Step(old(Now()), Claim(a))
      ensures affectedRows == if ClaimMatches(old(Now()), a) then 1 else 0
    {
      RunSnoc(EMPTY, trace, Claim(a));
      trace := trace + [Claim(a)];
      var at := attempts[a].(asked := true);
      affectedRows := 0;
      if (at.kind.Automatic? && Eligible(row, at.kind.max)) || (at.kind.Manual? && ManuallyClaimable(row)) {
        affectedRows := 1;
        row := Some(ClaimedSale(row.value, at.startedAt));
        past := past + {row.value};
        at := at.(matched := at.matched + 1);
      }
      attempts := attempts[a := at];
    }

    /** findClaimed...ByAttemptStartedAt; a claimant that finds its row remembers the attempt count. */
    method FindClaimed(a: nat) returns (found: Option<nat>)
      requires Valid() && a < |attempts|
      modifies this
      ensures Valid() && trace == old(trace) + [Confirm(a)] && Now() == Step(old(Now()), Confirm(a))
      ensures found == if OwnedBy(row, old(attempts)[a].startedAt) then Some(row.value.attemptCount) else None
      ensures row == old(row)
    {
      RunSnoc(EMPTY, trace, Confirm(a));
      trace := trace + [Confirm(a)];
      found := None;
      if OwnedBy(row, attempts[a].startedAt) {
        found := Some(row.value.attemptCount);
        attempts := attempts[a := attempts[a].(remembered := found)];
      }
    }

    /** The UPDATE of finalizeNfeEmailDispatchSale, with the status the activity decided to write. */
    method FinalizeStatement(a: nat, status: SaleStatus, now: string, message: Option<string>)
      returns (affectedRows: nat)
      requires Valid() && MayClose(Now(), a) && FinalStatus(status) && IsDateTime3(now)
      modifies this
      ensures Valid() && trace == old(trace) + [Finalize(a, status, now, message)]
      ensures Now() == Step(old(Now()), Finalize(a, status, now, message))
      ensures affectedRows == if OwnedBy(old(row), old(attempts)[a].startedAt) then 1 else 0
    {
      RunSnoc(EMPTY, trace, Finalize(a, status, now, message));
      trace := trace + [Finalize(a, status, now, message)];
      var at := attempts[a];
      affectedRows := 0;
      if OwnedBy(row, at.startedAt) {
        affectedRows := 1;
        row := Some(FinalizedSale(row.value, WriteStatus(at, status), now, message));
        past := past + {row.value};
      }
      attempts := attempts[a := at.(closed := true)];
    }

    /** The UPDATE of rollbackManualNfeEmailDispatchSaleClaim. */
    method RollbackStatement(a: nat) returns (affectedRows: nat)
      requires Valid() && MayClose(Now(), a) && attempts[a].kind.Manual?
      modifies this
      ensures Valid() && trace == old(trace) + [Rollback(a)] && Now() == Step(old(Now()), Rollback(a))
      ensures affectedRows ==
              if RollsBack(old(row), old(attempts)[a].startedAt, old(attempts)[a].remembered.value) then 1 else 0
    {
      RunSnoc(EMPTY, trace, Rollback(a));
      trace := trace + [Rollback(a)];
      var at := attempts[a];
      affectedRows := 0;
      if RollsBack(row, at.startedAt, at.remembered.value) {
        affectedRows := 1;
        row := Some(RolledBackSale(row.value, at.kind.loaded));
        past := past + {row.value};
      }
      attempts := attempts[a := at.(closed := true)];
    }
  }

  lemma Reachable(actions: seq<SaleAction>)
    ensures Inv(Run(EMPTY, actions))
  {
    RunKeeps(EMPTY, actions);
  }

  /** What a claim's update, and others' moves after it, leave. */
  lemma ClaimSettles(w: SaleWorld, a: nat, others: seq<SaleAction>)
    requires Inv(w) && MayClaim(w, a)
    ensures var w' := Run(Step(w, Claim(a)), others);
            && a < |w'.attempts|
            && w'.attempts[a].startedAt == w.attempts[a].startedAt && w'.attempts[a].kind == w.attempts[a].kind
            && (ClaimMatches(w, a) && NeverCloses(others, a) ==>
                  w'.row == Some(ClaimedSale(w.row.value, w.attempts[a].startedAt)))
            && (!ClaimMatches(w, a) && w.attempts[a].kind.Manual? ==> !OwnedBy(w'.row, w.attempts[a].startedAt))
            && (!ClaimMatches(w, a) && others == [] ==> w'.row == w.row)
    ensures w.row.Some? ==> SaleOk(w.row.value)
  {
    var w1 := Step(w, Claim(a));
    StepKeeps(w, Claim(a));
    AttemptKeepsIdentity(w1, others, a);
    if ClaimMatches(w, a) && NeverCloses(others, a) {
      OwnedRowIsStable(w1, others, a);
    }
    if !ClaimMatches(w, a) && w.attempts[a].kind.Manual? {
      UnmatchedNeverOwns(w, a, others);
    }
  }

  /**
  claimNfeEmailDispatchSale and claimManualNfeEmailDispatchSale. The CLAIM_RELOAD_FAILED errors need
  somebody to close this very attempt between its update and its reload.
  */
  method ClaimSale(db: SaleDatabase, a: nat, others: seq<SaleAction>) returns (result: ClaimResult)
    requires db.Valid() && MayClaim(db.Now(), a)
    modifies db
    ensures db.Valid() && old(db.trace) <= db.trace
    ensures a < |db.attempts| && db.attempts[a].startedAt == old(db.attempts)[a].startedAt
    ensures db.attempts[a].kind == old(db.attempts)[a].kind
    ensures result.Claimed? || result.AlreadyClaimed? ==>
              OwnedBy(db.row, db.attempts[a].startedAt) && db.row.value.attemptCount == result.attemptCount &&
              db.attempts[a].remembered == Some(result.attemptCount)
    ensures result.Skipped? || result.ReloadFailed? ==> !OwnedBy(db.row, db.attempts[a].startedAt)
    ensures old(db.attempts)[a].kind.Manual? ==> !result.AlreadyClaimed?
    ensures NeverCloses(others, a) ==>
              result != ReloadFailed &&
              (old(ClaimMatches(db.Now(), a)) <==> result.Claimed?) &&
              (result.Claimed? ==> db.row == Some(ClaimedSale(old(db.row).value, db.attempts[a].startedAt)))
    ensures result.Claimed? || result.ReloadFailed? <==> old(ClaimMatches(db.Now(), a))
    // which sales are claimed, and how
    ensures NeverCloses(others, a) && old(db.row).None? ==> !result.Claimed?
    ensures NeverCloses(others, a) && old(db.row).Some? ==>
              var sale, at := old(db.row).value, old(db.attempts)[a];
              && (result.Claimed? <==>
                    if at.kind.Manual? then sale.status !in {IN_PROGRESS, SENT}
                    else sale.status == PENDING || (sale.status == FAILED_TRANSIENT && sale.attemptCount < at.kind.max))
              && (result.Claimed? ==>
                    result.attemptCount == sale.attemptCount + 1 &&
                    db.row == Some(Sale(IN_PROGRESS, sale.attemptCount + 1,
                                        if sale.firstAttemptAt.None? then Some(at.startedAt) else sale.firstAttemptAt,
                                        Some(at.startedAt), None, None)))
    ensures others == [] && !result.Claimed? ==>
              && db.row == old(db.row)
              && result == if OwnedBy(db.row, db.attempts[a].startedAt) then AlreadyClaimed(db.row.value.attemptCount)
                           else Skipped
  {
    Reachable(db.trace);
    ClaimSettles(db.Now(), a, others);
    var affectedRows := db.ClaimStatement(a);
    db.Interleave(others);
    var found := db.FindClaimed(a);
    if affectedRows == 1 {
      result := if found.None? then ReloadFailed else Claimed(found.value);
    } else {
      result := if found.Some? then AlreadyClaimed(found.value) else Skipped;
    }
  }

  /**
  What a finalization leaves of a sale: an automatic attempt that has used up its limit fails for good instead of
  transiently, nothing but SENT has a sent time, and the message is kept as the store keeps messages.
  */
  function Written(sale: Sale, at: Attempt, status: SaleStatus, now: string, message: Option<string>): Sale
    requires at.remembered.Some?
  {
    Sale(if status == FAILED_TRANSIENT && at.kind.Automatic? && at.kind.max <= at.remembered.value then FAILED_FINAL
         else status,
         sale.attemptCount, sale.firstAttemptAt, sale.lastAttemptAt, if status == SENT then Some(now) else None,
         NormalizeMessage(message))
  }

  lemma FinalizeWrites(w: SaleWorld, a: nat, status: SaleStatus, now: string, message: Option<string>,
                       others: seq<SaleAction>)
    requires MayClose(w, a) && FinalStatus(status) && IsDateTime3(now)
    ensures var w', owned := Step(w, Finalize(a, status, now, message)), OwnedBy(w.row, w.attempts[a].startedAt);
            && w'.row == (if owned then Some(Written(w.row.value, w.attempts[a], status, now, message)) else w.row)
            && (owned ==> Written(w.row.value, w.attempts[a], status, now, message) in Run(w', others).past)
  {
    PastGrows(Step(w, Finalize(a, status, now, message)), others);
  }

  /** finalizeNfeEmailDispatchSale: whether the update matched, and the row as reloaded afterwards. */
  method FinalizeSale(db: SaleDatabase, a: nat, status: SaleStatus, now: string, message: Option<string>,
                      others: seq<SaleAction>)
    returns (finalized: bool, snapshot: Option<Sale>)
    requires db.Valid() && MayClose(db.Now(), a) && FinalStatus(status) && IsDateTime3(now)
    modifies db
    ensures db.Valid() && db.trace == old(db.trace) + [Finalize(a, status, now, message)] + others
    ensures db.Now() == Run(Step(old(db.Now()), Finalize(a, status, now, message)), others)
    ensures finalized <==> OwnedBy(old(db.row), old(db.attempts)[a].startedAt)
    ensures snapshot == db.row
    // the record that was written: the attempt's own columns, its status, and the sent time exactly for SENT
    ensures finalized ==> Written(old(db.row).value, old(db.attempts)[a], status, now, message) in db.past
    ensures finalized && others == [] ==>
              snapshot == Some(Written(old(db.row).value, old(db.attempts)[a], status, now, message))
    ensures !finalized && others == [] ==> db.row == old(db.row)
  {
    FinalizeWrites(db.Now(), a, status, now, message, others);
    var affectedRows := db.FinalizeStatement(a, status, now, message);
    db.Interleave(others);
    finalized, snapshot := affectedRows == 1, db.row;
  }

  /** rollbackManualNfeEmailDispatchSaleClaim: restored, or a no-op over somebody else's row. */
  method RollbackClaim(db: SaleDatabase, a: nat) returns (restored: bool)
    requires db.Valid() && MayClose(db.Now(), a) && db.attempts[a].kind.Manual?
    modifies db
    ensures db.Valid() && db.trace == old(db.trace) + [Rollback(a)]
    ensures restored <==> OwnedBy(old(db.row), old(db.attempts)[a].startedAt)
    ensures restored ==> db.row == Some(old(db.attempts)[a].kind.loaded)
    ensures !restored ==> db.row == old(db.row)
  {
    Reachable(db.trace);
    assert AttemptOk(db.Now(), db.attempts[a]);
    LoadedIsNormal(db.attempts[a].kind.loaded);
    var affectedRows := db.RollbackStatement(a);
    restored := affectedRows == 1;
  }
}
