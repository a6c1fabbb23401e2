/**
What every run of the lease protocol guarantees. Each theorem is about all runs from the
empty table, that is, about any number of clients in any interleaving. The theorems write the ninety
seconds and the three rounds out, since these numbers are part of what is promised.
*/
module LeaseTheorems {
  import opened Prelude
  import opened LeaseTable
  import opened LeaseProtocol
  import opened LeaseInvariants

  // ----- exclusion -----

  /** Position i grants key k to c and position j to d, and the later of the two may follow the earlier. */
  ghost predicate Apart(log: seq<Event>, k: Key, i: nat, c: nat, j: nat, d: nat) {
    && i < |log| && j < |log| && i != j
    && log[i].Granted? && log[i].key == k && log[i].token == c
    && log[j].Granted? && log[j].key == k && log[j].token == d
    && (i < j ==> Follows(log, k, i, j)) && (j < i ==> Follows(log, k, j, i))
  }

  /** Ninety seconds have passed from the first grant to the second, or the first holder cancelled in between. */
  ghost predicate Follows(log: seq<Event>, k: Key, first: nat, second: nat)
    requires first < second < |log| && log[first].Granted? && log[second].Granted?
  {
    log[first].at + 90 <= log[second].at || CancelledBetween(log, first, second, k, log[first].token)
  }

  lemma GrantsFollow(w: World, k: Key, i: nat, j: nat)
    requires Inv(w) && i < j < |w.log| && w.log[i].Granted? && w.log[j].Granted? && w.log[i].key == k &&
             w.log[j].key == k
    ensures Follows(w.log, k, i, j)
  {
  }

  /** No two reservations of one key within a lease, unless the first holder cancelled in between. */
  lemma LeaseExclusion(actions: seq<Action>, c: nat, d: nat)
    requires var w := Run(START, actions);
             && c < |w.calls| && d < |w.calls| && c != d
             && w.calls[c].ReserveCall? && w.calls[d].ReserveCall? && w.calls[c].req.key == w.calls[d].req.key
             && HoldsGrant(w.calls, w.calls[c].req.key, c) && HoldsGrant(w.calls, w.calls[d].req.key, d)
    ensures var w := Run(START, actions);
            exists i: nat, j: nat :: Apart(w.log, w.calls[c].req.key, i, c, j, d)
  {
    var w := Run(START, actions);
    Reachable(actions);
    var k := w.calls[c].req.key;
    assert LoggedGrant(w.log, k, c) && LoggedGrant(w.log, k, d);
    var i: nat :| i < |w.log| && w.log[i].Granted? && w.log[i].key == k && w.log[i].token == c;
    var j: nat :| j < |w.log| && w.log[j].Granted? && w.log[j].key == k && w.log[j].token == d;
    if i < j { GrantsFollow(w, k, i, j); } else { GrantsFollow(w, k, j, i); }
    assert Apart(w.log, k, i, c, j, d);
  }

  // ----- stale reads -----

  lemma {:induction false} BirthsGrow(w: World, actions: seq<Action>)
    requires Inv(w)
    ensures forall id :: id in w.births ==> id in Run(w, actions).births && Run(w, actions).births[id] == w.births[id]
    decreases |actions|
  {
    if actions != [] {
      StepKeeps(w, actions[0]);
      BirthsGrow(Step(w, actions[0]), actions[1..]);
    }
  }

  /** A row id never changes key, payload hash or creation time, however stale the row a reclaim was based on. */
  lemma PayloadHashIsForever(before: seq<Action>, after: seq<Action>, k: Key, k': Key)
    requires var w, w' := Run(START, before), Run(START, before + after);
             k in w.table.rows && k' in w'.table.rows && w.table.rows[k].id == w'.table.rows[k'].id
    ensures var w, w' := Run(START, before), Run(START, before + after);
            && k == k'
            && w.table.rows[k].payloadHash == w'.table.rows[k'].payloadHash
            && w.table.rows[k].createdAt == w'.table.rows[k'].createdAt
  {
    var w, w' := Run(START, before), Run(START, before + after);
    Reachable(before);
    Reachable(before + after);
    RunAppend(START, before, after);
    BirthsGrow(w, after);
    assert BornAs(w.births, k, w.table.rows[k]) && BornAs(w'.births, k', w'.table.rows[k']);
  }

  // ----- write-once results -----

  lemma FinalRowStepKeeps(w: World, a: Action, k: Key)
    requires Inv(w) && k in w.table.rows && w.table.rows[k].status != Pending
    ensures k in Step(w, a).table.rows && Step(w, a).table.rows[k] == w.table.rows[k]
  {
  }

  /** Once a row is completed or failed, every column of it is frozen for the rest of every run. */
  lemma {:induction false} FinalRowIsFrozen(w: World, actions: seq<Action>, k: Key)
    requires Inv(w) && k in w.table.rows && w.table.rows[k].status != Pending
    ensures k in Run(w, actions).table.rows && Run(w, actions).table.rows[k] == w.table.rows[k]
    decreases |actions|
  {
    if actions != [] {
      StepKeeps(w, actions[0]);
      FinalRowStepKeeps(w, actions[0], k);
      FinalRowIsFrozen(Step(w, actions[0]), actions[1..], k);
    }
  }

  /** Any two reserve calls of a key that were handed a stored result were handed the same one. */
  lemma StoredResultsAgree(actions: seq<Action>, c: nat, d: nat)
    requires var w := Run(START, actions);
             && c < |w.calls| && d < |w.calls| && w.calls[c].ReserveCall? && w.calls[d].ReserveCall?
             && w.calls[c].req.key == w.calls[d].req.key
             && w.calls[c].pc.Returned? && w.calls[c].pc.outcome.Stored?
             && w.calls[d].pc.Returned? && w.calls[d].pc.outcome.Stored?
    ensures var w := Run(START, actions);
            var o, p := w.calls[c].pc.outcome, w.calls[d].pc.outcome;
            && o.status == p.status && o.status != Pending && o.recordId == p.recordId && o.result == p.result
            && w.calls[c].req.payloadHash == w.calls[d].req.payloadHash
  {
    Reachable(actions);
    var w := Run(START, actions);
    assert CallOk(w, w.calls[c]) && CallOk(w, w.calls[d]);
  }

  /** What a reserve answers once the row of its key is final. */
  ghost function Verdicts(row: Row, req: Request): ReserveOutcome
    requires row.result.Some?
  {
    if row.payloadHash != req.payloadHash then PayloadMismatch
    else Stored(row.status, row.id, row.updatedAt, row.result.value)
  }

  ghost predicate DecidedBy(w: World, from: nat, k: Key, row: Row)
    requires row.result.Some?
  {
    forall c: nat :: from <= c < |w.calls| && w.calls[c].ReserveCall? && w.calls[c].req.key == k ==>
      w.calls[c].pc in {Inserting(0), Selecting(0), Returned(Verdicts(row, w.calls[c].req))}
  }

  lemma DecidedByStepKeeps(w: World, a: Action, from: nat, k: Key)
    requires Inv(w) && k in w.table.rows && w.table.rows[k].status != Pending && w.table.rows[k].result.Some?
    requires DecidedBy(w, from, k, w.table.rows[k])
    ensures DecidedBy(Step(w, a), from, k, w.table.rows[k])
  {
    var w' := Step(w, a);
    forall c: nat | from <= c < |w'.calls| && w'.calls[c].ReserveCall? && w'.calls[c].req.key == k
      ensures w'.calls[c].pc in {Inserting(0), Selecting(0), Returned(Verdicts(w.table.rows[k], w'.calls[c].req))}
    {
      if c < |w.calls| {
        assert w.calls[c].ReserveCall? && w.calls[c].req == w'.calls[c].req;
        assert (a.Advance? && a.c == c) || w'.calls[c] == w.calls[c];
      }
    }
  }

  lemma {:induction false} DecidedByKeeps(w: World, actions: seq<Action>, from: nat, k: Key)
    requires Inv(w) && k in w.table.rows && w.table.rows[k].status != Pending && w.table.rows[k].result.Some?
    requires DecidedBy(w, from, k, w.table.rows[k])
    ensures DecidedBy(Run(w, actions), from, k, w.table.rows[k])
    decreases |actions|
  {
    if actions != [] {
      StepKeeps(w, actions[0]);
      FinalRowStepKeeps(w, actions[0], k);
      DecidedByStepKeeps(w, actions[0], from, k);
      DecidedByKeeps(Step(w, actions[0]), actions[1..], from, k);
    }
  }

  /** Every reserve begun after a finalization answers in its first round: the stored result, or a hash mismatch. */
  lemma LaterReservesReplay(before: seq<Action>, after: seq<Action>, c: nat)
    requires var w, w' := Run(START, before), Run(START, before + after);
             && |w.calls| <= c < |w'.calls| && w'.calls[c].ReserveCall? && w'.calls[c].pc.Returned?
             && w'.calls[c].req.key in w.table.rows && w.table.rows[w'.calls[c].req.key].status != Pending
    ensures var w, w' := Run(START, before), Run(START, before + after);
            var row := w.table.rows[w'.calls[c].req.key];
            row.result.Some? && w'.calls[c].pc.outcome == Verdicts(row, w'.calls[c].req)
  {
    var w, w' := Run(START, before), Run(START, before + after);
    var k := w'.calls[c].req.key;
    Reachable(before);
    RunAppend(START, before, after);
    assert RowOk(w.table.rows[k], w.table.now);
    DecidedByKeeps(w, after, |w.calls|, k);
  }

  // ----- zombies -----

  ghost function ReleasedCalls(w: World, key: Key, token: nat): set<int> {
    set c | 0 <= c < |w.calls| && !w.calls[c].ReserveCall? && w.calls[c].key == key && w.calls[c].token == token &&
            w.calls[c].rpc == Ended(Released)
  }

  lemma LostTokenStaysLost(w: World, a: Action, key: Key, token: nat)
    requires Inv(w) && HoldsGrant(w.calls, key, token) && !Owns(w.table, key, token)
    ensures HoldsGrant(Step(w, a).calls, key, token) && !Owns(Step(w, a).table, key, token)
  {
    if a.Advance? && a.c < |w.calls| && w.calls[a.c].ReserveCall? && w.calls[a.c].pc.Reclaiming? {
      assert CallOk(w, w.calls[a.c]);
      if ReclaimMatches(w.table, w.calls[a.c].pc.seen.id) {
        ReclaimHitsOwnKey(w, a.c);
      }
    }
  }

  lemma LostTokenReleasesNothing(w: World, a: Action, key: Key, token: nat, c: int)
    requires !Owns(w.table, key, token)
    ensures c in ReleasedCalls(Step(w, a), key, token) <==> c in ReleasedCalls(w, key, token)
  {
    var w' := Step(w, a);
    if 0 <= c < |w.calls| {
      assert w'.calls[c] == w.calls[c] || (a.Advance? && a.c == c);
    } else if 0 <= c < |w'.calls| {
      assert a.Begin? && w'.calls[c] == a.call;
    }
  }

  /**
  A client whose lease was reclaimed, finalized or cancelled is harmless for the rest of every run:
  its token never matches the row again, its finalize and cancel change nothing, and no call with
  it ends as a success.
  */
  lemma {:induction false} ZombieIsHarmless(w: World, actions: seq<Action>, key: Key, token: nat)
    requires Inv(w) && HoldsGrant(w.calls, key, token) && !Owns(w.table, key, token)
    ensures !Owns(Run(w, actions).table, key, token)
    ensures forall v :: Finalize(Run(w, actions).table, key, token, v) == Run(w, actions).table
    ensures Cancel(Run(w, actions).table, key, token) == Run(w, actions).table
    ensures ReleasedCalls(Run(w, actions), key, token) == ReleasedCalls(w, key, token)
    decreases |actions|
  {
    if actions != [] {
      StepKeeps(w, actions[0]);
      LostTokenStaysLost(w, actions[0], key, token);
      forall c ensures c in ReleasedCalls(Step(w, actions[0]), key, token) <==> c in ReleasedCalls(w, key, token) {
        LostTokenReleasesNothing(w, actions[0], key, token, c);
      }
      ZombieIsHarmless(Step(w, actions[0]), actions[1..], key, token);
    }
  }

  /** FINALIZE_NOT_FOUND, CANCEL_NOT_FOUND and RESULT_MISSING are raised in no run. */
  lemma ImpossibleErrors(actions: seq<Action>, c: nat)
    requires c < |Run(START, actions).calls|
    ensures var call := Run(START, actions).calls[c];
            if call.ReserveCall? then call.pc != Returned(ResultMissing) else call.rpc != Ended(NotReleasable)
  {
    Reachable(actions);
    assert CallOk(Run(START, actions), Run(START, actions).calls[c]);
  }

  // ----- at most three rounds -----

  /** An upper bound on the statements a reserve call still has to send. */
  function StatementsLeft(pc: ReservePc): nat {
    match pc
    case Inserting(round) => if round < MAX_ROUNDS then 3 * (MAX_ROUNDS - round) else 0
    case Selecting(round) => if round < MAX_ROUNDS then 3 * (MAX_ROUNDS - round) - 1 else 0
    case Reclaiming(round, _) => if round < MAX_ROUNDS then 3 * (MAX_ROUNDS - round) - 2 else 0
    case Returned(_) => 0
  }

  function OwnStatements(actions: seq<Action>, c: nat): nat {
    if actions == [] then 0
    else (if actions[0].Advance? && actions[0].c == c then 1 else 0) + OwnStatements(actions[1..], c)
  }

  lemma OneStatementLess(w: World, a: Action, c: nat)
    requires Inv(w) && c < |w.calls| && w.calls[c].ReserveCall?
    ensures c < |Step(w, a).calls| && Step(w, a).calls[c].ReserveCall? && Step(w, a).calls[c].req == w.calls[c].req
    ensures StatementsLeft(Step(w, a).calls[c].pc) <=
            if a.Advance? && a.c == c && !w.calls[c].pc.Returned? then StatementsLeft(w.calls[c].pc) - 1
            else StatementsLeft(w.calls[c].pc)
  {
    assert CallOk(w, w.calls[c]);
  }

  /** A reserve call returns within nine of its own statements, whatever the others do meanwhile. */
  lemma {:induction false} ReserveReturns(w: World, actions: seq<Action>, c: nat)
    requires Inv(w) && c < |w.calls| && w.calls[c].ReserveCall?
    requires OwnStatements(actions, c) >= StatementsLeft(w.calls[c].pc)
    ensures StatementsLeft(w.calls[c].pc) <= 9
    ensures c < |Run(w, actions).calls| && Run(w, actions).calls[c].ReserveCall? &&
            Run(w, actions).calls[c].pc.Returned?
    decreases |actions|
  {
    assert CallOk(w, w.calls[c]);
    if actions != [] {
      StepKeeps(w, actions[0]);
      OneStatementLess(w, actions[0], c);
      ReserveReturns(Step(w, actions[0]), actions[1..], c);
    }
  }

  // ----- reserve against its atomic specification -----

  /** What one atomic reserve would answer. */
  function Decision(t: Table, req: Request): ReserveOutcome {
    if req.key !in t.rows then Reserved(t.nextId)
    else
      var row := t.rows[req.key];
      if row.payloadHash != req.payloadHash then PayloadMismatch
      else if row.status == Pending then
        if Expired(row.pendingExpiresAt, t.now) then Reserved(row.id) else StillPending(row.id, row.updatedAt)
      else if row.result.None? then ResultMissing
      else Stored(row.status, row.id, row.updatedAt, row.result.value)
  }

  /** The row one atomic reserve would leave behind. */
  function Effect(t: Table, req: Request, token: nat): Table {
    if req.key !in t.rows then Insert(t, req, token)
    else if Decision(t, req).Reserved? then
      t.(rows := t.rows[req.key := ReclaimedRow(t.rows[req.key], req, token, t.now)])
    else t
  }

  function OwnRound(c: nat, appNow: nat): seq<Action> {
    [Advance(c, appNow), Advance(c, appNow), Advance(c, appNow)]
  }

  /** The holder's lease is live for the database but already over for the caller's own clock. */
  predicate ClockDisagrees(t: Table, req: Request, appNow: nat) {
    Decision(t, req).StillPending? && t.rows[req.key].pendingExpiresAt.Some? &&
    t.rows[req.key].pendingExpiresAt.value <= appNow
  }

  /** Where an undisturbed round leaves the call. */
  function RoundEnd(w: World, c: nat, appNow: nat): ReservePc
    requires c < |w.calls| && w.calls[c].ReserveCall? && w.calls[c].pc.Inserting?
  {
    if ClockDisagrees(w.table, w.calls[c].req, appNow) then NextRound(w.calls[c].pc.round)
    else Returned(Decision(w.table, w.calls[c].req))
  }

  lemma ReclaimDecides(w: World, c: nat, appNow: nat)
    requires Inv(w) && c < |w.calls| && w.calls[c].ReserveCall? && w.calls[c].pc.Reclaiming?
    requires var req := w.calls[c].req;
             req.key in w.table.rows && w.table.rows[req.key] == w.calls[c].pc.seen &&
             w.calls[c].pc.seen.status == Pending
    ensures var w', req, round := ReclaimStep(w, c, appNow), w.calls[c].req, w.calls[c].pc.round;
            && w'.table == Effect(w.table, req, c)
            && w' == Moved(w, c, if ClockDisagrees(w.table, req, appNow) then NextRound(round)
                                 else Returned(Decision(w.table, req))).(table := w'.table, log := w'.log)
  {
    var k, seen := w.calls[c].req.key, w.calls[c].pc.seen;
    assert CallOk(w, w.calls[c]);
    assert RowOk(w.table.rows[k], w.table.now);
    assert BornAs(w.births, k, seen);
    if ReclaimMatches(w.table, seen.id) {
      ReclaimHitsOwnKey(w, c);
    } else {
      assert !Reclaimable(w.table.rows[k], seen.id, w.table.now);
    }
  }

  /** The first two statements over an existing row change nothing but where the call stands. */
  lemma InsertThenSelect(w: World, c: nat, appNow: nat)
    requires Inv(w) && c < |w.calls| && w.calls[c].ReserveCall? && w.calls[c].pc.Inserting?
    requires w.calls[c].req.key in w.table.rows
    ensures var w2 := Step(Step(w, Advance(c, appNow)), Advance(c, appNow));
            var req := w.calls[c].req;
            Inv(w2) && w2 == Moved(w, c, AfterSelect(req, w.calls[c].pc.round, Some(w.table.rows[req.key])))
  {
    StepKeeps(w, Advance(c, appNow));
    StepKeeps(Step(w, Advance(c, appNow)), Advance(c, appNow));
  }

  lemma FreshRound(w: World, c: nat, appNow: nat)
    requires Inv(w) && c < |w.calls| && w.calls[c].ReserveCall? && w.calls[c].pc.Inserting?
    requires w.calls[c].req.key !in w.table.rows
    ensures var a := Advance(c, appNow);
            var w' := Step(Step(Step(w, a), a), a);
            w'.table == Effect(w.table, w.calls[c].req, c) &&
            w'.calls == w.calls[c := ReserveCall(w.calls[c].req, Returned(Decision(w.table, w.calls[c].req)))]
  {
    var w1 := Step(w, Advance(c, appNow));
    assert w1.calls[c] == ReserveCall(w.calls[c].req, Returned(Reserved(w.table.nextId)));
    assert Step(w1, Advance(c, appNow)) == w1;
  }

  lemma ExistingRound(w: World, c: nat, appNow: nat)
    requires Inv(w) && c < |w.calls| && w.calls[c].ReserveCall? && w.calls[c].pc.Inserting?
    requires w.calls[c].req.key in w.table.rows
    ensures var a := Advance(c, appNow);
            var w' := Step(Step(Step(w, a), a), a);
            w'.table == Effect(w.table, w.calls[c].req, c) &&
            w'.calls == w.calls[c := ReserveCall(w.calls[c].req, RoundEnd(w, c, appNow))]
  {
    var a := Advance(c, appNow);
    var w2 := Step(Step(w, a), a);
    InsertThenSelect(w, c, appNow);
    assert RowOk(w.table.rows[w.calls[c].req.key], w.table.now);
    if w2.calls[c].pc.Reclaiming? {
      ReclaimDecides(w2, c, appNow);
    } else {
      assert Step(w2, a) == w2;
    }
  }

  lemma UndisturbedRound(w: World, c: nat, appNow: nat)
    requires Inv(w) && c < |w.calls| && w.calls[c].ReserveCall? && w.calls[c].pc.Inserting?
    ensures var w' := Run(w, OwnRound(c, appNow));
            && Inv(w') && w'.table == Effect(w.table, w.calls[c].req, c)
            && w'.calls == w.calls[c := ReserveCall(w.calls[c].req, RoundEnd(w, c, appNow))]
  {
    RunThree(w, Advance(c, appNow), Advance(c, appNow), Advance(c, appNow));
    RunKeeps(w, OwnRound(c, appNow));
    if w.calls[c].req.key in w.table.rows {
      ExistingRound(w, c, appNow);
    } else {
      FreshRound(w, c, appNow);
    }
  }

  /**
  Without interference the three statements of one round act as one atomic reserve, exactly when the
  caller's clock does not run past the expiry of a lease the database still holds to be live.
  */
  lemma ReserveIsAtomic(w: World, c: nat, appNow: nat)
    requires Inv(w) && c < |w.calls| && w.calls[c].ReserveCall? && w.calls[c].pc.Inserting?
    ensures var w' := Run(w, OwnRound(c, appNow));
            && w'.table == Effect(w.table, w.calls[c].req, c)
            && |w'.calls| == |w.calls| && w'.calls[c].ReserveCall?
            && (w'.calls[c].pc == Returned(Decision(w.table, w.calls[c].req))
                <==> !ClockDisagrees(w.table, w.calls[c].req, appNow))
  {
    UndisturbedRound(w, c, appNow);
  }

  // ----- the answers of an atomic reserve, in words -----

  /** The key's row carries another payload. */
  predicate Mismatches(t: Table, req: Request) {
    req.key in t.rows && t.rows[req.key].payloadHash != req.payloadHash
  }

  /** The key's row carries this payload and a final result. */
  predicate FinalFor(t: Table, req: Request) {
    req.key in t.rows && t.rows[req.key].payloadHash == req.payloadHash && t.rows[req.key].status in {Completed, Failed}
  }

  /** The key's row is pending for this payload, and was last reserved less than ninety seconds ago. */
  predicate LiveFor(t: Table, req: Request) {
    req.key in t.rows && t.rows[req.key].payloadHash == req.payloadHash && t.rows[req.key].status == Pending &&
    t.now < t.rows[req.key].lastAttemptedAt + 90
  }

  /** The key's row is pending for this payload, but was last reserved ninety seconds ago or earlier. */
  predicate LapsedFor(t: Table, req: Request) {
    req.key in t.rows && t.rows[req.key].payloadHash == req.payloadHash && t.rows[req.key].status == Pending &&
    t.rows[req.key].lastAttemptedAt + 90 <= t.now
  }

  /** One of five cases holds of every reachable table, and each has its own answer. */
  lemma AtomicAnswers(w: World, req: Request)
    requires Inv(w)
    ensures req.key !in w.table.rows ==> Decision(w.table, req) == Reserved(w.table.nextId)
    ensures Mismatches(w.table, req) ==> Decision(w.table, req) == PayloadMismatch
    ensures FinalFor(w.table, req) ==>
              var row := w.table.rows[req.key];
              row.result.Some? && Decision(w.table, req) == Stored(row.status, row.id, row.updatedAt, row.result.value)
    ensures LiveFor(w.table, req) ==>
              var row := w.table.rows[req.key];
              Decision(w.table, req) == StillPending(row.id, row.updatedAt)
    ensures LapsedFor(w.table, req) ==> Decision(w.table, req) == Reserved(w.table.rows[req.key].id)
    ensures forall appNow :: ClockDisagrees(w.table, req, appNow) <==>
                             LiveFor(w.table, req) && w.table.rows[req.key].lastAttemptedAt + 90 <= appNow
    ensures req.key !in w.table.rows || Mismatches(w.table, req) || FinalFor(w.table, req) ||
            LiveFor(w.table, req) || LapsedFor(w.table, req)
  {
    if req.key in w.table.rows { assert RowOk(w.table.rows[req.key], w.table.now); }
  }

  /** What a reservation leaves behind: a pending row of the caller's, with one more attempt, for ninety seconds. */
  lemma AtomicEffects(w: World, req: Request, token: nat)
    requires Inv(w)
    ensures var t := Effect(w.table, req, token);
            && t.now == w.table.now
            && (forall k :: k != req.key ==>
                  (k in t.rows <==> k in w.table.rows) && (k in w.table.rows ==> t.rows[k] == w.table.rows[k]))
            && (req.key in w.table.rows && !LapsedFor(w.table, req) ==> t == w.table)
            && (req.key !in w.table.rows || LapsedFor(w.table, req) ==>
                  && req.key in t.rows && LiveFor(t, req) && t.rows[req.key].leaseToken == Some(token)
                  && t.rows[req.key].lastAttemptedAt == t.now && t.rows[req.key].workflowId == req.workflowId
                  && t.rows[req.key].requestId == req.requestId
                  && t.rows[req.key].attemptCount == Attempts(w.table, req.key) + 1)
  {
    AtomicAnswers(w, req);
  }

  /**
  Over a pending row with the caller's payload, an undisturbed round reserves from ninety seconds after the last
  reservation on, and before that reports it pending, if the caller's clock does not run ahead.
  */
  lemma LeaseLastsNinetySeconds(w: World, c: nat, appNow: nat)
    requires Inv(w) && c < |w.calls| && w.calls[c].ReserveCall? && w.calls[c].pc.Inserting?
    requires LiveFor(w.table, w.calls[c].req) || LapsedFor(w.table, w.calls[c].req)
    requires appNow <= w.table.now
    ensures var row := w.table.rows[w.calls[c].req.key];
            var w' := Run(w, OwnRound(c, appNow));
            && |w'.calls| == |w.calls| && w'.calls[c].ReserveCall? && w'.calls[c].pc.Returned?
            && w'.calls[c].pc.outcome == if row.lastAttemptedAt + 90 <= w.table.now then Reserved(row.id)
                                         else StillPending(row.id, row.updatedAt)
  {
    AtomicAnswers(w, w.calls[c].req);
    UndisturbedRound(w, c, appNow);
  }

  /** With such a clock the caller is not told "pending": after three rounds, not before, it gets the race error. */
  lemma FastClockRaces(w: World, c: nat, appNow: nat)
    requires Inv(w) && c < |w.calls| && w.calls[c].ReserveCall? && w.calls[c].pc == Inserting(0)
    requires ClockDisagrees(w.table, w.calls[c].req, appNow)
    ensures var w' := Run(w, OwnRound(c, appNow) + OwnRound(c, appNow) + OwnRound(c, appNow));
            w'.calls == w.calls[c := ReserveCall(w.calls[c].req, Returned(ReservationRace))] && w'.table == w.table
    ensures var w2 := Run(w, OwnRound(c, appNow) + OwnRound(c, appNow));
            c < |w2.calls| && w2.calls[c] == ReserveCall(w.calls[c].req, Inserting(2))
  {
    var r := OwnRound(c, appNow);
    var w1 := Run(w, r);
    UndisturbedRound(w, c, appNow);
    var w2 := Run(w1, r);
    UndisturbedRound(w1, c, appNow);
    UndisturbedRound(w2, c, appNow);
    RunAppend(w, r, r);
    RunAppend(w, r + r, r);
  }
}
