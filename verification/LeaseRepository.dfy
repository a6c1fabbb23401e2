/**
The repository functions themselves: reserve, finalize and cancel as imperative methods over a
shared database object. Before each statement the other clients make any moves they like. Every
method keeps the object's history a run of the protocol, so what holds of all runs holds of it.
*/
module LeaseRepository {
  import opened Prelude
  import opened LeaseTable
  import opened LeaseProtocol
  import opened LeaseInvariants
  import opened LeaseTheorems

  /** The moves of the other clients and of the clock: nobody else sends the statements of call c or its effect. */
  function Foreign(actions: seq<Action>, c: nat): seq<Action> {
    if actions == [] then []
    else if (actions[0].Advance? || actions[0].Send?) && actions[0].c == c then Foreign(actions[1..], c)
    else [actions[0]] + Foreign(actions[1..], c)
  }

  lemma OthersLeaveIt(w: World, a: Action, c: nat)
    requires c < |w.calls| && !((a.Advance? || a.Send?) && a.c == c)
    ensures |Step(w, a).calls| >= |w.calls| && Step(w, a).calls[c] == w.calls[c]
    ensures MaySend(w, c) ==> MaySend(Step(w, a), c)
  {
  }

  lemma {:induction false} CallStays(w: World, actions: seq<Action>, c: nat)
    requires c < |w.calls|
    ensures |Run(w, Foreign(actions, c)).calls| >= |w.calls| && Run(w, Foreign(actions, c)).calls[c] == w.calls[c]
    ensures MaySend(w, c) ==> MaySend(Run(w, Foreign(actions, c)), c)
    decreases |actions|
  {
    if actions != [] {
      var rest := Foreign(actions[1..], c);
      if (actions[0].Advance? || actions[0].Send?) && actions[0].c == c {
        CallStays(w, actions[1..], c);
      } else {
        assert ([actions[0]] + rest)[1..] == rest;
        OthersLeaveIt(w, actions[0], c);
        CallStays(Step(w, actions[0]), actions[1..], c);
      }
    }
  }

  function Reading(clock: seq<nat>, n: nat): nat {
    if n < |clock| then clock[n] else 0
  }

  lemma RunSnoc(w: World, trace: seq<Action>, a: Action)
    ensures Run(w, trace + [a]) == Step(Run(w, trace), a)
  {
    RunAppend(w, trace, [a]);
    assert Run(Run(w, trace), [a]) == Step(Run(w, trace), a);
  }

  predicate HoldsRow(t: Table, req: Request, token: nat) {
    Owns(t, req.key, token) && t.rows[req.key].payloadHash == req.payloadHash
  }

  lemma ReclaimHolds(w: World, c: nat)
    requires Inv(w) && c < |w.calls| && w.calls[c].ReserveCall? && w.calls[c].pc.Reclaiming?
    ensures ReclaimMatches(w.table, w.calls[c].pc.seen.id) ==>
              HoldsRow(Reclaim(w.table, w.calls[c].req, w.calls[c].pc.seen.id, c), w.calls[c].req, c)
  {
    if ReclaimMatches(w.table, w.calls[c].pc.seen.id) {
      ReclaimHitsOwnKey(w, c);
    }
  }

  /** The row the call has read is pending, and still the row of its key. */
  predicate SeesItsRow(t: Table, call: Call)
    requires call.ReserveCall? && call.pc.Reclaiming?
  {
    call.req.key in t.rows && t.rows[call.req.key] == call.pc.seen && call.pc.seen.status == Pending &&
    call.pc.seen.payloadHash == call.req.payloadHash
  }

  lemma ReclaimIsAtomic(w: World, c: nat)
    requires Inv(w) && c < |w.calls| && w.calls[c].ReserveCall? && w.calls[c].pc.Reclaiming?
    ensures var req, id := w.calls[c].req, w.calls[c].pc.seen.id;
            SeesItsRow(w.table, w.calls[c]) ==>
            && (ReclaimMatches(w.table, id) <==> Decision(w.table, req).Reserved?)
            && Effect(w.table, req, c) == if ReclaimMatches(w.table, id) then Reclaim(w.table, req, id, c) else w.table
  {
    if SeesItsRow(w.table, w.calls[c]) { ReclaimDecides(w, c, 0); }
  }

  /** The shared database, with the calls in flight against it and the history of the table. */
  class Database {
    var table: Table
    var calls: seq<Call>
    var births: map<nat, Birth>
    var log: seq<Event>
    ghost var trace: seq<Action>

    function Now(): World
      reads this
    {
      World(table, calls, births, log)
    }

    /** The current state is where the recorded moves lead from the empty table. */
    ghost predicate Valid()
      reads this
    {
      Now() == Run(START, trace)
    }

    constructor ()
      ensures Valid() && Now() == START
    {
      table, calls, births, log, trace := START.table, START.calls, START.births, START.log, [];
    }

    /** What the other clients and the clock do before the next statement of call c. */
    method Interleave(actions: seq<Action>, c: nat)
      requires Valid() && c < |calls|
      modifies this
      ensures Valid() && trace == old(trace) + Foreign(actions, c) && Now() == Run(old(Now()), Foreign(actions, c))
      ensures |calls| >= |old(calls)| && calls[c] == old(calls)[c]
      ensures old(MaySend(Now(), c)) ==> MaySend(Now(), c)
    {
      var moves := Foreign(actions, c);
      RunAppend(START, trace, moves);
      CallStays(Now(), actions, c);
      trace := trace + moves;
      var w := Run(Now(), moves);
      table, calls, births, log := w.table, w.calls, w.births, w.log;
    }

    method Enter(call: Call) returns (c: nat)
      requires Valid() && MayBegin(Now(), call)
      modifies this
      ensures Valid() && trace == old(trace) + [Begin(call)]
      ensures c == |old(calls)| && calls == old(calls) + [call] && table == old(table) && log == old(log)
    {
      RunSnoc(START, trace, Begin(call));
      trace := trace + [Begin(call)];
      c := |calls|;
      calls := calls + [call];
    }

    method InsertIgnore(c: nat, others: seq<Action>) returns (affectedRows: nat, insertId: nat)
      requires Valid()
      requires c < |calls| && calls[c].ReserveCall? && calls[c].pc.Inserting?
      modifies this
      ensures Valid() && trace == old(trace) + Foreign(others, c) + [Advance(c, 0)]
      ensures |calls| >= |old(calls)|
      ensures calls[c] == ReserveCall(old(calls)[c].req,
                              if affectedRows == 1 then Returned(Reserved(insertId))
                              else Selecting(old(calls)[c].pc.round))
      ensures affectedRows == 1 ==> MaySend(Now(), c) && HoldsRow(table, old(calls)[c].req, c)
      ensures others == [] ==>
                table.now == old(table.now) && (affectedRows == 1 <==> old(calls)[c].req.key !in old(table).rows)
      ensures others == [] && affectedRows != 1 ==> table == old(table)
      ensures others == [] && affectedRows == 1 ==>
                table == Insert(old(table), old(calls)[c].req, c) && insertId == old(table.nextId)
    {
      Interleave(others, c);
      Reachable(trace);
      FreshToken(Now(), c);
      RunSnoc(START, trace, Advance(c, 0));
      trace := trace + [Advance(c, 0)];
      var req := calls[c].req;
      insertId := table.nextId;
      if req.key in table.rows {
        affectedRows := 0;
        calls := calls[c := ReserveCall(req, Selecting(calls[c].pc.round))];
      } else {
        affectedRows := 1;
        births := births[insertId := Birth(req.key, req.payloadHash, table.now)];
        log := log + [Granted(req.key, c, insertId, table.now)];
        table := Insert(table, req, c);
        calls := calls[c := ReserveCall(req, Returned(Reserved(insertId)))];
      }
    }

    method SelectRow(c: nat, others: seq<Action>) returns (row: Option<Row>)
      requires Valid()
      requires c < |calls| && calls[c].ReserveCall? && calls[c].pc.Selecting?
      modifies this
      ensures Valid() && trace == old(trace) + Foreign(others, c) + [Advance(c, 0)]
      ensures |calls| >= |old(calls)| && row == Lookup(table, old(calls)[c].req.key)
      ensures calls[c] == ReserveCall(old(calls)[c].req, AfterSelect(old(calls)[c].req, old(calls)[c].pc.round, row))
      ensures others == [] ==> table == old(table)
    {
      Interleave(others, c);
      RunSnoc(START, trace, Advance(c, 0));
      trace := trace + [Advance(c, 0)];
      var req := calls[c].req;
      row := Lookup(table, req.key);
      calls := calls[c := ReserveCall(req, AfterSelect(req, calls[c].pc.round, row))];
    }

    /** appNow is the caller's clock as the statement returns. */
    method TryReclaim(c: nat, others: seq<Action>, appNow: nat) returns (reclaimed: bool)
      requires Valid()
      requires c < |calls| && calls[c].ReserveCall? && calls[c].pc.Reclaiming?
      modifies this
      ensures Valid() && trace == old(trace) + Foreign(others, c) + [Advance(c, appNow)]
      ensures |calls| >= |old(calls)|
      ensures var seen := old(calls)[c].pc.seen;
              calls[c] == ReserveCall(old(calls)[c].req,
                              if reclaimed then Returned(Reserved(seen.id))
                              else if Expired(seen.pendingExpiresAt, appNow) then NextRound(old(calls)[c].pc.round)
                              else Returned(StillPending(seen.id, seen.updatedAt)))
      ensures reclaimed ==> MaySend(Now(), c) && HoldsRow(table, old(calls)[c].req, c)
      ensures others == [] && old(SeesItsRow(table, calls[c])) ==>
                table == Effect(old(table), old(calls)[c].req, c) &&
                (reclaimed <==> Decision(old(table), old(calls)[c].req).Reserved?)
    {
      Interleave(others, c);
      Reachable(trace);
      FreshToken(Now(), c);
      ReclaimHolds(Now(), c);
      ReclaimIsAtomic(Now(), c);
      RunSnoc(START, trace, Advance(c, appNow));
      trace := trace + [Advance(c, appNow)];
      var req, round, seen := calls[c].req, calls[c].pc.round, calls[c].pc.seen;
      reclaimed := exists k | k in table.rows :: Reclaimable(table.rows[k], seen.id, table.now);
      if reclaimed {
        log := log + [Granted(req.key, c, seen.id, table.now)];
        table := Reclaim(table, req, seen.id, c);
        calls := calls[c := ReserveCall(req, Returned(Reserved(seen.id)))];
      } else if Expired(seen.pendingExpiresAt, appNow) {
        calls := calls[c := ReserveCall(req, NextRound(round))];
      } else {
        calls := calls[c := ReserveCall(req, Returned(StillPending(seen.id, seen.updatedAt)))];
      }
    }

    /** The UPDATE of finalize or the DELETE of cancel. */
    method ReleaseStatement(c: nat, others: seq<Action>) returns (affectedRows: nat)
      requires Valid()
      requires c < |calls| && !calls[c].ReserveCall? && calls[c].rpc == Updating
      modifies this
      ensures Valid() && trace == old(trace) + Foreign(others, c) + [Advance(c, 0)]
      ensures |calls| >= |old(calls)|
      ensures calls[c] == old(calls)[c].(rpc := if affectedRows == 1 then Ended(Released) else Reloading)
      ensures others == [] ==> table.now == old(table.now)
      ensures others == [] ==> (affectedRows == 1 <==> old(Owns(table, calls[c].key, calls[c].token)))
      ensures others == [] && affectedRows != 1 ==> table == old(table)
      ensures others == [] && affectedRows == 1 ==>
                var call := old(calls)[c];
                table == if call.FinalizeCall? then Finalize(old(table), call.key, call.token, call.verdict)
                         else Cancel(old(table), call.key, call.token)
    {
      Interleave(others, c);
      RunSnoc(START, trace, Advance(c, 0));
      trace := trace + [Advance(c, 0)];
      var call := calls[c];
      if !Owns(table, call.key, call.token) {
        affectedRows := 0;
        calls := calls[c := call.(rpc := Reloading)];
        return;
      }
      affectedRows := 1;
      calls := calls[c := call.(rpc := Ended(Released))];
      if call.FinalizeCall? {
        log := log + [Finalized(call.key, call.token, call.verdict, table.now)];
        table := Finalize(table, call.key, call.token, call.verdict);
      } else {
        log := log + [Cancelled(call.key, call.token, table.now)];
        table := Cancel(table, call.key, call.token);
      }
    }

    method ReloadRow(c: nat, others: seq<Action>) returns (row: Option<Row>)
      requires Valid()
      requires c < |calls| && !calls[c].ReserveCall? && calls[c].rpc == Reloading
      modifies this
      ensures Valid() && trace == old(trace) + Foreign(others, c) + [Advance(c, 0)]
      ensures |calls| >= |old(calls)| && row == Lookup(table, old(calls)[c].key)
      ensures calls[c] == old(calls)[c].(rpc := Ended(AfterReload(row, old(calls)[c].token)))
      ensures others == [] ==> table == old(table)
    {
      Interleave(others, c);
      RunSnoc(START, trace, Advance(c, 0));
      trace := trace + [Advance(c, 0)];
      var call := calls[c];
      row := Lookup(table, call.key);
      calls := calls[c := call.(rpc := Ended(AfterReload(row, call.token)))];
    }

    /** The holder's external effect. */
    method SendEffect(c: nat, accepted: bool)
      requires Valid() && MaySend(Now(), c)
      modifies this
      ensures Valid() && trace == old(trace) + [Send(c, accepted)]
      ensures table == old(table) && calls == old(calls)
      ensures log == old(log) + [Sent(calls[c].req.key, c, accepted, table.now)]
    {
      RunSnoc(START, trace, Send(c, accepted));
      trace := trace + [Send(c, accepted)];
      log := log + [Sent(calls[c].req.key, c, accepted, table.now)];
    }
  }

  /** The caller's clock is ahead of a live lease in each of the three rounds. */
  predicate ClockNeverAgrees(t: Table, req: Request, clock: seq<nat>) {
    forall n :: 0 <= n < 3 ==> ClockDisagrees(t, req, Reading(clock, n))
  }

  /** For the caller's clock the ninety seconds of the row are over in each of the three rounds. */
  predicate ClockIsAhead(t: Table, req: Request, clock: seq<nat>)
    requires req.key in t.rows
  {
    forall n :: 0 <= n < 3 ==> t.rows[req.key].lastAttemptedAt + 90 <= Reading(clock, n)
  }

  /** What an undisturbed reserve answers. */
  function QuietOutcome(t: Table, req: Request, clock: seq<nat>): ReserveOutcome {
    if ClockNeverAgrees(t, req, clock) then ReservationRace else Decision(t, req)
  }

  /** The same, case by case. */
  lemma QuietAnswers(w: World, req: Request, clock: seq<nat>)
    requires Inv(w)
    ensures req.key !in w.table.rows || LapsedFor(w.table, req) ==> QuietOutcome(w.table, req, clock).Reserved?
    ensures Mismatches(w.table, req) ==> QuietOutcome(w.table, req, clock) == PayloadMismatch
    ensures FinalFor(w.table, req) ==>
              var row := w.table.rows[req.key];
              && row.result.Some?
              && QuietOutcome(w.table, req, clock) == Stored(row.status, row.id, row.updatedAt, row.result.value)
    ensures LiveFor(w.table, req) ==>
              var row := w.table.rows[req.key];
              QuietOutcome(w.table, req, clock) ==
              if ClockIsAhead(w.table, req, clock) then ReservationRace
              else StillPending(row.id, row.updatedAt)
    ensures forall token :: !QuietOutcome(w.table, req, clock).Reserved? ==> Effect(w.table, req, token) == w.table
  {
    AtomicAnswers(w, req);
    assert ClockNeverAgrees(w.table, req, clock) ==> ClockDisagrees(w.table, req, Reading(clock, 0));
  }

  /** One pass of the retry loop: insert, select, reclaim. None means that the loop goes on. */
  method ReserveRound(db: Database, c: nat, others: seq<seq<Action>>, attempt: nat, appNow: nat)
    returns (outcome: Option<ReserveOutcome>)
    requires db.Valid() && c < |db.calls| && db.calls[c].ReserveCall? && db.calls[c].pc == Inserting(attempt)
    modifies db
    ensures db.Valid() && old(db.trace) <= db.trace && |old(db.calls)| <= |db.calls|
    ensures db.calls[c] ==
            ReserveCall(old(db.calls)[c].req, if outcome.None? then NextRound(attempt) else Returned(outcome.value))
    ensures outcome.Some? && outcome.value.Reserved? ==>
              MaySend(db.Now(), c) && HoldsRow(db.table, old(db.calls)[c].req, c)
    ensures others == [] && old(db.calls)[c].req.key !in old(db.table).rows ==>
              outcome.Some? && outcome.value.Reserved? && db.table.now == old(db.table.now)
    ensures others == [] && Mismatches(old(db.table), old(db.calls)[c].req) ==> outcome == Some(PayloadMismatch)
    ensures outcome != Some(ResultMissing)
    // undisturbed, it is one atomic reserve
    ensures others == [] ==>
              var t, req := old(db.table), old(db.calls)[c].req;
              && db.table == Effect(t, req, c)
              && outcome == if ClockDisagrees(t, req, appNow) then None else Some(Decision(t, req))
  {
    Reachable(db.trace);
    AtomicAnswers(db.Now(), db.calls[c].req);
    var req := db.calls[c].req;
    var affectedRows, insertId := db.InsertIgnore(c, Gap(others, 3 * attempt));
    if affectedRows == 1 {
      return Some(Reserved(insertId));
    }
    var row := db.SelectRow(c, Gap(others, 3 * attempt + 1));
    if row.None? {
      return None;
    }
    if row.value.payloadHash != req.payloadHash {
      return Some(PayloadMismatch);
    }
    if row.value.status == Pending {
      var reclaimed := db.TryReclaim(c, Gap(others, 3 * attempt + 2), appNow);
      if reclaimed {
        return Some(Reserved(row.value.id));
      }
      if Expired(row.value.pendingExpiresAt, appNow) {
        return None;
      }
      return Some(StillPending(row.value.id, row.value.updatedAt));
    }
    ImpossibleErrors(db.trace, c);
    if row.value.result.None? {
      return Some(ResultMissing);
    }
    return Some(Stored(row.value.status, row.value.id, row.value.updatedAt, row.value.result.value));
  }

  /**
  reserveWorkflowStepIdempotency. The token is the new call's number; Gap(others, n) is what the other
  clients do before statement n, clock[n] what the caller's own clock reads in round n.
  */
  method ReserveWorkflowStepIdempotency(db: Database, req: Request, others: seq<seq<Action>>, clock: seq<nat>)
    returns (leaseToken: nat, outcome: ReserveOutcome)
    requires db.Valid()
    modifies db
    ensures db.Valid() && old(db.trace) <= db.trace
    ensures leaseToken == |old(db.calls)| < |db.calls|
    ensures db.calls[leaseToken] == ReserveCall(req, Returned(outcome))
    ensures outcome.Reserved? ==> MaySend(db.Now(), leaseToken) && HoldsRow(db.table, req, leaseToken)
    ensures others == [] && req.key !in old(db.table).rows ==> outcome.Reserved? && db.table.now == old(db.table.now)
    ensures others == [] && Mismatches(old(db.table), req) ==> outcome == PayloadMismatch
    ensures outcome != ResultMissing
    // undisturbed, it is one atomic reserve
    ensures others == [] ==>
              && db.table == Effect(old(db.table), req, leaseToken)
              && outcome == QuietOutcome(old(db.table), req, clock)
  {
    leaseToken := db.Enter(ReserveCall(req, Inserting(0)));
    for attempt := 0 to MAX_ROUNDS
      invariant db.Valid() && old(db.trace) <= db.trace
      invariant leaseToken == |old(db.calls)| < |db.calls|
      invariant db.calls[leaseToken] ==
                ReserveCall(req, if attempt < MAX_ROUNDS then Inserting(attempt) else Returned(ReservationRace))
      invariant attempt == 0 || others == [] ==> db.table == old(db.table)
      invariant others == [] ==> forall n :: 0 <= n < attempt ==> ClockDisagrees(old(db.table), req, Reading(clock, n))
    {
      var answer := ReserveRound(db, leaseToken, others, attempt, Reading(clock, attempt));
      if answer.Some? {
        outcome := answer.value;
        return;
      }
    }
    assert others == [] ==> ClockDisagrees(old(db.table), req, Reading(clock, 0));
    outcome := ReservationRace;
  }

  /**
  finalizeWorkflowStepIdempotency and cancelWorkflowStepIdempotencyReservation: the guarded statement,
  then, where it matched no row, the reload that tells why.
  */
  method ReleaseReservation(db: Database, call: Call, others: seq<seq<Action>>) returns (outcome: ReleaseOutcome)
    requires db.Valid() && !call.ReserveCall? && MayBegin(db.Now(), call)
    modifies db
    ensures db.Valid() && old(db.trace) <= db.trace
    ensures |old(db.calls)| < |db.calls| && db.calls[|old(db.calls)|] == call.(rpc := Ended(outcome))
    ensures outcome == RowNotFound ==> call.key !in db.table.rows
    ensures outcome == LeaseLost ==> call.key in db.table.rows && db.table.rows[call.key].status == Pending
    // undisturbed, the owner's call takes effect, and nobody else's changes the table
    ensures others == [] && old(Owns(db.table, call.key, call.token)) ==> outcome == Released
    ensures others == [] && !old(Owns(db.table, call.key, call.token)) ==>
              outcome != Released && db.table == old(db.table)
    ensures others == [] && old(Owns(db.table, call.key, call.token)) && call.CancelCall? ==>
              db.table == old(db.table).(rows := old(db.table).rows - {call.key})
    ensures others == [] && old(Owns(db.table, call.key, call.token)) && call.FinalizeCall? ==>
              var row := old(db.table).rows[call.key];
              db.table == old(db.table).(rows := old(db.table).rows[call.key :=
                row.(status := call.verdict.status, result := Some(call.verdict.result),
                externalReference := call.verdict.externalReference, leaseToken := None, pendingExpiresAt := None,
                updatedAt := old(db.table.now), completedAt := Some(old(db.table.now)))])
    ensures others == [] && !old(Owns(db.table, call.key, call.token)) ==>
              outcome == if call.key !in old(db.table).rows then RowNotFound
                         else if old(db.table).rows[call.key].status != Pending then AlreadyFinal
                         else LeaseLost
    ensures outcome != NotReleasable
  {
    var c := db.Enter(call);
    assert others == [] ==> Gap(others, 0) == [] && Gap(others, 1) == [];
    var affectedRows := db.ReleaseStatement(c, Gap(others, 0));
    if affectedRows == 1 {
      outcome := Released;
      return;
    }
    var row := db.ReloadRow(c, Gap(others, 1));
    ImpossibleErrors(db.trace, c);
    if row.None? {
      outcome := RowNotFound;
    } else if row.value.status != Pending {
      outcome := AlreadyFinal;
    } else if row.value.leaseToken != Some(call.token) {
      outcome := LeaseLost;
    } else {
      outcome := NotReleasable;
    }
  }
}
