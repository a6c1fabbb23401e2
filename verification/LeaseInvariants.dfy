/**
The inductive invariant of the lease protocol and the proof that every step keeps it,
one lemma a statement.
*/
module LeaseInvariants {
  import opened Prelude
  import opened LeaseTable
  import opened LeaseProtocol

  // ----- rows -----

  /** Pending rows carry a token, an expiry and no result; final rows a result and no token. */
  ghost predicate RowOk(row: Row, now: nat) {
    && row.attemptCount >= 1
    && row.createdAt + LEASE_SECONDS * (row.attemptCount - 1) <= row.lastAttemptedAt <= now
    && (if row.status == Pending
        then row.leaseToken.Some? && row.pendingExpiresAt == Some(row.lastAttemptedAt + LEASE_SECONDS) &&
             row.result.None? && row.completedAt.None?
        else row.leaseToken.None? && row.pendingExpiresAt.None? && row.result.Some? && row.completedAt.Some?)
  }

  /** The row still has the key, payload hash and creation time its id was inserted with. */
  ghost predicate BornAs(births: map<nat, Birth>, k: Key, row: Row) {
    row.id in births && births[row.id] == Birth(k, row.payloadHash, row.createdAt)
  }

  /** A pending row's token belongs to the reserve call that was granted this row. */
  ghost predicate HeldBy(calls: seq<Call>, k: Key, row: Row) {
    row.status == Pending && row.leaseToken.Some? ==>
      HoldsGrant(calls, k, row.leaseToken.value) && calls[row.leaseToken.value].pc.outcome.recordId == row.id
  }

  ghost predicate RowsOk(w: World) {
    && (forall k :: k in w.table.rows ==>
        RowOk(w.table.rows[k], w.table.now) && BornAs(w.births, k, w.table.rows[k]) &&
        HeldBy(w.calls, k, w.table.rows[k]))
    && (forall id :: id in w.births ==> id < w.table.nextId)
  }

  // ----- calls -----

  ghost predicate SettledAs(t: Table, k: Key, st: Status, res: string) {
    k in t.rows && st != Pending && t.rows[k].status == st && t.rows[k].result == Some(res)
  }

  ghost predicate ReserveOk(w: World, req: Request, pc: ReservePc) {
    match pc
    case Inserting(round) => round < MAX_ROUNDS
    case Selecting(round) => round < MAX_ROUNDS
    case Reclaiming(round, seen) =>
      round < MAX_ROUNDS && BornAs(w.births, req.key, seen) && seen.payloadHash == req.payloadHash
    case Returned(outcome) =>
      match outcome
      case Stored(st, id, _, res) =>
        SettledAs(w.table, req.key, st, res) && w.table.rows[req.key].id == id &&
        w.table.rows[req.key].payloadHash == req.payloadHash
      case ResultMissing => false
      case _ => true
  }

  /** A release call that failed to match its row holds a token the row will never carry again. */
  ghost predicate ReleaseOk(w: World, key: Key, token: nat, rpc: ReleasePc) {
    && HoldsGrant(w.calls, key, token)
    && (rpc != Updating ==> !Owns(w.table, key, token))
    && rpc != Ended(NotReleasable)
    && (rpc == Ended(AlreadyFinal) ==> key in w.table.rows && w.table.rows[key].status != Pending)
  }

  ghost predicate CallOk(w: World, call: Call) {
    match call
    case ReserveCall(req, pc) => ReserveOk(w, req, pc)
    case FinalizeCall(key, token, v, rpc) =>
      Final(v) && ReleaseOk(w, key, token, rpc) &&
      (rpc == Ended(Released) ==> SettledAs(w.table, key, v.status, v.result))
    case CancelCall(key, token, rpc) => ReleaseOk(w, key, token, rpc)
  }

  ghost predicate CallsOk(w: World) {
    forall c :: 0 <= c < |w.calls| ==> CallOk(w, w.calls[c])
  }

  // ----- history -----

  ghost predicate CancelledBetween(log: seq<Event>, i: int, j: int, key: Key, token: nat) {
    exists m :: 0 <= i < m < j <= |log| && log[m].Cancelled? && log[m].key == key && log[m].token == token
  }

  /** What has become of the grant at position i. */
  ghost predicate GrantOk(w: World, i: int)
    requires 0 <= i < |w.log| && w.log[i].Granted?
  {
    var e := w.log[i];
    && HoldsGrant(w.calls, e.key, e.token)
    && e.at <= w.table.now
    && (|| (Owns(w.table, e.key, e.token) && w.table.rows[e.key].lastAttemptedAt == e.at)
        || CancelledBetween(w.log, i, |w.log|, e.key, e.token)
        || (e.key in w.table.rows && w.table.rows[e.key].status != Pending)
        || e.at + LEASE_SECONDS <= w.table.now)
  }

  ghost predicate EventOk(w: World, i: int)
    requires 0 <= i < |w.log|
  {
    var e := w.log[i];
    match e
    case Granted(_, _, _, _) => GrantOk(w, i)
    case Finalized(key, token, v, _) =>
      HoldsGrant(w.calls, key, token) && SettledAs(w.table, key, v.status, v.result)
    case Cancelled(key, token, _) => HoldsGrant(w.calls, key, token)
    case Sent(key, token, _, _) => HoldsGrant(w.calls, key, token)
  }

  ghost predicate LogOk(w: World) {
    forall i :: 0 <= i < |w.log| ==> EventOk(w, i)
  }

  /** Two grants of one key are a lease apart, unless the earlier holder itself cancelled. */
  ghost predicate Exclusive(log: seq<Event>) {
    forall i, j :: 0 <= i < j < |log| && log[i].Granted? && log[j].Granted? && log[i].key == log[j].key ==>
      log[i].at + LEASE_SECONDS <= log[j].at || CancelledBetween(log, i, j, log[i].key, log[i].token)
  }

  /** After the one finalization of a key its row is never granted, finalized or deleted again. */
  ghost predicate FinalIsLast(log: seq<Event>) {
    forall i, j :: 0 <= i < j < |log| && log[i].Finalized? && log[i].key == log[j].key ==> log[j].Sent?
  }

  /** A token is granted at most once and sends at most once. */
  ghost predicate TokensOnce(log: seq<Event>) {
    forall i, j :: 0 <= i < j < |log| && log[i].token == log[j].token ==>
      !(log[i].Granted? && log[j].Granted?) && !(log[i].Sent? && log[j].Sent?)
  }

  /** Only the latest holder of a key can own its row. */
  ghost predicate OwnerIsLatest(w: World) {
    forall g, h :: 0 <= g < h < |w.log| && w.log[g].Granted? && w.log[h].Granted? && w.log[g].key == w.log[h].key ==>
      !Owns(w.table, w.log[g].key, w.log[g].token)
  }

  ghost predicate Releases(e: Event, key: Key, token: nat) {
    (e.Finalized? || e.Cancelled?) && e.key == key && e.token == token
  }

  /** A holder that has been superseded never finalizes or cancels. */
  ghost predicate SupersededIsSilent(log: seq<Event>) {
    forall g, h, m :: 0 <= g < h < m < |log| && log[g].Granted? && log[h].Granted? && log[g].key == log[h].key ==>
      !Releases(log[m], log[g].key, log[g].token)
  }

  /** How many grants the log holds for a key since its row was last deleted. */
  ghost function GrantsSince(log: seq<Event>, k: Key): nat {
    if log == [] then 0
    else
      var e := log[|log| - 1];
      if e.key != k then GrantsSince(log[..|log| - 1], k)
      else if e.Cancelled? then 0
      else if e.Granted? then GrantsSince(log[..|log| - 1], k) + 1
      else GrantsSince(log[..|log| - 1], k)
  }

  ghost function Attempts(t: Table, k: Key): nat {
    if k in t.rows then t.rows[k].attemptCount else 0
  }

  ghost predicate CountsOk(w: World) {
    forall k :: Attempts(w.table, k) == GrantsSince(w.log, k)
  }

  ghost predicate LoggedGrant(log: seq<Event>, key: Key, token: nat) {
    exists i :: 0 <= i < |log| && log[i].Granted? && log[i].key == key && log[i].token == token
  }

  /** Every reservation that was handed out is in the log. */
  ghost predicate GrantsLogged(w: World) {
    forall c: nat :: c < |w.calls| && w.calls[c].ReserveCall? && HoldsGrant(w.calls, w.calls[c].req.key, c) ==>
      LoggedGrant(w.log, w.calls[c].req.key, c)
  }

  lemma LoggedStays(log: seq<Event>, e: Event, key: Key, token: nat)
    ensures LoggedGrant(log, key, token) ==> LoggedGrant(log + [e], key, token)
    ensures e.Granted? && e.key == key && e.token == token ==> LoggedGrant(log + [e], key, token)
  {
    if LoggedGrant(log, key, token) {
      var i :| 0 <= i < |log| && log[i].Granted? && log[i].key == key && log[i].token == token;
      assert (log + [e])[i] == log[i];
    }
    assert (log + [e])[|log|] == e;
  }

  /** A step that logs e and grants nothing, or grants exactly what e says, keeps the log complete. */
  lemma GrantsStayLogged(w: World, w': World, e: Event)
    requires GrantsLogged(w) && w'.log == w.log + [e] && |w'.calls| == |w.calls|
    requires forall c: nat :: c < |w.calls| && w'.calls[c] != w.calls[c] && w'.calls[c].ReserveCall? ==>
               e.Granted? && e.key == w'.calls[c].req.key && e.token == c
    ensures GrantsLogged(w')
  {
    forall c: nat | c < |w'.calls| && w'.calls[c].ReserveCall? && HoldsGrant(w'.calls, w'.calls[c].req.key, c)
      ensures LoggedGrant(w'.log, w'.calls[c].req.key, c)
    {
      LoggedStays(w.log, e, w'.calls[c].req.key, c);
    }
  }

  ghost predicate HistoryOk(w: World) {
    LogOk(w) && GrantsLogged(w) && Exclusive(w.log) && FinalIsLast(w.log) && TokensOnce(w.log) &&
    OwnerIsLatest(w) && SupersededIsSilent(w.log) && CountsOk(w)
  }

  ghost predicate Inv(w: World) {
    RowsOk(w) && CallsOk(w) && HistoryOk(w)
  }

  // ----- preservation -----

  lemma LogGrows(log: seq<Event>, e: Event)
    ensures forall k :: GrantsSince(log + [e], k) ==
                        if e.key != k then GrantsSince(log, k)
                        else if e.Cancelled? then 0
                        else if e.Granted? then GrantsSince(log, k) + 1
                        else GrantsSince(log, k)
  {
    assert (log + [e])[..|log|] == log;
  }

  lemma TickKeeps(w: World, seconds: nat)
    requires Inv(w)
    ensures Inv(Step(w, Tick(seconds)))
  {
    var w' := Step(w, Tick(seconds));
    forall i | 0 <= i < |w'.log| ensures EventOk(w', i) { assert EventOk(w, i); }
    forall c | 0 <= c < |w'.calls| ensures CallOk(w', w'.calls[c]) { assert CallOk(w, w.calls[c]); }
    forall k ensures Attempts(w'.table, k) == GrantsSince(w'.log, k) {
      assert Attempts(w.table, k) == GrantsSince(w.log, k);
    }
  }

  predicate HasGrant(call: Call) {
    call.ReserveCall? && call.pc.Returned? && call.pc.outcome.Reserved?
  }

  /** A step that only moves calls, grants nothing and disturbs no grant. */
  ghost predicate OnlyMoves(w: World, w': World) {
    && w'.table == w.table && w'.births == w.births && w'.log == w.log
    && |w.calls| <= |w'.calls|
    && forall c :: 0 <= c < |w'.calls| ==>
         if c < |w.calls| && HasGrant(w.calls[c]) then w'.calls[c] == w.calls[c] else !HasGrant(w'.calls[c])
  }

  lemma MovesKeepRowsAndLog(w: World, w': World)
    requires Inv(w) && OnlyMoves(w, w')
    ensures RowsOk(w') && LogOk(w')
  {
    forall i | 0 <= i < |w'.log| ensures EventOk(w', i) { assert EventOk(w, i); }
  }

  lemma MovesKeepHistory(w: World, w': World)
    requires Inv(w) && OnlyMoves(w, w')
    ensures RowsOk(w') && HistoryOk(w')
  {
    MovesKeepRowsAndLog(w, w');
    assert OwnerIsLatest(w');
    forall k ensures Attempts(w'.table, k) == GrantsSince(w'.log, k) {
      assert Attempts(w.table, k) == GrantsSince(w.log, k);
    }
  }

  lemma BeginKeeps(w: World, call: Call)
    requires Inv(w)
    ensures Inv(Step(w, Begin(call)))
  {
    var w' := Step(w, Begin(call));
    MovesKeepHistory(w, w');
    forall c | 0 <= c < |w.calls| ensures CallOk(w', w'.calls[c]) { assert CallOk(w, w.calls[c]); }
  }

  /** A move that only changes where a reserve call stands. */
  lemma MovedKeeps(w: World, c: nat, pc: ReservePc)
    requires Inv(w) && c < |w.calls| && w.calls[c].ReserveCall? && !w.calls[c].pc.Returned?
    requires ReserveOk(w, w.calls[c].req, pc) && !(pc.Returned? && pc.outcome.Reserved?)
    ensures Inv(Moved(w, c, pc))
  {
    var w' := Moved(w, c, pc);
    MovesKeepHistory(w, w');
    forall d | 0 <= d < |w'.calls| ensures CallOk(w', w'.calls[d]) { assert CallOk(w, w.calls[d]); }
  }

  /** A move that only changes where a finalize or cancel call stands. */
  lemma SteppedKeeps(w: World, c: nat, rpc: ReleasePc)
    requires Inv(w) && c < |w.calls| && !w.calls[c].ReserveCall?
    requires ReleaseOk(w, w.calls[c].key, w.calls[c].token, rpc) && rpc != Ended(Released)
    ensures Inv(Stepped(w, c, rpc))
  {
    var w' := Stepped(w, c, rpc);
    MovesKeepHistory(w, w');
    forall d | 0 <= d < |w'.calls| ensures CallOk(w', w'.calls[d]) { assert CallOk(w, w.calls[d]); }
  }

  lemma SelectKeeps(w: World, c: nat)
    requires Inv(w) && c < |w.calls| && w.calls[c].ReserveCall? && w.calls[c].pc.Selecting?
    ensures Inv(SelectStep(w, c))
  {
    assert CallOk(w, w.calls[c]);
    MovedKeeps(w, c, AfterSelect(w.calls[c].req, w.calls[c].pc.round, Lookup(w.table, w.calls[c].req.key)));
  }

  lemma ReloadKeeps(w: World, c: nat)
    requires Inv(w) && c < |w.calls| && !w.calls[c].ReserveCall? && w.calls[c].rpc == Reloading
    ensures Inv(ReloadStep(w, c))
  {
    assert CallOk(w, w.calls[c]);
    SteppedKeeps(w, c, Ended(AfterReload(Lookup(w.table, w.calls[c].key), w.calls[c].token)));
  }

  /** The row a stale reclaim matches is still the row it read: same key, same payload hash. */
  lemma ReclaimHitsOwnKey(w: World, c: nat)
    requires Inv(w) && c < |w.calls| && w.calls[c].ReserveCall? && w.calls[c].pc.Reclaiming?
    requires ReclaimMatches(w.table, w.calls[c].pc.seen.id)
    ensures var req, seen := w.calls[c].req, w.calls[c].pc.seen;
            && req.key in w.table.rows
            && Reclaimable(w.table.rows[req.key], seen.id, w.table.now)
            && w.table.rows[req.key].payloadHash == req.payloadHash
            && Reclaim(w.table, req, seen.id, c).rows ==
               w.table.rows[req.key := ReclaimedRow(w.table.rows[req.key], req, c, w.table.now)]
  {
    assert CallOk(w, w.calls[c]);
    var req, seen := w.calls[c].req, w.calls[c].pc.seen;
    forall k | k in w.table.rows && w.table.rows[k].id == seen.id
      ensures k == req.key && w.table.rows[k].payloadHash == req.payloadHash
    {
      assert BornAs(w.births, k, w.table.rows[k]);
    }
  }

  // ----- the statements that change the table -----

  lemma CancelStays(log: seq<Event>, e: Event, i: int, j: int, key: Key, token: nat)
    requires CancelledBetween(log, i, j, key, token)
    ensures CancelledBetween(log + [e], i, j, key, token)
    ensures j == |log| ==> CancelledBetween(log + [e], i, j + 1, key, token)
  {
    var m :| 0 <= i < m < j <= |log| && log[m].Cancelled? && log[m].key == key && log[m].token == token;
    assert (log + [e])[m] == log[m];
  }

  /** The part of a step that every grant shares: the table now holds this call's pending row for the key. */
  ghost predicate GrantsTo(w: World, c: nat, w': World) {
    && c < |w.calls| && w.calls[c].ReserveCall? && !w.calls[c].pc.Returned?
    && GrantedRow(w, c, w.calls[c].req, w.calls[c].req.key, w')
  }

  ghost predicate GrantedRow(w: World, c: nat, req: Request, k: Key, w': World)
    requires c < |w.calls|
  {
    && k in w'.table.rows
    && (k in w.table.rows ==> Reclaimable(w.table.rows[k], w.table.rows[k].id, w.table.now))
    && w'.table.now == w.table.now && w'.table.nextId >= w.table.nextId
    && w'.table.rows == w.table.rows[k := w'.table.rows[k]]
    && Owns(w'.table, k, c) && w'.table.rows[k].lastAttemptedAt == w.table.now
    && w'.table.rows[k].attemptCount == Attempts(w.table, k) + 1
    && w'.table.rows[k].payloadHash == req.payloadHash
    && w'.calls == w.calls[c := ReserveCall(req, Returned(Reserved(w'.table.rows[k].id)))]
    && w'.log == w.log + [Granted(k, c, w'.table.rows[k].id, w.table.now)]
    && RowOk(w'.table.rows[k], w'.table.now)
    && (forall id :: id in w.births ==> id in w'.births && w'.births[id] == w.births[id])
    && (forall id :: id in w'.births ==> id < w'.table.nextId)
    && BornAs(w'.births, k, w'.table.rows[k])
  }

  /** A reserve call that has not returned has never been granted: its token is nowhere. */
  lemma FreshToken(w: World, c: nat)
    requires Inv(w) && c < |w.calls| && w.calls[c].ReserveCall? && !w.calls[c].pc.Returned?
    ensures forall i :: 0 <= i < |w.log| ==> w.log[i].token != c
    ensures forall k :: !Owns(w.table, k, c)
    ensures forall d :: 0 <= d < |w.calls| && !w.calls[d].ReserveCall? ==> w.calls[d].token != c
  {
    forall i | 0 <= i < |w.log| ensures w.log[i].token != c { assert EventOk(w, i); }
    forall d | 0 <= d < |w.calls| && !w.calls[d].ReserveCall? ensures w.calls[d].token != c {
      assert CallOk(w, w.calls[d]);
    }
  }

  lemma GrantKeepsRows(w: World, c: nat, w': World)
    requires Inv(w) && GrantsTo(w, c, w')
    ensures RowsOk(w')
  {
    FreshToken(w, c);
    var k0 := w.calls[c].req.key;
    forall k | k in w'.table.rows
      ensures RowOk(w'.table.rows[k], w'.table.now)
      ensures BornAs(w'.births, k, w'.table.rows[k]) && HeldBy(w'.calls, k, w'.table.rows[k])
    {
      if k != k0 { assert RowOk(w.table.rows[k], w.table.now); }
    }
  }

  lemma GrantKeepsCall(w: World, c: nat, w': World, d: nat)
    requires Inv(w) && GrantsTo(w, c, w') && d < |w.calls|
    ensures CallOk(w', w'.calls[d])
  {
    FreshToken(w, c);
    assert CallOk(w, w.calls[d]);
  }

  lemma GrantKeepsCalls(w: World, c: nat, w': World)
    requires Inv(w) && GrantsTo(w, c, w')
    ensures CallsOk(w')
  {
    forall d | 0 <= d < |w'.calls| ensures CallOk(w', w'.calls[d]) {
      GrantKeepsCall(w, c, w', d);
    }
  }

  lemma GrantKeepsLog(w: World, c: nat, w': World)
    requires Inv(w) && GrantsTo(w, c, w')
    ensures LogOk(w')
  {
    FreshToken(w, c);
    forall i | 0 <= i < |w'.log| ensures EventOk(w', i) {
      if i < |w.log| {
        assert EventOk(w, i);
        var e := w.log[i];
        if e.Granted? && CancelledBetween(w.log, i, |w.log|, e.key, e.token) {
          CancelStays(w.log, w'.log[|w.log|], i, |w.log|, e.key, e.token);
        }
      }
    }
  }

  /** The heart of the exclusion: at a new grant every earlier grant of the key has expired or was cancelled. */
  lemma GrantKeepsExclusion(w: World, c: nat, w': World)
    requires Inv(w) && GrantsTo(w, c, w')
    ensures Exclusive(w'.log) && FinalIsLast(w'.log) && TokensOnce(w'.log)
  {
    FreshToken(w, c);
    var n, g := |w.log|, w'.log[|w.log|];
    forall i, j | 0 <= i < j <= n && w'.log[i].Granted? && w'.log[j].Granted? && w'.log[i].key == w'.log[j].key
      ensures w'.log[i].at + LEASE_SECONDS <= w'.log[j].at ||
              CancelledBetween(w'.log, i, j, w'.log[i].key, w'.log[i].token)
    {
      assert EventOk(w, i);
      var e := w.log[i];
      if CancelledBetween(w.log, i, j, e.key, e.token) {
        CancelStays(w.log, g, i, j, e.key, e.token);
      } else if j == n && g.key in w.table.rows {
        assert RowOk(w.table.rows[g.key], w.table.now);
      }
    }
    forall i | 0 <= i < n && w.log[i].Finalized? ensures w.log[i].key != g.key { assert EventOk(w, i); }
  }

  lemma GrantKeepsOwner(w: World, c: nat, w': World)
    requires Inv(w) && GrantsTo(w, c, w')
    ensures OwnerIsLatest(w')
  {
    FreshToken(w, c);
    var n := |w.log|;
    forall g, h | 0 <= g < h <= n && w'.log[g].Granted? && w'.log[h].Granted? && w'.log[g].key == w'.log[h].key
      ensures !Owns(w'.table, w'.log[g].key, w'.log[g].token)
    {
      assert w.log[g].token != c;
      if h < n { assert !Owns(w.table, w.log[g].key, w.log[g].token); }
    }
  }

  lemma GrantKeepsSilence(w: World, c: nat, w': World)
    requires Inv(w) && GrantsTo(w, c, w')
    ensures SupersededIsSilent(w'.log)
  {
  }

  lemma GrantKeepsCounts(w: World, c: nat, w': World)
    requires Inv(w) && GrantsTo(w, c, w')
    ensures GrantsLogged(w') && CountsOk(w')
  {
    GrantsStayLogged(w, w', w'.log[|w.log|]);
    LogGrows(w.log, w'.log[|w.log|]);
    forall k ensures Attempts(w'.table, k) == GrantsSince(w'.log, k) {
      assert Attempts(w.table, k) == GrantsSince(w.log, k);
    }
  }

  lemma GrantKeeps(w: World, c: nat, w': World)
    requires Inv(w) && GrantsTo(w, c, w')
    ensures Inv(w')
  {
    GrantKeepsRows(w, c, w');
    GrantKeepsCalls(w, c, w');
    GrantKeepsLog(w, c, w');
    GrantKeepsExclusion(w, c, w');
    GrantKeepsOwner(w, c, w');
    GrantKeepsSilence(w, c, w');
    GrantKeepsCounts(w, c, w');
  }

  lemma InsertKeeps(w: World, c: nat)
    requires Inv(w) && c < |w.calls| && w.calls[c].ReserveCall? && w.calls[c].pc.Inserting?
    ensures Inv(InsertStep(w, c))
  {
    assert CallOk(w, w.calls[c]);
    if w.calls[c].req.key in w.table.rows {
      MovedKeeps(w, c, Selecting(w.calls[c].pc.round));
    } else {
      GrantKeeps(w, c, InsertStep(w, c));
    }
  }

  lemma ReclaimKeeps(w: World, c: nat, appNow: nat)
    requires Inv(w) && c < |w.calls| && w.calls[c].ReserveCall? && w.calls[c].pc.Reclaiming?
    ensures Inv(ReclaimStep(w, c, appNow))
  {
    assert CallOk(w, w.calls[c]);
    var seen := w.calls[c].pc.seen;
    if ReclaimMatches(w.table, seen.id) {
      ReclaimHitsOwnKey(w, c);
      var k := w.calls[c].req.key;
      assert RowOk(w.table.rows[k], w.table.now) && BornAs(w.births, k, w.table.rows[k]);
      GrantKeeps(w, c, ReclaimStep(w, c, appNow));
    } else if Expired(seen.pendingExpiresAt, appNow) {
      MovedKeeps(w, c, NextRound(w.calls[c].pc.round));
    } else {
      MovedKeeps(w, c, Returned(StillPending(seen.id, seen.updatedAt)));
    }
  }

  /** The part a matched finalize and a matched cancel share: only the holder's own row goes. */
  ghost predicate ReleasesBy(w: World, c: nat, w': World) {
    && c < |w.calls| && !w.calls[c].ReserveCall? && w.calls[c].rpc == Updating
    && w' == UpdateStep(w, c) && Owns(w.table, w.calls[c].key, w.calls[c].token)
  }

  lemma ReleaseKeepsRowsAndCalls(w: World, c: nat, w': World)
    requires Inv(w) && ReleasesBy(w, c, w')
    ensures RowsOk(w') && CallsOk(w')
  {
    var call := w.calls[c];
    assert CallOk(w, call);
    assert RowOk(w.table.rows[call.key], w.table.now);
    forall k | k in w'.table.rows
      ensures RowOk(w'.table.rows[k], w'.table.now)
      ensures BornAs(w'.births, k, w'.table.rows[k]) && HeldBy(w'.calls, k, w'.table.rows[k])
    {
      assert RowOk(w.table.rows[k], w.table.now) && BornAs(w.births, k, w.table.rows[k]) &&
             HeldBy(w.calls, k, w.table.rows[k]);
    }
    forall d | 0 <= d < |w'.calls| ensures CallOk(w', w'.calls[d]) { assert CallOk(w, w.calls[d]); }
  }

  lemma ReleaseKeepsLog(w: World, c: nat, w': World)
    requires Inv(w) && ReleasesBy(w, c, w')
    ensures LogOk(w')
  {
    var call, n := w.calls[c], |w.log|;
    assert CallOk(w, call);
    forall i | 0 <= i < |w'.log| ensures EventOk(w', i) {
      if i < n {
        assert EventOk(w, i);
        var e := w.log[i];
        if e.Granted? && CancelledBetween(w.log, i, n, e.key, e.token) {
          CancelStays(w.log, w'.log[n], i, n, e.key, e.token);
        } else if e.Granted? && call.CancelCall? && Owns(w.table, e.key, e.token) && e.key == call.key {
          assert w'.log[n].Cancelled? && w'.log[n].key == e.key && w'.log[n].token == e.token;
        }
      }
    }
  }

  lemma ReleaseKeepsExclusion(w: World, c: nat, w': World)
    requires Inv(w) && ReleasesBy(w, c, w')
    ensures Exclusive(w'.log) && FinalIsLast(w'.log) && TokensOnce(w'.log)
  {
    var n := |w.log|;
    forall i, j | 0 <= i < j <= n && w'.log[i].Granted? && w'.log[j].Granted? && w'.log[i].key == w'.log[j].key
      ensures w'.log[i].at + LEASE_SECONDS <= w'.log[j].at ||
              CancelledBetween(w'.log, i, j, w'.log[i].key, w'.log[i].token)
    {
      if CancelledBetween(w.log, i, j, w.log[i].key, w.log[i].token) {
        CancelStays(w.log, w'.log[n], i, j, w.log[i].key, w.log[i].token);
      }
    }
    forall i | 0 <= i < n && w.log[i].Finalized? ensures w.log[i].key != w'.log[n].key { assert EventOk(w, i); }
  }

  lemma ReleaseKeepsOwner(w: World, c: nat, w': World)
    requires Inv(w) && ReleasesBy(w, c, w')
    ensures OwnerIsLatest(w')
  {
    var n := |w.log|;
    forall g, h | 0 <= g < h <= n && w'.log[g].Granted? && w'.log[h].Granted? && w'.log[g].key == w'.log[h].key
      ensures !Owns(w'.table, w'.log[g].key, w'.log[g].token)
    {
      assert h < n && !Owns(w.table, w.log[g].key, w.log[g].token);
    }
  }

  lemma ReleaseKeepsSilence(w: World, c: nat, w': World)
    requires Inv(w) && ReleasesBy(w, c, w')
    ensures SupersededIsSilent(w'.log)
  {
    var n := |w.log|;
    forall g, h | 0 <= g < h < n && w.log[g].Granted? && w.log[h].Granted? && w.log[g].key == w.log[h].key
      ensures !Releases(w'.log[n], w.log[g].key, w.log[g].token)
    {
      assert !Owns(w.table, w.log[g].key, w.log[g].token);
    }
  }

  lemma ReleaseKeepsCounts(w: World, c: nat, w': World)
    requires Inv(w) && ReleasesBy(w, c, w')
    ensures GrantsLogged(w') && CountsOk(w')
  {
    GrantsStayLogged(w, w', w'.log[|w.log|]);
    LogGrows(w.log, w'.log[|w.log|]);
    forall k ensures Attempts(w'.table, k) == GrantsSince(w'.log, k) {
      assert Attempts(w.table, k) == GrantsSince(w.log, k);
    }
  }

  lemma UpdateKeeps(w: World, c: nat)
    requires Inv(w) && c < |w.calls| && !w.calls[c].ReserveCall? && w.calls[c].rpc == Updating
    ensures Inv(UpdateStep(w, c))
  {
    var call := w.calls[c];
    assert CallOk(w, call);
    if Owns(w.table, call.key, call.token) {
      var w' := UpdateStep(w, c);
      ReleaseKeepsRowsAndCalls(w, c, w');
      ReleaseKeepsLog(w, c, w');
      ReleaseKeepsExclusion(w, c, w');
      ReleaseKeepsOwner(w, c, w');
      ReleaseKeepsSilence(w, c, w');
      ReleaseKeepsCounts(w, c, w');
    } else {
      SteppedKeeps(w, c, Reloading);
    }
  }

  lemma SendKeepsLog(w: World, c: nat, accepted: bool)
    requires Inv(w) && MaySend(w, c)
    ensures LogOk(SendStep(w, c, accepted)) && Exclusive(SendStep(w, c, accepted).log)
  {
    var w', n := SendStep(w, c, accepted), |w.log|;
    forall i | 0 <= i < |w'.log| ensures EventOk(w', i) {
      if i < n {
        assert EventOk(w, i);
        var e := w.log[i];
        if e.Granted? && CancelledBetween(w.log, i, n, e.key, e.token) {
          CancelStays(w.log, w'.log[n], i, n, e.key, e.token);
        }
      }
    }
    forall i, j | 0 <= i < j < n && w.log[i].Granted? && w.log[j].Granted? && w.log[i].key == w.log[j].key
      ensures w.log[i].at + LEASE_SECONDS <= w.log[j].at || CancelledBetween(w'.log, i, j, w.log[i].key, w.log[i].token)
    {
      if CancelledBetween(w.log, i, j, w.log[i].key, w.log[i].token) {
        CancelStays(w.log, w'.log[n], i, j, w.log[i].key, w.log[i].token);
      }
    }
  }

  lemma SendKeepsOrder(w: World, c: nat, accepted: bool)
    requires Inv(w) && MaySend(w, c)
    ensures var w' := SendStep(w, c, accepted);
            OwnerIsLatest(w') && SupersededIsSilent(w'.log) && FinalIsLast(w'.log) && TokensOnce(w'.log)
  {
  }

  lemma SendKeepsCounts(w: World, c: nat, accepted: bool)
    requires Inv(w) && MaySend(w, c)
    ensures var w' := SendStep(w, c, accepted);
            RowsOk(w') && CallsOk(w') && GrantsLogged(w') && CountsOk(w')
  {
    var w' := SendStep(w, c, accepted);
    GrantsStayLogged(w, w', w'.log[|w.log|]);
    LogGrows(w.log, w'.log[|w.log|]);
    forall d | 0 <= d < |w'.calls| ensures CallOk(w', w'.calls[d]) { assert CallOk(w, w.calls[d]); }
    forall k ensures Attempts(w'.table, k) == GrantsSince(w'.log, k) {
      assert Attempts(w.table, k) == GrantsSince(w.log, k);
    }
  }

  lemma SendKeeps(w: World, c: nat, accepted: bool)
    requires Inv(w) && MaySend(w, c)
    ensures Inv(SendStep(w, c, accepted))
  {
    SendKeepsLog(w, c, accepted);
    SendKeepsOrder(w, c, accepted);
    SendKeepsCounts(w, c, accepted);
  }

  lemma StepKeeps(w: World, a: Action)
    requires Inv(w)
    ensures Inv(Step(w, a))
  {
    match a
    case Tick(seconds) => TickKeeps(w, seconds);
    case Begin(call) => BeginKeeps(w, call);
    case Send(c, accepted) => if MaySend(w, c) { SendKeeps(w, c, accepted); }
    case Advance(c, appNow) =>
      if c < |w.calls| {
        if w.calls[c].ReserveCall? {
          match w.calls[c].pc
          case Inserting(_) => InsertKeeps(w, c);
          case Selecting(_) => SelectKeeps(w, c);
          case Reclaiming(_, _) => ReclaimKeeps(w, c, appNow);
          case Returned(_) =>
        } else {
          match w.calls[c].rpc
          case Updating => UpdateKeeps(w, c);
          case Reloading => ReloadKeeps(w, c);
          case Ended(_) =>
        }
      }
  }

  /** The invariant holds in every state of every run from the empty table. */
  lemma {:induction false} RunKeeps(w: World, actions: seq<Action>)
    requires Inv(w)
    ensures Inv(Run(w, actions))
    decreases |actions|
  {
    if actions != [] {
      StepKeeps(w, actions[0]);
      RunKeeps(Step(w, actions[0]), actions[1..]);
    }
  }

  lemma Reachable(actions: seq<Action>)
    ensures Inv(Run(START, actions))
  {
    RunKeeps(START, actions);
  }
}
