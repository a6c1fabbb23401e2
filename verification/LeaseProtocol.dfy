/**
Any number of clients running reserve, finalize and cancel against one table, one SQL
statement at a time. Between two statements of a call every other call may move, and so
may the database clock. Rows and grants are also recorded in history variables.
*/
module LeaseProtocol {
  import opened Prelude
  import opened LeaseTable

  datatype ReserveOutcome =
    | Reserved(recordId: nat)
    | StillPending(recordId: nat, updatedAt: nat)
    | Stored(status: Status, recordId: nat, updatedAt: nat, result: string)
    | PayloadMismatch
    | ResultMissing
    | ReservationRace

  /** Where a reserve call stands: which statement it sends next, in which round. */
  datatype ReservePc =
    | Inserting(round: nat)
    | Selecting(round: nat)
    | Reclaiming(round: nat, seen: Row)
    | Returned(outcome: ReserveOutcome)

  datatype ReleaseOutcome =
    | Released
    | AlreadyFinal
    | LeaseLost
    | RowNotFound
    | NotReleasable  // the FINALIZE_NOT_FOUND and CANCEL_NOT_FOUND errors

  datatype ReleasePc = Updating | Reloading | Ended(outcome: ReleaseOutcome)

  /** A call in flight. The lease token of a reserve call is its own position in `calls`. */
  datatype Call =
    | ReserveCall(req: Request, pc: ReservePc)
    | FinalizeCall(key: Key, token: nat, verdict: Verdict, rpc: ReleasePc)
    | CancelCall(key: Key, token: nat, rpc: ReleasePc)

  /** What an inserted row id was born with. */
  datatype Birth = Birth(key: Key, payloadHash: string, createdAt: nat)

  datatype Event =
    | Granted(key: Key, token: nat, recordId: nat, at: nat)
    | Finalized(key: Key, token: nat, verdict: Verdict, at: nat)
    | Cancelled(key: Key, token: nat, at: nat)
    | Sent(key: Key, token: nat, accepted: bool, at: nat)

  datatype World = World(table: Table, calls: seq<Call>, births: map<nat, Birth>, log: seq<Event>)

  datatype Action =
    | Tick(seconds: nat)
    | Begin(call: Call)
    | Advance(c: nat, appNow: nat)  // the next statement of call c; appNow is its process clock
    | Send(c: nat, accepted: bool)  // the external effect of the holder c

  const START: World := World(Table(map[], 1, 0), [], map[], [])

  predicate HoldsGrant(calls: seq<Call>, key: Key, token: nat) {
    token < |calls| && calls[token].ReserveCall? && calls[token].req.key == key &&
    calls[token].pc.Returned? && calls[token].pc.outcome.Reserved?
  }

  /** Finalize and cancel are only ever called with a token some reserve handed out. */
  predicate MayBegin(w: World, call: Call) {
    match call
    case ReserveCall(_, pc) => pc == Inserting(0)
    case FinalizeCall(key, token, v, rpc) => rpc == Updating && Final(v) && HoldsGrant(w.calls, key, token)
    case CancelCall(key, token, rpc) => rpc == Updating && HoldsGrant(w.calls, key, token)
  }

  predicate MaySend(w: World, c: nat) {
    c < |w.calls| && w.calls[c].ReserveCall? && HoldsGrant(w.calls, w.calls[c].req.key, c) &&
    forall i :: 0 <= i < |w.log| && w.log[i].Sent? ==> w.log[i].token != c
  }

  function NextRound(round: nat): ReservePc {
    if round + 1 < MAX_ROUNDS then Inserting(round + 1) else Returned(ReservationRace)
  }

  function Moved(w: World, c: nat, pc: ReservePc): World
    requires c < |w.calls| && w.calls[c].ReserveCall?
  {
    w.(calls := w.calls[c := w.calls[c].(pc := pc)])
  }

  function InsertStep(w: World, c: nat): World
    requires c < |w.calls| && w.calls[c].ReserveCall? && w.calls[c].pc.Inserting?
  {
    var req, round := w.calls[c].req, w.calls[c].pc.round;
    if req.key in w.table.rows then Moved(w, c, Selecting(round))
    else
      var id := w.table.nextId;
      Moved(w, c, Returned(Reserved(id))).(
      table := Insert(w.table, req, c),
      births := w.births[id := Birth(req.key, req.payloadHash, w.table.now)],
      log := w.log + [Granted(req.key, c, id, w.table.now)])
  }

  function Lookup(t: Table, key: Key): Option<Row> {
    if key in t.rows then Some(t.rows[key]) else None
  }

  /** What reserve decides from the row it has just read. */
  function AfterSelect(req: Request, round: nat, row: Option<Row>): ReservePc {
    if row.None? then NextRound(round)
    else if row.value.payloadHash != req.payloadHash then Returned(PayloadMismatch)
    else if row.value.status == Pending then Reclaiming(round, row.value)
    else if row.value.result.None? then Returned(ResultMissing)
    else Returned(Stored(row.value.status, row.value.id, row.value.updatedAt, row.value.result.value))
  }

  function SelectStep(w: World, c: nat): World
    requires c < |w.calls| && w.calls[c].ReserveCall? && w.calls[c].pc.Selecting?
  {
    Moved(w, c, AfterSelect(w.calls[c].req, w.calls[c].pc.round, Lookup(w.table, w.calls[c].req.key)))
  }

  function ReclaimStep(w: World, c: nat, appNow: nat): World
    requires c < |w.calls| && w.calls[c].ReserveCall? && w.calls[c].pc.Reclaiming?
  {
    var req, round, seen := w.calls[c].req, w.calls[c].pc.round, w.calls[c].pc.seen;
    if ReclaimMatches(w.table, seen.id) then
      Moved(w, c, Returned(Reserved(seen.id))).(
      table := Reclaim(w.table, req, seen.id, c),
      log := w.log + [Granted(req.key, c, seen.id, w.table.now)])
    else if Expired(seen.pendingExpiresAt, appNow) then Moved(w, c, NextRound(round))
    else Moved(w, c, Returned(StillPending(seen.id, seen.updatedAt)))
  }

  function Stepped(w: World, c: nat, rpc: ReleasePc): World
    requires c < |w.calls| && !w.calls[c].ReserveCall?
  {
    w.(calls := w.calls[c := w.calls[c].(rpc := rpc)])
  }

  function UpdateStep(w: World, c: nat): World
    requires c < |w.calls| && !w.calls[c].ReserveCall? && w.calls[c].rpc == Updating
  {
    var call := w.calls[c];
    if !Owns(w.table, call.key, call.token) then Stepped(w, c, Reloading)
    else if call.FinalizeCall? then
      Stepped(w, c, Ended(Released)).(
      table := Finalize(w.table, call.key, call.token, call.verdict),
      log := w.log + [Finalized(call.key, call.token, call.verdict, w.table.now)])
    else
      Stepped(w, c, Ended(Released)).(
      table := Cancel(w.table, call.key, call.token),
      log := w.log + [Cancelled(call.key, call.token, w.table.now)])
  }

  /** How finalize and cancel explain that their statement matched no row. */
  function AfterReload(row: Option<Row>, token: nat): ReleaseOutcome {
    if row.None? then RowNotFound
    else if row.value.status != Pending then AlreadyFinal
    else if row.value.leaseToken != Some(token) then LeaseLost
    else NotReleasable
  }

  function ReloadStep(w: World, c: nat): World
    requires c < |w.calls| && !w.calls[c].ReserveCall? && w.calls[c].rpc == Reloading
  {
    Stepped(w, c, Ended(AfterReload(Lookup(w.table, w.calls[c].key), w.calls[c].token)))
  }

  function Statement(w: World, c: nat, appNow: nat): World
    requires c < |w.calls|
  {
    match w.calls[c]
    case ReserveCall(_, Inserting(_)) => InsertStep(w, c)
    case ReserveCall(_, Selecting(_)) => SelectStep(w, c)
    case ReserveCall(_, Reclaiming(_, _)) => ReclaimStep(w, c, appNow)
    case ReserveCall(_, Returned(_)) => w
    case _ =>
      match w.calls[c].rpc
      case Updating => UpdateStep(w, c)
      case Reloading => ReloadStep(w, c)
      case Ended(_) => w
  }

  function SendStep(w: World, c: nat, accepted: bool): World
    requires MaySend(w, c)
  {
    w.(log := w.log + [Sent(w.calls[c].req.key, c, accepted, w.table.now)])
  }

  /** One action of one client, or of the clock. An action that is not enabled does nothing. */
  function Step(w: World, a: Action): World {
    match a
    case Tick(seconds) => w.(table := w.table.(now := w.table.now + seconds))
    case Begin(call) => if MayBegin(w, call) then w.(calls := w.calls + [call]) else w
    case Advance(c, appNow) => if c < |w.calls| then Statement(w, c, appNow) else w
    case Send(c, accepted) => if MaySend(w, c) then SendStep(w, c, accepted) else w
  }

  /** Every run: any actions, in any order. */
  function Run(w: World, actions: seq<Action>): World
    decreases |actions|
  {
    if actions == [] then w else Run(Step(w, actions[0]), actions[1..])
  }

  lemma {:induction false} RunAppend(w: World, first: seq<Action>, second: seq<Action>)
    ensures Run(w, first + second) == Run(Run(w, first), second)
    decreases |first|
  {
    if first == [] {
      assert first + second == second;
    } else {
      assert (first + second)[1..] == first[1..] + second;
      RunAppend(Step(w, first[0]), first[1..], second);
    }
  }

  lemma {:induction false} LogOnlyGrows(w: World, actions: seq<Action>)
    ensures w.log <= Run(w, actions).log
    decreases |actions|
  {
    if actions != [] {
      LogOnlyGrows(Step(w, actions[0]), actions[1..]);
    }
  }

  lemma RunThree(w: World, a: Action, b: Action, c: Action)
    ensures Run(w, [a, b, c]) == Step(Step(Step(w, a), b), c)
  {
    assert [a, b, c][1..] == [b, c] && [b, c][1..] == [c];
    assert Run(Step(Step(w, a), b), [c]) == Step(Step(Step(w, a), b), c);
  }
}
