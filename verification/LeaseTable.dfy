/**
The shared table of step reservations. Each SQL statement of the repository is one
atomic function from table to table, guarded the way its WHERE clause guards it.
Times are whole seconds of the database clock.
*/
module LeaseTable {
  import opened Prelude

  /** How long a pending reservation stays exclusive, in seconds. */
  const LEASE_SECONDS: nat := 90

  /** How many insert/select/reclaim rounds one reserve call makes before giving up. */
  const MAX_ROUNDS: nat := 3

  /**
  The three lookup columns, on which the table is unique. Its collation compares them without regard to letter
  case, so a Key stands for all texts the table holds to be equal: its texts are folded.
  */
  datatype Key = Key(workflowName: string, stepName: string, idempotencyKey: string)

  datatype Status = Pending | Completed | Failed

  datatype Row = Row(
    id: nat,
    workflowId: string,
    requestId: string,
    payloadHash: string,
    status: Status,
    leaseToken: Option<nat>,
    attemptCount: nat,
    lastAttemptedAt: nat,
    pendingExpiresAt: Option<nat>,
    externalReference: Option<string>,
    result: Option<string>,
    createdAt: nat,
    updatedAt: nat,
    completedAt: Option<nat>)

  datatype Table = Table(rows: map<Key, Row>, nextId: nat, now: nat)

  /** What a caller of reserve supplies. */
  datatype Request = Request(key: Key, workflowId: string, requestId: string, payloadHash: string)

  /** What a holder writes when it finalizes. */
  datatype Verdict = Verdict(status: Status, result: string, externalReference: Option<string>)

  predicate Final(v: Verdict) {
    v.status != Pending
  }

  // ----- INSERT IGNORE -----

  function NewRow(t: Table, req: Request, token: nat): Row {
    Row(t.nextId, req.workflowId, req.requestId, req.payloadHash, Pending, Some(token), 1, t.now,
        Some(t.now + LEASE_SECONDS), None, None, t.now, t.now, None)
  }

  function Insert(t: Table, req: Request, token: nat): Table {
    if req.key in t.rows then t
    else t.(rows := t.rows[req.key := NewRow(t, req, token)], nextId := t.nextId + 1)
  }

  // ----- UPDATE ... WHERE id = ? AND pending AND expired -----

  predicate Reclaimable(row: Row, id: nat, now: nat) {
    row.id == id && row.status == Pending && Expired(row.pendingExpiresAt, now)
  }

  predicate Expired(expiresAt: Option<nat>, now: nat) {
    expiresAt.None? || expiresAt.value <= now
  }

  function ReclaimedRow(row: Row, req: Request, token: nat, now: nat): Row {
    row.(workflowId := req.workflowId, requestId := req.requestId, payloadHash := req.payloadHash,
    leaseToken := Some(token), attemptCount := row.attemptCount + 1, lastAttemptedAt := now,
    updatedAt := now, pendingExpiresAt := Some(now + LEASE_SECONDS), completedAt := None)
  }

  predicate ReclaimMatches(t: Table, id: nat) {
    exists k :: k in t.rows && Reclaimable(t.rows[k], id, t.now)
  }

  function Reclaim(t: Table, req: Request, id: nat, token: nat): Table {
    t.(rows := map k | k in t.rows ::
      if Reclaimable(t.rows[k], id, t.now) then ReclaimedRow(t.rows[k], req, token, t.now) else t.rows[k])
  }

  // ----- UPDATE / DELETE ... WHERE key AND pending AND lease_token = ? -----

  predicate Owns(t: Table, key: Key, token: nat) {
    key in t.rows && t.rows[key].status == Pending && t.rows[key].leaseToken == Some(token)
  }

  predicate IsFinal(t: Table, key: Key) {
    key in t.rows && t.rows[key].status != Pending
  }

  function FinalizedRow(row: Row, v: Verdict, now: nat): Row {
    row.(status := v.status, leaseToken := None, externalReference := v.externalReference,
    result := Some(v.result), updatedAt := now, pendingExpiresAt := None, completedAt := Some(now))
  }

  function Finalize(t: Table, key: Key, token: nat, v: Verdict): Table {
    if Owns(t, key, token) then t.(rows := t.rows[key := FinalizedRow(t.rows[key], v, t.now)]) else t
  }

  function Cancel(t: Table, key: Key, token: nat): Table {
    if Owns(t, key, token) then t.(rows := t.rows - {key}) else t
  }
}
