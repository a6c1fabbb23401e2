/**
The row of one NF-e sale and the guarded UPDATEs that change it. Every statement names the row
by (runtime_scope, id), so rows do not interact and the model follows one of them; None is a row
that has not been inserted.
*/
module SaleRow {
  import opened Prelude
  import opened Text

  datatype SaleStatus = PENDING | IN_PROGRESS | SENT | FAILED_TRANSIENT | FAILED_FINAL | DELIVERY_UNKNOWN

  datatype Sale = Sale(
    status: SaleStatus,
    attemptCount: nat,
    firstAttemptAt: Option<string>,
    lastAttemptAt: Option<string>,
    sentAt: Option<string>,
    lastErrorMessage: Option<string>)

  /** INSERT ... ON DUPLICATE KEY UPDATE id = id */
  function Inserted(row: Option<Sale>): Option<Sale> {
    if row.Some? then row else Some(Sale(PENDING, 0, None, None, None, None))
  }

  // ----- claims -----

  /** What the automatic run picks up, both to list and to claim. */
  predicate Eligible(row: Option<Sale>, max: nat) {
    row.Some? && (row.value.status == PENDING || (row.value.status == FAILED_TRANSIENT && row.value.attemptCount < max))
  }

  predicate ManuallyClaimable(row: Option<Sale>) {
    row.Some? && row.value.status in {PENDING, FAILED_TRANSIENT, FAILED_FINAL, DELIVERY_UNKNOWN}
  }

  function ClaimedSale(sale: Sale, startedAt: string): Sale {
    sale.(status := IN_PROGRESS, attemptCount := sale.attemptCount + 1,
    firstAttemptAt := if sale.firstAttemptAt.Some? then sale.firstAttemptAt else Some(startedAt),
    lastAttemptAt := Some(startedAt), lastErrorMessage := None)
  }

  /** The row an attempt finds when it reloads its claim. */
  predicate OwnedBy(row: Option<Sale>, startedAt: string) {
    row.Some? && row.value.status == IN_PROGRESS && row.value.lastAttemptAt == Some(startedAt)
  }

  // ----- rollback -----

  function NormalizeStored(value: Option<string>): Option<string> {
    if value.None? then None else NormalizeDateTime3(value.value)
  }

  predicate RollsBack(row: Option<Sale>, startedAt: string, attemptCount: nat) {
    OwnedBy(row, startedAt) && row.value.attemptCount == attemptCount
  }

  function RolledBackSale(sale: Sale, previous: Sale): Sale {
    sale.(status := previous.status, attemptCount := previous.attemptCount,
    firstAttemptAt := NormalizeStored(previous.firstAttemptAt),
    lastAttemptAt := NormalizeStored(previous.lastAttemptAt),
    lastErrorMessage := NormalizeMessage(previous.lastErrorMessage))
  }

  // ----- finalization -----

  predicate FinalStatus(status: SaleStatus) {
    status in {SENT, FAILED_TRANSIENT, FAILED_FINAL, DELIVERY_UNKNOWN}
  }

  /** The sent time is written for SENT and for nothing else; now is the moment of sending. */
  function FinalizedSale(sale: Sale, status: SaleStatus, now: string, message: Option<string>): Sale {
    sale.(status := status,
          sentAt := if status == SENT then Some(now) else None,
          lastErrorMessage := NormalizeMessage(message))
  }

  /** The automatic finalization turns a transient failure of the last allowed attempt into a final one. */
  function EffectiveStatus(status: SaleStatus, attemptCount: nat, max: nat): SaleStatus {
    if status == FAILED_TRANSIENT && attemptCount >= max then FAILED_FINAL else status
  }
}
