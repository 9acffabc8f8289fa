/** The investor's temporal balance card (`TemporalStatsCards`). */
module TemporalStatsCards {
  import opened Ledger
  import opened Tables

  /**
   * `fetchSaldoTemporal`: the clamped balance of the signed-in investor's
   * rows, or 0 when the query fails.
   */
  method FetchSaldoTemporal(db: Database, userId: Id, queryFails: bool) returns (saldo: real)
    ensures saldo >= 0.0
    ensures queryFails ==> saldo == 0.0
    ensures !queryFails ==> saldo == Balance(RowsOf(db.transacciones, userId))
    ensures !queryFails ==> saldo >= SignedSum(RowsOf(db.transacciones, userId))
  {
    if queryFails {
      return 0.0;
    }
    saldo := AccumulateBalance(RowsOf(db.transacciones, userId));
  }
}
