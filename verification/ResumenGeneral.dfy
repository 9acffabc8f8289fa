/** The administrator's temporal summary (`TemporalResumenGeneral`). */
module TemporalResumenGeneral {
  import opened Ledger
  import opened Tables

  datatype Estadisticas = Estadisticas(totalInversores: nat, totalInversion: real, totalGanancias: real)

  const Zero := Estadisticas(0, 0.0, 0.0)

  /**
   * `fetchEstadisticas`: the number of distinct investors, the clamped
   * total and the unclamped sum of `ganancia` amounts, accumulated in one
   * pass; either query failing resets all three to 0.
   */
  method FetchEstadisticas(db: Database, inversoresQueryFails: bool, transaccionesQueryFails: bool) returns (stats: Estadisticas)
    ensures inversoresQueryFails || transaccionesQueryFails ==> stats == Zero
    ensures !inversoresQueryFails && !transaccionesQueryFails ==>
      && stats.totalInversores == |InvestorIdSet(db.transacciones)|
      && stats.totalInversion == Balance(db.transacciones)
      && stats.totalGanancias == KindSum(db.transacciones, Gain)
    ensures stats.totalInversion >= 0.0
  {
    if inversoresQueryFails {
      return Zero;
    }
    var unicos := InvestorIdSet(db.transacciones);
    if transaccionesQueryFails {
      return Zero;
    }
    var txs := db.transacciones;
    var totalInversion, totalGanancias := 0.0, 0.0;
    var i := 0;
    while i < |txs|
      invariant 0 <= i <= |txs|
      invariant totalInversion == SignedSum(txs[..i])
      invariant totalGanancias == KindSum(txs[..i], Gain)
    {
      var t := txs[i];
      var k := KindOf(t.tipo);
      if k == Deposit {
        totalInversion := totalInversion + t.monto;
      } else if k == Withdrawal {
        totalInversion := totalInversion - t.monto;
      } else if k == Gain {
        totalInversion := totalInversion + t.monto;
        totalGanancias := totalGanancias + t.monto;
      }
      assert txs[..i + 1][..i] == txs[..i];
      i := i + 1;
    }
    assert txs[..i] == txs;
    stats := Estadisticas(|unicos|, Max0(totalInversion), totalGanancias);
  }
}
