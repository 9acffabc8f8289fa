/**
 * The administrator's profit run for the temporal track
 * (`TemporalGananciasProcessor`): a percentage of the clamped total is paid
 * out in equal shares to every distinct investor that has a ledger row.
 */
module TemporalGananciasProcessor {
  import opened Text
  import opened Ledger
  import opened Tables

  /** `calcularTotalInversionTemporal`: the clamped signed sum over all rows, or 0 on a failed query. */
  method CalcularTotalInversionTemporal(db: Database, queryFails: bool) returns (total: real)
    ensures total >= 0.0
    ensures total == if queryFails then 0.0 else Balance(db.transacciones)
  {
    if queryFails {
      return 0.0;
    }
    total := AccumulateBalance(db.transacciones);
  }

  /** `(parseFloat(porcentaje) * totalInversionTemporal) / 100`. */
  function GrossPayout(pct: real, total: real): (g: real)
    ensures pct >= 0.0 && total >= 0.0 ==> g >= 0.0
    ensures pct <= 100.0 && pct >= 0.0 && total >= 0.0 ==> g <= total
  {
    pct * total / 100.0
  }

  /** `[...new Set(ids)]` over the non-null `inversor_id` values: each investor once. */
  function Recipients(txs: seq<Tx>): (r: seq<Id>)
    ensures NoDuplicates(r)
    ensures forall x :: x in r <==> exists t :: t in txs && t.inversorId == Some(x)
    ensures |r| == |InvestorIdSet(txs)|
  {
    DistinctInvestorCount(txs);
    Distinct(InvestorIds(txs))
  }

  function GainRow(id: Id, perInvestor: real, porcentaje: string, now: int): Tx
  {
    Tx(Some(id), perInvestor, "ganancia", "Ganancia temporal mensual - " + porcentaje + "% sobre inversión total", now)
  }

  /** The `ganancia` rows inserted in one bulk insert, one per recipient in recipient order. */
  function GainRows(ids: seq<Id>, perInvestor: real, porcentaje: string, now: int): (r: seq<Tx>)
    ensures |r| == |ids|
    ensures forall i :: 0 <= i < |ids| ==> r[i] == GainRow(ids[i], perInvestor, porcentaje, now)
  {
    seq(|ids|, i requires 0 <= i < |ids| => GainRow(ids[i], perInvestor, porcentaje, now))
  }

  /** The success notifications inserted after the rows, one per recipient. */
  function GainNotices(ids: seq<Id>): (r: seq<Notificacion>)
    ensures |r| == |ids|
    ensures forall i :: 0 <= i < |ids| ==> r[i].usuarioId == ids[i] && r[i].tipoNotificacion == "success"
  {
    seq(|ids|, i requires 0 <= i < |ids| => Notificacion(ids[i], "inversor", "Ganancia Temporal Procesada", "success"))
  }

  /** The inserted rows add |ids| equal shares to the signed sum. */
  lemma {:induction false} GainRowsSum(ids: seq<Id>, perInvestor: real, porcentaje: string, now: int)
    ensures SignedSum(GainRows(ids, perInvestor, porcentaje, now)) == |ids| as real * perInvestor
  {
    var r := GainRows(ids, perInvestor, porcentaje, now);
    if ids != [] {
      var ids' := ids[..|ids| - 1];
      assert r[..|r| - 1] == GainRows(ids', perInvestor, porcentaje, now);
      GainRowsSum(ids', perInvestor, porcentaje, now);
      KnownKinds();
    }
  }

  /** Splitting the gross into n equal shares loses nothing. */
  lemma EqualSharesSum(gross: real, n: nat)
    requires n > 0
    ensures n as real * (gross / n as real) == gross
  {
  }

  /** Equal shares of `gross` over a non-empty recipient list add up to `gross`. */
  lemma SharesAddUp(txs: seq<Tx>, ids: seq<Id>, gross: real, porcentaje: string, now: int)
    requires ids != []
    ensures SignedSum(txs + GainRows(ids, gross / |ids| as real, porcentaje, now)) == SignedSum(txs) + gross
  {
    var per := gross / |ids| as real;
    var rows := GainRows(ids, per, porcentaje, now);
    GainRowsSum(ids, per, porcentaje, now);
    SumOfShares(txs, rows, |ids|, gross);
  }

  lemma SumOfShares(txs: seq<Tx>, rows: seq<Tx>, n: nat, gross: real)
    requires n > 0
    requires SignedSum(rows) == n as real * (gross / n as real)
    ensures SignedSum(txs + rows) == SignedSum(txs) + gross
  {
    SignedSumAppend(txs, rows);
    EqualSharesSum(gross, n);
  }

  /** The run raises the signed sum behind the total by exactly the gross payout. */
  lemma DistributionPaysGross(txs: seq<Tx>, pct: real, total: real, porcentaje: string, now: int)
    requires Recipients(txs) != []
    ensures
      var ids := Recipients(txs);
      var gross := GrossPayout(pct, total);
      SignedSum(txs + GainRows(ids, gross / |ids| as real, porcentaje, now)) == SignedSum(txs) + gross
  {
    SharesAddUp(txs, Recipients(txs), GrossPayout(pct, total), porcentaje, now);
  }

  /**
   * When the total is the ledger's clamped balance, as `handleProcess` uses
   * it, the run raises that balance by exactly the gross payout: a ledger with
   * a negative signed sum has a total, hence a gross, of 0.
   */
  lemma DistributionRaisesBalance(txs: seq<Tx>, pct: real, porcentaje: string, now: int)
    requires Recipients(txs) != [] && pct >= 0.0
    ensures
      var ids := Recipients(txs);
      var gross := GrossPayout(pct, Balance(txs));
      Balance(txs + GainRows(ids, gross / |ids| as real, porcentaje, now)) == Balance(txs) + gross
  {
    DistributionPaysGross(txs, pct, Balance(txs), porcentaje, now);
  }

  /** Each recipient receives exactly one row; everybody else none. */
  lemma {:induction false} OneRowPerRecipient(ids: seq<Id>, perInvestor: real, porcentaje: string, now: int, id: Id)
    requires NoDuplicates(ids)
    ensures RowsOf(GainRows(ids, perInvestor, porcentaje, now), id) == if id in ids then [GainRow(id, perInvestor, porcentaje, now)] else []
  {
    var r := GainRows(ids, perInvestor, porcentaje, now);
    if ids != [] {
      var ids' := ids[..|ids| - 1];
      assert r[..|r| - 1] == GainRows(ids', perInvestor, porcentaje, now);
      OneRowPerRecipient(ids', perInvestor, porcentaje, now, id);
      assert id in ids <==> id in ids' || id == ids[|ids| - 1] by {
        assert ids == ids' + [ids[|ids| - 1]];
      }
    }
  }

  /** Hence every recipient's own signed sum rises by one equal share. */
  lemma RecipientGetsShare(txs: seq<Tx>, ids: seq<Id>, perInvestor: real, porcentaje: string, now: int, id: Id)
    requires NoDuplicates(ids) && id in ids
    ensures SignedSum(RowsOf(txs + GainRows(ids, perInvestor, porcentaje, now), id)) == SignedSum(RowsOf(txs, id)) + perInvestor
  {
    var rows := GainRows(ids, perInvestor, porcentaje, now);
    RowsOfAppend(txs, rows, id);
    OneRowPerRecipient(ids, perInvestor, porcentaje, now, id);
    var g := GainRow(id, perInvestor, porcentaje, now);
    SignedSumAppend(RowsOf(txs, id), [g]);
    assert [g][..0] == [];
    KnownKinds();
  }

  /** A recipient whose own signed sum is not negative sees their clamped balance rise by one share. */
  lemma RecipientBalanceGetsShare(txs: seq<Tx>, ids: seq<Id>, perInvestor: real, porcentaje: string, now: int, id: Id)
    requires NoDuplicates(ids) && id in ids
    requires SignedSum(RowsOf(txs, id)) >= 0.0 && perInvestor >= 0.0
    ensures Balance(RowsOf(txs + GainRows(ids, perInvestor, porcentaje, now), id)) == Balance(RowsOf(txs, id)) + perInvestor
  {
    RecipientGetsShare(txs, ids, perInvestor, porcentaje, now, id);
  }

  datatype Outcome = Skipped | NoInvestors | Failed | Processed(gross: real, perInvestor: real, count: nat)

  /** `disabled={!porcentaje || processing || totalInversionTemporal === 0}`. */
  predicate ProcessEnabled(porcentaje: string, processing: bool, total: real)
  {
    porcentaje != "" && !processing && total != 0.0
  }

  /**
   * A ledger whose withdrawals cancel its deposits and gains has a total of
   * 0, so the button stays disabled whatever percentage is typed.
   */
  lemma NoFundsNoProcess(txs: seq<Tx>, porcentaje: string, processing: bool)
    requires SignedSum(txs) <= 0.0
    ensures !ProcessEnabled(porcentaje, processing, Balance(txs))
  {
  }

  /**
   * `handleProcess`. `pct` is `parseFloat(porcentaje)` and `total` the
   * component's last computed total. Store calls: 1 the recipient query,
   * 2 the bulk row insert, 3 the bulk notification insert.
   */
  method HandleProcess(db: Database, porcentaje: string, pct: real, admin: Option<Admin>, total: real, now: int, fault: Fault)
    returns (outcome: Outcome)
    modifies db`transacciones, db`notificaciones
    ensures porcentaje == "" || admin.None? ==>
      outcome == Skipped && db.transacciones == old(db.transacciones) && db.notificaciones == old(db.notificaciones)
    ensures porcentaje != "" && admin.Some? ==>
      var ids := Recipients(old(db.transacciones));
      var gross := GrossPayout(pct, total);
      var per := if ids == [] then 0.0 else gross / |ids| as real;
      var inserting := fault.Succeeds(1) && ids != [];
      && db.transacciones == old(db.transacciones) + (if inserting && fault.Succeeds(2) then GainRows(ids, per, porcentaje, now) else [])
      && db.notificaciones == old(db.notificaciones) + (if inserting && fault.Succeeds(3) then GainNotices(ids) else [])
      && outcome == (if !fault.Succeeds(1) then Failed
                     else if ids == [] then NoInvestors
                     else if fault.Succeeds(3) then Processed(gross, per, |ids|)
                     else Failed)
  {
    if porcentaje == "" || admin.None? {
      return Skipped;
    }
    var gross := GrossPayout(pct, total);
    if !fault.Succeeds(1) {
      return Failed;
    }
    var ids := Recipients(db.transacciones);
    if |ids| == 0 {
      return NoInvestors;
    }
    var per := gross / |ids| as real;
    if !fault.Succeeds(2) {
      return Failed;
    }
    db.transacciones := db.transacciones + GainRows(ids, per, porcentaje, now);
    if !fault.Succeeds(3) {
      return Failed;
    }
    db.notificaciones := db.notificaciones + GainNotices(ids);
    outcome := Processed(gross, per, |ids|);
  }

  /**
   * Three investors with one deposit of 100 each: the total is 300, a 10%
   * run pays 30, and the recipients are the three investors in order.
   */
  function ExampleLedger(): seq<Tx>
  {
    [Tx(Some("a"), 100.0, "deposito", "", 0), Tx(Some("b"), 100.0, "deposito", "", 0), Tx(Some("c"), 100.0, "deposito", "", 0)]
  }

  lemma ExampleTotal()
    ensures Balance(ExampleLedger()) == 300.0
    ensures GrossPayout(10.0, Balance(ExampleLedger())) == 30.0
  {
    var txs := ExampleLedger();
    KnownKinds();
    assert SignedSum(txs[..1]) == 100.0 by { assert txs[..1][..0] == []; }
    assert SignedSum(txs[..2]) == 200.0 by { assert txs[..2][..1] == txs[..1]; }
    assert txs[..3] == txs;
  }

  /** The example's investor ids, read row by row. */
  lemma ExampleInvestorIds()
    ensures InvestorIds(ExampleLedger()) == ["a", "b", "c"]
  {
    var txs := ExampleLedger();
    assert InvestorIds(txs[..1]) == ["a"] by { assert txs[..1][..0] == []; }
    assert InvestorIds(txs[..2]) == ["a", "b"] by { assert txs[..2][..1] == txs[..1]; }
    assert txs[..3] == txs;
  }

  /** Three different ids stay as they are under `Distinct`. */
  lemma ExampleDistinct()
    ensures Distinct(["a", "b", "c"]) == ["a", "b", "c"]
  {
    var s: seq<Id> := ["a", "b", "c"];
    assert Distinct(s[..1]) == ["a"] by { assert s[..1][..0] == []; }
    assert Distinct(s[..2]) == ["a", "b"] by { assert s[..2][..1] == s[..1]; }
    assert s[..3] == s;
  }

  lemma ExampleRecipients()
    ensures Recipients(ExampleLedger()) == ["a", "b", "c"]
  {
    ExampleInvestorIds();
    ExampleDistinct();
  }
}
