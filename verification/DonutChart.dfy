/** The investor's breakdown chart (`TemporalDonutChart`). */
module TemporalDonutChart {
  import opened Ledger
  import opened Tables

  datatype Slice = Slice(name: string, value: real, color: string)

  const DepositName := "Depósitos Temporales"
  const WithdrawalName := "Retiros Temporales"
  const GainName := "Ganancias Temporales"

  /** The three fixed slices, in order, keeping only those with a positive value. */
  function Slices(depositos: real, retiros: real, ganancias: real): (r: seq<Slice>)
    ensures |r| <= 3
    ensures forall i :: 0 <= i < |r| ==> r[i].value > 0.0
    ensures Slice(DepositName, depositos, "#475569") in r <==> depositos > 0.0
    ensures Slice(WithdrawalName, retiros, "#ef4444") in r <==> retiros > 0.0
    ensures Slice(GainName, ganancias, "#f59e0b") in r <==> ganancias > 0.0
    ensures forall i, j :: 0 <= i < j < |r| ==> Rank(r[i].name) < Rank(r[j].name)
    ensures forall s :: s in r ==> s in [Slice(DepositName, depositos, "#475569"), Slice(WithdrawalName, retiros, "#ef4444"), Slice(GainName, ganancias, "#f59e0b")]
  {
    (if depositos > 0.0 then [Slice(DepositName, depositos, "#475569")] else [])
    + (if retiros > 0.0 then [Slice(WithdrawalName, retiros, "#ef4444")] else [])
    + (if ganancias > 0.0 then [Slice(GainName, ganancias, "#f59e0b")] else [])
  }

  /** Position of a slice name in the fixed order deposit, withdrawal, gain. */
  function Rank(name: string): nat
  {
    if name == DepositName then 0 else if name == WithdrawalName then 1 else 2
  }

  /**
   * `fetchRealData`: three separate sums over the investor's rows (withdrawals
   * as a positive magnitude), then the positive filter. A failed query keeps
   * the slices already shown.
   */
  method FetchRealData(db: Database, userId: Id, shown: seq<Slice>, queryFails: bool) returns (slices: seq<Slice>)
    ensures queryFails ==> slices == shown
    ensures !queryFails ==>
      var rows := RowsOf(db.transacciones, userId);
      slices == Slices(KindSum(rows, Deposit), KindSum(rows, Withdrawal), KindSum(rows, Gain))
    ensures !queryFails && RowsOf(db.transacciones, userId) == [] ==> slices == []
  {
    if queryFails {
      return shown;
    }
    var rows := RowsOf(db.transacciones, userId);
    var depositos, retiros, ganancias := 0.0, 0.0, 0.0;
    var i := 0;
    while i < |rows|
      invariant 0 <= i <= |rows|
      invariant depositos == KindSum(rows[..i], Deposit)
      invariant retiros == KindSum(rows[..i], Withdrawal)
      invariant ganancias == KindSum(rows[..i], Gain)
    {
      var t := rows[i];
      var k := KindOf(t.tipo);
      if k == Deposit {
        depositos := depositos + t.monto;
      } else if k == Withdrawal {
        retiros := retiros + t.monto;
      } else if k == Gain {
        ganancias := ganancias + t.monto;
      }
      assert rows[..i + 1][..i] == rows[..i];
      i := i + 1;
    }
    assert rows[..i] == rows;
    slices := Slices(depositos, retiros, ganancias);
  }

  /** Sum of the slice values, withdrawals counted negatively. */
  function NetOf(slices: seq<Slice>): real
  {
    if slices == [] then 0.0
    else NetOf(slices[..|slices| - 1]) + (if slices[|slices| - 1].name == WithdrawalName then -slices[|slices| - 1].value else slices[|slices| - 1].value)
  }

  /**
   * With non-negative amounts the chart determines the balance card: the
   * clamped net of the slices is the investor's balance.
   */
  lemma ChartAgreesWithBalance(rows: seq<Tx>)
    requires forall t :: t in rows ==> t.monto >= 0.0
    ensures Max0(NetOf(Slices(KindSum(rows, Deposit), KindSum(rows, Withdrawal), KindSum(rows, Gain)))) == Balance(rows)
  {
    KindSumsNonNegative(rows);
    SignedSumByKind(rows);
    NetOfSlices(KindSum(rows, Deposit), KindSum(rows, Withdrawal), KindSum(rows, Gain));
  }

  /** For non-negative category sums the chart's net is deposits - withdrawals + gains. */
  lemma NetOfSlices(d: real, w: real, g: real)
    requires d >= 0.0 && w >= 0.0 && g >= 0.0
    ensures NetOf(Slices(d, w, g)) == d - w + g
  {
    NetOfParts(d, w, g);
  }

  /** The same, stated over the three optional parts that `Slices` concatenates. */
  lemma NetOfParts(d: real, w: real, g: real)
    requires d >= 0.0 && w >= 0.0 && g >= 0.0
    ensures NetOf((if d > 0.0 then [Slice(DepositName, d, "#475569")] else [])
      + (if w > 0.0 then [Slice(WithdrawalName, w, "#ef4444")] else [])
      + (if g > 0.0 then [Slice(GainName, g, "#f59e0b")] else [])) == d - w + g
  {
    var sd := if d > 0.0 then [Slice(DepositName, d, "#475569")] else [];
    var sw := if w > 0.0 then [Slice(WithdrawalName, w, "#ef4444")] else [];
    var sg := if g > 0.0 then [Slice(GainName, g, "#f59e0b")] else [];
    NetOfAppend(sd, sw);
    NetOfAppend(sd + sw, sg);
    assert NetOf(sd) == d by { assert sd == [] || sd[..0] == []; }
    assert NetOf(sw) == -w by { assert sw == [] || sw[..0] == []; }
    assert NetOf(sg) == g by { assert sg == [] || sg[..0] == []; }
  }

  lemma {:induction false} NetOfAppend(a: seq<Slice>, b: seq<Slice>)
    ensures NetOf(a + b) == NetOf(a) + NetOf(b)
  {
    if b == [] {
      assert a + b == a;
    } else {
      assert (a + b)[..|a + b| - 1] == a + b[..|b| - 1];
      NetOfAppend(a, b[..|b| - 1]);
    }
  }

  lemma {:induction false} KindSumsNonNegative(rows: seq<Tx>)
    requires forall t :: t in rows ==> t.monto >= 0.0
    ensures KindSum(rows, Deposit) >= 0.0 && KindSum(rows, Withdrawal) >= 0.0 && KindSum(rows, Gain) >= 0.0
  {
    if rows != [] {
      KindSumsNonNegative(rows[..|rows| - 1]);
      assert rows[|rows| - 1] in rows;
    }
  }
}
