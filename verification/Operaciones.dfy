/**
 * The administrator's operations panel (`Operaciones`): the badge counts
 * of `fetchStats` and the platform-wide investment total of its
 * `ResumenGeneral` tab, computed over the main `transacciones` table.
 */
module Operaciones {
  import opened Text
  import opened Ledger

  /** A row of the main `transacciones` table as the summary selects it. */
  datatype Movimiento = Movimiento(monto: real, tipo: string, usuarioTipo: string)

  /** The same fold applies to these rows: only amount and type are read. */
  function AsLedger(ms: seq<Movimiento>): (r: seq<Tx>)
    ensures |r| == |ms|
    ensures forall i :: 0 <= i < |ms| ==> r[i].monto == ms[i].monto && r[i].tipo == ms[i].tipo
  {
    seq(|ms|, i requires 0 <= i < |ms| => Tx(None, ms[i].monto, ms[i].tipo, "", 0))
  }

  /** Effect depends on amount and type only. */
  lemma {:induction false} SignedSumAmountsAndTypes(a: seq<Tx>, b: seq<Tx>)
    requires |a| == |b|
    requires forall i :: 0 <= i < |a| ==> a[i].monto == b[i].monto && a[i].tipo == b[i].tipo
    ensures SignedSum(a) == SignedSum(b)
  {
    if a != [] {
      SignedSumAmountsAndTypes(a[..|a| - 1], b[..|b| - 1]);
    }
  }

  /** The total ignores `usuario_tipo`: rows that differ only there give the same total. */
  lemma TotalIgnoresUsuarioTipo(a: seq<Movimiento>, b: seq<Movimiento>)
    requires |a| == |b|
    requires forall i :: 0 <= i < |a| ==> a[i].monto == b[i].monto && a[i].tipo == b[i].tipo
    ensures Balance(AsLedger(a)) == Balance(AsLedger(b))
  {
    SignedSumAmountsAndTypes(AsLedger(a), AsLedger(b));
  }

  datatype ResumenStats = ResumenStats(totalInversores: nat, totalPartners: nat, totalInversion: real)

  function OrZero(count: Option<nat>): (n: nat)
    ensures count.Some? ==> n == count.value
    ensures count.None? ==> n == 0
  {
    if count.Some? then count.value else 0
  }

  /**
   * `ResumenGeneral.fetchEstadisticas`: the two head counts (absent counts
   * become 0) and the clamped total over every row regardless of
   * `usuario_tipo`; a failed transaction query resets all three to 0.
   */
  method FetchEstadisticas(inversoresCount: Option<nat>, partnersCount: Option<nat>, transacciones: seq<Movimiento>, queryFails: bool)
    returns (stats: ResumenStats)
    ensures queryFails ==> stats == ResumenStats(0, 0, 0.0)
    ensures !queryFails ==> stats == ResumenStats(OrZero(inversoresCount), OrZero(partnersCount), Balance(AsLedger(transacciones)))
    ensures stats.totalInversion >= 0.0
  {
    if queryFails {
      return ResumenStats(0, 0, 0.0);
    }
    var total := AccumulateBalance(AsLedger(transacciones));
    stats := ResumenStats(OrZero(inversoresCount), OrZero(partnersCount), total);
  }

  datatype Stats = Stats(
    totalInversores: nat,
    solicitudesPendientes: nat,
    solicitudesPartnersPendientes: nat,
    avisosActivos: nat,
    ticketsPendientes: nat)

  /** `fetchStats`: every badge count that the store did not return shows 0. */
  function FetchStats(inversores: Option<nat>, solicitudes: Option<nat>, partners: Option<nat>, avisos: Option<nat>, tickets: Option<nat>)
    : (s: Stats)
    ensures inversores.None? ==> s.totalInversores == 0
    ensures solicitudes.None? ==> s.solicitudesPendientes == 0
    ensures partners.None? ==> s.solicitudesPartnersPendientes == 0
    ensures avisos.None? ==> s.avisosActivos == 0
    ensures tickets.None? ==> s.ticketsPendientes == 0
    ensures inversores.Some? ==> s.totalInversores == inversores.value
    ensures avisos.Some? ==> s.avisosActivos == avisos.value
    ensures solicitudes.Some? ==> s.solicitudesPendientes == solicitudes.value
    ensures partners.Some? ==> s.solicitudesPartnersPendientes == partners.value
    ensures tickets.Some? ==> s.ticketsPendientes == tickets.value
  {
    Stats(OrZero(inversores), OrZero(solicitudes), OrZero(partners), OrZero(avisos), OrZero(tickets))
  }
}
