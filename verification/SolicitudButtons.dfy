/**
 * The investor's deposit-request panel (`TemporalSolicitudButtons`): the
 * balance shown beside it, the amount field filter, creating and withdrawing
 * a pending deposit request, and the "days pending" badge.
 */
module TemporalSolicitudButtons {
  import opened Text
  import opened Ledger
  import opened Tables

  const DayMs: nat := 1000 * 60 * 60 * 24

  /**
   * `fetchSaldoActual`: nothing happens without a signed-in user; a failed
   * query shows 0; otherwise the clamped balance of the user's rows.
   */
  method FetchSaldoActual(db: Database, user: Option<Id>, shown: real, queryFails: bool) returns (saldo: real)
    ensures user.None? ==> saldo == shown
    ensures user.Some? && queryFails ==> saldo == 0.0
    ensures user.Some? && !queryFails ==> saldo == Balance(RowsOf(db.transacciones, user.value)) && saldo >= 0.0
  {
    if user.None? {
      return shown;
    }
    if queryFails {
      return 0.0;
    }
    saldo := AccumulateBalance(RowsOf(db.transacciones, user.value));
  }

  predicate IsDigit(c: char)
  {
    '0' <= c <= '9'
  }

  /** What the amount field may hold: empty, or decimal digits without a leading zero. */
  predicate ValidAmountText(s: string)
  {
    s == "" || ((forall i :: 0 <= i < |s| ==> IsDigit(s[i])) && (s[0] != '0' || |s| == 1))
  }

  /**
   * `handleAmountChange`: the typed text replaces the field only when it
   * passes the three checks; otherwise the field keeps its value.
   */
  function HandleAmountChange(value: string, current: string): (r: string)
    ensures ValidAmountText(value) ==> r == value
    ensures !ValidAmountText(value) ==> r == current
    ensures ValidAmountText(current) ==> ValidAmountText(r)
  {
    if |value| > 1 && value[0] == '0' then current
    else if ',' in value then current
    else if value == "" || forall i :: 0 <= i < |value| ==> IsDigit(value[i]) then value
    else current
  }

  /** `parseInt` of a string of decimal digits. */
  function DigitsValue(s: string): nat
    requires forall i :: 0 <= i < |s| ==> IsDigit(s[i])
  {
    if s == [] then 0
    else
      assert IsDigit(s[|s| - 1]);
      DigitsValue(s[..|s| - 1]) * 10 + (s[|s| - 1] as int - '0' as int)
  }

  /** A digit string not starting with '0' denotes a positive number. */
  lemma {:induction false} LeadingNonZeroPositive(s: string)
    requires forall i :: 0 <= i < |s| ==> IsDigit(s[i])
    requires s != [] && s[0] != '0'
    ensures DigitsValue(s) > 0
  {
    if |s| > 1 {
      LeadingNonZeroPositive(s[..|s| - 1]);
    }
  }

  /** For a valid, non-empty field the parsed amount is 0 only for the text "0". */
  lemma ParsedAmountZeroIff(s: string)
    requires ValidAmountText(s) && s != ""
    ensures DigitsValue(s) == 0 <==> s == "0"
  {
    if s[0] != '0' {
      LeadingNonZeroPositive(s);
    }
  }

  /** The row `handleDepositSubmit` inserts. */
  function NewDeposit(id: Id, inversorId: Id, amount: nat, now: int): (s: Solicitud)
    ensures s.tipo == "deposito" && s.estado == "pendiente"
    ensures s.inversorId == inversorId && s.monto == amount as real && s.id == id
    ensures s.fechaProcesado.None? && s.procesadoPor.None? && s.motivoRechazo.None?
  {
    Solicitud(id, inversorId, "deposito", amount as real, "pendiente", now, None, None, None)
  }

  /** The user's pending requests (`.eq('inversor_id', ...).eq('estado', 'pendiente')`). */
  function PendientesDe(m: map<Id, Solicitud>, user: Id): (r: set<Solicitud>)
    ensures forall s :: s in r <==> s in m.Values && s.inversorId == user && s.estado == "pendiente"
  {
    set s | s in m.Values && s.inversorId == user && s.estado == "pendiente"
  }

  /** `disabled={!!depositoPendiente}`: a pending request of type deposito exists. */
  predicate DepositButtonDisabled(m: map<Id, Solicitud>, user: Id)
  {
    exists s :: s in PendientesDe(m, user) && s.tipo == "deposito"
  }

  /**
   * `handleDepositSubmit`: without a user, with an empty field or with an
   * amount of 0 nothing is written; otherwise one pending deposit request is
   * inserted and the field is cleared. A failed insert writes nothing.
   */
  method HandleDepositSubmit(db: Database, user: Option<Id>, depositAmount: string, now: int, newId: Id, insertFails: bool)
    returns (amountField: string, created: bool)
    requires db.Valid()
    requires ValidAmountText(depositAmount)
    requires newId !in db.solicitudes
    modifies db`solicitudes
    ensures db.Valid()
    ensures created <==> user.Some? && depositAmount != "" && depositAmount != "0" && !insertFails
    ensures created ==> db.solicitudes == old(db.solicitudes)[newId := NewDeposit(newId, user.value, DigitsValue(depositAmount), now)]
    ensures created ==> DepositButtonDisabled(db.solicitudes, user.value)
    ensures !created ==> db.solicitudes == old(db.solicitudes)
    ensures amountField == if created then "" else depositAmount
  {
    amountField, created := depositAmount, false;
    if user.None? || depositAmount == "" {
      return;
    }
    var amount := DigitsValue(depositAmount);
    ParsedAmountZeroIff(depositAmount);
    if amount <= 0 {
      return;
    }
    if insertFails {
      return;
    }
    var row := NewDeposit(newId, user.value, amount, now);
    db.solicitudes := db.solicitudes[newId := row];
    assert db.solicitudes[newId] == row;
    assert row in PendientesDe(db.solicitudes, user.value);
    amountField, created := "", true;
  }

  /** The delete with `.eq('id').eq('inversor_id').eq('estado', 'pendiente')`. */
  function DeletePending(m: map<Id, Solicitud>, id: Id, owner: Id): (r: map<Id, Solicitud>)
    ensures forall k :: k != id ==> (k in r <==> k in m) && (k in r ==> r[k] == m[k])
    ensures id in r <==> id in m && (m[id].inversorId != owner || m[id].estado != "pendiente")
    ensures id in r ==> r[id] == m[id]
  {
    if id in m && m[id].inversorId == owner && m[id].estado == "pendiente" then m - {id} else m
  }

  /** `handleDeleteSolicitud`: removes the user's own pending request and nothing else. */
  method HandleDeleteSolicitud(db: Database, user: Option<Id>, id: Id, deleteFails: bool)
    requires db.Valid()
    modifies db`solicitudes
    ensures db.Valid()
    ensures db.solicitudes == if user.Some? && !deleteFails then DeletePending(old(db.solicitudes), id, user.value) else old(db.solicitudes)
  {
    if user.None? || deleteFails {
      return;
    }
    db.solicitudes := DeletePending(db.solicitudes, id, user.value);
  }

  function Abs(x: int): nat
  {
    if x < 0 then -x else x
  }

  /** `dias_pendiente`: whole days since submission, rounded up. */
  function DiasPendiente(now: int, fechaSolicitud: int): (d: nat)
    ensures d * DayMs >= Abs(now - fechaSolicitud)
    ensures d == 0 || (d - 1) * DayMs < Abs(now - fechaSolicitud)
    ensures d == 0 <==> now == fechaSolicitud
  {
    var diff := Abs(now - fechaSolicitud);
    (diff + DayMs - 1) / DayMs
  }
}
