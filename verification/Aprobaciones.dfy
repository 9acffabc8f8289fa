/**
 * The administrator's list of temporal requests
 * (`TemporalAprobacionesList`): approving or rejecting a request, and the
 * split of the list into pending and processed requests.
 */
module TemporalAprobacionesList {
  import opened Text
  import opened Ledger
  import opened Tables

  predicate IsAdmin(admin: Option<Admin>)
  {
    admin.Some? && admin.value.role == "admin"
  }

  function TipoLabel(tipo: string): string
  {
    if tipo == "deposito" then "Depósito" else "Retiro"
  }

  /** The request after the approval update. */
  function Approved(s: Solicitud, adminId: Id, now: int): (r: Solicitud)
    ensures r.estado == "aprobado" && r.fechaProcesado == Some(now) && r.procesadoPor == Some(adminId)
    ensures r == s.(estado := r.estado, fechaProcesado := r.fechaProcesado, procesadoPor := r.procesadoPor)
  {
    s.(estado := "aprobado", fechaProcesado := Some(now), procesadoPor := Some(adminId))
  }

  /** The ledger row an approval inserts: same investor, amount and type as the request. */
  function ApprovalTx(s: Solicitud, now: int): (t: Tx)
    ensures t.inversorId == Some(s.inversorId) && t.monto == s.monto && t.tipo == s.tipo && t.fecha == now
  {
    Tx(Some(s.inversorId), s.monto, s.tipo, TipoLabel(s.tipo) + " temporal aprobado", now)
  }

  /** The success notification an approval inserts, addressed to the request's owner. */
  function ApprovalNotice(s: Solicitud): (n: Notificacion)
    ensures n.usuarioId == s.inversorId && n.tipoUsuario == "inversor" && n.tipoNotificacion == "success"
  {
    Notificacion(s.inversorId, "inversor", TipoLabel(s.tipo) + " Temporal Aprobado", "success")
  }

  /** The request after the rejection update. */
  function Rejected(s: Solicitud, adminId: Id, now: int, reason: string): (r: Solicitud)
    ensures r.estado == "rechazado" && r.motivoRechazo == Some(reason)
    ensures r.fechaProcesado == Some(now) && r.procesadoPor == Some(adminId)
    ensures r.id == s.id && r.inversorId == s.inversorId && r.tipo == s.tipo && r.monto == s.monto
  {
    s.(estado := "rechazado", fechaProcesado := Some(now), procesadoPor := Some(adminId), motivoRechazo := Some(reason))
  }

  /** The error notification a rejection inserts. */
  function RejectionNotice(s: Solicitud): (n: Notificacion)
    ensures n.usuarioId == s.inversorId && n.tipoUsuario == "inversor" && n.tipoNotificacion == "error"
  {
    Notificacion(s.inversorId, "inversor", TipoLabel(s.tipo) + " Temporal Rechazado", "error")
  }

  /**
   * An approval moves the owner's signed balance by exactly the effect of
   * the request's own type and amount, and leaves every other investor's
   * rows as they were.
   */
  lemma ApprovalMovesOwnerBalance(txs: seq<Tx>, s: Solicitud, now: int, other: Id)
    requires other != s.inversorId
    ensures SignedSum(RowsOf(txs + [ApprovalTx(s, now)], s.inversorId)) == SignedSum(RowsOf(txs, s.inversorId)) + Effect(ApprovalTx(s, now))
    ensures RowsOf(txs + [ApprovalTx(s, now)], other) == RowsOf(txs, other)
  {
    var t := ApprovalTx(s, now);
    RowsOfAppend(txs, [t], s.inversorId);
    RowsOfAppend(txs, [t], other);
    assert [t][..0] == [];
    assert RowsOf([t], s.inversorId) == [t];
    assert RowsOf([t], other) == [];
    SignedSumAppend(RowsOf(txs, s.inversorId), [t]);
  }

  /**
   * `handleApprove`: for an administrator and a listed request, three
   * sequential writes (update the request, insert the ledger row, insert the
   * notification); a failing write stops the rest and earlier writes stay.
   * There is no check that the request is still pending.
   */
  method HandleApprove(db: Database, admin: Option<Admin>, solicitudId: Id, now: int, fault: Fault) returns (done: bool)
    requires db.Valid()
    modifies db`solicitudes, db`transacciones, db`notificaciones
    ensures db.Valid()
    ensures done <==> IsAdmin(admin) && solicitudId in old(db.solicitudes) && fault.Succeeds(3)
    ensures !IsAdmin(admin) || solicitudId !in old(db.solicitudes) ==>
      db.solicitudes == old(db.solicitudes) && db.transacciones == old(db.transacciones) && db.notificaciones == old(db.notificaciones)
    ensures IsAdmin(admin) && solicitudId in old(db.solicitudes) ==>
      var s := old(db.solicitudes)[solicitudId];
      && db.solicitudes == (if fault.Succeeds(1) then old(db.solicitudes)[solicitudId := Approved(s, admin.value.id, now)] else old(db.solicitudes))
      && db.transacciones == old(db.transacciones) + (if fault.Succeeds(2) then [ApprovalTx(s, now)] else [])
      && db.notificaciones == old(db.notificaciones) + (if fault.Succeeds(3) then [ApprovalNotice(s)] else [])
  {
    done := false;
    if !IsAdmin(admin) || solicitudId !in db.solicitudes {
      return;
    }
    var s := db.solicitudes[solicitudId];
    if !fault.Succeeds(1) {
      return;
    }
    db.solicitudes := db.solicitudes[solicitudId := Approved(s, admin.value.id, now)];
    if !fault.Succeeds(2) {
      return;
    }
    db.transacciones := db.transacciones + [ApprovalTx(s, now)];
    if !fault.Succeeds(3) {
      return;
    }
    db.notificaciones := db.notificaciones + [ApprovalNotice(s)];
    done := true;
  }

  /** `disabled={!rejectReason.trim() || processing}` on the reject button. */
  predicate RejectEnabled(rejectReason: string, processing: bool)
  {
    Trim(rejectReason) != "" && !processing
  }

  /** The reject button is enabled only for a reason with some non-blank character. */
  lemma RejectNeedsReason(rejectReason: string)
    ensures RejectEnabled(rejectReason, false) <==> !AllSpace(rejectReason)
  {
    TrimEmptyIff(rejectReason);
  }

  /**
   * `handleReject`: for an administrator, an open reject dialog and a listed
   * request, two sequential writes (update the request with the reason,
   * insert the error notification); no ledger row is written.
   */
  method HandleReject(db: Database, admin: Option<Admin>, showRejectModal: Option<Id>, rejectReason: string, now: int, fault: Fault)
    returns (done: bool)
    requires db.Valid()
    modifies db`solicitudes, db`notificaciones
    ensures db.Valid()
    ensures done <==> IsAdmin(admin) && showRejectModal.Some? && showRejectModal.value in old(db.solicitudes) && fault.Succeeds(2)
    ensures !IsAdmin(admin) || showRejectModal.None? || showRejectModal.value !in old(db.solicitudes) ==>
      db.solicitudes == old(db.solicitudes) && db.notificaciones == old(db.notificaciones)
    ensures IsAdmin(admin) && showRejectModal.Some? && showRejectModal.value in old(db.solicitudes) ==>
      var id := showRejectModal.value;
      var s := old(db.solicitudes)[id];
      && db.solicitudes == (if fault.Succeeds(1) then old(db.solicitudes)[id := Rejected(s, admin.value.id, now, rejectReason)] else old(db.solicitudes))
      && db.notificaciones == old(db.notificaciones) + (if fault.Succeeds(2) then [RejectionNotice(s)] else [])
  {
    done := false;
    if showRejectModal.None? || !IsAdmin(admin) {
      return;
    }
    var id := showRejectModal.value;
    if id !in db.solicitudes {
      return;
    }
    var s := db.solicitudes[id];
    if !fault.Succeeds(1) {
      return;
    }
    db.solicitudes := db.solicitudes[id := Rejected(s, admin.value.id, now, rejectReason)];
    if !fault.Succeeds(2) {
      return;
    }
    db.notificaciones := db.notificaciones + [RejectionNotice(s)];
    done := true;
  }

  /** `solicitudes.filter(s => s.estado === 'pendiente')`. */
  function Pendientes(list: seq<Solicitud>): (r: seq<Solicitud>)
    ensures forall s :: s in r <==> s in list && s.estado == "pendiente"
  {
    if list == [] then []
    else
      var s := list[|list| - 1];
      var r := Pendientes(list[..|list| - 1]);
      assert list == list[..|list| - 1] + [s];
      if s.estado == "pendiente" then r + [s] else r
  }

  /** `solicitudes.filter(s => s.estado !== 'pendiente')`. */
  function Procesadas(list: seq<Solicitud>): (r: seq<Solicitud>)
    ensures forall s :: s in r <==> s in list && s.estado != "pendiente"
  {
    if list == [] then []
    else
      var s := list[|list| - 1];
      var r := Procesadas(list[..|list| - 1]);
      assert list == list[..|list| - 1] + [s];
      if s.estado != "pendiente" then r + [s] else r
  }

  /** Both filters keep the list's order: filtering a concatenation concatenates the filtered parts. */
  lemma {:induction false} FiltersKeepOrder(a: seq<Solicitud>, b: seq<Solicitud>)
    ensures Pendientes(a + b) == Pendientes(a) + Pendientes(b)
    ensures Procesadas(a + b) == Procesadas(a) + Procesadas(b)
  {
    if b == [] {
      assert a + b == a;
    } else {
      var b' := b[..|b| - 1];
      assert (a + b)[..|a + b| - 1] == a + b';
      FiltersKeepOrder(a, b');
    }
  }

  /** The two panels together show every listed request exactly once. */
  lemma {:induction false} PartitionByEstado(list: seq<Solicitud>)
    ensures multiset(Pendientes(list)) + multiset(Procesadas(list)) == multiset(list)
    ensures |Pendientes(list)| + |Procesadas(list)| == |list|
  {
    if list != [] {
      var s := list[|list| - 1];
      PartitionByEstado(list[..|list| - 1]);
      assert list == list[..|list| - 1] + [s];
    }
  }

  /** The requests the approve and reject buttons are shown for. */
  function Actionable(list: seq<Solicitud>, admin: Option<Admin>): (r: seq<Solicitud>)
    ensures forall s :: s in r ==> s in list && s.estado == "pendiente"
    ensures IsAdmin(admin) ==> forall s :: s in list && s.estado == "pendiente" ==> s in r
    ensures !IsAdmin(admin) ==> r == []
  {
    if IsAdmin(admin) then Pendientes(list) else []
  }
}
