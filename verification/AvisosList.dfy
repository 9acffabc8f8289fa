/**
 * The administrators' announcements panel (`AvisosList`): create, edit,
 * broadcast, activate/deactivate and delete rows of `avisos`.
 */
module AvisosList {
  import opened Text
  import opened Ledger
  import opened Tables

  /** The dialog's `formData`; the expiry is the date field's text. */
  datatype AvisoForm = AvisoForm(titulo: string, mensaje: string, tipo: string, fechaExpiracion: string, enviarNotificacion: bool)

  /** The form as it starts and as a successful save leaves it. */
  const DefaultForm := AvisoForm("", "", "info", "", false)

  /** `formData.fecha_expiracion || null`: an empty field is stored as no expiry. */
  function ExpiryToStore(field: string): (r: Option<string>)
    ensures r.None? <==> field == ""
    ensures r.Some? ==> r.value == field
  {
    if field == "" then None else Some(field)
  }

  /** `s.split('T')[0]`: the text before the first 'T'. */
  function BeforeT(s: string): (r: string)
    ensures |r| <= |s| && r == s[..|r|]
    ensures 'T' !in r
    ensures |r| < |s| ==> s[|r|] == 'T'
  {
    if s == [] || s[0] == 'T' then []
    else
      var r := [s[0]] + BeforeT(s[1..]);
      assert s == [s[0]] + s[1..];
      r
  }

  /** What `handleEdit` puts in the date field: the date part, or "" when there is none. */
  function ExpiryForForm(stored: Option<string>): (r: string)
    ensures 'T' !in r
    ensures stored.None? || stored.value == "" ==> r == ""
    ensures stored.Some? ==> |r| <= |stored.value| && r == stored.value[..|r|]
    ensures stored.Some? && stored.value != "" ==> r == BeforeT(stored.value)
  {
    if stored.None? || stored.value == "" then "" else BeforeT(stored.value)
  }

  /** A date without a time part survives the trip from the field to the table and back. */
  lemma ExpiryRoundTrip(field: string)
    requires 'T' !in field
    ensures ExpiryForForm(ExpiryToStore(field)) == field
  {
  }

  /** `handleEdit`'s form: the row's content and the date part of its expiry, no broadcast. */
  function FormOf(a: Aviso): AvisoForm
  {
    AvisoForm(a.titulo, a.mensaje, a.tipo, ExpiryForForm(a.fechaExpiracion), false)
  }

  /** The edit update: content and expiry from the form, everything else kept. */
  function Edited(a: Aviso, form: AvisoForm): (r: Aviso)
    ensures r.id == a.id && r.activo == a.activo && r.creadoPor == a.creadoPor
    ensures r.titulo == form.titulo && r.mensaje == form.mensaje && r.tipo == form.tipo
    ensures r.fechaExpiracion == ExpiryToStore(form.fechaExpiracion)
  {
    a.(titulo := form.titulo, mensaje := form.mensaje, tipo := form.tipo, fechaExpiracion := ExpiryToStore(form.fechaExpiracion))
  }

  /**
   * Opening a row for editing and saving the untouched form leaves the row
   * as it was when its expiry is absent or a bare date; a stored time part
   * is cut off.
   */
  lemma EditUntouchedKeepsRow(a: Aviso)
    ensures a.fechaExpiracion.None? || (a.fechaExpiracion.value != "" && 'T' !in a.fechaExpiracion.value) ==>
      Edited(a, FormOf(a)) == a
    ensures a.fechaExpiracion.Some? && a.fechaExpiracion.value != "" && a.fechaExpiracion.value[0] != 'T' ==>
      Edited(a, FormOf(a)).fechaExpiracion == Some(BeforeT(a.fechaExpiracion.value))
  {
    if a.fechaExpiracion.Some? && a.fechaExpiracion.value != "" && 'T' !in a.fechaExpiracion.value {
      ExpiryRoundTrip(a.fechaExpiracion.value);
    }
    if a.fechaExpiracion.Some? && a.fechaExpiracion.value != "" && a.fechaExpiracion.value[0] != 'T' {
      assert |BeforeT(a.fechaExpiracion.value)| > 0;
    }
  }

  /** `.update(...).eq('id', id)`: only that row changes; no row means no change. */
  function UpdateWhere(m: map<Id, Aviso>, id: Id, form: AvisoForm): (r: map<Id, Aviso>)
    ensures r.Keys == m.Keys
    ensures forall k :: k in m && k != id ==> r[k] == m[k]
    ensures id in m ==> r[id] == Edited(m[id], form)
  {
    if id in m then m[id := Edited(m[id], form)] else m
  }

  /** A new row: the form's content, the table's default `activo`, created by the administrator. */
  function NewAviso(id: Id, form: AvisoForm, admin: Option<Admin>, activoDefault: bool): (r: Aviso)
    ensures r.creadoPor.Some? <==> admin.Some?
    ensures admin.Some? ==> r.creadoPor.value == admin.value.id
    ensures r.fechaExpiracion == ExpiryToStore(form.fechaExpiracion)
    ensures r.id == id && r.activo == activoDefault
    ensures r.titulo == form.titulo && r.mensaje == form.mensaje && r.tipo == form.tipo
  {
    Aviso(id, form.titulo, form.mensaje, form.tipo, activoDefault, ExpiryToStore(form.fechaExpiracion),
          if admin.Some? then Some(admin.value.id) else None)
  }

  /** `.update({ activo: !currentStatus }).eq('id', id)`. */
  function Toggled(m: map<Id, Aviso>, id: Id, currentStatus: bool): (r: map<Id, Aviso>)
    ensures r.Keys == m.Keys
    ensures forall k :: k in m && k != id ==> r[k] == m[k]
    ensures id in m ==> r[id].activo == !currentStatus && r[id] == m[id].(activo := r[id].activo)
  {
    if id in m then m[id := m[id].(activo := !currentStatus)] else m
  }

  /** Toggling a row twice, each time from its shown status, restores the table. */
  lemma ToggleTwice(m: map<Id, Aviso>, id: Id)
    requires id in m
    ensures Toggled(Toggled(m, id, m[id].activo), id, Toggled(m, id, m[id].activo)[id].activo) == m
  {
    var m1 := Toggled(m, id, m[id].activo);
    var m2 := Toggled(m1, id, m1[id].activo);
    assert m2[id] == m[id];
    assert forall k :: k in m2 ==> m2[k] == m[k];
  }

  /** `.delete().eq('id', id)`: that row goes, every other stays. */
  function Deleted(m: map<Id, Aviso>, id: Id): (r: map<Id, Aviso>)
    ensures id !in r
    ensures forall k :: k in r <==> k in m && k != id
    ensures forall k :: k in r ==> r[k] == m[k]
  {
    m - {id}
  }

  /** The component's dialog state. */
  class AvisosPanel {
    var editingId: Option<Id>
    var form: AvisoForm
    var showModal: bool
    var showDeleteModal: Option<Id>

    constructor ()
      ensures editingId == None && form == DefaultForm && !showModal && showDeleteModal == None
    {
      editingId := None;
      form := DefaultForm;
      showModal := false;
      showDeleteModal := None;
    }

    /**
     * `handleSubmit`: one store call — update the edited row, or run the
     * broadcast procedure, or insert a new row. On success the dialog
     * closes and the form is reset; on failure nothing changes.
     */
    method HandleSubmit(db: Database, admin: Option<Admin>, newId: Id, activoDefault: bool, fails: bool)
      returns (saved: bool)
      requires db.Valid()
      requires newId !in db.avisos
      modifies this, db`avisos, db`broadcasts
      ensures db.Valid()
      ensures saved <==> !fails
      ensures !saved ==> db.avisos == old(db.avisos) && db.broadcasts == old(db.broadcasts)
      ensures !saved ==> editingId == old(editingId) && form == old(form) && showModal == old(showModal)
      ensures saved ==> editingId == None && form == DefaultForm && !showModal
      ensures showDeleteModal == old(showDeleteModal)
      ensures saved && old(editingId).Some? ==>
        db.avisos == UpdateWhere(old(db.avisos), old(editingId).value, old(form)) && db.broadcasts == old(db.broadcasts)
      ensures saved && old(editingId).None? && old(form).enviarNotificacion ==>
        db.avisos == old(db.avisos) &&
        db.broadcasts == old(db.broadcasts) + [Broadcast(old(form).titulo, old(form).mensaje, old(form).tipo,
                                                         if admin.Some? then Some(admin.value.id) else None)]
      ensures saved && old(editingId).None? && !old(form).enviarNotificacion ==>
        db.avisos == old(db.avisos)[newId := NewAviso(newId, old(form), admin, activoDefault)] && db.broadcasts == old(db.broadcasts)
    {
      if fails {
        return false;
      }
      if editingId.Some? {
        db.avisos := UpdateWhere(db.avisos, editingId.value, form);
      } else if form.enviarNotificacion {
        db.broadcasts := db.broadcasts + [Broadcast(form.titulo, form.mensaje, form.tipo,
                                                    if admin.Some? then Some(admin.value.id) else None)];
      } else {
        db.avisos := db.avisos[newId := NewAviso(newId, form, admin, activoDefault)];
      }
      showModal := false;
      editingId := None;
      form := DefaultForm;
      saved := true;
    }

    /** `handleEdit`: remember the row and load it into the form. */
    method HandleEdit(a: Aviso)
      modifies this
      ensures editingId == Some(a.id) && form == FormOf(a) && showModal
      ensures showDeleteModal == old(showDeleteModal)
    {
      editingId := Some(a.id);
      form := FormOf(a);
      showModal := true;
    }

    /** `handleDelete`: remove that row and close the confirmation. */
    method HandleDelete(db: Database, id: Id, fails: bool)
      requires db.Valid()
      modifies this`showDeleteModal, db`avisos
      ensures db.Valid()
      ensures db.avisos == if fails then old(db.avisos) else Deleted(old(db.avisos), id)
      ensures showDeleteModal == if fails then old(showDeleteModal) else None
    {
      if fails {
        return;
      }
      db.avisos := Deleted(db.avisos, id);
      showDeleteModal := None;
    }
  }

  /** `handleToggleActive`: flip the shown status of one row. */
  method HandleToggleActive(db: Database, id: Id, currentStatus: bool, fails: bool)
    requires db.Valid()
    modifies db`avisos
    ensures db.Valid()
    ensures db.avisos == if fails then old(db.avisos) else Toggled(old(db.avisos), id, currentStatus)
  {
    if !fails {
      db.avisos := Toggled(db.avisos, id, currentStatus);
    }
  }
}
