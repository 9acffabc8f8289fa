/**
 * The administrators' switch for the temporal dashboard
 * (`ModuloTemporal`): load the newest configuration row, edit it in a
 * form, and save it back by updating that row or inserting the first one.
 */
module ModuloTemporal {
  import opened Text
  import opened Ledger
  import opened Tables

  /** The panel's `formData`. */
  datatype ConfigForm = ConfigForm(activo: bool, tituloTemporal: string, descripcion: string)

  /** The form before any configuration is loaded. */
  const DefaultConfigForm := ConfigForm(false, "Reporte Temporal", "")

  /** The description stored when the form's is blank. */
  const DefaultDescripcion := "Configuración actualizada desde panel de administración"

  /** `formData.titulo_temporal.trim()` is non-empty: the guard of `handleSave` and of the button. */
  function TitleAccepted(form: ConfigForm): (r: bool)
    ensures r <==> !AllSpace(form.tituloTemporal)
  {
    TrimEmptyIff(form.tituloTemporal);
    Trim(form.tituloTemporal) != []
  }

  /** `disabled={saving || !formData.titulo_temporal.trim()}`. */
  function SaveDisabled(saving: bool, form: ConfigForm): (r: bool)
    ensures r <==> saving || AllSpace(form.tituloTemporal)
  {
    saving || !TitleAccepted(form)
  }

  /** `descripcion.trim() || DefaultDescripcion`: never blank. */
  function StoredDescripcion(d: string): (r: string)
    ensures r != []
    ensures AllSpace(d) ==> r == DefaultDescripcion
    ensures !AllSpace(d) ==> r == Trim(d)
  {
    var t := Trim(d);
    TrimEmptyIff(d);
    if t == [] then DefaultDescripcion else t
  }

  /**
   * The `configData` written under row id `id`: the trimmed title, which is
   * never blank once the title is accepted, and a description that is
   * never empty.
   */
  function ConfigData(id: Id, form: ConfigForm, admin: Admin, now: int): (r: ConfigRow)
    ensures r.tituloTemporal == Trim(form.tituloTemporal)
    ensures r.descripcion != []
    ensures TitleAccepted(form) ==> r.tituloTemporal != [] && !IsSpace(r.tituloTemporal[0]) && !IsSpace(r.tituloTemporal[|r.tituloTemporal| - 1])
  {
    var titulo := Trim(form.tituloTemporal);
    ConfigRow(id, form.activo, titulo, StoredDescripcion(form.descripcion), admin.id, now)
  }

  /** `.update(configData).eq('id', id)` on the configuration table. */
  function UpdateById(rows: seq<ConfigRow>, id: Id, form: ConfigForm, admin: Admin, now: int): (r: seq<ConfigRow>)
    ensures |r| == |rows|
    ensures forall i :: 0 <= i < |rows| && rows[i].id == id ==> r[i] == ConfigData(id, form, admin, now)
    ensures forall i :: 0 <= i < |rows| && rows[i].id != id ==> r[i] == rows[i]
  {
    seq(|rows|, i requires 0 <= i < |rows| => if rows[i].id == id then ConfigData(id, form, admin, now) else rows[i])
  }

  /**
   * `.order('fecha_creacion', { ascending: false }).limit(1).maybeSingle()`:
   * a row with the greatest creation date, or none for an empty table.
   */
  function Latest(rows: seq<ConfigRow>): (r: Option<ConfigRow>)
    ensures r.None? <==> rows == []
    ensures r.Some? ==> r.value in rows && forall x :: x in rows ==> x.fechaCreacion <= r.value.fechaCreacion
  {
    if rows == [] then None
    else
      var rest := Latest(rows[..|rows| - 1]);
      var last := rows[|rows| - 1];
      assert forall x :: x in rows <==> x in rows[..|rows| - 1] || x == last by {
        assert rows == rows[..|rows| - 1] + [last];
      }
      if rest.Some? && rest.value.fechaCreacion >= last.fechaCreacion then rest else Some(last)
  }

  /** A loaded configuration put into the form; the description field starts empty. */
  function FormFor(c: ConfigRow): ConfigForm
  {
    ConfigForm(c.activo, c.tituloTemporal, "")
  }

  /**
   * Saving a just-loaded configuration without touching the form keeps its
   * title and state; the description becomes the default text.
   */
  lemma ReloadAndSaveKeepsTitle(c: ConfigRow, admin: Admin, now: int)
    requires c.tituloTemporal == Trim(c.tituloTemporal)
    ensures ConfigData(c.id, FormFor(c), admin, now).tituloTemporal == c.tituloTemporal
    ensures ConfigData(c.id, FormFor(c), admin, now).activo == c.activo
    ensures ConfigData(c.id, FormFor(c), admin, now).descripcion == DefaultDescripcion
  {
    assert AllSpace(FormFor(c).descripcion);
  }

  /** Every title the panel stores is already trimmed, so a reload and save keeps it. */
  lemma StoredTitleIsTrimmed(id: Id, form: ConfigForm, admin: Admin, now: int)
    ensures var r := ConfigData(id, form, admin, now); r.tituloTemporal == Trim(r.tituloTemporal)
  {
    TrimIdempotent(form.tituloTemporal);
  }

  /** The component's state. */
  class ConfigPanel {
    var config: Option<ConfigRow>
    var form: ConfigForm
    var showSuccessModal: bool

    constructor ()
      ensures config == None && form == DefaultConfigForm && !showSuccessModal
    {
      config := None;
      form := DefaultConfigForm;
      showSuccessModal := false;
    }

    /** `fetchConfig`: load the newest row, if any, into the panel and the form. */
    method FetchConfig(db: Database, queryFails: bool)
      modifies this`config, this`form
      ensures queryFails || Latest(db.config).None? ==> config == old(config) && form == old(form)
      ensures !queryFails && Latest(db.config).Some? ==> config == Latest(db.config) && form == FormFor(config.value)
    {
      if queryFails {
        return;
      }
      var data := Latest(db.config);
      if data.Some? {
        config := data;
        form := FormFor(data.value);
      }
    }

    /** The activation switch (`activo: !formData.activo`). */
    method ToggleActivo()
      modifies this`form
      ensures form == old(form).(activo := !old(form).activo)
    {
      form := form.(activo := !form.activo);
    }

    /**
     * `handleSave`: nothing without an administrator or with a blank title;
     * otherwise one write — update the loaded row by its id, or insert one
     * row when none was loaded — and after a successful write the success
     * dialog and a `fetchConfig()` reload, which fails on its own when
     * `refetchFails`.
     */
    method HandleSave(db: Database, admin: Option<Admin>, now: int, newId: Id, fails: bool, refetchFails: bool)
      returns (saved: bool)
      modifies db`config, this`showSuccessModal, this`config, this`form
      ensures saved <==> admin.Some? && TitleAccepted(old(form)) && !fails
      ensures !saved ==> db.config == old(db.config) && showSuccessModal == old(showSuccessModal)
      ensures !saved ==> config == old(config) && form == old(form)
      ensures saved ==> showSuccessModal
      ensures saved && old(config).Some? ==>
        db.config == UpdateById(old(db.config), old(config).value.id, old(form), admin.value, now)
      ensures saved && old(config).None? ==>
        db.config == old(db.config) + [ConfigData(newId, old(form), admin.value, now)]
      ensures saved && !refetchFails && Latest(db.config).Some? ==>
        config == Latest(db.config) && form == FormFor(config.value)
      ensures saved && (refetchFails || Latest(db.config).None?) ==> config == old(config) && form == old(form)
      ensures saved && !refetchFails && old(config).None? ==> config.Some?
    {
      saved := false;
      if admin.None? {
        return;
      }
      if !TitleAccepted(form) {
        return;
      }
      if fails {
        return;
      }
      if config.Some? {
        db.config := UpdateById(db.config, config.value.id, form, admin.value, now);
      } else {
        db.config := db.config + [ConfigData(newId, form, admin.value, now)];
      }
      showSuccessModal := true;
      saved := true;
      FetchConfig(db, refetchFails);
    }
  }
}
