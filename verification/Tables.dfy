/**
 * The hosted tables the temporal track reads and writes, held in memory.
 * Every query becomes a read of a field and every insert, update or delete
 * an assignment to one.
 */
module Tables {
  import opened Text
  import opened Ledger

  /** A row of `solicitudes_temporal`. */
  datatype Solicitud = Solicitud(
    id: Id,
    inversorId: Id,
    tipo: string,
    monto: real,
    estado: string,
    fechaSolicitud: int,
    fechaProcesado: Option<int>,
    procesadoPor: Option<Id>,
    motivoRechazo: Option<string>)

  /** A row of `notificaciones` (the currency-formatted `mensaje` is not modelled). */
  datatype Notificacion = Notificacion(usuarioId: Id, tipoUsuario: string, titulo: string, tipoNotificacion: string)

  /** A row of `avisos`. */
  datatype Aviso = Aviso(
    id: Id,
    titulo: string,
    mensaje: string,
    tipo: string,
    activo: bool,
    fechaExpiracion: Option<string>,
    creadoPor: Option<Id>)

  /** One call of the `enviar_aviso_a_todos_inversores` procedure, whose body is not modelled. */
  datatype Broadcast = Broadcast(titulo: string, mensaje: string, tipo: string, adminId: Option<Id>)

  /** A row of `modulo_temporal_config`. */
  datatype ConfigRow = ConfigRow(id: Id, activo: bool, tituloTemporal: string, descripcion: string, updatedBy: Id, fechaCreacion: int)

  /** The signed-in administrator (`useAdmin().admin`). */
  datatype Admin = Admin(id: Id, role: string)

  /**
   * Which store call of a multi-step handler fails, if any. Calls are
   * numbered from 1 in the order the handler issues them; a handler stops
   * at the failing call and keeps whatever earlier calls wrote.
   */
  datatype Fault = NoFault | FailsAt(step: nat)
  {
    /** Whether call number `step` completes. */
    predicate Succeeds(step: nat)
    {
      NoFault? || step < this.step
    }
  }

  class Database {
    var transacciones: seq<Tx>
    var solicitudes: map<Id, Solicitud>
    var notificaciones: seq<Notificacion>
    var avisos: map<Id, Aviso>
    var broadcasts: seq<Broadcast>
    var config: seq<ConfigRow>

    /** Rows are stored under their own id. */
    ghost predicate Valid()
      reads this
    {
      && (forall id :: id in solicitudes ==> solicitudes[id].id == id)
      && (forall id :: id in avisos ==> avisos[id].id == id)
    }

    constructor ()
      ensures Valid()
      ensures transacciones == [] && solicitudes == map[] && notificaciones == []
      ensures avisos == map[] && broadcasts == [] && config == []
    {
      transacciones := [];
      solicitudes := map[];
      notificaciones := [];
      avisos := map[];
      broadcasts := [];
      config := [];
    }
  }
}
