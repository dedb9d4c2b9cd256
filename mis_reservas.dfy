/**
 * The student's "Mis Reservas" page: the list built from the slots the backend returns for the
 * student, the tutor lookup made for each row, the review and cancel buttons and the status filter.
 * The tutor lookup is the backend's `getTutorPorId` on the user store; `now` is the browser clock.
 */
module MisReservas {

  import opened Wrappers
  import opened Seqs
  import opened Modelo
  import opened Repositorio
  import opened Reservas
  import opened Resenas
  import opened Tutores
  import opened FiltroEstado
  import opened CrearResena

  /** One row of the page. */
  datatype ReservaVista = ReservaVista(
    id: string,
    fechaInicio: int,
    fechaFin: int,
    idTutor: string,
    tutorNombre: string,
    estado: string,
    fechaReserva: int,
    precioHora: real)

  /**
   * The tutor's name as the row shows it. After a failed lookup the page reads
   * `tutorNombreApellido` off the slot, a field slots do not have, so it falls back to the id.
   */
  function NombreTutor(consulta: Result<TutorDTO, Error>, idTutor: string): (n: string)
    ensures n != []
    ensures consulta.Err? ==> n == "ID: " + idTutor
    ensures consulta.Ok? && consulta.value.nombre != [] && consulta.value.apellido != [] ==>
      n == consulta.value.nombre + " " + consulta.value.apellido
  {
    match consulta
    case Ok(t) =>
      if t.nombre != [] && t.apellido != [] then t.nombre + " " + t.apellido
      else if t.correo != [] then t.correo
      else "Tutor"
    case Err(_) => "ID: " + idTutor
  }

  /** The row pushed for a slot with bookings, with its live booking and the tutor found for it. */
  function VistaDe(h: Horario, usuarios: seq<Usuario>): ReservaVista
    requires TieneReservas(h)
  {
    var consulta := GetTutorPorId(usuarios, h.idTutor);
    var u := Ultima(h);
    ReservaVista(h.id, h.fechaInicio, h.fechaFin, h.idTutor, NombreTutor(consulta, h.idTutor),
                 NombreEstado(u.estado), u.fecha, if consulta.Ok? then consulta.value.precioHora else 0.0)
  }

  /** The rows `loadReservas` builds, defined from the last slot backwards. */
  function Vistas(horarios: seq<Horario>, usuarios: seq<Usuario>): seq<ReservaVista>
  {
    if horarios == [] then []
    else
      var n := |horarios| - 1;
      Vistas(horarios[..n], usuarios) + (if TieneReservas(horarios[n]) then [VistaDe(horarios[n], usuarios)] else [])
  }

  /** There is one row per slot with bookings, in slot order, and it shows that slot's live booking. */
  lemma {:induction false} VistasPorPosicion(horarios: seq<Horario>, usuarios: seq<Usuario>)
    ensures |Vistas(horarios, usuarios)| == |Filter(horarios, TieneReservas)|
    ensures forall k :: 0 <= k < |Vistas(horarios, usuarios)| ==>
      TieneReservas(Filter(horarios, TieneReservas)[k])
      && Vistas(horarios, usuarios)[k] == VistaDe(Filter(horarios, TieneReservas)[k], usuarios)
  {
    if horarios != [] {
      var n := |horarios| - 1;
      VistasPorPosicion(horarios[..n], usuarios);
      FilterSnoc(horarios, n, TieneReservas);
      assert horarios[..n + 1] == horarios;
      var f := Filter(horarios, TieneReservas);
      forall k | 0 <= k < |f| ensures TieneReservas(f[k]) {
        assert f[k] in f;
      }
    }
  }

  /** `loadReservas`: walks the slots, looks the tutor of each booked one up and pushes its row. */
  method LoadReservas(horarios: seq<Horario>, usuarios: seq<Usuario>) returns (lista: seq<ReservaVista>)
    ensures lista == Vistas(horarios, usuarios)
  {
    lista := [];
    for i := 0 to |horarios|
      invariant lista == Vistas(horarios[..i], usuarios)
    {
      assert horarios[..i + 1][..i] == horarios[..i];
      var h := horarios[i];
      if TieneReservas(h) {
        var consulta := GetTutorPorId(usuarios, h.idTutor);
        var tutorNombre := NombreTutor(consulta, h.idTutor);
        var precioHora := if consulta.Ok? then consulta.value.precioHora else 0.0;
        var ultima := Ultima(h);
        lista := lista + [ReservaVista(h.id, h.fechaInicio, h.fechaFin, h.idTutor, tutorNombre,
                                       NombreEstado(ultima.estado), ultima.fecha, precioHora)];
      }
    }
    assert horarios[..|horarios|] == horarios;
  }

  /** A row names the slot's tutor and shows their hourly price while they are a valid tutor, and the bare id otherwise. */
  lemma VistaDelTutor(h: Horario, usuarios: seq<Usuario>, j: nat)
    requires TieneReservas(h) && ClavesUnicas(usuarios, IdUsuario) && j < |usuarios| && usuarios[j].id == h.idTutor
    ensures var v := VistaDe(h, usuarios);
      if EsTutorValido(usuarios[j]) then
        v.precioHora == usuarios[j].tutor.value.precioHora
        && (usuarios[j].nombre != [] && usuarios[j].apellido != [] ==>
              v.tutorNombre == usuarios[j].nombre + " " + usuarios[j].apellido)
      else v.precioHora == 0.0 && v.tutorNombre == "ID: " + h.idTutor
  {
    BuscarUnica(usuarios, IdUsuario, j);
  }

  /** `yaHiceResena`: some review of the student's is about that tutor; the slot is not looked at. */
  predicate YaHiceResena(misResenas: seq<ResenasDTO>, horarioId: string, tutorId: string)
  {
    exists k :: 0 <= k < |misResenas| && misResenas[k].idTutor == tutorId
  }

  /**
   * On the list `obtenerResenasHechas` returns, `yaHiceResena` holds exactly when the student has
   * reviewed that tutor, whichever session the review was about.
   */
  lemma YaHiceResenaSegunBackend(usuarios: seq<Usuario>, solicitante: Usuario, horarioId: string, otroHorario: string, tutorId: string)
    ensures var rs := ResenasHechas(Filter(usuarios, EsTutorValido), solicitante.id);
      && (YaHiceResena(rs, horarioId, tutorId) <==>
           exists u, x :: u in usuarios && EsTutorValido(u) && u.id == tutorId && x in u.tutor.value.resenas
                          && x.autorId == solicitante.id)
      && (YaHiceResena(rs, horarioId, tutorId) <==> YaHiceResena(rs, otroHorario, tutorId))
  {
    var tutores := Filter(usuarios, EsTutorValido);
    var rs := ResenasHechas(tutores, solicitante.id);
    ResenasHechasExactas(tutores, solicitante.id);
    if YaHiceResena(rs, horarioId, tutorId) {
      var k :| 0 <= k < |rs| && rs[k].idTutor == tutorId;
      assert rs[k] in rs;
    }
    if exists u, x :: u in usuarios && EsTutorValido(u) && u.id == tutorId && x in u.tutor.value.resenas
                      && x.autorId == solicitante.id {
      var u, x :| u in usuarios && EsTutorValido(u) && u.id == tutorId && x in u.tutor.value.resenas
                   && x.autorId == solicitante.id;
      assert u in tutores;
      var d := DtoResena(u, x);
      assert d in rs;
      var k :| 0 <= k < |rs| && rs[k] == d;
    }
  }

  /** The alerts the page raises instead of sending a request or opening the review form. */
  datatype Aviso = ReservaNoEncontrada | ResenaYaHecha | MenosDe24Horas

  /** `handleCancelReserva` up to the confirmation dialog: the hours left, as a fraction, must be at least 24. */
  function HandleCancelReserva(horarioId: string, reserva: ReservaVista, now: int): (r: Result<string, Aviso>)
    ensures r.Ok? ==> r.value == horarioId
    ensures r.Err? ==> r.error == MenosDe24Horas
    ensures r.Ok? <==> reserva.fechaInicio - now >= 24 * 60
  {
    var horasRestantes := (reserva.fechaInicio - now) as real / 60.0;
    if horasRestantes < 24.0 then Err(MenosDe24Horas) else Ok(horarioId)
  }

  /** The fractional-hours check is exactly the backend's one-day cancellation window. */
  lemma CancelReservaComoServidor(horarioId: string, h: Horario, usuarios: seq<Usuario>, now: int)
    requires TieneReservas(h)
    ensures HandleCancelReserva(horarioId, VistaDe(h, usuarios), now).Ok?
      <==> !(now > h.fechaInicio - ANTICIPACION_CANCELACION)
  {
    var d := h.fechaInicio - now;
    assert (d as real / 60.0 < 24.0) <==> d < 1440;
  }

  /** `handleCancelar`, which the cancel button calls: after the dialog it sends the request unchecked. */
  function HandleCancelar(horarioId: string): (r: Result<string, Aviso>)
    ensures r.Ok?
  {
    Ok(horarioId)
  }

  /** The cancel button a row offers inside the last day leaves the check to the backend, which refuses. */
  lemma BotonCancelarSinVentana(h: Horario, usuarios: seq<Usuario>, now: int)
    requires TieneReservas(h) && now > h.fechaInicio - ANTICIPACION_CANCELACION
    ensures HandleCancelar(VistaDe(h, usuarios).id) == Ok(h.id)
    ensures HandleCancelReserva(h.id, VistaDe(h, usuarios), now) == Err(MenosDe24Horas)
  {
    CancelReservaComoServidor(h.id, h, usuarios, now);
  }

  function IdVista(v: ReservaVista): string { v.id }

  /** `handleCrearResena`: opens the review form with the slot, the tutor and the row's tutor name. */
  function HandleCrearResena(reservas: seq<ReservaVista>, misResenas: seq<ResenasDTO>, horarioId: string, tutorId: string)
    : (r: Result<EstadoNavegacion, Aviso>)
    ensures r == Err(ReservaNoEncontrada) <==> forall k :: 0 <= k < |reservas| ==> reservas[k].id != horarioId
    ensures r == Err(ResenaYaHecha) <==> (exists k :: 0 <= k < |reservas| && reservas[k].id == horarioId)
                                         && YaHiceResena(misResenas, horarioId, tutorId)
    ensures r.Ok? ==> r.value.horarioId == Some(horarioId) && r.value.tutorId == Some(tutorId)
                      && exists k :: 0 <= k < |reservas| && reservas[k].id == horarioId
                                     && r.value.tutorNombre == Some(reservas[k].tutorNombre)
  {
    match Buscar(reservas, IdVista, horarioId)
    case None => Err(ReservaNoEncontrada)
    case Some(i) =>
      if YaHiceResena(misResenas, horarioId, tutorId) then Err(ResenaYaHecha)
      else Ok(EstadoNavegacion(Some(horarioId), Some(tutorId), Some(reservas[i].tutorNombre)))
  }

  /** The review button of a row. */
  predicate MuestraResena(v: ReservaVista, misResenas: seq<ResenasDTO>)
  {
    v.estado == "COMPLETADA" && !YaHiceResena(misResenas, v.id, v.idTutor)
  }

  /** The cancel button of a row. */
  predicate MuestraCancelar(v: ReservaVista)
  {
    EstadoPendiente(v.estado)
  }

  /**
   * A row offers at most one of the two buttons; review is offered only for a completed live
   * booking and cancel exactly for a pending or awaiting one.
   */
  lemma BotonesSegunEstado(h: Horario, usuarios: seq<Usuario>, misResenas: seq<ResenasDTO>)
    requires TieneReservas(h)
    ensures var v := VistaDe(h, usuarios);
      && !(MuestraResena(v, misResenas) && MuestraCancelar(v))
      && (MuestraResena(v, misResenas) ==> Ultima(h).estado == COMPLETADA)
      && (MuestraCancelar(v) <==> Ultima(h).estado == PENDIENTE || Ultima(h).estado == ESPERANDO_ACCION_TUTOR)
  {
    PendienteSegunEstado(Ultima(h).estado);
    NombresDistintos(Ultima(h).estado, COMPLETADA);
  }

  /** The review button always opens the form, with ids the form accepts when the row's ids are not empty. */
  lemma BotonResenaAbreFormulario(reservas: seq<ReservaVista>, misResenas: seq<ResenasDTO>, k: nat)
    requires k < |reservas| && MuestraResena(reservas[k], misResenas)
    ensures var r := HandleCrearResena(reservas, misResenas, reservas[k].id, reservas[k].idTutor);
      r.Ok? && (reservas[k].id != [] && reservas[k].idTutor != [] ==> !FaltanDatos(r.value))
  {
  }

  function EstadoVista(v: ReservaVista): string { v.estado }

  /** The rows the `'pendiente'` button selects. */
  predicate VistaPendiente(v: ReservaVista) { EstadoPendiente(v.estado) }

  /** `filteredReservas` */
  function FilteredReservas(reservas: seq<ReservaVista>, filtro: string): (r: seq<ReservaVista>)
    ensures filtro == "all" ==> r == reservas
    ensures filtro == "pendiente" ==> r == Filter(reservas, VistaPendiente)
    ensures IsSubseq(r, reservas)
    ensures forall v {:trigger v in r} :: v in r <==> v in reservas && PasaFiltro(filtro, v.estado)
  {
    FiltroTodas(reservas, EstadoVista);
    FiltroPendiente(reservas, EstadoVista, VistaPendiente);
    FiltrarPorEstado(reservas, EstadoVista, filtro)
  }

  /**
   * A slot the student booked and cancelled and another student then booked: the row shows the
   * other student's pending booking with a cancel button, and the backend refuses the cancellation.
   */
  method CancelacionDeReservaAjena() returns (vista: seq<ReservaVista>, res: Result<Reserva, Error>)
    ensures |vista| == 1 && vista[0].estado == "PENDIENTE" && MuestraCancelar(vista[0])
    ensures res == Err(NoEsSuReserva)
  {
    var ana := Usuario("a", "Ana", "Ruiz", "ana@uis.co", "3001234", None, true, "ana", "", ESTUDIANTE, None);
    var h := Horario("h", "t", 10000, 10060, false, [Reserva("a", CANCELADA, 100), Reserva("b", PENDIENTE, 200)], false);
    assert Participo(h, ana.id) by {
      assert h.historialReservas[0].idUsuario == ana.id;
    }
    var mias := ObtenerMisReservas([h], ana);
    assert mias == [h];
    vista := LoadReservas(mias, []);
    assert [h][..0] == [];
    var repo := new HorarioRepo();
    repo.Guardar(h);
    res := CancelarReserva(repo, ana, "h", 0);
  }

  /** The same history with the other student's booking completed: the row offers a review the backend refuses as not completed. */
  lemma ResenaOfrecidaSinDerecho()
    ensures var h := Horario("h", "t", 10000, 10060, false, [Reserva("a", CANCELADA, 100), Reserva("b", COMPLETADA, 200)], false);
      && MuestraResena(VistaDe(h, []), [])
      && ReservaDelUsuario(h, "a") == Some(Reserva("a", CANCELADA, 100))
  {
    var h := Horario("h", "t", 10000, 10060, false, [Reserva("a", CANCELADA, 100), Reserva("b", COMPLETADA, 200)], false);
    var propias := Filter(h.historialReservas, x => DeUsuario(x, "a"));
    assert propias == [Reserva("a", CANCELADA, 100)];
  }

  /** The row the page should show a student: the slot with the student's own latest booking, as the backend's review check reads it. */
  function VistaPropia(h: Horario, usuarios: seq<Usuario>, idUsuario: string): ReservaVista
    requires ReservaDelUsuario(h, idUsuario).Some?
  {
    var consulta := GetTutorPorId(usuarios, h.idTutor);
    var propia := ReservaDelUsuario(h, idUsuario).value;
    ReservaVista(h.id, h.fechaInicio, h.fechaFin, h.idTutor, NombreTutor(consulta, h.idTutor),
                 NombreEstado(propia.estado), propia.fecha, if consulta.Ok? then consulta.value.precioHora else 0.0)
  }

  /**
   * The student's own row agrees with the backend: it shows a completed booking exactly when the
   * review check passes, and on a coherent slot a pending one only when the student holds the
   * live booking that `cancelarReserva` cancels.
   */
  lemma VistaPropiaCoherente(h: Horario, usuarios: seq<Usuario>, idUsuario: string)
    requires ReservaDelUsuario(h, idUsuario).Some?
    ensures var v := VistaPropia(h, usuarios, idUsuario);
      && (v.estado == "COMPLETADA" <==> ReservaDelUsuario(h, idUsuario).value.estado == COMPLETADA)
      && (HorarioCoherente(h) && v.estado == "PENDIENTE" ==> Ultima(h).idUsuario == idUsuario && Ultima(h).estado == PENDIENTE)
  {
    var propia := ReservaDelUsuario(h, idUsuario).value;
    NombresDistintos(propia.estado, COMPLETADA);
    NombresDistintos(propia.estado, PENDIENTE);
    if HorarioCoherente(h) && propia.estado == PENDIENTE {
      var k :| 0 <= k < |h.historialReservas| && h.historialReservas[k] == propia;
      assert k == |h.historialReservas| - 1;
    }
  }

  /** Every slot `obtenerMisReservas` returns has a booking of the student's, so each gets its own row. */
  lemma {:induction false} CadaReservaPropiaTieneVista(horarios: seq<Horario>, usuario: Usuario)
    ensures forall h :: h in ObtenerMisReservas(horarios, usuario) ==> ReservaDelUsuario(h, usuario.id).Some?
  {
    forall h | h in ObtenerMisReservas(horarios, usuario) ensures ReservaDelUsuario(h, usuario.id).Some? {
      assert Participo(h, usuario.id);
    }
  }
}
