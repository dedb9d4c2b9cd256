/**
 * The tutor's "Mis Tutorías" page: the list built from the tutor's slots, the checks its buttons
 * make before a request is sent, and the status filter. The tutor's slots are the list the
 * backend returns for them; `now` is the browser clock in minutes.
 */
module MisTutorias {

  import opened Wrappers
  import opened Seqs
  import opened Modelo
  import opened Repositorio
  import opened Reservas
  import opened FiltroEstado

  /** One row of the page: a slot with its live booking. */
  datatype Tutoria = Tutoria(
    id: string,
    fechaInicio: int,
    fechaFin: int,
    disponible: bool,
    idUsuario: string,
    estado: string,
    fechaReserva: int)

  /** The row pushed for a slot with bookings: the slot's dates and the last history entry. */
  function TutoriaDe(h: Horario): Tutoria
    requires TieneReservas(h)
  {
    var u := Ultima(h);
    Tutoria(h.id, h.fechaInicio, h.fechaFin, h.disponible, u.idUsuario, NombreEstado(u.estado), u.fecha)
  }

  /** The rows `loadTutorias` builds, defined from the last slot backwards. */
  function Tutorias(horarios: seq<Horario>): seq<Tutoria>
  {
    if horarios == [] then []
    else
      var n := |horarios| - 1;
      Tutorias(horarios[..n]) + (if TieneReservas(horarios[n]) then [TutoriaDe(horarios[n])] else [])
  }

  /** There is one row per slot with bookings, in slot order, and it shows that slot's live booking. */
  lemma {:induction false} TutoriasPorPosicion(horarios: seq<Horario>)
    ensures |Tutorias(horarios)| == |Filter(horarios, TieneReservas)|
    ensures forall k :: 0 <= k < |Tutorias(horarios)| ==>
      TieneReservas(Filter(horarios, TieneReservas)[k])
      && Tutorias(horarios)[k] == TutoriaDe(Filter(horarios, TieneReservas)[k])
  {
    if horarios != [] {
      var n := |horarios| - 1;
      TutoriasPorPosicion(horarios[..n]);
      FilterSnoc(horarios, n, TieneReservas);
      assert horarios[..n + 1] == horarios;
      var f := Filter(horarios, TieneReservas);
      forall k | 0 <= k < |f| ensures TieneReservas(f[k]) {
        assert f[k] in f;
      }
    }
  }

  /** `loadTutorias`: walks the slots and pushes a row for each one with bookings. */
  method LoadTutorias(horarios: seq<Horario>) returns (lista: seq<Tutoria>)
    ensures lista == Tutorias(horarios)
  {
    lista := [];
    for i := 0 to |horarios|
      invariant lista == Tutorias(horarios[..i])
    {
      assert horarios[..i + 1][..i] == horarios[..i];
      if TieneReservas(horarios[i]) {
        lista := lista + [TutoriaDe(horarios[i])];
      }
    }
    assert horarios[..|horarios|] == horarios;
  }

  function IdTutoria(t: Tutoria): string { t.id }

  /** Every row is the row of one of the slots, and that slot has bookings. */
  lemma {:induction false} FilaDeUnHorario(horarios: seq<Horario>, t: Tutoria)
    requires t in Tutorias(horarios)
    ensures exists m :: 0 <= m < |horarios| && TieneReservas(horarios[m]) && t == TutoriaDe(horarios[m])
  {
    var ts := Tutorias(horarios);
    var f := Filter(horarios, TieneReservas);
    TutoriasPorPosicion(horarios);
    var j :| 0 <= j < |ts| && ts[j] == t;
    assert f[j] in f;
  }

  /** With unique slot ids, the row a button finds by a slot's id is that slot's row. */
  lemma {:induction false} FilaDelHorario(horarios: seq<Horario>, i: nat)
    requires ClavesUnicas(horarios, IdHorario) && i < |horarios| && TieneReservas(horarios[i])
    ensures Buscar(Tutorias(horarios), IdTutoria, horarios[i].id).Some?
    ensures forall t :: t in Tutorias(horarios) && t.id == horarios[i].id ==> t == TutoriaDe(horarios[i])
  {
    var ts := Tutorias(horarios);
    var f := Filter(horarios, TieneReservas);
    TutoriasPorPosicion(horarios);
    assert horarios[i] in f;
    var k :| 0 <= k < |f| && f[k] == horarios[i];
    assert ts[k].id == horarios[i].id;
    forall t | t in ts && t.id == horarios[i].id ensures t == TutoriaDe(horarios[i]) {
      FilaDeUnHorario(horarios, t);
      var m :| 0 <= m < |horarios| && TieneReservas(horarios[m]) && t == TutoriaDe(horarios[m]);
      assert IdHorario(horarios[m]) == IdHorario(horarios[i]);
    }
  }

  /** The alerts the page raises instead of sending a request. */
  datatype Aviso = TutoriaNoEncontrada | AunNoOcurre | SinUnDiaDeAnticipacion

  /** A day, in minutes: the browser compares milliseconds against `24 * 60 * 60 * 1000`. */
  const UN_DIA: int := 24 * 60

  /**
   * `handleMarcarCompletada` and `handleMarcarNoAsistio` up to the confirmation dialog: `Ok` carries
   * the slot id the request is sent for. A session that has started may be marked.
   */
  function HandleMarcar(tutorias: seq<Tutoria>, tutoriaId: string, now: int): (r: Result<string, Aviso>)
    ensures r.Ok? ==> r.value == tutoriaId
    ensures r == Err(TutoriaNoEncontrada) <==> forall k :: 0 <= k < |tutorias| ==> tutorias[k].id != tutoriaId
    ensures r.Ok? <==> exists k :: 0 <= k < |tutorias| && tutorias[k].id == tutoriaId && tutorias[k].fechaInicio <= now
                          && forall j :: 0 <= j < k ==> tutorias[j].id != tutoriaId
  {
    match Buscar(tutorias, IdTutoria, tutoriaId)
    case None => Err(TutoriaNoEncontrada)
    case Some(i) => if tutorias[i].fechaInicio > now then Err(AunNoOcurre) else Ok(tutoriaId)
  }

  /** `handleCancelarTutoria` up to the confirmation dialog: refused when less than a day is left. */
  function HandleCancelarTutoria(tutorias: seq<Tutoria>, tutoriaId: string, now: int): (r: Result<string, Aviso>)
    ensures r.Ok? ==> r.value == tutoriaId
    ensures r == Err(TutoriaNoEncontrada) <==> forall k :: 0 <= k < |tutorias| ==> tutorias[k].id != tutoriaId
    ensures r.Ok? <==> exists k :: 0 <= k < |tutorias| && tutorias[k].id == tutoriaId && tutorias[k].fechaInicio - now >= UN_DIA
                          && forall j :: 0 <= j < k ==> tutorias[j].id != tutoriaId
  {
    match Buscar(tutorias, IdTutoria, tutoriaId)
    case None => Err(TutoriaNoEncontrada)
    case Some(i) => if tutorias[i].fechaInicio - now < UN_DIA then Err(SinUnDiaDeAnticipacion) else Ok(tutoriaId)
  }

  /**
   * The page lets a slot be marked once it has started, the backend once it has ended: the
   * backend's condition implies the page's, and between start and end the backend refuses what
   * the page sends.
   */
  lemma MarcarClienteYServidor(horarios: seq<Horario>, i: nat, now: int)
    requires ClavesUnicas(horarios, IdHorario) && i < |horarios| && TieneReservas(horarios[i])
    ensures HandleMarcar(Tutorias(horarios), horarios[i].id, now).Ok? <==> horarios[i].fechaInicio <= now
    ensures HorarioCoherente(horarios[i]) && now >= horarios[i].fechaFin ==>
      HandleMarcar(Tutorias(horarios), horarios[i].id, now).Ok?
  {
    FilaDelHorario(horarios, i);
    var ts := Tutorias(horarios);
    var j := Buscar(ts, IdTutoria, horarios[i].id).value;
    assert ts[j] in ts;
  }

  /** A start-to-end window in which the page sends the request and the backend refuses it as not yet ended. */
  lemma MarcarDuranteLaSesion(horarios: seq<Horario>, i: nat, usuario: Usuario, now: int, estado: EstadoReserva,
                              despues: seq<Horario>, res: Result<Reserva, Error>)
    requires ClavesUnicas(horarios, IdHorario) && i < |horarios| && TieneReservas(horarios[i])
    requires usuario.rol == TUTOR && horarios[i].idTutor == usuario.id
    requires horarios[i].fechaInicio <= now < horarios[i].fechaFin
    requires Marcado(horarios, despues, usuario, horarios[i].id, now, estado, res)
    ensures HandleMarcar(Tutorias(horarios), horarios[i].id, now) == Ok(horarios[i].id)
    ensures res == Err(ReservaNoTerminada) && despues == horarios
  {
    MarcarClienteYServidor(horarios, i, now);
    BuscarUnica(horarios, IdHorario, i);
  }

  /** The page's one-day check on the tutor's cancellation is exactly the backend's. */
  lemma CancelarClienteComoServidor(horarios: seq<Horario>, i: nat, now: int)
    requires ClavesUnicas(horarios, IdHorario) && i < |horarios| && TieneReservas(horarios[i])
    ensures HandleCancelarTutoria(Tutorias(horarios), horarios[i].id, now).Ok?
      <==> !(now > horarios[i].fechaInicio - ANTICIPACION_CANCELACION)
  {
    FilaDelHorario(horarios, i);
    var ts := Tutorias(horarios);
    var j := Buscar(ts, IdTutoria, horarios[i].id).value;
    assert ts[j] in ts;
  }

  /** The complete, no-show and cancel buttons of a row. */
  predicate MuestraAcciones(t: Tutoria)
  {
    EstadoPendiente(t.estado)
  }

  /** The buttons appear exactly for a slot whose live booking is pending or awaiting the tutor. */
  lemma AccionesSoloPendientes(h: Horario)
    requires TieneReservas(h)
    ensures MuestraAcciones(TutoriaDe(h)) <==> Ultima(h).estado == PENDIENTE || Ultima(h).estado == ESPERANDO_ACCION_TUTOR
  {
    PendienteSegunEstado(Ultima(h).estado);
  }

  function EstadoTutoria(t: Tutoria): string { t.estado }

  /** The rows the pending counter and the `'pendiente'` button select. */
  predicate TutoriaPendiente(t: Tutoria) { EstadoPendiente(t.estado) }

  /** `filteredTutorias` */
  function FilteredTutorias(tutorias: seq<Tutoria>, filtro: string): (r: seq<Tutoria>)
    ensures filtro == "all" ==> r == tutorias
    ensures filtro == "pendiente" ==> r == Filter(tutorias, TutoriaPendiente)
    ensures IsSubseq(r, tutorias)
    ensures forall t {:trigger t in r} :: t in r <==> t in tutorias && PasaFiltro(filtro, t.estado)
  {
    FiltroTodas(tutorias, EstadoTutoria);
    FiltroPendiente(tutorias, EstadoTutoria, TutoriaPendiente);
    FiltrarPorEstado(tutorias, EstadoTutoria, filtro)
  }

  /** The "Pendientes" counter is the length of the `'pendiente'` filter's result, and adds up the two pending states. */
  lemma ContadorPendientes(tutorias: seq<Tutoria>)
    ensures Count(tutorias, TutoriaPendiente) == |FilteredTutorias(tutorias, "pendiente")|
    ensures Count(tutorias, TutoriaPendiente)
      == Count(tutorias, (t: Tutoria) => t.estado == "PENDIENTE") + Count(tutorias, (t: Tutoria) => t.estado == "ESPERANDO_ACCION_TUTOR")
  {
    CountUnion(tutorias, (t: Tutoria) => t.estado == "PENDIENTE", (t: Tutoria) => t.estado == "ESPERANDO_ACCION_TUTOR",
               TutoriaPendiente);
  }
}
