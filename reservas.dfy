/** The booking life cycle of a slot: book, cancel and mark, and the two listing queries. */
module Reservas {

  import opened Wrappers
  import opened Seqs
  import opened Modelo
  import opened Repositorio

  /** A slot can be booked up to two hours (in minutes) before it starts. */
  const ANTICIPACION_RESERVA: int := 120

  /** A booking can be cancelled up to one day (in minutes) before the slot starts. */
  const ANTICIPACION_CANCELACION: int := 1440

  /** `getReservas`: the slots that were ever booked. */
  function GetReservas(horarios: seq<Horario>): (r: seq<Horario>)
    ensures IsSubseq(r, horarios)
    ensures forall h :: h in r <==> h in horarios && TieneReservas(h)
  {
    Filter(horarios, TieneReservas)
  }

  /** Some entry of the history, not only the live one, is a booking by `idUsuario`. */
  predicate Participo(h: Horario, idUsuario: string)
  {
    exists k :: 0 <= k < |h.historialReservas| && h.historialReservas[k].idUsuario == idUsuario
  }

  /** `ObtenerMisReservas`: the slots the user ever booked. */
  function ObtenerMisReservas(horarios: seq<Horario>, usuario: Usuario): (r: seq<Horario>)
    ensures IsSubseq(r, horarios)
    ensures forall h :: h in r <==> h in horarios && Participo(h, usuario.id)
  {
    Filter(horarios, h => Participo(h, usuario.id))
  }

  /** The slot with its live booking moved to state `e` at time `fecha`; the booking keeps its user. */
  function ConUltima(h: Horario, e: EstadoReserva, fecha: int): (r: Horario)
    requires TieneReservas(h)
    ensures |r.historialReservas| == |h.historialReservas|
    ensures r.historialReservas[..|h.historialReservas| - 1] == h.historialReservas[..|h.historialReservas| - 1]
    ensures Ultima(r) == Reserva(Ultima(h).idUsuario, e, fecha)
    ensures r.(historialReservas := h.historialReservas) == h
  {
    var n := |h.historialReservas| - 1;
    h.(historialReservas := h.historialReservas[n := Reserva(Ultima(h).idUsuario, e, fecha)])
  }

  /** Rewriting the live booking keeps the invariant as long as an available slot is not left pending. */
  lemma ConUltimaCoherente(h: Horario, e: EstadoReserva, fecha: int, disponible: bool)
    requires HorarioCoherente(h) && TieneReservas(h)
    requires disponible ==> e != PENDIENTE
    requires e == PENDIENTE ==> Ultima(h).estado == PENDIENTE
    ensures HorarioCoherente(ConUltima(h, e, fecha).(disponible := disponible))
  {
    var r := ConUltima(h, e, fecha).(disponible := disponible);
    var n := |h.historialReservas| - 1;
    forall k | 0 <= k < n ensures r.historialReservas[k].estado != PENDIENTE {
      assert r.historialReservas[k] == r.historialReservas[..n][k];
    }
  }

  /** `reservarHorario` */
  method ReservarHorario(repo: HorarioRepo, usuario: Usuario, idHorario: string, now: int)
    returns (res: Result<Reserva, Error>)
    requires repo.Valid()
    modifies repo
    ensures repo.Valid()
    ensures res.Err? ==> repo.horarios == old(repo.horarios)
    ensures match Buscar(old(repo.horarios), IdHorario, idHorario)
      case None => res == Err(HorarioNoEncontrado)
      case Some(i) =>
        var h := old(repo.horarios)[i];
        if !h.disponible then res == Err(HorarioNoDisponible)
        else if now > h.fechaInicio - ANTICIPACION_RESERVA then res == Err(AnticipacionReserva)
        else
          res == Ok(Reserva(usuario.id, PENDIENTE, now))
          && repo.horarios == old(repo.horarios)[i := h.(historialReservas := h.historialReservas + [res.value], historialNulo := false, disponible := false)]
  {
    var encontrado := Buscar(repo.horarios, IdHorario, idHorario);
    if encontrado.None? {
      return Err(HorarioNoEncontrado);
    }
    var i := encontrado.value;
    var h := repo.horarios[i];
    if !h.disponible {
      return Err(HorarioNoDisponible);
    }
    if now > h.fechaInicio - ANTICIPACION_RESERVA {
      return Err(AnticipacionReserva);
    }
    var nueva := Reserva(usuario.id, PENDIENTE, now);
    var antes := h.historialReservas;
    h := h.(historialReservas := antes + [nueva], historialNulo := false, disponible := false);
    forall k | 0 <= k < |h.historialReservas| - 1 ensures h.historialReservas[k].estado != PENDIENTE {
      assert h.historialReservas[k] == antes[k];
    }
    repo.GuardarEn(i, h);
    return Ok(nueva);
  }

  /** `cancelarReserva`: the student cancels their live booking, and the slot becomes available again. */
  method CancelarReserva(repo: HorarioRepo, usuario: Usuario, idHorario: string, now: int)
    returns (res: Result<Reserva, Error>)
    requires repo.Valid()
    modifies repo
    ensures repo.Valid()
    ensures res.Err? ==> repo.horarios == old(repo.horarios)
    ensures match Buscar(old(repo.horarios), IdHorario, idHorario)
      case None => res == Err(HorarioNoEncontrado)
      case Some(i) =>
        var h := old(repo.horarios)[i];
        if !TieneReservas(h) then res == Err(SinReservas)
        else if Ultima(h).idUsuario != usuario.id then res == Err(NoEsSuReserva)
        else if now > h.fechaInicio - ANTICIPACION_CANCELACION then res == Err(AnticipacionCancelacion)
        else
          res == Ok(Reserva(usuario.id, CANCELADA, now))
          && repo.horarios == old(repo.horarios)[i := ConUltima(h, CANCELADA, now).(disponible := true)]
  {
    var encontrado := Buscar(repo.horarios, IdHorario, idHorario);
    if encontrado.None? {
      return Err(HorarioNoEncontrado);
    }
    var i := encontrado.value;
    var h := repo.horarios[i];
    if !TieneReservas(h) {
      return Err(SinReservas);
    }
    if Ultima(h).idUsuario != usuario.id {
      return Err(NoEsSuReserva);
    }
    if now > h.fechaInicio - ANTICIPACION_CANCELACION {
      return Err(AnticipacionCancelacion);
    }
    var nuevo := ConUltima(h, CANCELADA, now).(disponible := true);
    ConUltimaCoherente(h, CANCELADA, now, true);
    repo.GuardarEn(i, nuevo);
    return Ok(Ultima(nuevo));
  }

  /** `tutorCancelaReservaHecha`: the owner cancels a pending booking; the slot stays unavailable. */
  method TutorCancelaReservaHecha(repo: HorarioRepo, usuario: Usuario, idHorario: string, now: int)
    returns (res: Result<Reserva, Error>)
    requires repo.Valid()
    modifies repo
    ensures repo.Valid()
    ensures res.Err? ==> repo.horarios == old(repo.horarios)
    ensures !EsTutorValido(usuario) ==> res == Err(SoloTutorCancela)
    ensures EsTutorValido(usuario) ==> match Buscar(old(repo.horarios), IdHorario, idHorario)
      case None => res == Err(HorarioNoEncontrado)
      case Some(i) =>
        var h := old(repo.horarios)[i];
        if h.idTutor != usuario.id then res == Err(NoEsDuenoDelHorario)
        else if !TieneReservas(h) then res == Err(SinReservas)
        else if Ultima(h).estado != PENDIENTE then res == Err(NoEstaPendiente)
        else if now > h.fechaInicio - ANTICIPACION_CANCELACION then res == Err(AnticipacionCancelacion)
        else
          res == Ok(Reserva(Ultima(h).idUsuario, CANCELADA, now))
          && repo.horarios == old(repo.horarios)[i := ConUltima(h, CANCELADA, now).(disponible := false)]
  {
    if !EsTutorValido(usuario) {
      return Err(SoloTutorCancela);
    }
    var encontrado := Buscar(repo.horarios, IdHorario, idHorario);
    if encontrado.None? {
      return Err(HorarioNoEncontrado);
    }
    var i := encontrado.value;
    var h := repo.horarios[i];
    if h.idTutor != usuario.id {
      return Err(NoEsDuenoDelHorario);
    }
    if !TieneReservas(h) {
      return Err(SinReservas);
    }
    if Ultima(h).estado != PENDIENTE {
      return Err(NoEstaPendiente);
    }
    if now > h.fechaInicio - ANTICIPACION_CANCELACION {
      return Err(AnticipacionCancelacion);
    }
    var nuevo := ConUltima(h, CANCELADA, now).(disponible := false);
    ConUltimaCoherente(h, CANCELADA, now, false);
    repo.GuardarEn(i, nuevo);
    return Ok(Ultima(nuevo));
  }

  /**
   * The common contract of `reservaCompletada` and `noAsistioALaReserva`: a user with role `TUTOR`
   * (the tutor profile is not checked) who owns the slot moves its live booking to `estado` once
   * the slot has ended, whatever state it was in; availability is not touched.
   */
  ghost predicate Marcado(antes: seq<Horario>, despues: seq<Horario>, usuario: Usuario, idHorario: string,
                          now: int, estado: EstadoReserva, res: Result<Reserva, Error>)
  {
    (res.Err? ==> despues == antes)
    && (usuario.rol != TUTOR ==> res == Err(SoloTutorMarca))
    && (usuario.rol == TUTOR ==> match Buscar(antes, IdHorario, idHorario)
      case None => res == Err(HorarioNoEncontrado)
      case Some(i) =>
        var h := antes[i];
        if h.idTutor != usuario.id then res == Err(NoEsDuenoDelHorario)
        else if now < h.fechaFin then res == Err(ReservaNoTerminada)
        else if !TieneReservas(h) then res == Err(SinReservas)
        else
          res == Ok(Reserva(Ultima(h).idUsuario, estado, now))
          && despues == antes[i := ConUltima(h, estado, now)])
  }

  method MarcarReserva(repo: HorarioRepo, usuario: Usuario, idHorario: string, now: int, estado: EstadoReserva)
    returns (res: Result<Reserva, Error>)
    requires repo.Valid() && (estado == COMPLETADA || estado == NO_ASISTIO)
    modifies repo
    ensures repo.Valid()
    ensures Marcado(old(repo.horarios), repo.horarios, usuario, idHorario, now, estado, res)
  {
    if usuario.rol != TUTOR {
      return Err(SoloTutorMarca);
    }
    var encontrado := Buscar(repo.horarios, IdHorario, idHorario);
    if encontrado.None? {
      return Err(HorarioNoEncontrado);
    }
    var i := encontrado.value;
    var h := repo.horarios[i];
    if h.idTutor != usuario.id {
      return Err(NoEsDuenoDelHorario);
    }
    if now < h.fechaFin {
      return Err(ReservaNoTerminada);
    }
    if !TieneReservas(h) {
      return Err(SinReservas);
    }
    var nuevo := ConUltima(h, estado, now);
    ConUltimaCoherente(h, estado, now, h.disponible);
    assert nuevo == ConUltima(h, estado, now).(disponible := h.disponible);
    repo.GuardarEn(i, nuevo);
    return Ok(Ultima(nuevo));
  }

  /** `reservaCompletada` */
  method ReservaCompletada(repo: HorarioRepo, usuario: Usuario, idHorario: string, now: int)
    returns (res: Result<Reserva, Error>)
    requires repo.Valid()
    modifies repo
    ensures repo.Valid()
    ensures Marcado(old(repo.horarios), repo.horarios, usuario, idHorario, now, COMPLETADA, res)
  {
    res := MarcarReserva(repo, usuario, idHorario, now, COMPLETADA);
  }

  /** `noAsistioALaReserva` */
  method NoAsistioALaReserva(repo: HorarioRepo, usuario: Usuario, idHorario: string, now: int)
    returns (res: Result<Reserva, Error>)
    requires repo.Valid()
    modifies repo
    ensures repo.Valid()
    ensures Marcado(old(repo.horarios), repo.horarios, usuario, idHorario, now, NO_ASISTIO, res)
  {
    res := MarcarReserva(repo, usuario, idHorario, now, NO_ASISTIO);
  }

  /** The stronger reading "an available slot's live booking is cancelled". */
  predicate DisponibleSoloSiCancelada(h: Horario)
  {
    h.disponible && TieneReservas(h) ==> Ultima(h).estado == CANCELADA
  }

  /**
   * Marking does not keep the stronger reading: a slot the student cancelled is available again,
   * and once it has ended its owner can still mark that cancelled booking completed.
   */
  lemma MarcarNoConservaDisponibleSoloSiCancelada()
    ensures exists h: Horario, fecha: int ::
      TieneReservas(h) && HorarioCoherente(h) && DisponibleSoloSiCancelada(h)
      && !DisponibleSoloSiCancelada(ConUltima(h, COMPLETADA, fecha))
  {
    var h := Horario("h1", "t1", 0, 60, true, [Reserva("e1", CANCELADA, 0)], false);
    assert !DisponibleSoloSiCancelada(ConUltima(h, COMPLETADA, 60));
  }
}
