/**
 * The tutor's schedule page of `ManageSchedule.jsx`: which records it lists, which of them count as
 * past, the one-hour lead and the end-time arithmetic of the creation form, the confirmation its
 * delete button asks for, and the "clean up past slots" loop. `now` is the browser clock in minutes.
 */
module GestionHorarios {

  import opened Wrappers
  import opened Seqs
  import opened Modelo
  import opened Repositorio
  import opened Fechas

  /**
   * A record of the list as received: the slot, and the `activo` and `estado` properties the filter
   * probes for, when the record has them.
   */
  datatype Registro = Registro(horario: Horario, activo: Option<bool>, estado: Option<string>)

  /** A stored slot serialises without `activo` or `estado` properties. */
  function RegistroDe(h: Horario): Registro
  {
    Registro(h, None, None)
  }

  function RegistrosDe(hs: seq<Horario>): (r: seq<Registro>)
    ensures |r| == |hs| && forall k :: 0 <= k < |hs| ==> r[k] == RegistroDe(hs[k])
  {
    if hs == [] then [] else RegistrosDe(hs[..|hs| - 1]) + [RegistroDe(hs[|hs| - 1])]
  }

  /** The active filter: `activo` decides when present, else `estado`, else the record is kept. */
  predicate Activo(r: Registro)
  {
    if r.activo.Some? then r.activo.value
    else if r.estado.Some? then r.estado.value != "DESACTIVADO" && r.estado.value != "ELIMINADO"
    else true
  }

  function HorariosActivos(data: seq<Registro>): (r: seq<Registro>)
    ensures IsSubseq(r, data)
    ensures forall x :: x in r <==> x in data && Activo(x)
  {
    Filter(data, Activo)
  }

  /** The records listed as past: the active ones that ended before `now`. */
  function HorariosPasados(activos: seq<Registro>, now: int): (r: seq<Registro>)
    ensures IsSubseq(r, activos)
    ensures forall x :: x in r <==> x in activos && x.horario.fechaFin < now
  {
    Filter(activos, (x: Registro) => x.horario.fechaFin < now)
  }

  /** The past list holds exactly the active records that have ended, in their order. */
  lemma PasadosSonActivos(data: seq<Registro>, now: int)
    ensures var p := HorariosPasados(HorariosActivos(data), now);
      forall x :: x in p <==> x in data && Activo(x) && x.horario.fechaFin < now
  {
  }

  /**
   * The records of stored slots are all kept, the deactivated ones included: a slot the page
   * deleted, which the backend only marks unavailable, is listed again at the next load.
   */
  lemma {:induction false} SlotsDelBackendSeListan(hs: seq<Horario>)
    ensures HorariosActivos(RegistrosDe(hs)) == RegistrosDe(hs)
  {
    var rs := RegistrosDe(hs);
    forall x | x in rs ensures Activo(x) {
      var k :| 0 <= k < |rs| && rs[k] == x;
    }
    FilterAll(rs, Activo);
  }

  /** The lead the form demands of a new slot, in minutes. */
  const ANTELACION_MINIMA := 60

  datatype AvisoCreacion = FechaNoValida

  /** The lead check: a start at or before an hour from now is refused; an accepted one is later than `now`. */
  function ValidarInicio(seleccion: int, now: int): (r: Result<int, AvisoCreacion>)
    ensures r.Ok? <==> seleccion > now + ANTELACION_MINIMA
    ensures r.Ok? ==> r.value == seleccion && now < r.value
  {
    if seleccion <= now + ANTELACION_MINIMA then Err(FechaNoValida) else Ok(seleccion)
  }

  /** The session lengths the form offers. */
  predicate DuracionOfrecida(d: int)
  {
    d == 30 || d == 60 || d == 90 || d == 120
  }

  /**
   * `restarCincoHoras` of this form as written: the start is the selected time plus zero hours, so its
   * borrow branch never runs; the end carries minutes into the hour and the hour into the next day of
   * the same month.
   */
  method CalcularFechas(x: FechaHora, duracionMinutos: int) returns (inicio: FechaHora, fin: FechaHora)
    requires FechaHoraValida(x) && DuracionOfrecida(duracionMinutos)
    ensures inicio == x
    ensures RelojValido(fin.hora, fin.minuto)
    ensures MinutoDelDia(fin) == (MinutoDelDia(x) + duracionMinutos) % MINUTOS_DIA
    ensures fin.fecha.anio == x.fecha.anio && fin.fecha.mes == x.fecha.mes
    ensures fin.fecha.dia == if MinutoDelDia(x) + duracionMinutos >= MINUTOS_DIA then x.fecha.dia + 1 else x.fecha.dia
    ensures MinutoDelDia(x) + duracionMinutos < MINUTOS_DIA || x.fecha.dia < DiasDelMes(x.fecha.anio, x.fecha.mes)
      ==> fin == SumarMinutos(x, duracionMinutos)
  {
    var horaInicio := x.hora + 0;
    var diaInicio := x.fecha.dia;
    var mesInicio := x.fecha.mes;
    var anioInicio := x.fecha.anio;
    var horaFin := horaInicio + duracionMinutos / 60;
    var minutosFin := x.minuto + duracionMinutos % 60;
    var diaFin := diaInicio;
    if minutosFin >= 60 {
      horaFin := horaFin + 1;
      minutosFin := minutosFin - 60;
    }
    if horaFin >= 24 {
      horaFin := horaFin - 24;
      diaFin := diaFin + 1;
    }
    inicio := FechaHora(Fecha(anioInicio, mesInicio, diaInicio), horaInicio, x.minuto);
    fin := FechaHora(Fecha(anioInicio, mesInicio, diaFin), horaFin, minutosFin);
    RelojSumado(x, duracionMinutos);
    RestoDelDia(MinutoDelDia(x) + duracionMinutos);
  }

  /** Less than two days of minutes, taken modulo a day. */
  lemma RestoDelDia(t: int)
    requires 0 <= t < 2 * MINUTOS_DIA
    ensures t % MINUTOS_DIA == if t >= MINUTOS_DIA then t - MINUTOS_DIA else t
  {
  }

  /** `t` minutes are `q` hours and `r` minutes exactly when `r` is below an hour. */
  lemma DivisionEnHoras(t: int, q: int, r: int)
    requires t == q * 60 + r && 0 <= r < 60
    ensures t / 60 == q && t % 60 == r
  {
  }

  /** The hour and minute the form computes are the clock `d` minutes later, before any day carry. */
  lemma RelojSumado(x: FechaHora, d: int)
    requires FechaHoraValida(x) && DuracionOfrecida(d)
    ensures var h, m := x.hora + d / 60, x.minuto + d % 60;
      var hf, mf := if m >= 60 then h + 1 else h, if m >= 60 then m - 60 else m;
      && 0 <= mf < 60 && hf * 60 + mf == MinutoDelDia(x) + d && hf < 26
      && (hf >= 24 <==> MinutoDelDia(x) + d >= MINUTOS_DIA)
      && SumarMinutos(x, d) == if hf >= 24 then FechaHora(DiaSiguiente(x.fecha), hf - 24, mf) else FechaHora(x.fecha, hf, mf)
  {
    var h, m := x.hora + d / 60, x.minuto + d % 60;
    var hf, mf := if m >= 60 then h + 1 else h, if m >= 60 then m - 60 else m;
    var t := MinutoDelDia(x) + d;
    if hf >= 24 {
      DivisionEnHoras(t - MINUTOS_DIA, hf - 24, mf);
    } else {
      DivisionEnHoras(t, hf, mf);
    }
  }

  /** A one-hour session from 31 January 23:30 is sent as ending on 32 January. */
  method FinDeMes() returns (fin: FechaHora)
    ensures fin == FechaHora(Fecha(2025, 1, 32), 0, 30) && !FechaValida(fin.fecha)
    ensures SumarMinutos(FechaHora(Fecha(2025, 1, 31), 23, 30), 60) == FechaHora(Fecha(2025, 2, 1), 0, 30)
  {
    var inicio;
    inicio, fin := CalcularFechas(FechaHora(Fecha(2025, 1, 31), 23, 30), 60);
    RelojSumado(FechaHora(Fecha(2025, 1, 31), 23, 30), 60);
  }

  /** The end computed with a month and year carry: always a real date, exactly the duration later. */
  method CalcularFechasCorregido(x: FechaHora, duracionMinutos: int) returns (inicio: FechaHora, fin: FechaHora)
    requires FechaHoraValida(x) && DuracionOfrecida(duracionMinutos)
    ensures inicio == x && fin == SumarMinutos(x, duracionMinutos)
    ensures FechaHoraValida(fin) && RestarMinutos(fin, duracionMinutos) == x
  {
    var horaFin := x.hora + duracionMinutos / 60;
    var minutosFin := x.minuto + duracionMinutos % 60;
    var fechaFin := x.fecha;
    if minutosFin >= 60 {
      horaFin := horaFin + 1;
      minutosFin := minutosFin - 60;
    }
    if horaFin >= 24 {
      horaFin := horaFin - 24;
      fechaFin := DiaSiguiente(x.fecha);
    }
    inicio := x;
    fin := FechaHora(fechaFin, horaFin, minutosFin);
    RelojSumado(x, duracionMinutos);
    IdaYVuelta(x, duracionMinutos);
  }

  /** `tieneReservas`: some entry is `PENDIENTE` or `CONFIRMADA`. */
  predicate ConReservasActivas(h: Horario)
  {
    exists k :: 0 <= k < |h.historialReservas|
      && (NombreEstado(h.historialReservas[k].estado) == "PENDIENTE" || NombreEstado(h.historialReservas[k].estado) == "CONFIRMADA")
  }

  /** No stored state is named `CONFIRMADA`, so the check finds a pending entry; on a coherent slot, the live one. */
  lemma ReservasActivasSonPendientes(h: Horario)
    ensures ConReservasActivas(h) <==> exists k :: 0 <= k < |h.historialReservas| && h.historialReservas[k].estado == PENDIENTE
    ensures ReservasCoherentes(h) ==> (ConReservasActivas(h) <==> TieneReservas(h) && Ultima(h).estado == PENDIENTE)
  {
    var hs := h.historialReservas;
    forall k | 0 <= k < |hs| ensures
      (NombreEstado(hs[k].estado) == "PENDIENTE" || NombreEstado(hs[k].estado) == "CONFIRMADA") <==> hs[k].estado == PENDIENTE
    {
      match hs[k].estado
      case PENDIENTE =>
      case CANCELADA =>
      case COMPLETADA =>
      case NO_ASISTIO =>
      case ESPERANDO_ACCION_TUTOR =>
    }
    if ReservasCoherentes(h) && ConReservasActivas(h) {
      var k :| 0 <= k < |hs| && hs[k].estado == PENDIENTE;
      assert k == |hs| - 1;
    }
  }

  /** The confirmation the delete button asks for. */
  datatype Confirmacion = BorrarPasado | AdvertirReservas | BorrarHorario

  function MensajeEliminar(h: Horario, now: int): (c: Confirmacion)
    ensures c == BorrarPasado <==> h.fechaFin < now
    ensures c == AdvertirReservas <==> !(h.fechaFin < now) && ConReservasActivas(h)
    ensures c == BorrarHorario <==> !(h.fechaFin < now) && !ConReservasActivas(h)
  {
    if h.fechaFin < now then BorrarPasado
    else if ConReservasActivas(h) then AdvertirReservas
    else BorrarHorario
  }

  /** After a delete the backend accepted, the local list drops the records with that id. */
  function QuitarDeLista(horarios: seq<Registro>, idHorario: string): (r: seq<Registro>)
    ensures IsSubseq(r, horarios)
    ensures forall x :: x in r <==> x in horarios && x.horario.id != idHorario
  {
    Filter(horarios, (x: Registro) => x.horario.id != idHorario)
  }

  /** With unique ids, deleting a listed slot removes exactly one record and keeps the others in order. */
  lemma {:induction false} QuitarUnSoloRegistro(horarios: seq<Registro>, i: nat)
    requires i < |horarios|
    requires forall a, b :: 0 <= a < b < |horarios| ==> horarios[a].horario.id != horarios[b].horario.id
    ensures QuitarDeLista(horarios, horarios[i].horario.id) == horarios[..i] + horarios[i + 1..]
  {
    var id := horarios[i].horario.id;
    var p := (x: Registro) => x.horario.id != id;
    forall k | 0 <= k < |horarios| && k != i ensures p(horarios[k]) {
    }
    FilterQuitaUno(horarios, i, p);
  }

  /** What `handleLimpiarPasados` reports. */
  datatype Limpieza = NadaQueLimpiar | NoConfirmado | Eliminados(eliminados: nat, errores: nat) | NingunoEliminado

  /**
   * `handleLimpiarPasados`: once confirmed, one delete request per past record; `borrado` says which
   * requests the backend accepted. A reload follows exactly when the outcome is `Eliminados`.
   */
  method HandleLimpiarPasados(pasados: seq<Registro>, confirma: bool, borrado: string -> bool) returns (r: Limpieza)
    ensures pasados == [] <==> r == NadaQueLimpiar
    ensures pasados != [] && !confirma <==> r == NoConfirmado
    ensures r.Eliminados? ==>
      r.eliminados == Count(pasados, (x: Registro) => borrado(x.horario.id)) > 0 && r.eliminados + r.errores == |pasados|
    ensures pasados != [] && confirma ==> (r == NingunoEliminado <==> Count(pasados, (x: Registro) => borrado(x.horario.id)) == 0)
  {
    if |pasados| == 0 {
      return NadaQueLimpiar;
    }
    if !confirma {
      return NoConfirmado;
    }
    var eliminados: nat := 0;
    var errores: nat := 0;
    for i := 0 to |pasados|
      invariant eliminados == Count(pasados[..i], (x: Registro) => borrado(x.horario.id))
      invariant eliminados + errores == i
    {
      FilterSnoc(pasados, i, (x: Registro) => borrado(x.horario.id));
      if borrado(pasados[i].horario.id) {
        eliminados := eliminados + 1;
      } else {
        errores := errores + 1;
      }
    }
    assert pasados[..|pasados|] == pasados;
    if eliminados > 0 {
      r := Eliminados(eliminados, errores);
    } else {
      r := NingunoEliminado;
    }
  }
}
