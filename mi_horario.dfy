/**
 * The tutor's "Gestionar Horarios" form of `MySchedule.jsx`: the end-after-start check on the two
 * time inputs, the five-hour shift applied to both before they are sent, the shift back applied to
 * the stored times for display, and the delete button.
 */
module MiHorario {

  import opened Wrappers
  import opened Texto
  import opened Modelo
  import opened Repositorio
  import opened Fechas

  /** The shift both the form and the display apply, in minutes. */
  const CINCO_HORAS := 5 * 60

  /** The one date on which a common-year table gives the wrong previous day. */
  predicate PrimeroDeMarzoBisiesto(f: Fecha)
  {
    f.mes == 3 && f.dia == 1 && EsBisiesto(f.anio)
  }

  /**
   * `restarCincoHoras` as written: five hours back, borrowing a day, a month and a year as needed,
   * with the previous month's length taken from the common-year table.
   */
  method RestarCincoHoras(fecha: Fecha, hora: int, minuto: int) returns (r: FechaHora)
    requires FechaHoraValida(FechaHora(fecha, hora, minuto))
    ensures RelojValido(r.hora, r.minuto) && r.minuto == minuto
    ensures !(hora < 5 && PrimeroDeMarzoBisiesto(fecha)) ==> r == RestarMinutos(FechaHora(fecha, hora, minuto), CINCO_HORAS)
    ensures hora < 5 && PrimeroDeMarzoBisiesto(fecha) ==> r == FechaHora(Fecha(fecha.anio, 2, 28), hora + 19, minuto)
  {
    var horaAjustada := hora - 5;
    var diaAjustado := fecha.dia;
    var mesAjustado := fecha.mes;
    var anioAjustado := fecha.anio;
    if horaAjustada < 0 {
      horaAjustada := horaAjustada + 24;
      diaAjustado := diaAjustado - 1;
      if diaAjustado < 1 {
        mesAjustado := mesAjustado - 1;
        if mesAjustado < 1 {
          mesAjustado := 12;
          anioAjustado := anioAjustado - 1;
        }
        diaAjustado := DIAS_POR_MES[mesAjustado - 1];
      }
    }
    r := FechaHora(Fecha(anioAjustado, mesAjustado, diaAjustado), horaAjustada, minuto);
  }

  /** On 1 March of a leap year, 02:00 is sent as 28 February 21:00, and five hours later is 29 February. */
  method MarzoBisiesto() returns (r: FechaHora)
    ensures r == FechaHora(Fecha(2024, 2, 28), 21, 0)
    ensures SumarMinutos(r, CINCO_HORAS) == FechaHora(Fecha(2024, 2, 29), 2, 0)
  {
    r := RestarCincoHoras(Fecha(2024, 3, 1), 2, 0);
  }

  /** The shift with the Gregorian month lengths: the backend's five hours forward give back the selected time. */
  method RestarCincoHorasCorregido(fecha: Fecha, hora: int, minuto: int) returns (r: FechaHora)
    requires FechaHoraValida(FechaHora(fecha, hora, minuto))
    ensures r == RestarMinutos(FechaHora(fecha, hora, minuto), CINCO_HORAS)
    ensures SumarMinutos(r, CINCO_HORAS) == FechaHora(fecha, hora, minuto)
  {
    var horaAjustada := hora - 5;
    var diaAjustado := fecha.dia;
    var mesAjustado := fecha.mes;
    var anioAjustado := fecha.anio;
    if horaAjustada < 0 {
      horaAjustada := horaAjustada + 24;
      diaAjustado := diaAjustado - 1;
      if diaAjustado < 1 {
        mesAjustado := mesAjustado - 1;
        if mesAjustado < 1 {
          mesAjustado := 12;
          anioAjustado := anioAjustado - 1;
        }
        diaAjustado := DiasDelMes(anioAjustado, mesAjustado);
      }
    }
    r := FechaHora(Fecha(anioAjustado, mesAjustado, diaAjustado), horaAjustada, minuto);
    IdaYVuelta(FechaHora(fecha, hora, minuto), CINCO_HORAS);
  }

  /** The two ISO texts of a creation request. */
  datatype Envio = Envio(fechaInicio: string, fechaFin: string)

  datatype AvisoHorario = FinNoPosterior

  /**
   * `handleCreateHorario` up to the request: the `horaFin <= horaInicio` string comparison, then both
   * times shifted on the selected date.
   */
  method HandleCreateHorario(fecha: Fecha, horaInicio: int, minutoInicio: int, horaFin: int, minutoFin: int)
    returns (r: Result<Envio, AvisoHorario>)
    requires FechaValida(fecha) && RelojValido(horaInicio, minutoInicio) && RelojValido(horaFin, minutoFin)
    ensures r.Err? <==> horaFin * 60 + minutoFin <= horaInicio * 60 + minutoInicio
    ensures r.Ok? && !PrimeroDeMarzoBisiesto(fecha) ==> r.value == Envio(
      Iso(RestarMinutos(FechaHora(fecha, horaInicio, minutoInicio), CINCO_HORAS)),
      Iso(RestarMinutos(FechaHora(fecha, horaFin, minutoFin), CINCO_HORAS)))
  {
    OrdenDeRelojes(horaInicio, minutoInicio, horaFin, minutoFin);
    if !MenorLex(RelojTexto(horaInicio, minutoInicio), RelojTexto(horaFin, minutoFin)) {
      return Err(FinNoPosterior);
    }
    var inicio := RestarCincoHoras(fecha, horaInicio, minutoInicio);
    var fin := RestarCincoHoras(fecha, horaFin, minutoFin);
    r := Ok(Envio(Iso(inicio), Iso(fin)));
  }

  /** What a row shows: `DD/MM/YYYY` and `HH:MM`. */
  datatype Mostrado = Mostrado(fecha: string, hora: string)

  function Mostrar(v: FechaHora): Mostrado
  {
    Mostrado(Pad2(v.fecha.dia) + "/" + Pad2(v.fecha.mes) + "/" + EnteroATexto(v.fecha.anio),
             Pad2(v.hora) + ":" + Pad2(v.minuto))
  }

  /**
   * `ajustarHoraParaMostrar`: the stored time five hours back, with any month underflow shown as
   * day 30 of the previous month of the same year.
   */
  method AjustarHoraParaMostrar(x: FechaHora) returns (v: FechaHora)
    requires FechaHoraValida(x)
    ensures RelojValido(v.hora, v.minuto) && v.minuto == x.minuto && v.fecha.anio == x.fecha.anio
    ensures !(x.hora < 5 && x.fecha.dia == 1) ==> v == RestarMinutos(x, CINCO_HORAS)
    ensures x.hora < 5 && x.fecha.dia == 1 ==>
      v == FechaHora(Fecha(x.fecha.anio, if x.fecha.mes == 1 then 12 else x.fecha.mes - 1, 30), x.hora + 19, x.minuto)
  {
    var horaAjustada := x.hora - 5;
    var diaAjustado := x.fecha.dia;
    var mesAjustado := x.fecha.mes;
    if horaAjustada < 0 {
      horaAjustada := horaAjustada + 24;
      diaAjustado := diaAjustado - 1;
      if diaAjustado < 1 {
        mesAjustado := mesAjustado - 1;
        if mesAjustado < 1 {
          mesAjustado := 12;
        }
        diaAjustado := 30;
      }
    }
    v := FechaHora(Fecha(x.fecha.anio, mesAjustado, diaAjustado), horaAjustada, x.minuto);
  }

  /** A session stored for 1 March 03:00 is listed on "30/02", a day that does not exist. */
  method PrimeroDeMarzoMostrado() returns (v: FechaHora)
    ensures v == FechaHora(Fecha(2025, 2, 30), 22, 0) && !FechaValida(v.fecha)
  {
    v := AjustarHoraParaMostrar(FechaHora(Fecha(2025, 3, 1), 3, 0));
  }

  /** A session stored for 1 January 02:00 is listed in December of the same year, not the year before. */
  method AnioNuevoMostrado() returns (v: FechaHora)
    ensures v == FechaHora(Fecha(2026, 12, 30), 21, 0)
    ensures RestarMinutos(FechaHora(Fecha(2026, 1, 1), 2, 0), CINCO_HORAS) == FechaHora(Fecha(2025, 12, 31), 21, 0)
  {
    v := AjustarHoraParaMostrar(FechaHora(Fecha(2026, 1, 1), 2, 0));
  }

  /** The delete button is offered only on available slots. */
  predicate MuestraEliminar(h: Horario)
  {
    h.disponible
  }

  /** A coherent slot that offers the delete button holds no pending booking. */
  lemma EliminarSinReservaPendiente(h: Horario)
    requires ReservasCoherentes(h) && MuestraEliminar(h)
    ensures forall k :: 0 <= k < |h.historialReservas| ==> h.historialReservas[k].estado != PENDIENTE
  {
    var n := |h.historialReservas|;
    if n > 0 {
      assert Ultima(h) == h.historialReservas[n - 1];
    }
  }
}
