/**
 * Calendar dates and wall-clock times as the schedule forms handle them: year, month and day from a
 * date input, hour and minute from a time input, and the ISO-8601 text sent to the backend. The
 * reference calendar is the proleptic Gregorian one that `java.time` uses.
 */
module Fechas {

  import opened Texto

  datatype Fecha = Fecha(anio: int, mes: int, dia: int)

  datatype FechaHora = FechaHora(fecha: Fecha, hora: int, minuto: int)

  /** Minutes in a day. */
  const MINUTOS_DIA := 24 * 60

  /** The month lengths of a common year, January first: the table both schedule forms use. */
  const DIAS_POR_MES: seq<int> := [31, 28, 31, 30, 31, 30, 31, 31, 30, 31, 30, 31]

  predicate EsBisiesto(anio: int)
  {
    anio % 4 == 0 && (anio % 100 != 0 || anio % 400 == 0)
  }

  /** The length of a month in the Gregorian calendar. */
  function DiasDelMes(anio: int, mes: int): (n: int)
    requires 1 <= mes <= 12
    ensures 28 <= n <= 31
    ensures n == DIAS_POR_MES[mes - 1] <==> !(mes == 2 && EsBisiesto(anio))
  {
    if mes == 2 && EsBisiesto(anio) then 29 else DIAS_POR_MES[mes - 1]
  }

  predicate FechaValida(f: Fecha)
  {
    1 <= f.mes <= 12 && 1 <= f.dia <= DiasDelMes(f.anio, f.mes)
  }

  predicate RelojValido(hora: int, minuto: int)
  {
    0 <= hora < 24 && 0 <= minuto < 60
  }

  predicate FechaHoraValida(x: FechaHora)
  {
    FechaValida(x.fecha) && RelojValido(x.hora, x.minuto)
  }

  /** Minutes since midnight. */
  function MinutoDelDia(x: FechaHora): int
  {
    x.hora * 60 + x.minuto
  }

  function DiaAnterior(f: Fecha): (r: Fecha)
    requires FechaValida(f)
    ensures FechaValida(r)
  {
    if f.dia > 1 then Fecha(f.anio, f.mes, f.dia - 1)
    else if f.mes > 1 then Fecha(f.anio, f.mes - 1, DiasDelMes(f.anio, f.mes - 1))
    else Fecha(f.anio - 1, 12, 31)
  }

  function DiaSiguiente(f: Fecha): (r: Fecha)
    requires FechaValida(f)
    ensures FechaValida(r)
  {
    if f.dia < DiasDelMes(f.anio, f.mes) then Fecha(f.anio, f.mes, f.dia + 1)
    else if f.mes < 12 then Fecha(f.anio, f.mes + 1, 1)
    else Fecha(f.anio + 1, 1, 1)
  }

  /** The day before and the day after undo each other. */
  lemma DiasVecinos(f: Fecha)
    requires FechaValida(f)
    ensures DiaSiguiente(DiaAnterior(f)) == f
    ensures DiaAnterior(DiaSiguiente(f)) == f
  {
  }

  /** The instant `d` minutes later, for less than a day. */
  function SumarMinutos(x: FechaHora, d: int): (r: FechaHora)
    requires FechaHoraValida(x) && 0 <= d < MINUTOS_DIA
    ensures FechaHoraValida(r)
  {
    var t := MinutoDelDia(x) + d;
    if t < MINUTOS_DIA then FechaHora(x.fecha, t / 60, t % 60)
    else FechaHora(DiaSiguiente(x.fecha), (t - MINUTOS_DIA) / 60, (t - MINUTOS_DIA) % 60)
  }

  /** The instant `d` minutes earlier, for less than a day. */
  function RestarMinutos(x: FechaHora, d: int): (r: FechaHora)
    requires FechaHoraValida(x) && 0 <= d < MINUTOS_DIA
    ensures FechaHoraValida(r)
  {
    var t := MinutoDelDia(x) - d;
    if t >= 0 then FechaHora(x.fecha, t / 60, t % 60)
    else FechaHora(DiaAnterior(x.fecha), (t + MINUTOS_DIA) / 60, (t + MINUTOS_DIA) % 60)
  }

  /** Going `d` minutes forward and then back, or back and then forward, returns to the same instant. */
  lemma IdaYVuelta(x: FechaHora, d: int)
    requires FechaHoraValida(x) && 0 <= d < MINUTOS_DIA
    ensures RestarMinutos(SumarMinutos(x, d), d) == x
    ensures SumarMinutos(RestarMinutos(x, d), d) == x
  {
    DiasVecinos(x.fecha);
    RelojDeMinutos(x);
    var m := MinutoDelDia(x);
    var t := if m + d < MINUTOS_DIA then m + d else m + d - MINUTOS_DIA;
    MinutosDeReloj(t);
    assert MinutoDelDia(SumarMinutos(x, d)) == t;
    var u := if m - d >= 0 then m - d else m - d + MINUTOS_DIA;
    MinutosDeReloj(u);
    assert MinutoDelDia(RestarMinutos(x, d)) == u;
  }

  /** A valid clock is its minute of the day divided by sixty, with the remainder. */
  lemma RelojDeMinutos(x: FechaHora)
    requires FechaHoraValida(x)
    ensures MinutoDelDia(x) / 60 == x.hora && MinutoDelDia(x) % 60 == x.minuto
  {
  }

  /** A minute of the day splits into a valid hour and minute. */
  lemma MinutosDeReloj(t: int)
    requires 0 <= t < MINUTOS_DIA
    ensures 0 <= t / 60 < 24 && 0 <= t % 60 < 60 && (t / 60) * 60 + t % 60 == t
  {
  }

  /** The ISO-8601 local date-time both forms send: `YYYY-MM-DDTHH:MM:00.000`. */
  function Iso(x: FechaHora): string
  {
    EnteroATexto(x.fecha.anio) + "-" + Pad2(x.fecha.mes) + "-" + Pad2(x.fecha.dia)
    + "T" + Pad2(x.hora) + ":" + Pad2(x.minuto) + ":00.000"
  }

  /** With every field in range, each of month, day, hour and minute is written with exactly two digits. */
  lemma IsoDeAnchoFijo(x: FechaHora)
    requires FechaHoraValida(x)
    ensures Iso(x) == EnteroATexto(x.fecha.anio) + "-"
      + [Digito(x.fecha.mes / 10), Digito(x.fecha.mes % 10)] + "-"
      + [Digito(x.fecha.dia / 10), Digito(x.fecha.dia % 10)] + "T"
      + [Digito(x.hora / 10), Digito(x.hora % 10)] + ":"
      + [Digito(x.minuto / 10), Digito(x.minuto % 10)] + ":00.000"
    ensures |Iso(x)| == |EnteroATexto(x.fecha.anio)| + 19
  {
    Pad2Digitos(x.fecha.mes);
    Pad2Digitos(x.fecha.dia);
    Pad2Digitos(x.hora);
    Pad2Digitos(x.minuto);
  }

  /** The `HH:MM` value of a time input. */
  function RelojTexto(hora: int, minuto: int): string
  {
    Pad2(hora) + ":" + Pad2(minuto)
  }

  lemma {:induction false} MenorLexCabeza(c: char, a: string, d: char, b: string)
    ensures MenorLex([c] + a, [d] + b) == if c != d then c < d else MenorLex(a, b)
  {
    assert ([c] + a)[1..] == a && ([d] + b)[1..] == b;
  }

  /** Two decimal digits compare as the numbers they stand for. */
  lemma OrdenDeDigitos(n: int, m: int)
    requires 0 <= n < 100 && 0 <= m < 100
    ensures n < m <==> Digito(n / 10) < Digito(m / 10) || (n / 10 == m / 10 && Digito(n % 10) < Digito(m % 10))
    ensures n == m <==> n / 10 == m / 10 && n % 10 == m % 10
  {
  }

  /** Comparing two `HH:MM` texts as strings is comparing the times of day. */
  lemma OrdenDeRelojes(h1: int, m1: int, h2: int, m2: int)
    requires RelojValido(h1, m1) && RelojValido(h2, m2)
    ensures MenorLex(RelojTexto(h1, m1), RelojTexto(h2, m2)) <==> h1 * 60 + m1 < h2 * 60 + m2
  {
    Pad2Digitos(h1);
    Pad2Digitos(m1);
    Pad2Digitos(h2);
    Pad2Digitos(m2);
    var a1, b1, c1, d1 := Digito(h1 / 10), Digito(h1 % 10), Digito(m1 / 10), Digito(m1 % 10);
    var a2, b2, c2, d2 := Digito(h2 / 10), Digito(h2 % 10), Digito(m2 / 10), Digito(m2 % 10);
    assert RelojTexto(h1, m1) == [a1] + ([b1] + ([':'] + ([c1] + [d1])));
    assert RelojTexto(h2, m2) == [a2] + ([b2] + ([':'] + ([c2] + [d2])));
    MenorLexCabeza(a1, [b1] + ([':'] + ([c1] + [d1])), a2, [b2] + ([':'] + ([c2] + [d2])));
    MenorLexCabeza(b1, [':'] + ([c1] + [d1]), b2, [':'] + ([c2] + [d2]));
    MenorLexCabeza(':', [c1] + [d1], ':', [c2] + [d2]);
    MenorLexCabeza(c1, [d1], c2, [d2]);
    MenorLexCabeza(d1, [], d2, []);
    OrdenDeDigitos(h1, h2);
    OrdenDeDigitos(m1, m2);
  }
}
