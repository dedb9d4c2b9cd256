/**
 * The dashboard's three counters, computed from the slots the backend returns for the user: every
 * history entry of those slots is flattened into a list, and the counters are filter lengths.
 */
module Dashboard {

  import opened Wrappers
  import opened Seqs
  import opened Modelo
  import opened Reservas
  import opened Resenas
  import opened FiltroEstado

  /** One flattened entry: its state name and its date. */
  datatype Entrada = Entrada(estado: string, fecha: int)

  datatype Estadisticas = Estadisticas(reservasPendientes: nat, reservasCompletadas: nat, totalReservas: nat)

  /** The counters before anything is loaded. */
  const SIN_DATOS: Estadisticas := Estadisticas(0, 0, 0)

  function EntradaDe(r: Reserva): Entrada
  {
    Entrada(NombreEstado(r.estado), r.fecha)
  }

  /** The entries pushed for one history, in order. */
  function EntradasDe(rs: seq<Reserva>): seq<Entrada>
  {
    if rs == [] then [] else EntradasDe(rs[..|rs| - 1]) + [EntradaDe(rs[|rs| - 1])]
  }

  /** The list the nested `forEach` builds: the entries of each slot, slot by slot. */
  function Entradas(horarios: seq<Horario>): seq<Entrada>
  {
    if horarios == [] then []
    else Entradas(horarios[..|horarios| - 1]) + EntradasDe(horarios[|horarios| - 1].historialReservas)
  }

  /** The states the pending counter looks for, `CONFIRMADA` included. */
  predicate PendienteEnPanel(x: Entrada)
  {
    x.estado == "PENDIENTE" || x.estado == "CONFIRMADA" || x.estado == "ESPERANDO_ACCION_TUTOR"
  }

  predicate CompletadaEnPanel(x: Entrada)
  {
    x.estado == "COMPLETADA"
  }

  function EstadisticasDe(entradas: seq<Entrada>): Estadisticas
  {
    Estadisticas(Count(entradas, PendienteEnPanel), Count(entradas, CompletadaEnPanel), |entradas|)
  }

  /** `loadStats`: nothing is loaded for an administrator; otherwise the entries are flattened and counted. */
  method LoadStats(rol: string, horarios: seq<Horario>) returns (stats: Estadisticas)
    ensures rol == "ROLE_ADMIN" ==> stats == SIN_DATOS
    ensures rol != "ROLE_ADMIN" ==> stats == EstadisticasDe(Entradas(horarios))
  {
    stats := SIN_DATOS;
    if rol == "ROLE_ADMIN" {
      return;
    }
    var lista: seq<Entrada> := [];
    for i := 0 to |horarios|
      invariant lista == Entradas(horarios[..i])
    {
      var rs := horarios[i].historialReservas;
      assert horarios[..i + 1][..i] == horarios[..i];
      if |rs| > 0 {
        ghost var previas := lista;
        for k := 0 to |rs|
          invariant lista == previas + EntradasDe(rs[..k])
        {
          assert rs[..k + 1][..k] == rs[..k];
          lista := lista + [Entrada(NombreEstado(rs[k].estado), rs[k].fecha)];
        }
        assert rs[..|rs|] == rs;
      }
    }
    assert horarios[..|horarios|] == horarios;
    stats := Estadisticas(Count(lista, PendienteEnPanel), Count(lista, CompletadaEnPanel), |lista|);
  }

  /** One entry per booking of a history, in order. */
  lemma {:induction false} EntradasDePorPosicion(rs: seq<Reserva>)
    ensures |EntradasDe(rs)| == |rs|
    ensures forall k :: 0 <= k < |rs| ==> EntradasDe(rs)[k] == EntradaDe(rs[k])
  {
    if rs != [] {
      EntradasDePorPosicion(rs[..|rs| - 1]);
    }
  }

  /** The total is the number of history entries over all the returned slots. */
  lemma {:induction false} TotalEsNumeroDeReservas(horarios: seq<Horario>)
    ensures |Entradas(horarios)| == NumeroDeReservas(horarios)
  {
    if horarios != [] {
      TotalEsNumeroDeReservas(horarios[..|horarios| - 1]);
      EntradasDePorPosicion(horarios[|horarios| - 1].historialReservas);
    }
  }

  /** Every flattened entry is the entry of some booking, so its state is one the backend sends. */
  lemma {:induction false} EntradasDeReservas(horarios: seq<Horario>)
    ensures forall x :: x in Entradas(horarios) ==> exists r: Reserva :: x == EntradaDe(r)
  {
    if horarios != [] {
      var n := |horarios| - 1;
      EntradasDeReservas(horarios[..n]);
      var rs := horarios[n].historialReservas;
      EntradasDePorPosicion(rs);
      forall x | x in EntradasDe(rs) ensures exists r: Reserva :: x == EntradaDe(r) {
        var k :| 0 <= k < |EntradasDe(rs)| && EntradasDe(rs)[k] == x;
        assert x == EntradaDe(rs[k]);
      }
    }
  }

  predicate PendienteSegunBackend(x: Entrada)
  {
    EstadoPendiente(x.estado)
  }

  /**
   * The counters of a user's dashboard: no more pending and completed entries than entries in all,
   * which are all the entries of the slots; `CONFIRMADA`, a state the backend never sends, adds
   * nothing to the pending count.
   */
  lemma PanelAcotado(horarios: seq<Horario>)
    ensures var s := EstadisticasDe(Entradas(horarios));
      && s.reservasPendientes + s.reservasCompletadas <= s.totalReservas == NumeroDeReservas(horarios)
      && s.reservasPendientes == Count(Entradas(horarios), PendienteSegunBackend)
  {
    var xs := Entradas(horarios);
    CountDisjoint(xs, PendienteEnPanel, CompletadaEnPanel);
    TotalEsNumeroDeReservas(horarios);
    EntradasDeReservas(horarios);
    forall x | x in xs ensures PendienteEnPanel(x) == PendienteSegunBackend(x) {
      var r: Reserva :| x == EntradaDe(r);
    }
    FilterExt(xs, PendienteEnPanel, PendienteSegunBackend);
  }

  /**
   * A student who booked and cancelled a slot that someone else then booked: the dashboard counts
   * two bookings and one pending, though the student holds neither.
   */
  method PanelConReservaAjena() returns (stats: Estadisticas)
    ensures stats == Estadisticas(1, 0, 2)
  {
    var h := Horario("h", "t", 10000, 10060, false, [Reserva("a", CANCELADA, 100), Reserva("b", PENDIENTE, 200)], false);
    var ana := Usuario("a", "Ana", "Ruiz", "ana@uis.co", "3001234", None, true, "ana", "", ESTUDIANTE, None);
    assert Participo(h, ana.id) by {
      assert h.historialReservas[0].idUsuario == ana.id;
    }
    var mias := ObtenerMisReservas([h], ana);
    assert mias == [h];
    stats := LoadStats("ROLE_ESTUDIANTE", mias);
    assert [h][..0] == [];
    EntradasDePorPosicion(h.historialReservas);
    var xs := Entradas([h]);
    assert xs == [Entrada("CANCELADA", 100), Entrada("PENDIENTE", 200)];
    assert Filter(xs, PendienteEnPanel) == [xs[1]] by {
      assert xs[1..][1..] == [];
    }
    assert Filter(xs, CompletadaEnPanel) == [] by {
      assert xs[1..][1..] == [];
    }
  }

  /** The entries of one user's own bookings, slot by slot: what the counters should be computed from. */
  function EntradasPropias(horarios: seq<Horario>, idUsuario: string): seq<Entrada>
  {
    if horarios == [] then []
    else
      var n := |horarios| - 1;
      EntradasPropias(horarios[..n], idUsuario) + EntradasDe(Filter(horarios[n].historialReservas, x => DeUsuario(x, idUsuario)))
  }

  /** The dashboard counted over the user's own bookings. */
  function EstadisticasPropias(horarios: seq<Horario>, idUsuario: string): Estadisticas
  {
    EstadisticasDe(EntradasPropias(horarios, idUsuario))
  }

  /** Another user's booking of one of the slots leaves the corrected counters as they were. */
  lemma {:induction false} ReservaAjenaNoCuenta(horarios: seq<Horario>, idUsuario: string, i: nat, r: Reserva)
    requires i < |horarios| && r.idUsuario != idUsuario
    ensures var h := horarios[i].(historialReservas := horarios[i].historialReservas + [r]);
      && EntradasPropias(horarios[i := h], idUsuario) == EntradasPropias(horarios, idUsuario)
      && EstadisticasPropias(horarios[i := h], idUsuario) == EstadisticasPropias(horarios, idUsuario)
  {
    var h := horarios[i].(historialReservas := horarios[i].historialReservas + [r]);
    var n := |horarios| - 1;
    var t := horarios[i := h];
    assert t[..n] == if i < n then horarios[..n][i := h] else horarios[..n];
    if i < n {
      ReservaAjenaNoCuenta(horarios[..n], idUsuario, i, r);
    } else {
      FilterConcat(horarios[i].historialReservas, [r], x => DeUsuario(x, idUsuario));
      assert Filter([r], x => DeUsuario(x, idUsuario)) == [] by {
        assert [r][1..] == [];
      }
      var p := x => DeUsuario(x, idUsuario);
      assert Filter(h.historialReservas, p) == Filter(horarios[n].historialReservas, p);
      assert t[n] == h;
      assert EntradasPropias(t, idUsuario) == EntradasPropias(t[..n], idUsuario) + EntradasDe(Filter(h.historialReservas, p));
    }
  }
}
