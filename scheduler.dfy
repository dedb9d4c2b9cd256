/** The two hourly sweeps over the slot collection. */
module Scheduler {

  import opened Seqs
  import opened Modelo
  import opened Repositorio

  /** A slot the expiry sweep matches: still available although it has started. */
  predicate Expira(h: Horario, now: int)
  {
    h.disponible && h.fechaInicio < now
  }

  function Expirado(h: Horario, now: int): Horario
  {
    if Expira(h, now) then h.(disponible := false) else h
  }

  /** The collection after `updateMulti(disponible = true and fechaInicio < now, set disponible = false)`. */
  function Expirar(hs: seq<Horario>, now: int): seq<Horario>
  {
    if hs == [] then [] else Expirar(hs[..|hs| - 1], now) + [Expirado(hs[|hs| - 1], now)]
  }

  /** The expiry sweep clears `disponible` exactly on the matched slots and changes nothing else. */
  lemma {:induction false} ExpirarExacto(hs: seq<Horario>, now: int)
    ensures |Expirar(hs, now)| == |hs|
    ensures forall i :: 0 <= i < |hs| ==>
      Expirar(hs, now)[i].disponible == (hs[i].disponible && !(hs[i].fechaInicio < now))
      && Expirar(hs, now)[i].(disponible := hs[i].disponible) == hs[i]
  {
    if hs != [] {
      ExpirarExacto(hs[..|hs| - 1], now);
    }
  }

  /** After the sweep no slot is both available and started, and a second sweep changes nothing. */
  lemma ExpirarIdempotente(hs: seq<Horario>, now: int)
    ensures forall i :: 0 <= i < |Expirar(hs, now)| ==> !Expira(Expirar(hs, now)[i], now)
    ensures Expirar(Expirar(hs, now), now) == Expirar(hs, now)
  {
    ExpirarExacto(hs, now);
    var e := Expirar(hs, now);
    ExpirarExacto(e, now);
    assert Expirar(e, now) == e;
  }

  /** `actualizarHorariosExpirados` */
  method ActualizarHorariosExpirados(repo: HorarioRepo, now: int)
    requires repo.Valid()
    modifies repo
    ensures repo.Valid()
    ensures repo.horarios == Expirar(old(repo.horarios), now)
  {
    ExpirarExacto(repo.horarios, now);
    repo.horarios := Expirar(repo.horarios, now);
  }

  function AEsperando(r: Reserva): Reserva
  {
    if r.estado == PENDIENTE then r.(estado := ESPERANDO_ACCION_TUTOR) else r
  }

  /** Every pending entry, not only the live one, now waits for the tutor. */
  function MarcarEsperando(rs: seq<Reserva>): (r: seq<Reserva>)
    ensures |r| == |rs|
    ensures forall j :: 0 <= j < |rs| ==> r[j] == AEsperando(rs[j])
  {
    if rs == [] then [] else MarcarEsperando(rs[..|rs| - 1]) + [AEsperando(rs[|rs| - 1])]
  }

  /** The slots the pending sweep queries: ended, with a non-empty history. */
  predicate Vencido(h: Horario, now: int)
  {
    h.fechaFin < now && TieneReservas(h)
  }

  predicate AlgunaPendiente(rs: seq<Reserva>)
  {
    exists j :: 0 <= j < |rs| && rs[j].estado == PENDIENTE
  }

  function Barrido(h: Horario, now: int): Horario
  {
    if Vencido(h, now) then h.(historialReservas := MarcarEsperando(h.historialReservas)) else h
  }

  /** The collection after the pending sweep. */
  function BarrerPendientes(hs: seq<Horario>, now: int): (r: seq<Horario>)
    ensures |r| == |hs|
    ensures forall i :: 0 <= i < |hs| ==> r[i] == Barrido(hs[i], now)
  {
    if hs == [] then [] else BarrerPendientes(hs[..|hs| - 1], now) + [Barrido(hs[|hs| - 1], now)]
  }

  /** The ids of the slots the sweep writes back, in the order it writes them. */
  function GuardadosPorBarrido(hs: seq<Horario>, now: int): seq<string>
  {
    if hs == [] then []
    else
      var h := hs[|hs| - 1];
      GuardadosPorBarrido(hs[..|hs| - 1], now)
        + (if Vencido(h, now) && AlgunaPendiente(h.historialReservas) then [h.id] else [])
  }

  /** A history without pending entries is left as it is. */
  lemma SinPendientesSinCambio(rs: seq<Reserva>)
    requires !AlgunaPendiente(rs)
    ensures MarcarEsperando(rs) == rs
  {
  }

  lemma BarridoCoherente(h: Horario, now: int)
    requires HorarioCoherente(h)
    ensures HorarioCoherente(Barrido(h, now))
  {
  }

  /**
   * What the pending sweep does to one slot: histories keep their length, non-pending entries and
   * slots that have not ended are untouched, and an ended slot is left with no pending entry.
   */
  lemma BarridoExacto(h: Horario, now: int)
    ensures |Barrido(h, now).historialReservas| == |h.historialReservas|
    ensures Barrido(h, now).(historialReservas := h.historialReservas) == h
    ensures h.fechaFin >= now ==> Barrido(h, now) == h
    ensures forall k :: 0 <= k < |h.historialReservas| && h.historialReservas[k].estado != PENDIENTE ==>
      Barrido(h, now).historialReservas[k] == h.historialReservas[k]
    ensures Vencido(h, now) ==> !AlgunaPendiente(Barrido(h, now).historialReservas)
  {
  }

  /** A second pending sweep changes nothing. */
  lemma BarrerPendientesIdempotente(hs: seq<Horario>, now: int)
    ensures BarrerPendientes(BarrerPendientes(hs, now), now) == BarrerPendientes(hs, now)
  {
    var b := BarrerPendientes(hs, now);
    forall i | 0 <= i < |b| ensures Barrido(b[i], now) == b[i] {
      BarridoExacto(hs[i], now);
      if Vencido(b[i], now) {
        SinPendientesSinCambio(b[i].historialReservas);
      }
    }
  }

  /** The inner loop of the pending sweep: every pending entry moves on, and the flag records whether any did. */
  method MarcarPendientes(rs: seq<Reserva>) returns (nuevas: seq<Reserva>, actualizado: bool)
    ensures nuevas == MarcarEsperando(rs)
    ensures actualizado == AlgunaPendiente(rs)
  {
    nuevas := rs;
    actualizado := false;
    var k := 0;
    while k < |nuevas|
      invariant 0 <= k <= |nuevas| == |rs|
      invariant forall j :: 0 <= j < k ==> nuevas[j] == AEsperando(rs[j])
      invariant forall j :: k <= j < |rs| ==> nuevas[j] == rs[j]
      invariant actualizado <==> AlgunaPendiente(rs[..k])
    {
      assert rs[..k + 1][..k] == rs[..k];
      if nuevas[k].estado == PENDIENTE {
        nuevas := nuevas[k := nuevas[k].(estado := ESPERANDO_ACCION_TUTOR)];
        actualizado := true;
      }
      k := k + 1;
    }
    assert rs[..k] == rs;
  }

  /** `actualizarReservasPendientes`; returns the ids of the slots it saved. */
  method ActualizarReservasPendientes(repo: HorarioRepo, now: int) returns (guardados: seq<string>)
    requires repo.Valid()
    modifies repo
    ensures repo.Valid()
    ensures repo.horarios == BarrerPendientes(old(repo.horarios), now)
    ensures guardados == GuardadosPorBarrido(old(repo.horarios), now)
  {
    ghost var inicial := repo.horarios;
    var n := |repo.horarios|;
    guardados := [];
    var i := 0;
    while i < n
      invariant 0 <= i <= n && |inicial| == n
      invariant repo.Valid()
      invariant |repo.horarios| == n
      invariant forall j :: 0 <= j < i ==> repo.horarios[j] == Barrido(inicial[j], now)
      invariant forall j :: i <= j < n ==> repo.horarios[j] == inicial[j]
      invariant guardados == GuardadosPorBarrido(inicial[..i], now)
    {
      GuardadosSnoc(inicial, i, now);
      var guardado := BarrerHorario(repo, i, now);
      if guardado {
        guardados := guardados + [repo.horarios[i].id];
      }
      i := i + 1;
    }
    assert inicial[..n] == inicial;
  }

  /** The ids saved over a prefix one slot longer. */
  lemma GuardadosSnoc(hs: seq<Horario>, i: nat, now: int)
    requires i < |hs|
    ensures GuardadosPorBarrido(hs[..i + 1], now) == GuardadosPorBarrido(hs[..i], now)
      + (if Vencido(hs[i], now) && AlgunaPendiente(hs[i].historialReservas) then [hs[i].id] else [])
  {
    assert hs[..i + 1][..i] == hs[..i] && hs[..i + 1][i] == hs[i];
  }

  /** The loop body for slot `i`: an ended slot with a pending entry gets them all marked and is saved. */
  method BarrerHorario(repo: HorarioRepo, i: nat, now: int) returns (guardado: bool)
    requires repo.Valid() && i < |repo.horarios|
    modifies repo
    ensures repo.Valid()
    ensures repo.horarios == old(repo.horarios)[i := Barrido(old(repo.horarios)[i], now)]
    ensures guardado == (Vencido(old(repo.horarios)[i], now) && AlgunaPendiente(old(repo.horarios)[i].historialReservas))
    ensures repo.horarios[i].id == old(repo.horarios)[i].id
  {
    var h := repo.horarios[i];
    guardado := false;
    if Vencido(h, now) {
      var rs, actualizado := MarcarPendientes(h.historialReservas);
      if actualizado {
        var nuevo := h.(historialReservas := rs);
        BarridoCoherente(h, now);
        repo.GuardarEn(i, nuevo);
        guardado := true;
      } else {
        SinPendientesSinCambio(h.historialReservas);
        assert Barrido(h, now) == h;
      }
    }
  }


}
