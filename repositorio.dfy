/**
 * The two Mongo collections as in-memory stores. `findAll` order is the order of the sequence,
 * `findById` is the first document with that id and `save` replaces the document with the same
 * id or appends a new one.
 */
module Repositorio {

  import opened Wrappers
  import opened Seqs
  import opened Modelo

  /** `stream().filter(p).findFirst()`: the index of the first element satisfying `p`. */
  function PrimerIndice<T>(s: seq<T>, p: T -> bool): (r: Option<nat>)
    ensures r.Some? ==> r.value < |s| && p(s[r.value])
    ensures r.Some? ==> forall j :: 0 <= j < r.value ==> !p(s[j])
    ensures r.None? <==> forall j :: 0 <= j < |s| ==> !p(s[j])
  {
    if s == [] then None
    else if p(s[0]) then Some(0)
    else match PrimerIndice(s[1..], p)
      case None => None
      case Some(k) => Some(k + 1)
  }

  /** `findById` and `findByNombreUsuario`: the first document whose key is `valor`. */
  function Buscar<T>(s: seq<T>, clave: T -> string, valor: string): (r: Option<nat>)
    ensures r.Some? ==> r.value < |s| && clave(s[r.value]) == valor
    ensures r.Some? ==> forall j :: 0 <= j < r.value ==> clave(s[j]) != valor
    ensures r.None? <==> forall j :: 0 <= j < |s| ==> clave(s[j]) != valor
  {
    PrimerIndice(s, x => clave(x) == valor)
  }

  predicate ClavesUnicas<T>(s: seq<T>, clave: T -> string)
  {
    forall i, j :: 0 <= i < j < |s| ==> clave(s[i]) != clave(s[j])
  }

  /** With unique keys, looking an element's own key up finds that element. */
  lemma BuscarUnica<T>(s: seq<T>, clave: T -> string, i: nat)
    requires ClavesUnicas(s, clave) && i < |s|
    ensures Buscar(s, clave, clave(s[i])) == Some(i)
  {
  }

  /** Replacing an element by one with the same key keeps the keys unique. */
  lemma ReemplazoMismaClave<T>(s: seq<T>, clave: T -> string, i: nat, x: T)
    requires ClavesUnicas(s, clave) && i < |s| && clave(x) == clave(s[i])
    ensures ClavesUnicas(s[i := x], clave)
  {
    var t := s[i := x];
    forall a, b | 0 <= a < b < |t| ensures clave(t[a]) != clave(t[b]) {
      assert clave(t[a]) == clave(s[a]) && clave(t[b]) == clave(s[b]);
    }
  }

  /** Appending an element whose key no element holds keeps the keys unique. */
  lemma AgregarClaveNueva<T>(s: seq<T>, clave: T -> string, x: T)
    requires ClavesUnicas(s, clave) && Buscar(s, clave, clave(x)).None?
    ensures ClavesUnicas(s + [x], clave)
  {
    var t := s + [x];
    forall a, b | 0 <= a < b < |t| ensures clave(t[a]) != clave(t[b]) {
      if b < |s| {
        assert t[a] == s[a] && t[b] == s[b];
      }
    }
  }

  /**
   * The booking invariant kept by every operation: a missing history has no entries, only the live
   * booking may be pending, and an available slot has none pending.
   */
  predicate ReservasCoherentes(h: Horario)
  {
    (h.historialNulo ==> h.historialReservas == [])
    && (forall k :: 0 <= k < |h.historialReservas| - 1 ==> h.historialReservas[k].estado != PENDIENTE)
    && (h.disponible && TieneReservas(h) ==> Ultima(h).estado != PENDIENTE)
  }

  /** A stored slot ends after it starts and keeps the booking invariant. */
  predicate HorarioCoherente(h: Horario)
  {
    h.fechaInicio < h.fechaFin && ReservasCoherentes(h)
  }

  predicate EsPendiente(r: Reserva)
  {
    r.estado == PENDIENTE
  }

  /** A coherent slot has at most one pending booking at a time. */
  lemma AlMasUnaPendiente(h: Horario)
    requires ReservasCoherentes(h)
    ensures Count(h.historialReservas, EsPendiente) <= 1
  {
    var hs := h.historialReservas;
    if hs != [] {
      var n := |hs| - 1;
      FilterNone(hs[..n], EsPendiente);
      assert hs == hs[..n] + [hs[n]];
      FilterConcat(hs[..n], [hs[n]], EsPendiente);
    }
  }

  predicate TodosCoherentes(hs: seq<Horario>)
  {
    forall j :: 0 <= j < |hs| ==> HorarioCoherente(hs[j])
  }

  /** Writing back a coherent slot under its own id keeps a valid store valid. */
  lemma ReemplazarHorario(hs: seq<Horario>, i: nat, h: Horario)
    requires ClavesUnicas(hs, IdHorario) && TodosCoherentes(hs)
    requires i < |hs| && h.id == hs[i].id && HorarioCoherente(h)
    ensures ClavesUnicas(hs[i := h], IdHorario) && TodosCoherentes(hs[i := h])
  {
    ReemplazoMismaClave(hs, IdHorario, i, h);
  }

  class HorarioRepo {
    var horarios: seq<Horario>

    ghost predicate Valid()
      reads this
    {
      ClavesUnicas(horarios, IdHorario) && TodosCoherentes(horarios)
    }

    constructor ()
      ensures Valid() && horarios == []
    {
      horarios := [];
    }

    /** `horarioRepositorio.save(h)`. */
    method Guardar(h: Horario)
      modifies this
      ensures match Buscar(old(horarios), IdHorario, h.id)
        case Some(i) => horarios == old(horarios)[i := h]
        case None => horarios == old(horarios) + [h]
    {
      match Buscar(horarios, IdHorario, h.id)
      case Some(i) => horarios := horarios[i := h];
      case None => horarios := horarios + [h];
    }

    /** `save` of a slot read at index `i` and still coherent: it lands where it was read from. */
    method GuardarEn(i: nat, h: Horario)
      requires Valid() && i < |horarios| && h.id == horarios[i].id && HorarioCoherente(h)
      modifies this
      ensures Valid() && horarios == old(horarios)[i := h]
    {
      ReemplazarHorario(horarios, i, h);
      BuscarUnica(horarios, IdHorario, i);
      Guardar(h);
    }
  }

  function NombreUsuarioDe(u: Usuario): string { u.nombreUsuario }

  /** Writing back a user under its own id and user name keeps a valid store valid. */
  lemma ReemplazarUsuario(us: seq<Usuario>, i: nat, u: Usuario)
    requires ClavesUnicas(us, IdUsuario) && ClavesUnicas(us, NombreUsuarioDe)
    requires i < |us| && u.id == us[i].id && u.nombreUsuario == us[i].nombreUsuario
    ensures ClavesUnicas(us[i := u], IdUsuario) && ClavesUnicas(us[i := u], NombreUsuarioDe)
  {
    ReemplazoMismaClave(us, IdUsuario, i, u);
    ReemplazoMismaClave(us, NombreUsuarioDe, i, u);
  }

  /**
   * Writing back a user under its own id with a user name that only documents with that id hold
   * keeps a valid store valid.
   */
  lemma RenombrarUsuario(us: seq<Usuario>, i: nat, u: Usuario)
    requires ClavesUnicas(us, IdUsuario) && ClavesUnicas(us, NombreUsuarioDe)
    requires i < |us| && u.id == us[i].id
    requires forall j :: 0 <= j < |us| && us[j].nombreUsuario == u.nombreUsuario ==> us[j].id == u.id
    ensures ClavesUnicas(us[i := u], IdUsuario) && ClavesUnicas(us[i := u], NombreUsuarioDe)
  {
    ReemplazoMismaClave(us, IdUsuario, i, u);
    var t := us[i := u];
    forall a, b | 0 <= a < b < |t| ensures NombreUsuarioDe(t[a]) != NombreUsuarioDe(t[b]) {
      if a != i && b != i {
        assert t[a] == us[a] && t[b] == us[b];
      } else if a == i {
        assert t[b] == us[b];
      } else {
        assert t[a] == us[a];
      }
    }
  }

  class UsuarioRepo {
    var usuarios: seq<Usuario>

    /** Ids are unique, and so are user names (a unique index). */
    ghost predicate Valid()
      reads this
    {
      ClavesUnicas(usuarios, IdUsuario) && ClavesUnicas(usuarios, NombreUsuarioDe)
    }

    constructor ()
      ensures Valid() && usuarios == []
    {
      usuarios := [];
    }

    /** `usuarioRepositorio.save(u)`. */
    method Guardar(u: Usuario)
      modifies this
      ensures match Buscar(old(usuarios), IdUsuario, u.id)
        case Some(i) => usuarios == old(usuarios)[i := u]
        case None => usuarios == old(usuarios) + [u]
    {
      match Buscar(usuarios, IdUsuario, u.id)
      case Some(i) => usuarios := usuarios[i := u];
      case None => usuarios := usuarios + [u];
    }

    /** `save` of a user read at index `i` whose id and user name are unchanged. */
    method GuardarEn(i: nat, u: Usuario)
      requires Valid() && i < |usuarios| && u.id == usuarios[i].id && u.nombreUsuario == usuarios[i].nombreUsuario
      modifies this
      ensures Valid() && usuarios == old(usuarios)[i := u]
    {
      ReemplazarUsuario(usuarios, i, u);
      BuscarUnica(usuarios, IdUsuario, i);
      Guardar(u);
    }
  }
}
