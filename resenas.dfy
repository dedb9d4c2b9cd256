/** Reviews of tutors: eligibility, creation, editing, the queries and the average rating. */
module Resenas {

  import opened Wrappers
  import opened Seqs
  import opened Modelo
  import opened Repositorio

  function SumaPuntuaciones(rs: seq<Resena>): int
  {
    if rs == [] then 0 else SumaPuntuaciones(rs[..|rs| - 1]) + rs[|rs| - 1].puntuacion
  }

  /** The stored average: 5.0 without reviews, otherwise the mean of the integer scores. */
  function Promedio(rs: seq<Resena>): (p: real)
    ensures rs == [] ==> p == 5.0
    ensures rs != [] ==> p * |rs| as real == SumaPuntuaciones(rs) as real
  {
    if rs == [] then 5.0 else SumaPuntuaciones(rs) as real / |rs| as real
  }

  lemma {:induction false} SumaAcotada(rs: seq<Resena>, lo: int, hi: int)
    requires forall k :: 0 <= k < |rs| ==> lo <= rs[k].puntuacion <= hi
    ensures lo * |rs| <= SumaPuntuaciones(rs) <= hi * |rs|
  {
    if rs != [] {
      SumaAcotada(rs[..|rs| - 1], lo, hi);
    }
  }

  /** The mean of scores within `[lo, hi]` lies within `[lo, hi]`; in particular between the lowest and the highest score. */
  lemma PromedioAcotado(rs: seq<Resena>, lo: int, hi: int)
    requires rs != []
    requires forall k :: 0 <= k < |rs| ==> lo <= rs[k].puntuacion <= hi
    ensures lo as real <= Promedio(rs) <= hi as real
  {
    SumaAcotada(rs, lo, hi);
    MediaAcotada(SumaPuntuaciones(rs), |rs|, lo, hi);
  }

  /** A sum of `m` values within `[lo, hi]` divided by `m` lies within `[lo, hi]`. */
  lemma MediaAcotada(suma: int, m: int, lo: int, hi: int)
    requires m > 0 && lo * m <= suma <= hi * m
    ensures lo as real <= suma as real / m as real <= hi as real
  {
    var n := m as real;
    var p := suma as real / n;
    assert p * n == suma as real;
    IntARealMul(lo, m);
    IntARealMul(hi, m);
    FactorPositivo(lo as real, p, n);
    FactorPositivo(p, hi as real, n);
  }

  lemma IntARealMul(a: int, b: int)
    ensures (a * b) as real == (a as real) * (b as real)
  {
  }

  lemma FactorPositivo(a: real, b: real, n: real)
    requires n > 0.0 && a * n <= b * n
    ensures a <= b
  {
  }

  /** `getResenasDeTutorPorId`; a `null` review list is the empty list. */
  function GetResenasDeTutorPorId(usuarios: seq<Usuario>, idTutor: string): (r: Result<seq<Resena>, Error>)
    ensures Buscar(usuarios, IdUsuario, idTutor).None? ==> r == Err(UsuarioNoEncontrado)
    ensures Buscar(usuarios, IdUsuario, idTutor).Some? ==>
      var u := usuarios[Buscar(usuarios, IdUsuario, idTutor).value];
      (!EsTutorValido(u) ==> r == Err(TutorNoValido))
      && (EsTutorValido(u) ==> r == Ok(u.tutor.value.resenas))
  {
    match Buscar(usuarios, IdUsuario, idTutor)
    case None => Err(UsuarioNoEncontrado)
    case Some(j) =>
      var u := usuarios[j];
      if u.rol != TUTOR || u.tutor.None? then Err(TutorNoValido) else Ok(u.tutor.value.resenas)
  }

  function DtoResena(u: Usuario, r: Resena): ResenasDTO
  {
    ResenasDTO(r.idResena, u.id, u.nombre + " " + u.apellido, r.puntuacion, r.comentario)
  }

  /** The stream over one tutor's reviews: those written by `autor`, as DTOs. */
  function DtosDe(u: Usuario, rs: seq<Resena>, autor: string): (r: seq<ResenasDTO>)
    ensures forall d :: d in r <==> exists x :: x in rs && x.autorId == autor && d == DtoResena(u, x)
  {
    if rs == [] then []
    else
      var x := rs[|rs| - 1];
      assert forall y :: y in rs <==> y in rs[..|rs| - 1] || y == x;
      DtosDe(u, rs[..|rs| - 1], autor) + (if x.autorId == autor then [DtoResena(u, x)] else [])
  }

  /** What the loop of `obtenerResenasHechas` collects from the given tutors, in their order. */
  function ResenasHechas(tutores: seq<Usuario>, autor: string): seq<ResenasDTO>
  {
    if tutores == [] then []
    else
      var u := tutores[|tutores| - 1];
      ResenasHechas(tutores[..|tutores| - 1], autor)
        + (match u.tutor case None => [] case Some(t) => DtosDe(u, t.resenas, autor))
  }

  /** "My reviews" lists exactly the reviews, held by a valid tutor, whose author is the requester. */
  lemma {:induction false} ResenasHechasExactas(tutores: seq<Usuario>, autor: string)
    ensures forall d :: d in ResenasHechas(tutores, autor) <==>
      exists u, x :: u in tutores && u.tutor.Some? && x in u.tutor.value.resenas && x.autorId == autor && d == DtoResena(u, x)
  {
    if tutores != [] {
      var n := |tutores| - 1;
      ResenasHechasExactas(tutores[..n], autor);
      assert forall v :: v in tutores <==> v in tutores[..n] || v == tutores[n];
    }
  }

  /** `obtenerResenasHechas` */
  method ObtenerResenasHechas(usuarios: seq<Usuario>, solicitante: Usuario) returns (resultado: seq<ResenasDTO>)
    ensures resultado == ResenasHechas(Filter(usuarios, EsTutorValido), solicitante.id)
    ensures forall d :: d in resultado <==>
      exists u, x :: u in usuarios && EsTutorValido(u) && x in u.tutor.value.resenas && x.autorId == solicitante.id
                     && d == DtoResena(u, x)
  {
    var tutores := Filter(usuarios, EsTutorValido);
    resultado := [];
    var i := 0;
    while i < |tutores|
      invariant 0 <= i <= |tutores|
      invariant resultado == ResenasHechas(tutores[..i], solicitante.id)
    {
      assert tutores[..i + 1][..i] == tutores[..i];
      assert tutores[i] in tutores;
      var datos := tutores[i].tutor.value;
      resultado := resultado + DtosDe(tutores[i], datos.resenas, solicitante.id);
      i := i + 1;
    }
    assert tutores[..i] == tutores;
    ResenasHechasExactas(tutores, solicitante.id);
  }

  /** The tutor user with the average of its reviews stored. */
  function ConPromedio(u: Usuario): Usuario
    requires u.tutor.Some?
  {
    u.(tutor := Some(u.tutor.value.(califiacionPromedio := Promedio(u.tutor.value.resenas))))
  }

  /** `obtenerPromedioResenasDeTutor`: computes the average and stores it in the tutor profile. */
  method ObtenerPromedioResenasDeTutor(repo: UsuarioRepo, idTutor: string) returns (res: Result<real, Error>)
    requires repo.Valid()
    modifies repo
    ensures repo.Valid()
    ensures res.Err? ==> repo.usuarios == old(repo.usuarios)
    ensures match Buscar(old(repo.usuarios), IdUsuario, idTutor)
      case None => res == Err(UsuarioNoEncontrado)
      case Some(j) =>
        var u := old(repo.usuarios)[j];
        if !EsTutorValido(u) then res == Err(TutorNoValido)
        else res == Ok(Promedio(u.tutor.value.resenas)) && repo.usuarios == old(repo.usuarios)[j := ConPromedio(u)]
  {
    var encontrado := Buscar(repo.usuarios, IdUsuario, idTutor);
    if encontrado.None? {
      return Err(UsuarioNoEncontrado);
    }
    var j := encontrado.value;
    var u := repo.usuarios[j];
    if u.rol != TUTOR || u.tutor.None? {
      return Err(TutorNoValido);
    }
    var datos := u.tutor.value;
    var promedio := if datos.resenas == [] then 5.0 else SumaPuntuaciones(datos.resenas) as real / |datos.resenas| as real;
    u := u.(tutor := Some(datos.(califiacionPromedio := promedio)));
    repo.GuardarEn(j, u);
    return Ok(promedio);
  }

  datatype SolicitudResena = SolicitudResena(idHorario: string, puntuacion: Option<int>, comentario: Option<string>)

  /** The score check `crearResena` makes first: a missing score or one outside 0..5 is refused. */
  predicate PuntuacionRechazada(p: Option<int>)
  {
    p.None? || p.value < 0 || p.value > 5
  }

  /**
   * `Stream.max` by `fecha`: the index of the latest entry; among entries with the same date the
   * first one wins, since the reduction keeps its accumulator on ties.
   */
  function IndiceMasReciente(rs: seq<Reserva>): (k: nat)
    requires rs != []
    ensures k < |rs|
    ensures forall j :: 0 <= j < |rs| ==> rs[j].fecha <= rs[k].fecha
    ensures forall j :: 0 <= j < k ==> rs[j].fecha < rs[k].fecha
  {
    if |rs| == 1 then 0
    else
      var a := IndiceMasReciente(rs[..|rs| - 1]);
      if rs[a].fecha >= rs[|rs| - 1].fecha then a else |rs| - 1
  }

  predicate DeUsuario(r: Reserva, idUsuario: string)
  {
    r.idUsuario == idUsuario
  }

  /** The requester's latest booking of the slot, if they ever booked it. */
  function ReservaDelUsuario(h: Horario, idUsuario: string): (r: Option<Reserva>)
    ensures r.None? <==> !exists k :: 0 <= k < |h.historialReservas| && h.historialReservas[k].idUsuario == idUsuario
    ensures r.Some? ==> r.value in h.historialReservas && r.value.idUsuario == idUsuario
    ensures r.Some? ==> forall x :: x in h.historialReservas && x.idUsuario == idUsuario ==> x.fecha <= r.value.fecha
  {
    var propias := Filter(h.historialReservas, x => DeUsuario(x, idUsuario));
    if propias == [] then
      NadieSinPropias(h.historialReservas, idUsuario);
      None
    else
      var k := IndiceMasReciente(propias);
      assert propias[k] in propias;
      MasRecienteDeTodas(h.historialReservas, idUsuario, k);
      Some(propias[k])
  }

  lemma NadieSinPropias(rs: seq<Reserva>, idUsuario: string)
    requires Filter(rs, x => DeUsuario(x, idUsuario)) == []
    ensures forall k :: 0 <= k < |rs| ==> rs[k].idUsuario != idUsuario
  {
    forall k | 0 <= k < |rs| ensures rs[k].idUsuario != idUsuario {
      assert rs[k] in rs;
      assert rs[k] !in Filter(rs, x => DeUsuario(x, idUsuario));
    }
  }

  lemma MasRecienteDeTodas(rs: seq<Reserva>, idUsuario: string, k: nat)
    requires Filter(rs, x => DeUsuario(x, idUsuario)) != []
    requires k == IndiceMasReciente(Filter(rs, x => DeUsuario(x, idUsuario)))
    ensures forall x :: x in rs && x.idUsuario == idUsuario ==> x.fecha <= Filter(rs, x => DeUsuario(x, idUsuario))[k].fecha
  {
    var propias := Filter(rs, x => DeUsuario(x, idUsuario));
    forall x | x in rs && x.idUsuario == idUsuario ensures x.fecha <= propias[k].fecha {
      assert x in propias;
      var j :| 0 <= j < |propias| && propias[j] == x;
    }
  }

  /** The tutor user with review `r` appended and the average then recomputed. */
  function ConResena(u: Usuario, r: Resena): Usuario
    requires u.tutor.Some?
  {
    var t := u.tutor.value;
    u.(tutor := Some(t.(resenas := t.resenas + [r], califiacionPromedio := Promedio(t.resenas + [r]))))
  }

  /**
   * `crearResena`. There is no duplicate check: an author may review the same tutor again.
   * `idResena` is the random UUID the new review gets.
   */
  method CrearResena(horarioRepo: HorarioRepo, repo: UsuarioRepo, solicitante: Usuario, solicitud: SolicitudResena,
                     now: int, idResena: string)
    returns (res: Result<Resena, Error>)
    requires repo.Valid()
    modifies repo
    ensures repo.Valid()
    ensures res.Err? ==> repo.usuarios == old(repo.usuarios)
    ensures match Buscar(horarioRepo.horarios, IdHorario, solicitud.idHorario)
      case None => res == Err(HorarioNoEncontrado)
      case Some(i) =>
        var h := horarioRepo.horarios[i];
        if PuntuacionRechazada(solicitud.puntuacion)
        then res == Err(CalificacionInvalida)
        else if h.historialNulo then res == Err(ReferenciaNula)
        else if ReservaDelUsuario(h, solicitante.id).None? then res == Err(NoHaReservado)
        else if ReservaDelUsuario(h, solicitante.id).value.estado != COMPLETADA then res == Err(NoCompletada)
        else match Buscar(old(repo.usuarios), IdUsuario, h.idTutor)
          case None => res == Err(UsuarioNoEncontrado)
          case Some(j) =>
            var u := old(repo.usuarios)[j];
            if !EsTutorValido(u) then res == Err(TutorNoValido)
            else
              res == Ok(Resena(idResena, solicitante.id, solicitud.puntuacion.value, solicitud.comentario, now))
              && repo.usuarios == old(repo.usuarios)[j := ConResena(u, res.value)]
  {
    var encontrado := Buscar(horarioRepo.horarios, IdHorario, solicitud.idHorario);
    if encontrado.None? {
      return Err(HorarioNoEncontrado);
    }
    var h := horarioRepo.horarios[encontrado.value];
    if PuntuacionRechazada(solicitud.puntuacion) {
      return Err(CalificacionInvalida);
    }
    if h.historialNulo {
      return Err(ReferenciaNula);
    }
    var reserva := ReservaDelUsuario(h, solicitante.id);
    if reserva.None? {
      return Err(NoHaReservado);
    }
    if reserva.value.estado != COMPLETADA {
      return Err(NoCompletada);
    }
    var nueva := Resena(idResena, solicitante.id, solicitud.puntuacion.value, solicitud.comentario, now);
    res := AgregarResenaATutor(repo, h.idTutor, nueva);
  }

  /** The tail of `crearResena`: the review is appended to the slot's tutor and the average is recomputed. */
  method AgregarResenaATutor(repo: UsuarioRepo, idTutor: string, nueva: Resena) returns (res: Result<Resena, Error>)
    requires repo.Valid()
    modifies repo
    ensures repo.Valid()
    ensures res.Err? ==> repo.usuarios == old(repo.usuarios)
    ensures match Buscar(old(repo.usuarios), IdUsuario, idTutor)
      case None => res == Err(UsuarioNoEncontrado)
      case Some(j) =>
        var u := old(repo.usuarios)[j];
        if !EsTutorValido(u) then res == Err(TutorNoValido)
        else res == Ok(nueva) && repo.usuarios == old(repo.usuarios)[j := ConResena(u, nueva)]
  {
    var tutorEncontrado := Buscar(repo.usuarios, IdUsuario, idTutor);
    if tutorEncontrado.None? {
      return Err(UsuarioNoEncontrado);
    }
    var j := tutorEncontrado.value;
    var u := repo.usuarios[j];
    if u.rol != TUTOR || u.tutor.None? {
      return Err(TutorNoValido);
    }
    var t := u.tutor.value;
    u := u.(tutor := Some(t.(resenas := t.resenas + [nueva])));
    repo.GuardarEn(j, u);
    BuscarUnica(repo.usuarios, IdUsuario, j);
    var promedio := ObtenerPromedioResenasDeTutor(repo, u.id);
    return Ok(nueva);
  }

  datatype ModificarResena = ModificarResena(id: string, puntuacion: Option<int>, comentario: Option<string>)

  predicate EsLaResena(r: Resena, id: string)
  {
    r.idResena == id
  }

  /** A user with a tutor profile (whatever its role) holding a review with this id. */
  predicate TieneLaResena(u: Usuario, id: string)
  {
    u.tutor.Some? && exists x :: x in u.tutor.value.resenas && x.idResena == id
  }

  /** The review with the non-null fields of the request written over it; the score is not re-validated. */
  function Editada(r: Resena, solicitud: ModificarResena): Resena
  {
    r.(puntuacion := if solicitud.puntuacion.Some? then solicitud.puntuacion.value else r.puntuacion,
       comentario := if solicitud.comentario.Some? then solicitud.comentario else r.comentario)
  }

  /** `modificarResena`: only the author edits; the stored average is left as it was. */
  method ModificarResenaDe(repo: UsuarioRepo, solicitante: Usuario, solicitud: ModificarResena)
    returns (res: Result<ResenasDTO, Error>)
    requires repo.Valid()
    modifies repo
    ensures repo.Valid()
    ensures res.Err? ==> repo.usuarios == old(repo.usuarios)
    ensures match PrimerIndice(old(repo.usuarios), u => TieneLaResena(u, solicitud.id))
      case None => res == Err(ResenaNoEncontrada)
      case Some(j) =>
        var u := old(repo.usuarios)[j];
        var t := u.tutor.value;
        var k := PrimerIndice(t.resenas, x => EsLaResena(x, solicitud.id)).value;
        if t.resenas[k].autorId != solicitante.id then res == Err(SinPermisoResena)
        else
          var editada := Editada(t.resenas[k], solicitud);
          res == Ok(DtoResena(u, editada))
          && repo.usuarios == old(repo.usuarios)[j := u.(tutor := Some(t.(resenas := t.resenas[k := editada])))]
  {
    var encontrado := PrimerIndice(repo.usuarios, u => TieneLaResena(u, solicitud.id));
    if encontrado.None? {
      return Err(ResenaNoEncontrada);
    }
    var j := encontrado.value;
    var u := repo.usuarios[j];
    var t := u.tutor.value;
    var posicion := PrimerIndice(t.resenas, x => EsLaResena(x, solicitud.id));
    if posicion.None? {
      assert false;
      return Err(ResenaNoEncontrada);
    }
    var k := posicion.value;
    var resena := t.resenas[k];
    if resena.autorId != solicitante.id {
      return Err(SinPermisoResena);
    }
    if solicitud.puntuacion.Some? {
      resena := resena.(puntuacion := solicitud.puntuacion.value);
    }
    if solicitud.comentario.Some? {
      resena := resena.(comentario := solicitud.comentario);
    }
    u := u.(tutor := Some(t.(resenas := t.resenas[k := resena])));
    repo.GuardarEn(j, u);
    return Ok(DtoResena(u, resena));
  }
}
