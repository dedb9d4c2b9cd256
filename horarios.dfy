/** Slot management by tutors and the public listing of available slots with its filters. */
module Horarios {

  import opened Wrappers
  import opened Seqs
  import opened Texto
  import opened Modelo
  import opened Repositorio

  /** `mapToHorarioDisponibleDTO`: `None` stands for the `null` the listing carries for a slot it hides. */
  function MapToHorarioDisponibleDTO(usuarios: seq<Usuario>, h: Horario): (r: Result<Option<HorarioDisponibleDTO>, Error>)
    ensures r.Err? <==> Buscar(usuarios, IdUsuario, h.idTutor).None?
    ensures r.Err? ==> r.error == UsuarioNoEncontrado
    ensures r.Ok? ==>
      var u := usuarios[Buscar(usuarios, IdUsuario, h.idTutor).value];
      (r.value.Some? <==> EsTutorValido(u) && h.disponible)
      && (r.value.Some? ==>
        var d := r.value.value;
        d.id == h.id && d.idTutor == h.idTutor && d.fechaInicio == h.fechaInicio && d.fechaFin == h.fechaFin
        && d.tutorNombreApellido == u.nombre + " " + u.apellido
        && d.precioHora == u.tutor.value.precioHora
        && d.califiacionPromedio == u.tutor.value.califiacionPromedio
        && d.materias == u.tutor.value.materias)
  {
    match Buscar(usuarios, IdUsuario, h.idTutor)
    case None => Err(UsuarioNoEncontrado)
    case Some(j) =>
      var u := usuarios[j];
      if u.rol != TUTOR || u.tutor.None? then Ok(None)
      else if !h.disponible then Ok(None)
      else
        var t := u.tutor.value;
        Ok(Some(HorarioDisponibleDTO(h.id, h.idTutor, u.nombre + " " + u.apellido, t.precioHora,
                                     t.califiacionPromedio, t.materias, h.fechaInicio, h.fechaFin)))
  }

  /** `obtenerTodosLosHorariosDisponibles`: one element per stored slot, in store order, or the lookup failure. */
  function ObtenerTodosLosHorariosDisponibles(horarios: seq<Horario>, usuarios: seq<Usuario>)
    : (r: Result<seq<Option<HorarioDisponibleDTO>>, Error>)
    ensures r.Err? <==> exists i :: 0 <= i < |horarios| && MapToHorarioDisponibleDTO(usuarios, horarios[i]).Err?
    ensures r.Ok? ==> (|r.value| == |horarios|
      && forall i :: 0 <= i < |horarios| ==> r.value[i] == MapToHorarioDisponibleDTO(usuarios, horarios[i]).value)
  {
    MapFalible(horarios, (h: Horario) => MapToHorarioDisponibleDTO(usuarios, h))
  }

  /** The query parameters of the slot search; `None` is an absent parameter. */
  datatype Filtros = Filtros(
    materia: Option<string>,
    precioMin: Option<real>,
    precioMax: Option<real>,
    calificacionMin: Option<real>,
    calificacionMax: Option<real>,
    nombreTutor: Option<string>,
    fechaInicio: Option<int>,
    fechaFin: Option<int>)

  predicate TextoActivo(t: Option<string>)
  {
    t.Some? && t.value != ""
  }

  /** Some filter dereferences the element it is given. */
  predicate AlgunFiltroActivo(f: Filtros)
  {
    TextoActivo(f.materia) || f.precioMin.Some? || f.precioMax.Some? || f.calificacionMin.Some?
    || f.calificacionMax.Some? || TextoActivo(f.nombreTutor) || f.fechaInicio.Some? || f.fechaFin.Some?
  }

  /** The seven stream filters, for a non-null element; `normalizar` strips accents and lower-cases. */
  predicate PasaFiltros(f: Filtros, d: HorarioDisponibleDTO, normalizar: string -> string)
  {
    (!TextoActivo(f.materia)
     || exists m :: m in d.materias && m.nombre.Some? && Contiene(normalizar(m.nombre.value), normalizar(f.materia.value)))
    && (f.precioMin.None? || d.precioHora >= f.precioMin.value)
    && (f.precioMax.None? || d.precioHora <= f.precioMax.value)
    && (f.calificacionMin.None? || d.califiacionPromedio >= f.calificacionMin.value)
    && (f.calificacionMax.None? || d.califiacionPromedio <= f.calificacionMax.value)
    && (!TextoActivo(f.nombreTutor) || Contiene(normalizar(d.tutorNombreApellido), normalizar(f.nombreTutor.value)))
    && (f.fechaInicio.None? || d.fechaInicio >= f.fechaInicio.value)
    && (f.fechaFin.None? || d.fechaFin <= f.fechaFin.value)
  }

  /** An element survives the stream: a `null` only gets through when no filter looks at it. */
  predicate Conserva(f: Filtros, o: Option<HorarioDisponibleDTO>, normalizar: string -> string)
  {
    o.None? || PasaFiltros(f, o.value, normalizar)
  }

  /**
   * `obtenerHorariosFiltrados`. A `null` element reaching an active filter throws,
   * so with any filter active a hidden slot turns the whole search into an error.
   */
  function ObtenerHorariosFiltrados(horarios: seq<Horario>, usuarios: seq<Usuario>, f: Filtros, normalizar: string -> string)
    : (r: Result<seq<Option<HorarioDisponibleDTO>>, Error>)
    ensures var todos := ObtenerTodosLosHorariosDisponibles(horarios, usuarios);
      (todos.Err? ==> r == todos)
      && (todos.Ok? && AlgunFiltroActivo(f) && None in todos.value ==> r == Err(ReferenciaNula))
      && (todos.Ok? && !AlgunFiltroActivo(f) ==> r == todos)
      && (r.Err? <==> todos.Err? || (AlgunFiltroActivo(f) && None in todos.value))
      && (r.Ok? ==> (todos.Ok? && IsSubseq(r.value, todos.value)
          && (forall o :: o in r.value <==> o in todos.value && Conserva(f, o, normalizar))
          && forall o :: multiset(r.value)[o] == if Conserva(f, o, normalizar) then multiset(todos.value)[o] else 0))
  {
    match ObtenerTodosLosHorariosDisponibles(horarios, usuarios)
    case Err(e) => Err(e)
    case Ok(todos) =>
      if AlgunFiltroActivo(f) && None in todos then Err(ReferenciaNula)
      else
        var r := Filter(todos, o => Conserva(f, o, normalizar));
        FilterMultiset(todos, o => Conserva(f, o, normalizar));
        if !AlgunFiltroActivo(f) then
          FilterAll(todos, o => Conserva(f, o, normalizar));
          Ok(r)
        else Ok(r)
  }

  /** The price, rating and date bounds of the search are inclusive. */
  lemma FiltradoRespetaCotas(horarios: seq<Horario>, usuarios: seq<Usuario>, f: Filtros, normalizar: string -> string, d: HorarioDisponibleDTO)
    requires ObtenerHorariosFiltrados(horarios, usuarios, f, normalizar).Ok?
    requires Some(d) in ObtenerHorariosFiltrados(horarios, usuarios, f, normalizar).value
    ensures f.precioMin.Some? ==> f.precioMin.value <= d.precioHora
    ensures f.precioMax.Some? ==> d.precioHora <= f.precioMax.value
    ensures f.calificacionMin.Some? ==> f.calificacionMin.value <= d.califiacionPromedio
    ensures f.calificacionMax.Some? ==> d.califiacionPromedio <= f.calificacionMax.value
    ensures f.fechaInicio.Some? ==> f.fechaInicio.value <= d.fechaInicio
    ensures f.fechaFin.Some? ==> d.fechaFin <= f.fechaFin.value
  {
    assert Conserva(f, Some(d), normalizar);
  }

  /** `encontrarHorariosSolapados`: a slot of the same tutor overlaps `[inicio, fin)`. */
  predicate Solapa(h: Horario, idTutor: string, inicio: int, fin: int)
  {
    h.idTutor == idTutor && h.fechaInicio < fin && h.fechaFin > inicio
  }

  function HorariosSolapados(horarios: seq<Horario>, idTutor: string, inicio: int, fin: int): (r: seq<Horario>)
    ensures forall h :: h in r <==> h in horarios && Solapa(h, idTutor, inicio, fin)
  {
    Filter(horarios, h => Solapa(h, idTutor, inicio, fin))
  }

  /** Two slots of one tutor that share some instant. */
  predicate SeCruzan(a: Horario, b: Horario)
  {
    a.idTutor == b.idTutor && a.fechaInicio < b.fechaFin && b.fechaInicio < a.fechaFin
  }

  /** No tutor has two slots that overlap. */
  predicate SinCruces(horarios: seq<Horario>)
  {
    forall i, j :: 0 <= i < j < |horarios| ==> !SeCruzan(horarios[i], horarios[j])
  }

  datatype SolicitudHorario = SolicitudHorario(fechaInicio: Option<int>, fechaFin: Option<int>)

  /** `crearHorarioTutoria`; `nuevoId` is the id the store assigns to the new document. */
  method CrearHorarioTutoria(repo: HorarioRepo, usuario: Usuario, solicitud: SolicitudHorario, now: int, nuevoId: string)
    returns (res: Result<Horario, Error>)
    requires repo.Valid() && Buscar(repo.horarios, IdHorario, nuevoId).None?
    modifies repo
    ensures repo.Valid()
    ensures res.Err? ==> repo.horarios == old(repo.horarios)
    ensures !EsTutorValido(usuario) ==> res == Err(SoloTutorHorarios)
    ensures EsTutorValido(usuario) ==>
      if solicitud.fechaInicio.None? || solicitud.fechaFin.None? || solicitud.fechaFin.value <= solicitud.fechaInicio.value
      then res == Err(FechasInvalidas)
      else
        var inicio, fin := solicitud.fechaInicio.value, solicitud.fechaFin.value;
        if exists k :: 0 <= k < |old(repo.horarios)| && Solapa(old(repo.horarios)[k], usuario.id, inicio, fin)
        then res == Err(HorarioSolapado)
        else if now >= inicio then res == Err(FechaPasada)
        else
          res == Ok(Horario(nuevoId, usuario.id, inicio, fin, true, [], true))
          && repo.horarios == old(repo.horarios) + [res.value]
    ensures SinCruces(old(repo.horarios)) ==> SinCruces(repo.horarios)
  {
    if usuario.rol != TUTOR || usuario.tutor.None? {
      return Err(SoloTutorHorarios);
    }
    if solicitud.fechaInicio.None? || solicitud.fechaFin.None? || solicitud.fechaFin.value <= solicitud.fechaInicio.value {
      return Err(FechasInvalidas);
    }
    var inicio, fin := solicitud.fechaInicio.value, solicitud.fechaFin.value;
    var solapados := HorariosSolapados(repo.horarios, usuario.id, inicio, fin);
    if solapados != [] {
      assert solapados[0] in solapados;
      return Err(HorarioSolapado);
    }
    forall k | 0 <= k < |repo.horarios| ensures !Solapa(repo.horarios[k], usuario.id, inicio, fin) {
      assert repo.horarios[k] in repo.horarios;
    }
    if now >= inicio {
      return Err(FechaPasada);
    }
    var h := Horario(nuevoId, usuario.id, inicio, fin, true, [], true);
    repo.Guardar(h);
    return Ok(h);
  }

  /** `modificarHorarioTutoria`: a new start is mandatory (a `null` one throws), a `null` end keeps the old one. */
  method ModificarHorarioTutoria(repo: HorarioRepo, usuario: Usuario, idHorario: string, datos: SolicitudHorario, now: int)
    returns (res: Result<Horario, Error>)
    requires repo.Valid()
    modifies repo
    ensures repo.Valid()
    ensures res.Err? ==> repo.horarios == old(repo.horarios)
    ensures !EsTutorValido(usuario) ==> res == Err(SoloTutorHorarios)
    ensures EsTutorValido(usuario) ==> match Buscar(old(repo.horarios), IdHorario, idHorario)
      case None => res == Err(HorarioNoEncontrado)
      case Some(i) =>
        var h := old(repo.horarios)[i];
        if h.idTutor != usuario.id then res == Err(NoEsDuenoDelHorario)
        else if datos.fechaInicio.None? then res == Err(ReferenciaNula)
        else if now >= datos.fechaInicio.value then res == Err(FechaPasada)
        else
          var fin := if datos.fechaFin.Some? then datos.fechaFin.value else h.fechaFin;
          if fin <= datos.fechaInicio.value then res == Err(FechasInvalidas)
          else
            res == Ok(h.(fechaInicio := datos.fechaInicio.value, fechaFin := fin))
            && repo.horarios == old(repo.horarios)[i := res.value]
  {
    if usuario.rol != TUTOR || usuario.tutor.None? {
      return Err(SoloTutorHorarios);
    }
    var encontrado := Buscar(repo.horarios, IdHorario, idHorario);
    if encontrado.None? {
      return Err(HorarioNoEncontrado);
    }
    var i := encontrado.value;
    var h := repo.horarios[i];
    if h.idTutor != usuario.id {
      return Err(NoEsDuenoDelHorario);
    }
    if datos.fechaInicio.None? {
      return Err(ReferenciaNula);
    }
    if now >= datos.fechaInicio.value {
      return Err(FechaPasada);
    }
    h := h.(fechaInicio := datos.fechaInicio.value);
    if datos.fechaFin.Some? {
      h := h.(fechaFin := datos.fechaFin.value);
    }
    if h.fechaFin <= h.fechaInicio {
      return Err(FechasInvalidas);
    }
    repo.GuardarEn(i, h);
    return Ok(h);
  }

  /** Modifying does not re-check overlaps: moving a slot onto another of the same tutor is accepted. */
  lemma ModificarNoConservaSinCruces()
    ensures exists hs: seq<Horario>, inicio: int, fin: int ::
      |hs| == 2 && SinCruces(hs) && inicio < fin
      && !SinCruces(hs[1 := hs[1].(fechaInicio := inicio, fechaFin := fin)])
  {
    var a := Horario("h1", "t1", 0, 60, true, [], true);
    var b := Horario("h2", "t1", 120, 180, true, [], true);
    var hs := [a, b];
    assert !SeCruzan(hs[0], hs[1]);
    var movido := hs[1 := b.(fechaInicio := 30, fechaFin := 90)];
    assert SeCruzan(movido[0], movido[1]);
  }

  /** `desactivarHorarioTutoria`: an unknown id answers `false`, the owner's slot becomes unavailable. */
  method DesactivarHorarioTutoria(repo: HorarioRepo, usuario: Usuario, idHorario: string)
    returns (res: Result<bool, Error>)
    requires repo.Valid()
    modifies repo
    ensures repo.Valid()
    ensures res != Ok(true) ==> repo.horarios == old(repo.horarios)
    ensures !EsTutorValido(usuario) ==> res == Err(SoloTutorHorarios)
    ensures EsTutorValido(usuario) ==> match Buscar(old(repo.horarios), IdHorario, idHorario)
      case None => res == Ok(false)
      case Some(i) =>
        var h := old(repo.horarios)[i];
        if h.idTutor != usuario.id then res == Err(NoEsDuenoDelHorario)
        else res == Ok(true) && repo.horarios == old(repo.horarios)[i := h.(disponible := false)]
    ensures res.Ok? ==> forall k :: 0 <= k < |repo.horarios| && repo.horarios[k].id == idHorario ==> !repo.horarios[k].disponible
  {
    if usuario.rol != TUTOR || usuario.tutor.None? {
      return Err(SoloTutorHorarios);
    }
    var encontrado := Buscar(repo.horarios, IdHorario, idHorario);
    if encontrado.None? {
      return Ok(false);
    }
    var i := encontrado.value;
    var h := repo.horarios[i];
    if h.idTutor != usuario.id {
      return Err(NoEsDuenoDelHorario);
    }
    h := h.(disponible := false);
    repo.GuardarEn(i, h);
    return Ok(true);
  }
}
