/**
 * `TutorServicio`: the public tutor projection, promotion of a user to tutor, the tutor's own
 * profile update and the two soft deactivations. The requester `usuarioActual` is the document the
 * authentication filter loaded from the store for this request.
 */
module Tutores {

  import opened Wrappers
  import opened Modelo
  import opened Repositorio
  import opened Resenas

  /** `mapToTutorDTO`: `null` for a `null` user and for anyone who is not a valid tutor. */
  function MapToTutorDTO(u: Option<Usuario>): (r: Option<TutorDTO>)
    ensures r.Some? <==> u.Some? && EsTutorValido(u.value)
    ensures r.Some? ==>
      var x, t := u.value, u.value.tutor.value;
      && r.value.idTutor == x.id && r.value.nombre == x.nombre && r.value.apellido == x.apellido
      && r.value.correo == x.correo && r.value.telefono == x.telefono && r.value.fotoPerfil == x.fotoPerfil
      && r.value.bio == t.bio && r.value.precioHora == t.precioHora && r.value.experiencia == t.experiencia
      && r.value.materias == t.materias && r.value.resenas == t.resenas
      && r.value.califiacionPromedio == t.califiacionPromedio
  {
    match u
    case None => None
    case Some(x) =>
      if x.rol != TUTOR || x.tutor.None? then None
      else
        var t := x.tutor.value;
        Some(TutorDTO(x.id, x.nombre, x.apellido, x.correo, x.telefono, x.fotoPerfil,
                      t.bio, t.precioHora, t.experiencia, t.materias, t.califiacionPromedio, t.resenas))
  }

  /** `getTutores`: one entry per stored user, in store order, `null` where the user is no tutor. */
  function GetTutores(usuarios: seq<Usuario>): (r: seq<Option<TutorDTO>>)
    ensures |r| == |usuarios|
    ensures forall i :: 0 <= i < |r| ==> (r[i].Some? <==> EsTutorValido(usuarios[i]))
    ensures forall i :: 0 <= i < |r| && r[i].Some? ==> r[i].value.idTutor == usuarios[i].id
  {
    if usuarios == [] then []
    else GetTutores(usuarios[..|usuarios| - 1]) + [MapToTutorDTO(Some(usuarios[|usuarios| - 1]))]
  }

  /** `getTutorPorId`: the projection of the user with that id, who must be a valid tutor. */
  function GetTutorPorId(usuarios: seq<Usuario>, id: string): (r: Result<TutorDTO, Error>)
    ensures match Buscar(usuarios, IdUsuario, id)
      case None => r == Err(UsuarioNoEncontrado)
      case Some(i) =>
        if EsTutorValido(usuarios[i]) then r.Ok? && MapToTutorDTO(Some(usuarios[i])) == Some(r.value)
        else r == Err(NoEsTutor)
  {
    match Buscar(usuarios, IdUsuario, id)
    case None => Err(UsuarioNoEncontrado)
    case Some(i) =>
      var u := usuarios[i];
      if u.rol != TUTOR || u.tutor.None? then Err(NoEsTutor)
      else Ok(MapToTutorDTO(Some(u)).value)
  }

  /** With unique ids the lookup succeeds exactly for the id of a valid tutor, and yields that tutor's listing entry. */
  lemma GetTutorPorIdEnListado(usuarios: seq<Usuario>, id: string)
    requires ClavesUnicas(usuarios, IdUsuario)
    ensures GetTutorPorId(usuarios, id).Ok? <==> exists i :: 0 <= i < |usuarios| && usuarios[i].id == id && EsTutorValido(usuarios[i])
    ensures GetTutorPorId(usuarios, id).Ok? ==> Some(GetTutorPorId(usuarios, id).value) in GetTutores(usuarios)
  {
    var r := GetTutorPorId(usuarios, id);
    match Buscar(usuarios, IdUsuario, id)
    case None =>
    case Some(i) =>
      forall j | 0 <= j < |usuarios| && usuarios[j].id == id ensures j == i {
        assert IdUsuario(usuarios[j]) == IdUsuario(usuarios[i]);
      }
      if r.Ok? {
        DtoPorPosicion(usuarios, i);
        assert GetTutores(usuarios)[i] == Some(r.value);
      }
  }

  /** The position of the requester's document in the store. */
  function IndiceDe(usuarios: seq<Usuario>, u: Usuario): (i: nat)
    requires ClavesUnicas(usuarios, IdUsuario) && u in usuarios
    ensures i < |usuarios| && usuarios[i] == u && Buscar(usuarios, IdUsuario, u.id) == Some(i)
  {
    PosicionDe(usuarios, u);
    Buscar(usuarios, IdUsuario, u.id).value
  }

  lemma PosicionDe(usuarios: seq<Usuario>, u: Usuario)
    requires ClavesUnicas(usuarios, IdUsuario) && u in usuarios
    ensures Buscar(usuarios, IdUsuario, u.id).Some? && usuarios[Buscar(usuarios, IdUsuario, u.id).value] == u
  {
    var j :| 0 <= j < |usuarios| && usuarios[j] == u;
    BuscarUnica(usuarios, IdUsuario, j);
  }

  /** The body of a tutor-profile request; `precioHora` is a boxed `Double` and a `null` list is empty. */
  datatype SolicitudTutor = SolicitudTutor(bio: Option<string>, precioHora: Option<real>, experiencia: Option<string>, materias: seq<Materia>)

  /** A new tutor profile: active, the requested fields, no reviews and the default average 5.0. */
  function TutorNuevo(s: SolicitudTutor): (t: Tutor)
    requires s.precioHora.Some?
    ensures t.activo && t.resenas == [] && t.califiacionPromedio == Promedio(t.resenas)
  {
    Tutor(true, s.bio, s.precioHora.value, s.experiencia, s.materias, 5.0, [])
  }

  /**
   * `crearTutor`. A user who is already a valid tutor is refused; anyone else, a former tutor
   * included, gets a fresh profile and role `TUTOR`. Unboxing a `null` price throws before the save.
   */
  method CrearTutor(repo: UsuarioRepo, solicitud: SolicitudTutor, usuarioActual: Usuario) returns (res: Result<Tutor, Error>)
    requires repo.Valid() && usuarioActual in repo.usuarios
    modifies repo
    ensures repo.Valid()
    ensures res.Err? ==> repo.usuarios == old(repo.usuarios)
    ensures EsTutorValido(usuarioActual) ==> res == Err(YaEsTutor)
    ensures !EsTutorValido(usuarioActual) && solicitud.precioHora.None? ==> res == Err(ReferenciaNula)
    ensures !EsTutorValido(usuarioActual) && solicitud.precioHora.Some? ==>
      res == Ok(TutorNuevo(solicitud))
      && repo.usuarios == old(repo.usuarios)[IndiceDe(old(repo.usuarios), usuarioActual) :=
                                              usuarioActual.(tutor := Some(res.value), rol := TUTOR)]
  {
    if usuarioActual.rol == TUTOR && usuarioActual.tutor.Some? {
      return Err(YaEsTutor);
    }
    if solicitud.precioHora.None? {
      return Err(ReferenciaNula);
    }
    var tutor := Tutor(true, solicitud.bio, solicitud.precioHora.value, solicitud.experiencia, solicitud.materias, 5.0, []);
    var i := IndiceDe(repo.usuarios, usuarioActual);
    repo.GuardarEn(i, usuarioActual.(tutor := Some(tutor), rol := TUTOR));
    return Ok(tutor);
  }

  /** The profile after the tutor's own update: the four editable fields replaced, reviews and average kept. */
  function ConInfo(t: Tutor, s: SolicitudTutor): (r: Tutor)
    requires s.precioHora.Some?
    ensures r.resenas == t.resenas && r.califiacionPromedio == t.califiacionPromedio && r.activo == t.activo
  {
    t.(bio := s.bio, precioHora := s.precioHora.value, experiencia := s.experiencia, materias := s.materias)
  }

  /**
   * `ActualizarInfoTutorMismoUsuario`: `null` (here `Ok(None)`) for a requester who is no valid
   * tutor, otherwise the request echoed back after the save.
   */
  method ActualizarInfoTutorMismoUsuario(repo: UsuarioRepo, usuarioActual: Usuario, nuevaInfo: SolicitudTutor)
    returns (res: Result<Option<SolicitudTutor>, Error>)
    requires repo.Valid() && usuarioActual in repo.usuarios
    modifies repo
    ensures repo.Valid()
    ensures res != Ok(Some(nuevaInfo)) ==> repo.usuarios == old(repo.usuarios)
    ensures !EsTutorValido(usuarioActual) ==> res == Ok(None)
    ensures EsTutorValido(usuarioActual) && nuevaInfo.precioHora.None? ==> res == Err(ReferenciaNula)
    ensures EsTutorValido(usuarioActual) && nuevaInfo.precioHora.Some? ==>
      res == Ok(Some(nuevaInfo))
      && repo.usuarios == old(repo.usuarios)[IndiceDe(old(repo.usuarios), usuarioActual) :=
                                              usuarioActual.(tutor := Some(ConInfo(usuarioActual.tutor.value, nuevaInfo)))]
  {
    if usuarioActual.rol != TUTOR || usuarioActual.tutor.None? {
      return Ok(None);
    }
    if nuevaInfo.precioHora.None? {
      return Err(ReferenciaNula);
    }
    var tutor := usuarioActual.tutor.value;
    tutor := tutor.(bio := nuevaInfo.bio, precioHora := nuevaInfo.precioHora.value, experiencia := nuevaInfo.experiencia,
                    materias := nuevaInfo.materias);
    var i := IndiceDe(repo.usuarios, usuarioActual);
    repo.GuardarEn(i, usuarioActual.(tutor := Some(tutor)));
    return Ok(Some(nuevaInfo));
  }

  /** A tutor after a soft deactivation: profile inactive, role back to `ESTUDIANTE`. */
  function Desactivado(u: Usuario): (r: Usuario)
    requires u.tutor.Some?
    ensures r.tutor.Some? && !r.tutor.value.activo && r.rol == ESTUDIANTE
    ensures r.tutor.value.resenas == u.tutor.value.resenas
  {
    u.(tutor := Some(u.tutor.value.(activo := false)), rol := ESTUDIANTE)
  }

  /** A deactivated tutor disappears from the public listing but keeps the reviews. */
  lemma DesactivadoFueraDelListado(usuarios: seq<Usuario>, i: nat)
    requires i < |usuarios| && usuarios[i].tutor.Some?
    ensures GetTutores(usuarios[i := Desactivado(usuarios[i])])[i].None?
    ensures forall j :: 0 <= j < |usuarios| && j != i ==>
      GetTutores(usuarios[i := Desactivado(usuarios[i])])[j] == GetTutores(usuarios)[j]
  {
    var t := usuarios[i := Desactivado(usuarios[i])];
    assert !EsTutorValido(t[i]);
    var a, b := GetTutores(t), GetTutores(usuarios);
    forall j | 0 <= j < |usuarios| && j != i ensures a[j] == b[j] {
      assert t[j] == usuarios[j];
      DtoPorPosicion(t, j);
      DtoPorPosicion(usuarios, j);
    }
  }

  /** The listing entry at a position is the projection of the user there. */
  lemma {:induction false} DtoPorPosicion(usuarios: seq<Usuario>, j: nat)
    requires j < |usuarios|
    ensures GetTutores(usuarios)[j] == MapToTutorDTO(Some(usuarios[j]))
  {
    if j < |usuarios| - 1 {
      DtoPorPosicion(usuarios[..|usuarios| - 1], j);
    }
  }

  /**
   * An administrator deactivates a tutor by id and the same user then asks to be a tutor again:
   * the request is accepted and the user is a tutor anew, with a fresh profile whose old reviews
   * and average are gone. Nothing else in the store changes.
   */
  method RecrearTrasDesactivar(repo: UsuarioRepo, i: nat, solicitud: SolicitudTutor) returns (res: Result<Tutor, Error>)
    requires repo.Valid() && i < |repo.usuarios| && EsTutorValido(repo.usuarios[i]) && solicitud.precioHora.Some?
    modifies repo
    ensures repo.Valid()
    ensures res == Ok(TutorNuevo(solicitud)) && res.value.resenas == [] && res.value.califiacionPromedio == 5.0
    ensures repo.usuarios == old(repo.usuarios)[i := old(repo.usuarios)[i].(tutor := Some(res.value), rol := TUTOR)]
  {
    var id := repo.usuarios[i].id;
    BuscarUnica(repo.usuarios, IdUsuario, i);
    var desactivado := DesactivarTutorPorId(repo, id);
    var usuario := repo.usuarios[i];
    assert !EsTutorValido(usuario);
    res := CrearTutor(repo, solicitud, usuario);
  }

  /** `tutorSeDesactivaElMismo`. */
  method TutorSeDesactivaElMismo(repo: UsuarioRepo, usuario: Usuario) returns (desactivado: bool)
    requires repo.Valid() && usuario in repo.usuarios
    modifies repo
    ensures repo.Valid()
    ensures desactivado <==> EsTutorValido(usuario)
    ensures !desactivado ==> repo.usuarios == old(repo.usuarios)
    ensures desactivado ==> repo.usuarios == old(repo.usuarios)[IndiceDe(old(repo.usuarios), usuario) := Desactivado(usuario)]
  {
    if usuario.rol == TUTOR && usuario.tutor.Some? {
      var i := IndiceDe(repo.usuarios, usuario);
      repo.GuardarEn(i, usuario.(tutor := Some(usuario.tutor.value.(activo := false)), rol := ESTUDIANTE));
      return true;
    }
    return false;
  }

  /** `desactivarTutorPorId`: false, with nothing changed, for an unknown id or a user who is no valid tutor. */
  method DesactivarTutorPorId(repo: UsuarioRepo, idUsuarioTutor: string) returns (desactivado: bool)
    requires repo.Valid()
    modifies repo
    ensures repo.Valid()
    ensures !desactivado ==> repo.usuarios == old(repo.usuarios)
    ensures match Buscar(old(repo.usuarios), IdUsuario, idUsuarioTutor)
      case None => !desactivado
      case Some(i) =>
        (desactivado <==> EsTutorValido(old(repo.usuarios)[i]))
        && (desactivado ==> repo.usuarios == old(repo.usuarios)[i := Desactivado(old(repo.usuarios)[i])])
  {
    var encontrado := Buscar(repo.usuarios, IdUsuario, idUsuarioTutor);
    if encontrado.None? {
      return false;
    }
    var i := encontrado.value;
    var usuario := repo.usuarios[i];
    if usuario.rol != TUTOR || usuario.tutor.None? {
      return false;
    }
    repo.GuardarEn(i, usuario.(tutor := Some(usuario.tutor.value.(activo := false)), rol := ESTUDIANTE));
    return true;
  }
}
