/**
 * `UsuarioServicio`: the field validator shared by registration and update, the two soft deletes
 * and the DTO projection of a user. Password hashing is the parameter `encode`.
 */
module Usuarios {

  import opened Wrappers
  import opened Texto
  import opened Modelo
  import opened Repositorio

  /** `toDTO`: the public projection, without e-mail, phone, password or tutor profile. */
  function Dto(u: Usuario): UsuarioDTO
  {
    UsuarioDTO(u.id, u.nombre, u.apellido, u.nombreUsuario, u.fotoPerfil, u.activo, u.rol)
  }

  /** `toDTO` on a possibly `null` user. */
  function ToDTO(u: Option<Usuario>): (r: Option<UsuarioDTO>)
    ensures r.None? <==> u.None?
    ensures r.Some? ==>
      && r.value.id == u.value.id && r.value.nombre == u.value.nombre && r.value.apellido == u.value.apellido
      && r.value.nombreUsuario == u.value.nombreUsuario && r.value.fotoPerfil == u.value.fotoPerfil
      && r.value.activo == u.value.activo && r.value.rol == u.value.rol
  {
    match u
    case None => None
    case Some(x) => Some(Dto(x))
  }

  /** `getUsuarioById`: the projection of the first user with that id, `null` when there is none. */
  function GetUsuarioById(usuarios: seq<Usuario>, id: string): (r: Option<UsuarioDTO>)
    ensures r.None? <==> forall j :: 0 <= j < |usuarios| ==> usuarios[j].id != id
    ensures r.Some? ==>
      exists j :: 0 <= j < |usuarios| && usuarios[j].id == id
        && (forall k :: 0 <= k < j ==> usuarios[k].id != id) && r == ToDTO(Some(usuarios[j]))
  {
    match Buscar(usuarios, IdUsuario, id)
    case None => ToDTO(None)
    case Some(i) => ToDTO(Some(usuarios[i]))
  }

  /** The projection reveals nothing of the e-mail, the phone, the password or the tutor profile. */
  lemma ToDTONoRevela(u: Usuario, correo: string, telefono: string, password: string, tutor: Option<Tutor>)
    ensures ToDTO(Some(u)) == ToDTO(Some(u.(correo := correo, telefono := telefono, password := password, tutor := tutor)))
  {
  }

  /** The characters of the class `[A-Za-z0-9+_.-]`. */
  predicate CaracterLocal(c: char)
  {
    ('A' <= c <= 'Z') || ('a' <= c <= 'z') || ('0' <= c <= '9') || c == '+' || c == '_' || c == '.' || c == '-'
  }

  /** The line terminators that the regular-expression `.` of Java does not match. */
  predicate FinDeLinea(c: char)
  {
    c == '\n' || c == '\r' || c == '\U{0085}' || c == '\U{2028}' || c == '\U{2029}'
  }

  /**
   * Matcher for `^[A-Za-z0-9+_.-]+@(.+)$`, reading left to right; `n` local-part characters have
   * been read. Since `@` is not in the local class, the first `@` ends the local part.
   */
  predicate CorreoDesde(s: string, n: nat)
  {
    if s == [] then false
    else if s[0] == '@' then n > 0 && |s| > 1 && forall k :: 1 <= k < |s| ==> !FinDeLinea(s[k])
    else CaracterLocal(s[0]) && CorreoDesde(s[1..], n + 1)
  }

  /** `correo.matches("^[A-Za-z0-9+_.-]+@(.+)$")`. */
  predicate CorreoValido(s: string)
  {
    CorreoDesde(s, 0)
  }

  /** The pattern read declaratively: a split at an `@` with a non-empty local part and a non-empty one-line rest. */
  ghost predicate CorreoSegunPatron(s: string)
  {
    exists k :: 0 < k < |s| - 1 && s[k] == '@'
      && (forall j :: 0 <= j < k ==> CaracterLocal(s[j]))
      && (forall j :: k < j < |s| ==> !FinDeLinea(s[j]))
  }

  /** The pattern read from position `n` of the local part: an `@` at `k` splits the rest. */
  ghost predicate PatronDesde(s: string, n: nat, k: int)
  {
    0 <= k < |s| - 1 && n + k > 0 && s[k] == '@'
      && (forall j :: 0 <= j < k ==> CaracterLocal(s[j]))
      && (forall j :: k < j < |s| ==> !FinDeLinea(s[j]))
  }

  lemma CorreoDesdeSegunPatron(s: string, n: nat)
    ensures CorreoDesde(s, n) <==> exists k :: PatronDesde(s, n, k)
  {
    if CorreoDesde(s, n) {
      var k := CorreoDesdeDaPatron(s, n);
    }
    if exists k :: PatronDesde(s, n, k) {
      var k :| PatronDesde(s, n, k);
      PatronDaCorreoDesde(s, n, k);
    }
  }

  /** An accepted address has its split: the first `@`. */
  lemma {:induction false} CorreoDesdeDaPatron(s: string, n: nat) returns (k: int)
    requires CorreoDesde(s, n)
    ensures PatronDesde(s, n, k)
  {
    if s[0] == '@' {
      k := 0;
    } else {
      var t := s[1..];
      var k' := CorreoDesdeDaPatron(t, n + 1);
      k := k' + 1;
      forall j | 0 <= j < k ensures CaracterLocal(s[j]) {
        if j > 0 { assert s[j] == t[j - 1]; }
      }
      forall j | k < j < |s| ensures !FinDeLinea(s[j]) {
        assert s[j] == t[j - 1];
      }
    }
  }

  /** A split the pattern allows makes the matcher accept. */
  lemma {:induction false} PatronDaCorreoDesde(s: string, n: nat, k: int)
    requires PatronDesde(s, n, k)
    ensures CorreoDesde(s, n)
  {
    if k > 0 {
      assert CaracterLocal(s[0]);
      var t := s[1..];
      forall j | 0 <= j < k - 1 ensures CaracterLocal(t[j]) {
        assert t[j] == s[j + 1];
      }
      forall j | k - 1 < j < |t| ensures !FinDeLinea(t[j]) {
        assert t[j] == s[j + 1];
      }
      PatronDaCorreoDesde(t, n + 1, k - 1);
    }
  }

  /** The matcher accepts exactly the addresses the pattern describes. */
  lemma CorreoValidoSegunPatron(s: string)
    ensures CorreoValido(s) <==> CorreoSegunPatron(s)
  {
    CorreoDesdeSegunPatron(s, 0);
    if CorreoSegunPatron(s) {
      var k :| 0 < k < |s| - 1 && s[k] == '@'
        && (forall j :: 0 <= j < k ==> CaracterLocal(s[j]))
        && (forall j :: k < j < |s| ==> !FinDeLinea(s[j]));
      assert PatronDesde(s, 0, k);
    }
  }

  /** `telefono.matches("^[0-9]{7,15}$")`. */
  predicate TelefonoValido(s: string)
  {
    7 <= |s| <= 15 && forall k :: 0 <= k < |s| ==> '0' <= s[k] <= '9'
  }

  /**
   * The user-name check: `findByNombreUsuario(nombre)` finds nobody, or finds the user being
   * updated (`idActual` is `null` on registration).
   */
  predicate NombreUsuarioLibre(usuarios: seq<Usuario>, nombre: string, idActual: Option<string>)
  {
    match Buscar(usuarios, NombreUsuarioDe, nombre)
    case None => true
    case Some(i) => idActual.Some? && usuarios[i].id == idActual.value
  }

  /** With unique user names the check rejects a name exactly when a user with another id holds it. */
  lemma NombreUsuarioLibreExacto(usuarios: seq<Usuario>, nombre: string, idActual: Option<string>)
    requires ClavesUnicas(usuarios, NombreUsuarioDe)
    ensures NombreUsuarioLibre(usuarios, nombre, idActual) <==>
      forall j :: 0 <= j < |usuarios| && usuarios[j].nombreUsuario == nombre ==> idActual == Some(usuarios[j].id)
  {
    match Buscar(usuarios, NombreUsuarioDe, nombre)
    case None =>
    case Some(i) =>
      forall j | 0 <= j < |usuarios| && usuarios[j].nombreUsuario == nombre ensures j == i {
        assert NombreUsuarioDe(usuarios[j]) == NombreUsuarioDe(usuarios[i]);
      }
  }

  /** A name that passes the check for `id` is held, if at all, only by the document with that id. */
  lemma NombreLibreSoloPropio(usuarios: seq<Usuario>, nombre: string, id: string)
    requires ClavesUnicas(usuarios, NombreUsuarioDe) && NombreUsuarioLibre(usuarios, nombre, Some(id))
    ensures forall j :: 0 <= j < |usuarios| && usuarios[j].nombreUsuario == nombre ==> usuarios[j].id == id
  {
    NombreUsuarioLibreExacto(usuarios, nombre, Some(id));
  }

  /** A user who keeps their own user name on update passes the check. */
  lemma PropioNombreLibre(usuarios: seq<Usuario>, i: nat)
    requires ClavesUnicas(usuarios, NombreUsuarioDe) && i < |usuarios|
    ensures NombreUsuarioLibre(usuarios, usuarios[i].nombreUsuario, Some(usuarios[i].id))
  {
    BuscarUnica(usuarios, NombreUsuarioDe, i);
  }

  /** The fields of a registration request or of an update body; every one may be `null`. */
  datatype DatosUsuario = DatosUsuario(
    nombre: Option<string>,
    apellido: Option<string>,
    correo: Option<string>,
    telefono: Option<string>,
    fotoPerfil: Option<string>,
    nombreUsuario: Option<string>,
    password: Option<string>)

  /** All required fields are present and not blank; the password only when it is required. */
  predicate CamposCompletos(d: DatosUsuario, passwordObligatoria: bool)
  {
    !EsNuloOVacio(d.nombre) && !EsNuloOVacio(d.apellido) && !EsNuloOVacio(d.correo)
    && !EsNuloOVacio(d.telefono) && !EsNuloOVacio(d.nombreUsuario)
    && !(passwordObligatoria && EsNuloOVacio(d.password))
  }

  /** `null`, or made only of characters that Java `trim()` removes. */
  ghost predicate EnBlanco(s: Option<string>)
  {
    s.None? || forall k :: 0 <= k < |s.value| ==> s.value[k] <= ' '
  }

  lemma EsNuloOVacioEnBlanco(s: Option<string>)
    ensures EsNuloOVacio(s) <==> EnBlanco(s)
  {
    if s.Some? {
      RecortarVacio(s.value, EsBlancoJava);
    }
  }

  /** Every rule of `validarCamposUsuario`, stated on its own. */
  ghost predicate CamposAceptables(d: DatosUsuario, passwordObligatoria: bool, verificarUnico: bool, idActual: Option<string>,
                                   usuarios: seq<Usuario>)
  {
    !EnBlanco(d.nombre) && !EnBlanco(d.apellido) && !EnBlanco(d.correo) && !EnBlanco(d.telefono)
    && !EnBlanco(d.nombreUsuario) && !(passwordObligatoria && EnBlanco(d.password))
    && CorreoSegunPatron(d.correo.value)
    && TelefonoValido(d.telefono.value)
    && ' ' !in d.nombreUsuario.value
    && (EnBlanco(d.password) || LongitudUtf16(d.password.value) >= 6)
    && (verificarUnico ==> NombreUsuarioLibre(usuarios, d.nombreUsuario.value, idActual))
  }

  /** `validarCamposUsuario`: the checks run in source order and the first one that fails decides the exception. */
  function ValidarCamposUsuario(d: DatosUsuario, passwordObligatoria: bool, verificarUnico: bool, idActual: Option<string>,
                                usuarios: seq<Usuario>): Outcome<Error>
  {
    if !CamposCompletos(d, passwordObligatoria) then Fail(CamposObligatorios)
    else if !CorreoValido(d.correo.value) then Fail(CorreoInvalido)
    else if !TelefonoValido(d.telefono.value) then Fail(TelefonoInvalido)
    else if Contiene(d.nombreUsuario.value, " ") then Fail(UsuarioConEspacios)
    else if !EsNuloOVacio(d.password) && LongitudUtf16(d.password.value) < 6 then Fail(PasswordCorta)
    else if verificarUnico && !NombreUsuarioLibre(usuarios, d.nombreUsuario.value, idActual) then Fail(NombreUsuarioEnUso)
    else Pass
  }

  /**
   * The validator accepts exactly the fields that meet every rule, reports missing fields before
   * anything else, and a malformed address right after.
   */
  lemma ValidarCamposUsuarioCorrecto(d: DatosUsuario, passwordObligatoria: bool, verificarUnico: bool, idActual: Option<string>,
                                     usuarios: seq<Usuario>)
    ensures var r := ValidarCamposUsuario(d, passwordObligatoria, verificarUnico, idActual, usuarios);
      && (r.Pass? <==> CamposAceptables(d, passwordObligatoria, verificarUnico, idActual, usuarios))
      && (r == Fail(CamposObligatorios) <==> !CamposCompletos(d, passwordObligatoria))
      && (CamposCompletos(d, passwordObligatoria) && !CorreoSegunPatron(d.correo.value) ==> r == Fail(CorreoInvalido))
  {
    var r := ValidarCamposUsuario(d, passwordObligatoria, verificarUnico, idActual, usuarios);
    CamposCompletosEnBlanco(d, passwordObligatoria);
    if !CamposCompletos(d, passwordObligatoria) {
      assert r == Fail(CamposObligatorios);
    } else {
      ReglasDeCamposCompletos(d);
      if !CorreoValido(d.correo.value) {
        assert r == Fail(CorreoInvalido);
      } else if !TelefonoValido(d.telefono.value) {
        assert r == Fail(TelefonoInvalido);
      } else if Contiene(d.nombreUsuario.value, " ") {
        assert r == Fail(UsuarioConEspacios);
      } else if !EsNuloOVacio(d.password) && LongitudUtf16(d.password.value) < 6 {
        assert r == Fail(PasswordCorta);
      } else if verificarUnico && !NombreUsuarioLibre(usuarios, d.nombreUsuario.value, idActual) {
        assert r == Fail(NombreUsuarioEnUso);
      } else {
        assert r == Pass;
      }
    }
  }

  /** Completeness through `EnBlanco`. */
  lemma CamposCompletosEnBlanco(d: DatosUsuario, passwordObligatoria: bool)
    ensures CamposCompletos(d, passwordObligatoria) <==>
      !EnBlanco(d.nombre) && !EnBlanco(d.apellido) && !EnBlanco(d.correo) && !EnBlanco(d.telefono)
      && !EnBlanco(d.nombreUsuario) && !(passwordObligatoria && EnBlanco(d.password))
    ensures EsNuloOVacio(d.password) <==> EnBlanco(d.password)
  {
    EsNuloOVacioEnBlanco(d.nombre);
    EsNuloOVacioEnBlanco(d.apellido);
    EsNuloOVacioEnBlanco(d.correo);
    EsNuloOVacioEnBlanco(d.telefono);
    EsNuloOVacioEnBlanco(d.nombreUsuario);
    EsNuloOVacioEnBlanco(d.password);
  }

  /** The address and user-name checks of a complete request, through the rules they implement. */
  lemma ReglasDeCamposCompletos(d: DatosUsuario)
    requires d.correo.Some? && d.nombreUsuario.Some?
    ensures CorreoValido(d.correo.value) <==> CorreoSegunPatron(d.correo.value)
    ensures Contiene(d.nombreUsuario.value, " ") <==> ' ' in d.nombreUsuario.value
  {
    CorreoValidoSegunPatron(d.correo.value);
    ContieneCaracter(d.nombreUsuario.value, ' ');
    assert " " == [' '];
  }


  /** What the services rely on after a passed validation: the fields are there and the name is free. */
  lemma ValidacionSuperada(d: DatosUsuario, passwordObligatoria: bool, verificarUnico: bool, idActual: Option<string>,
                           usuarios: seq<Usuario>)
    requires ValidarCamposUsuario(d, passwordObligatoria, verificarUnico, idActual, usuarios).Pass?
    ensures CamposCompletos(d, passwordObligatoria)
    ensures verificarUnico ==> NombreUsuarioLibre(usuarios, d.nombreUsuario.value, idActual)
  {
    ValidarCamposUsuarioCorrecto(d, passwordObligatoria, verificarUnico, idActual, usuarios);
    CamposCompletosEnBlanco(d, passwordObligatoria);
  }

  /** `registroToUsuario`: a new document with the defaults of `Usuario` (active, student, no tutor profile). */
  function NuevoUsuario(d: DatosUsuario, encode: string -> string, id: string): Usuario
    requires CamposCompletos(d, true)
  {
    Usuario(id, d.nombre.value, d.apellido.value, d.correo.value, d.telefono.value, d.fotoPerfil, true,
            d.nombreUsuario.value, encode(d.password.value), ESTUDIANTE, None)
  }

  /**
   * `register`. The password is required and the name must be free of every user; `nuevoId` is the
   * id the store assigns to the new document.
   */
  method Register(repo: UsuarioRepo, solicitud: Option<DatosUsuario>, encode: string -> string, nuevoId: string)
    returns (res: Result<UsuarioDTO, Error>)
    requires repo.Valid() && Buscar(repo.usuarios, IdUsuario, nuevoId).None?
    modifies repo
    ensures repo.Valid()
    ensures res.Err? ==> repo.usuarios == old(repo.usuarios)
    ensures solicitud.None? ==> res == Err(SolicitudNula)
    ensures solicitud.Some? ==>
      match ValidarCamposUsuario(solicitud.value, true, true, None, old(repo.usuarios))
      case Fail(e) => res == Err(e)
      case Pass =>
        var u := NuevoUsuario(solicitud.value, encode, nuevoId);
        res == Ok(Dto(u)) && repo.usuarios == old(repo.usuarios) + [u]
  {
    if solicitud.None? {
      return Err(SolicitudNula);
    }
    var d := solicitud.value;
    var v := ValidarCamposUsuario(d, true, true, None, repo.usuarios);
    if v.Fail? {
      return Err(v.error);
    }
    ValidacionSuperada(d, true, true, None, repo.usuarios);
    var u := NuevoUsuario(d, encode, nuevoId);
    AgregarClaveNueva(repo.usuarios, IdUsuario, u);
    AgregarClaveNueva(repo.usuarios, NombreUsuarioDe, u);
    repo.Guardar(u);
    return Ok(Dto(u));
  }

  /** The body of an update: `datosActualizados` with its optional target id. */
  datatype SolicitudActualizacion = SolicitudActualizacion(id: Option<string>, datos: DatosUsuario)

  /** The stored user after an accepted update; the password changes only when a non-blank one is sent. */
  function Actualizado(u: Usuario, d: DatosUsuario, encode: string -> string): Usuario
    requires CamposCompletos(d, false)
  {
    u.(nombre := d.nombre.value, apellido := d.apellido.value, correo := d.correo.value, telefono := d.telefono.value,
       fotoPerfil := d.fotoPerfil, nombreUsuario := d.nombreUsuario.value,
       password := if EsNuloOVacio(d.password) then u.password else encode(d.password.value))
  }

  /** The user whose profile an update targets: the body's id, or the requester's when it is `null`. */
  function IdObjetivo(s: SolicitudActualizacion, solicitante: Usuario): string
  {
    if s.id.Some? then s.id.value else solicitante.id
  }

  /**
   * `updateUsuario`. A non-admin may update only themselves; the user-name check excludes the
   * target's own document, so keeping one's name passes.
   */
  method UpdateUsuario(repo: UsuarioRepo, solicitud: Option<SolicitudActualizacion>, solicitante: Usuario, encode: string -> string)
    returns (res: Result<UsuarioDTO, Error>)
    requires repo.Valid()
    modifies repo
    ensures repo.Valid()
    ensures res.Err? ==> repo.usuarios == old(repo.usuarios)
    ensures solicitud.None? ==> res == Err(SolicitudNula)
    ensures solicitud.Some? ==>
      var objetivo := IdObjetivo(solicitud.value, solicitante);
      if solicitante.rol != ADMIN && objetivo != solicitante.id then res == Err(SinPermisoActualizar)
      else match Buscar(old(repo.usuarios), IdUsuario, objetivo)
        case None => res == Err(UsuarioAActualizarNoExiste)
        case Some(i) =>
          match ValidarCamposUsuario(solicitud.value.datos, false, true, Some(objetivo), old(repo.usuarios))
          case Fail(e) => res == Err(e)
          case Pass =>
            var u := Actualizado(old(repo.usuarios)[i], solicitud.value.datos, encode);
            res == Ok(Dto(u)) && repo.usuarios == old(repo.usuarios)[i := u]
  {
    if solicitud.None? {
      return Err(SolicitudNula);
    }
    var esAdmin := solicitante.rol == ADMIN;
    var objetivo := if solicitud.value.id.None? then solicitante.id else solicitud.value.id.value;
    if !esAdmin && objetivo != solicitante.id {
      return Err(SinPermisoActualizar);
    }
    var encontrado := Buscar(repo.usuarios, IdUsuario, objetivo);
    if encontrado.None? {
      return Err(UsuarioAActualizarNoExiste);
    }
    var i := encontrado.value;
    var d := solicitud.value.datos;
    var v := ValidarCamposUsuario(d, false, true, Some(objetivo), repo.usuarios);
    if v.Fail? {
      return Err(v.error);
    }
    ValidacionSuperada(d, false, true, Some(objetivo), repo.usuarios);
    var u := Actualizado(repo.usuarios[i], d, encode);
    assert u.id == objetivo && u.nombreUsuario == d.nombreUsuario.value;
    NombreLibreSoloPropio(repo.usuarios, u.nombreUsuario, objetivo);
    RenombrarUsuario(repo.usuarios, i, u);
    BuscarUnica(repo.usuarios, IdUsuario, i);
    repo.Guardar(u);
    return Ok(Dto(u));
  }

  /** `deleteUsuarioById`: a soft delete, reporting whether the user exists. */
  method DeleteUsuarioById(repo: UsuarioRepo, id: string) returns (borrado: bool)
    requires repo.Valid()
    modifies repo
    ensures repo.Valid()
    ensures match Buscar(old(repo.usuarios), IdUsuario, id)
      case None => !borrado && repo.usuarios == old(repo.usuarios)
      case Some(i) => borrado && repo.usuarios == old(repo.usuarios)[i := old(repo.usuarios)[i].(activo := false)]
  {
    var encontrado := Buscar(repo.usuarios, IdUsuario, id);
    if encontrado.None? {
      return false;
    }
    var i := encontrado.value;
    repo.GuardarEn(i, repo.usuarios[i].(activo := false));
    return true;
  }

  /** `deleteUsuario`: the requester's soft delete of their own account. */
  method DeleteUsuario(repo: UsuarioRepo, solicitante: Usuario) returns (borrado: bool)
    requires repo.Valid()
    modifies repo
    ensures repo.Valid()
    ensures match Buscar(old(repo.usuarios), IdUsuario, solicitante.id)
      case None => !borrado && repo.usuarios == old(repo.usuarios)
      case Some(i) => borrado && repo.usuarios == old(repo.usuarios)[i := old(repo.usuarios)[i].(activo := false)]
  {
    borrado := DeleteUsuarioById(repo, solicitante.id);
  }
}
