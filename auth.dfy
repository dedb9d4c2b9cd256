/**
 * `AuthServicio.login`: the credential checks and the role written into the token. Password
 * matching is the parameter `coincide` (the encoder's `matches(raw, hash)`); token signing is left
 * out, so the token is its two claims.
 */
module Auth {

  import opened Wrappers
  import opened Modelo
  import opened Repositorio
  import opened Tutores

  /** The claims of the issued token. */
  datatype Token = Token(nombreUsuario: string, rol: Rol)

  /** The role granted at login: `ADMIN` and `TUTOR` need more than the stored role. */
  function RolFinal(u: Usuario, nombreUsuario: string): (r: Rol)
    ensures r == ADMIN <==> u.rol == ADMIN && nombreUsuario == "admin"
    ensures r == TUTOR <==> u.rol == TUTOR && u.tutor.Some? && u.tutor.value.activo
  {
    var rolFinal := ESTUDIANTE;
    if u.rol == ADMIN && nombreUsuario == "admin" then ADMIN
    else if u.rol == TUTOR && u.tutor.Some? then
      if u.tutor.value.activo then TUTOR else rolFinal
    else rolFinal
  }

  /** `login`. The activity check runs only once the password has matched. */
  function Login(usuarios: seq<Usuario>, nombreUsuario: string, password: string, coincide: (string, string) -> bool)
    : (r: Result<Token, Error>)
    ensures r.Ok? ==> r.value.nombreUsuario == nombreUsuario
    ensures r.Err? ==> r.error in {CredencialesInvalidas, UsuarioInactivo}
    ensures match Buscar(usuarios, NombreUsuarioDe, nombreUsuario)
      case None => r == Err(CredencialesInvalidas)
      case Some(i) =>
        && (!coincide(password, usuarios[i].password) ==> r == Err(CredencialesInvalidas))
        && (r == Err(UsuarioInactivo) <==> coincide(password, usuarios[i].password) && !usuarios[i].activo)
        && (r.Ok? ==> r.value.rol == RolFinal(usuarios[i], nombreUsuario))
  {
    match Buscar(usuarios, NombreUsuarioDe, nombreUsuario)
    case None => Err(CredencialesInvalidas)
    case Some(i) =>
      var u := usuarios[i];
      if !coincide(password, u.password) then Err(CredencialesInvalidas)
      else if !u.activo then Err(UsuarioInactivo)
      else Ok(Token(nombreUsuario, RolFinal(u, nombreUsuario)))
  }

  /** With unique user names, login succeeds exactly for an active user of that name whose password matches. */
  lemma LoginExitoso(usuarios: seq<Usuario>, nombreUsuario: string, password: string, coincide: (string, string) -> bool)
    requires ClavesUnicas(usuarios, NombreUsuarioDe)
    ensures Login(usuarios, nombreUsuario, password, coincide).Ok? <==>
      exists i :: 0 <= i < |usuarios| && usuarios[i].nombreUsuario == nombreUsuario
        && coincide(password, usuarios[i].password) && usuarios[i].activo
  {
    match Buscar(usuarios, NombreUsuarioDe, nombreUsuario)
    case None =>
    case Some(i) =>
      forall j | 0 <= j < |usuarios| && usuarios[j].nombreUsuario == nombreUsuario ensures j == i {
        assert NombreUsuarioDe(usuarios[j]) == NombreUsuarioDe(usuarios[i]);
      }
  }

  /** A soft-deleted account can no longer log in, whatever the password. */
  lemma LoginTrasBorrado(usuarios: seq<Usuario>, i: nat, password: string, coincide: (string, string) -> bool)
    requires ClavesUnicas(usuarios, NombreUsuarioDe) && i < |usuarios|
    ensures Login(usuarios[i := usuarios[i].(activo := false)], usuarios[i].nombreUsuario, password, coincide).Err?
  {
    var t := usuarios[i := usuarios[i].(activo := false)];
    ReemplazoMismaClave(usuarios, NombreUsuarioDe, i, usuarios[i].(activo := false));
    BuscarUnica(t, NombreUsuarioDe, i);
  }

  /** A deactivated tutor logs in as a student. */
  lemma LoginTrasDesactivarTutor(usuarios: seq<Usuario>, i: nat, password: string, coincide: (string, string) -> bool)
    requires ClavesUnicas(usuarios, NombreUsuarioDe) && i < |usuarios| && usuarios[i].tutor.Some?
    ensures var r := Login(usuarios[i := Desactivado(usuarios[i])], usuarios[i].nombreUsuario, password, coincide);
      r.Ok? ==> r.value.rol == ESTUDIANTE
  {
    var t := usuarios[i := Desactivado(usuarios[i])];
    ReemplazoMismaClave(usuarios, NombreUsuarioDe, i, Desactivado(usuarios[i]));
    BuscarUnica(t, NombreUsuarioDe, i);
  }

  /** A user promoted by `crearTutor` logs in as a tutor, an `admin` account included. */
  lemma LoginTrasCrearTutor(usuarios: seq<Usuario>, i: nat, s: SolicitudTutor, password: string, coincide: (string, string) -> bool)
    requires ClavesUnicas(usuarios, NombreUsuarioDe) && i < |usuarios| && s.precioHora.Some?
    ensures var u := usuarios[i].(tutor := Some(TutorNuevo(s)), rol := TUTOR);
      var r := Login(usuarios[i := u], usuarios[i].nombreUsuario, password, coincide);
      r.Ok? ==> r.value.rol == TUTOR
  {
    var u := usuarios[i].(tutor := Some(TutorNuevo(s)), rol := TUTOR);
    var t := usuarios[i := u];
    ReemplazoMismaClave(usuarios, NombreUsuarioDe, i, u);
    BuscarUnica(t, NombreUsuarioDe, i);
  }
}
