/**
 * The Mongo documents of the backend and the DTOs it returns.
 * Dates are whole minutes on a single clock; `double` fields are `real`.
 */
module Modelo {

  import opened Wrappers

  /** Life-cycle state of one booking of a slot. */
  datatype EstadoReserva = PENDIENTE | CANCELADA | COMPLETADA | NO_ASISTIO | ESPERANDO_ACCION_TUTOR

  datatype Rol = ESTUDIANTE | TUTOR | ADMIN

  /** One entry of a slot's booking history; a new entry is `PENDIENTE` and dated now. */
  datatype Reserva = Reserva(idUsuario: string, estado: EstadoReserva, fecha: int)

  /**
   * A bookable time slot of one tutor. `historialNulo` says the document has no history list at
   * all, as a slot has until its first booking creates one; the entries are then the empty sequence.
   */
  datatype Horario = Horario(
    id: string,
    idTutor: string,
    fechaInicio: int,
    fechaFin: int,
    disponible: bool,
    historialReservas: seq<Reserva>,
    historialNulo: bool)

  datatype Materia = Materia(nombre: Option<string>, experiencia: int)

  datatype Resena = Resena(idResena: string, autorId: string, puntuacion: int, comentario: Option<string>, fecha: int)

  /** The tutor profile embedded in a user document. A `null` review list is the empty sequence. */
  datatype Tutor = Tutor(
    activo: bool,
    bio: Option<string>,
    precioHora: real,
    experiencia: Option<string>,
    materias: seq<Materia>,
    califiacionPromedio: real,
    resenas: seq<Resena>)

  datatype Usuario = Usuario(
    id: string,
    nombre: string,
    apellido: string,
    correo: string,
    telefono: string,
    fotoPerfil: Option<string>,
    activo: bool,
    nombreUsuario: string,
    password: string,
    rol: Rol,
    tutor: Option<Tutor>)

  /** What the services mean by "a valid tutor": role `TUTOR` and a tutor profile present. */
  predicate EsTutorValido(u: Usuario)
  {
    u.rol == TUTOR && u.tutor.Some?
  }

  function IdHorario(h: Horario): string { h.id }

  function IdUsuario(u: Usuario): string { u.id }

  /** The live booking: the last entry of the history. */
  function Ultima(h: Horario): Reserva
    requires |h.historialReservas| > 0
  {
    h.historialReservas[|h.historialReservas| - 1]
  }

  predicate TieneReservas(h: Horario)
  {
    |h.historialReservas| > 0
  }

  /** The number of history entries over a list of slots. */
  function NumeroDeReservas(horarios: seq<Horario>): nat
  {
    if horarios == [] then 0
    else NumeroDeReservas(horarios[..|horarios| - 1]) + |horarios[|horarios| - 1].historialReservas|
  }

  /** The JSON name of a state, as the client receives it. */
  function NombreEstado(e: EstadoReserva): string
  {
    match e
    case PENDIENTE => "PENDIENTE"
    case CANCELADA => "CANCELADA"
    case COMPLETADA => "COMPLETADA"
    case NO_ASISTIO => "NO_ASISTIO"
    case ESPERANDO_ACCION_TUTOR => "ESPERANDO_ACCION_TUTOR"
  }

  /** The exceptions the services throw, one per distinct message. */
  datatype Error =
    | HorarioNoEncontrado
    | HorarioNoDisponible
    | AnticipacionReserva
    | SoloTutorCancela
    | NoEsDuenoDelHorario
    | SinReservas
    | NoEstaPendiente
    | AnticipacionCancelacion
    | NoEsSuReserva
    | SoloTutorMarca
    | ReservaNoTerminada
    | SoloTutorHorarios
    | FechasInvalidas
    | HorarioSolapado
    | FechaPasada
    | ReferenciaNula
    | UsuarioNoEncontrado
    | TutorNoValido
    | CalificacionInvalida
    | NoHaReservado
    | NoCompletada
    | ResenaNoEncontrada
    | SinPermisoResena
    | CamposObligatorios
    | CorreoInvalido
    | TelefonoInvalido
    | UsuarioConEspacios
    | PasswordCorta
    | NombreUsuarioEnUso
    | SolicitudNula
    | SinPermisoActualizar
    | UsuarioAActualizarNoExiste
    | NoEsTutor
    | YaEsTutor
    | CredencialesInvalidas
    | UsuarioInactivo

  datatype HorarioDisponibleDTO = HorarioDisponibleDTO(
    id: string,
    idTutor: string,
    tutorNombreApellido: string,
    precioHora: real,
    califiacionPromedio: real,
    materias: seq<Materia>,
    fechaInicio: int,
    fechaFin: int)

  datatype ResenasDTO = ResenasDTO(
    id: string,
    idTutor: string,
    tutorNombreApellido: string,
    puntuacion: int,
    comentario: Option<string>)

  datatype UsuarioDTO = UsuarioDTO(
    id: string,
    nombre: string,
    apellido: string,
    nombreUsuario: string,
    fotoPerfil: Option<string>,
    activo: bool,
    rol: Rol)

  datatype TutorDTO = TutorDTO(
    idTutor: string,
    nombre: string,
    apellido: string,
    correo: string,
    telefono: string,
    fotoPerfil: Option<string>,
    bio: Option<string>,
    precioHora: real,
    experiencia: Option<string>,
    materias: seq<Materia>,
    califiacionPromedio: real,
    resenas: seq<Resena>)
}
