/**
 * The student's review form: the navigation state it is opened with, the checks `handleSubmit`
 * makes before posting, the request it posts and how it reads a failed answer.
 */
module CrearResena {

  import opened Wrappers
  import opened Texto
  import opened Modelo
  import opened Resenas

  /** `location.state || {}`: the fields the reservations page forwards, any of which may be missing. */
  datatype EstadoNavegacion = EstadoNavegacion(horarioId: Option<string>, tutorId: Option<string>, tutorNombre: Option<string>)

  /** JavaScript truthiness of an optional string: present and not empty. */
  predicate Verdadero(s: Option<string>)
  {
    s.Some? && s.value != []
  }

  /** Without a slot id or a tutor id the form redirects and renders nothing. */
  predicate FaltanDatos(estado: EstadoNavegacion)
  {
    !Verdadero(estado.horarioId) || !Verdadero(estado.tutorId)
  }

  /** The form's own error messages, and the ones it gives a failed answer. */
  datatype ErrorFormulario =
    | CalificacionFueraDeRango
    | ComentarioCorto
    | YaReseno
    | DatosInvalidos
    | SinPermiso
    | TutoriaNoEncontrada
    | ErrorGeneral(mensaje: string)

  /** The shortest comment the form accepts, in UTF-16 code units after `trim()`. */
  const MIN_COMENTARIO: nat := 10

  /**
   * `handleSubmit` up to the request: the rating picked with the star buttons (`0` when none) and
   * the text typed. `Ok` carries the request body.
   */
  function HandleSubmit(horarioId: string, calificacion: int, comentario: string): (r: Result<SolicitudResena, ErrorFormulario>)
    ensures r == Err(CalificacionFueraDeRango) <==> !(1 <= calificacion <= 5)
    ensures r == Err(ComentarioCorto) <==> 1 <= calificacion <= 5 && LongitudUtf16(Recortar(comentario, EsBlancoJs)) < MIN_COMENTARIO
    ensures r.Ok? ==> r.value.idHorario == horarioId && r.value.puntuacion == Some(calificacion)
                      && r.value.comentario == Some(Recortar(comentario, EsBlancoJs))
    ensures r.Ok? <==> 1 <= calificacion <= 5 && LongitudUtf16(Recortar(comentario, EsBlancoJs)) >= MIN_COMENTARIO
    ensures r.Ok? ==> |Recortar(comentario, EsBlancoJs)| >= MIN_COMENTARIO / 2
  {
    if calificacion == 0 || calificacion < 1 || calificacion > 5 then Err(CalificacionFueraDeRango)
    else if comentario == [] || LongitudUtf16(Recortar(comentario, EsBlancoJs)) < MIN_COMENTARIO then Err(ComentarioCorto)
    else Ok(SolicitudResena(horarioId, Some(calificacion), Some(Recortar(comentario, EsBlancoJs))))
  }

  /**
   * A request the form posts passes the score check of `Resenas.CrearResena`; that check lets a
   * score of 0 through, which the form refuses.
   */
  lemma FormularioMasEstricto(horarioId: string, calificacion: int, comentario: string)
    ensures var r := HandleSubmit(horarioId, calificacion, comentario);
      r.Ok? ==> !PuntuacionRechazada(r.value.puntuacion)
    ensures !PuntuacionRechazada(Some(0)) && HandleSubmit(horarioId, 0, comentario) == Err(CalificacionFueraDeRango)
  {
  }

  /** The failed answer as the form sees it: the backend's message, if it sent text, and the HTTP status. */
  datatype RespuestaFallida = RespuestaFallida(mensaje: Option<string>, estado: int)

  /** The phrases that mark an answer as "already reviewed". */
  predicate MensajeDuplicado(m: string)
  {
    Contiene(m, "ya existe") || Contiene(m, "already exists") || Contiene(m, "duplicada") || Contiene(m, "Ya has dejado")
  }

  /** How the `catch` block reads a failed answer; `textoError` is the message the last branch prints. */
  function ClasificarError(f: RespuestaFallida, textoError: string): (e: ErrorFormulario)
    ensures e == YaReseno <==> f.mensaje.Some? && MensajeDuplicado(f.mensaje.value)
    ensures !(f.mensaje.Some? && MensajeDuplicado(f.mensaje.value)) ==>
      (e == DatosInvalidos <==> f.estado == 400)
      && (e == SinPermiso <==> f.estado == 403)
      && (e == TutoriaNoEncontrada <==> f.estado == 404)
    ensures e.ErrorGeneral? <==> !(f.mensaje.Some? && MensajeDuplicado(f.mensaje.value)) && f.estado !in {400, 403, 404}
    ensures e.ErrorGeneral? ==> e == ErrorGeneral(textoError)
  {
    if f.mensaje.Some? && MensajeDuplicado(f.mensaje.value) then YaReseno
    else if f.estado == 400 then DatosInvalidos
    else if f.estado == 403 then SinPermiso
    else if f.estado == 404 then TutoriaNoEncontrada
    else ErrorGeneral(textoError)
  }
}
