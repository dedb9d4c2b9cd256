# MyTutor: a verified model of the tutoring back end and its client pages

MyTutor lets students book tutoring slots (`Horario`) that tutors publish. Each slot keeps a history of
bookings (`historialReservas`), and only the last entry is live. A booking is `PENDIENTE` until the tutor
marks it `COMPLETADA` or `NO_ASISTIO`, or until it is `CANCELADA`. Two scheduled jobs change the store
without a request. The first makes started slots unavailable. The second moves pending bookings of ended
slots to `ESPERANDO_ACCION_TUTOR`. Students review the tutors of completed sessions, and each review
recomputes the tutor's stored average. Accounts have a role. Login grants that role only when more
conditions hold: `ADMIN` also needs the user name `admin`, and `TUTOR` needs an active tutor profile.

The model has two halves.

- **Back-end services.** `ReservaServicio`, `HorarioServicio`, `HorarioSchedulerServicio`,
  `ResenaServicio`, `UsuarioServicio`, `TutorServicio` and `AuthServicio`. The documents are datatypes
  (`modelo.dfy`). The two Mongo collections are classes (`HorarioRepo`, `UsuarioRepo`, in
  `repositorio.dfy`), each with a `seq` field that the service methods reassign. Every state-changing
  operation is a method. Its `ensures` gives the new store as a function of the old one, lists each
  error case in the order the source checks them, with nothing saved, and keeps the store invariant
  `Valid()`. For slots the invariant says ids are unique, every slot ends after it starts, a slot whose
  history is still `null` (never booked) has no entries, only the live booking may be `PENDIENTE`, and an available slot's live booking is not `PENDIENTE`. For users
  it says ids and user names are unique.
- **Client pages.** MyTutorias, MySchedule, ManageSchedule, MyReservations, CreateReview,
  AdminReservations and Dashboard. Each page's handlers and derived lists are functions over the data
  the page received. Their lemmas relate what the page shows or allows to what the back end would
  answer.

Time is an integer number of minutes since an arbitrary origin, and the current instant is a parameter `now`. Where the client
builds date strings, `fechas.dfy` supplies the proleptic Gregorian calendar as a reference, and the
client's hand-written date arithmetic is compared with it.

## Model

| member | source | states |
|---|---|---|
| Reservas.GetReservas | mytutor_backend_no_sql/src/main/java/uis/mytutor/servicio/impl/ReservaServicio.java:23-31 | the result is an order-preserving subsequence of the store holding exactly the slots with a non-empty history |
| Reservas.ObtenerMisReservas | mytutor_backend_no_sql/src/main/java/uis/mytutor/servicio/impl/ReservaServicio.java:36-49 | the result is an order-preserving subsequence holding exactly the slots where any history entry, not only the live one, is the user's |
| Reservas.ConUltima | mytutor_backend_no_sql/src/main/java/uis/mytutor/servicio/impl/ReservaServicio.java:122-138 | rewriting the live booking keeps the history length, every earlier entry, the booking's user and every other field of the slot |
| Reservas.ConUltimaCoherente | mytutor_backend_no_sql/src/main/java/uis/mytutor/servicio/impl/ReservaServicio.java:137-141 | rewriting the live booking keeps the booking invariant unless it leaves an available slot pending |
| Reservas.ReservarHorario | mytutor_backend_no_sql/src/main/java/uis/mytutor/servicio/impl/ReservaServicio.java:56-93 | unknown id, unavailable slot, or `now` later than two hours before the start each fail with nothing saved; otherwise exactly one `PENDIENTE` entry of the requester is appended, earlier entries are kept, the slot becomes unavailable, and the store invariant holds |
| Reservas.CancelarReserva | mytutor_backend_no_sql/src/main/java/uis/mytutor/servicio/impl/ReservaServicio.java:156-191 | only the live booking is looked at: an empty history, a live booking of another user, or `now` later than a day before the start fail with nothing saved; otherwise the live booking becomes `CANCELADA` whatever its state, the length is kept and the slot becomes available |
| Reservas.TutorCancelaReservaHecha | mytutor_backend_no_sql/src/main/java/uis/mytutor/servicio/impl/ReservaServicio.java:100-147 | the checks in source order (tutor with profile, slot found, ownership, non-empty history, live booking exactly `PENDIENTE`, one-day window), each failing with nothing saved; on success the live booking becomes `CANCELADA` and the slot stays unavailable |
| Reservas.MarcarReserva | mytutor_backend_no_sql/src/main/java/uis/mytutor/servicio/impl/ReservaServicio.java:197-275 | role `TUTOR` without a profile check, ownership, `now` not before the end, non-empty history; then only the live booking changes, to the given state, whatever it was; availability untouched; the store invariant holds |
| Reservas.ReservaCompletada | mytutor_backend_no_sql/src/main/java/uis/mytutor/servicio/impl/ReservaServicio.java:197-233 | the marking contract with state `COMPLETADA` |
| Reservas.NoAsistioALaReserva | mytutor_backend_no_sql/src/main/java/uis/mytutor/servicio/impl/ReservaServicio.java:239-275 | the marking contract with state `NO_ASISTIO` |
| Reservas.MarcarNoConservaDisponibleSoloSiCancelada | mytutor_backend_no_sql/src/main/java/uis/mytutor/servicio/impl/ReservaServicio.java:185-226 | a coherent available slot whose live booking is cancelled, once marked completed, is available with a live booking that is not cancelled: "available implies empty or cancelled" is not kept |
| Repositorio.AlMasUnaPendiente | mytutor_backend_no_sql/src/main/java/uis/mytutor/servicio/impl/ReservaServicio.java:62-185 | under the invariant every operation keeps, a slot has at most one `PENDIENTE` entry |
| Horarios.MapToHorarioDisponibleDTO | mytutor_backend_no_sql/src/main/java/uis/mytutor/servicio/impl/HorarioServicio.java:28-58 | a missing owner is an error; the element is null exactly when the owner is not a tutor with a profile or the slot is unavailable; otherwise each DTO field is the slot's or the owner's |
| Horarios.ObtenerTodosLosHorariosDisponibles | mytutor_backend_no_sql/src/main/java/uis/mytutor/servicio/impl/HorarioServicio.java:69-74 | an error exactly when some slot's mapping fails; otherwise one element per stored slot, in store order, each the slot's mapping |
| Horarios.ObtenerHorariosFiltrados | mytutor_backend_no_sql/src/main/java/uis/mytutor/servicio/impl/HorarioServicio.java:88-145 | with no filter the listing is returned whole; the search fails exactly when the listing fails or a filter is active and the listing holds a null element; a successful search is an order-preserving subsequence of the listing holding each accepted element exactly as often as the listing does, and no other |
| Horarios.FiltradoRespetaCotas | mytutor_backend_no_sql/src/main/java/uis/mytutor/servicio/impl/HorarioServicio.java:114-142 | every returned slot lies within the price, rating and date bounds, all inclusive |
| Horarios.HorariosSolapados | mytutor_backend_no_sql/src/main/java/uis/mytutor/repositorio/HorarioRepositorio.java:15-16 | holds exactly the same tutor's slots with start before the new end and end after the new start, so touching intervals are not overlaps |
| Horarios.CrearHorarioTutoria | mytutor_backend_no_sql/src/main/java/uis/mytutor/servicio/impl/HorarioServicio.java:159-198 | non-tutor, missing date or end not after start, any overlapping slot of the tutor whatever its availability, and `now` not before the start fail in that order with nothing saved; otherwise a slot of the requester with the given dates, available and with no history, is appended; a store without overlaps stays so |
| Horarios.ModificarHorarioTutoria | mytutor_backend_no_sql/src/main/java/uis/mytutor/servicio/impl/HorarioServicio.java:202-238 | non-tutor, unknown id, non-owner, a missing new start (the `isBefore` throws), `now` not before it, and a resulting end not after the start fail with nothing saved; otherwise only the dates change, a missing end keeping the old one |
| Horarios.ModificarNoConservaSinCruces | mytutor_backend_no_sql/src/main/java/uis/mytutor/servicio/impl/HorarioServicio.java:224-237 | there is no overlap re-check: moving a slot onto another of its tutor breaks "no overlaps" |
| Horarios.DesactivarHorarioTutoria | mytutor_backend_no_sql/src/main/java/uis/mytutor/servicio/impl/HorarioServicio.java:242-267 | non-tutor is an error, an unknown id answers `false` with no change, a non-owner is an error; otherwise `true` and only `disponible` becomes false; afterwards the slot is unavailable, so a second call changes nothing |
| Scheduler.ExpirarExacto | mytutor_backend_no_sql/src/main/java/uis/mytutor/servicio/impl/HorarioSchedulerServicio.java:28-35 | the expiry update keeps every slot in place and clears `disponible` on exactly the available slots that have started, changing no other field |
| Scheduler.ExpirarIdempotente | mytutor_backend_no_sql/src/main/java/uis/mytutor/servicio/impl/HorarioSchedulerServicio.java:28-35 | after the sweep no slot is both available and started, and a second sweep changes nothing |
| Scheduler.ActualizarHorariosExpirados | mytutor_backend_no_sql/src/main/java/uis/mytutor/servicio/impl/HorarioSchedulerServicio.java:26-37 | the store becomes the expired collection and keeps the store invariant |
| Scheduler.MarcarEsperando | mytutor_backend_no_sql/src/main/java/uis/mytutor/servicio/impl/HorarioSchedulerServicio.java:64-69 | same length; every `PENDIENTE` entry, not only the live one, becomes `ESPERANDO_ACCION_TUTOR` and every other entry is kept |
| Scheduler.BarrerPendientes | mytutor_backend_no_sql/src/main/java/uis/mytutor/servicio/impl/HorarioSchedulerServicio.java:49-77 | one slot per stored slot, each swept on its own |
| Scheduler.SinPendientesSinCambio | mytutor_backend_no_sql/src/main/java/uis/mytutor/servicio/impl/HorarioSchedulerServicio.java:61-76 | a history with no pending entry is left unchanged |
| Scheduler.BarridoCoherente | mytutor_backend_no_sql/src/main/java/uis/mytutor/servicio/impl/HorarioSchedulerServicio.java:63-74 | the sweep keeps a slot coherent |
| Scheduler.BarridoExacto | mytutor_backend_no_sql/src/main/java/uis/mytutor/servicio/impl/HorarioSchedulerServicio.java:49-69 | history lengths and every other field are kept, slots not yet ended and non-pending entries are untouched, and an ended slot with a history is left with no pending entry |
| Scheduler.BarrerPendientesIdempotente | mytutor_backend_no_sql/src/main/java/uis/mytutor/servicio/impl/HorarioSchedulerServicio.java:59-77 | a second pending sweep changes nothing |
| Scheduler.MarcarPendientes | mytutor_backend_no_sql/src/main/java/uis/mytutor/servicio/impl/HorarioSchedulerServicio.java:61-70 | the inner loop yields the swept history, and its flag is set exactly when some entry was pending |
| Scheduler.BarrerHorario | mytutor_backend_no_sql/src/main/java/uis/mytutor/servicio/impl/HorarioSchedulerServicio.java:59-76 | the body for one stored slot: the slot becomes its swept form and nothing else changes, the store stays valid, and it is saved exactly when it has ended, has a history and holds a pending entry |
| Scheduler.ActualizarReservasPendientes | mytutor_backend_no_sql/src/main/java/uis/mytutor/servicio/impl/HorarioSchedulerServicio.java:44-78 | the store becomes the swept collection and stays valid; the slots saved are exactly the ended ones with a history holding some pending entry, in store order |
| Resenas.Promedio | mytutor_backend_no_sql/src/main/java/uis/mytutor/servicio/impl/ResenaServicio.java:129-139 | 5.0 for no reviews; otherwise the average times the number of reviews is the sum of the scores |
| Resenas.SumaAcotada | mytutor_backend_no_sql/src/main/java/uis/mytutor/servicio/impl/ResenaServicio.java:136-139 | scores within `[lo, hi]` sum to between `lo·n` and `hi·n` |
| Resenas.PromedioAcotado | mytutor_backend_no_sql/src/main/java/uis/mytutor/servicio/impl/ResenaServicio.java:129-143 | the stored average of scores within `[lo, hi]` lies within `[lo, hi]` |
| Resenas.GetResenasDeTutorPorId | mytutor_backend_no_sql/src/main/java/uis/mytutor/servicio/impl/ResenaServicio.java:29-41 | an unknown id and a user who is not a valid tutor give their errors; otherwise the tutor's review list, empty when there is none |
| Resenas.DtosDe | mytutor_backend_no_sql/src/main/java/uis/mytutor/servicio/impl/ResenaServicio.java:63-74 | the DTOs produced for one tutor are exactly those of the reviews written by the author |
| Resenas.ResenasHechasExactas | mytutor_backend_no_sql/src/main/java/uis/mytutor/servicio/impl/ResenaServicio.java:56-75 | the collected DTOs are exactly the DTOs of the requester's reviews over the given tutors |
| Resenas.ObtenerResenasHechas | mytutor_backend_no_sql/src/main/java/uis/mytutor/servicio/impl/ResenaServicio.java:46-78 | the loop yields the per-tutor collection over the valid tutors in store order, so a DTO appears exactly when a valid tutor holds a review by the requester |
| Resenas.ObtenerPromedioResenasDeTutor | mytutor_backend_no_sql/src/main/java/uis/mytutor/servicio/impl/ResenaServicio.java:115-146 | the two lookup errors change nothing; otherwise returns `Promedio` of the tutor's reviews and stores it in that tutor alone |
| Resenas.IndiceMasReciente | mytutor_backend_no_sql/src/main/java/uis/mytutor/servicio/impl/ResenaServicio.java:167 | the chosen entry has the greatest `fecha`, and every earlier entry has a strictly smaller one, so the first of equal maxima wins |
| Resenas.ReservaDelUsuario | mytutor_backend_no_sql/src/main/java/uis/mytutor/servicio/impl/ResenaServicio.java:165-168 | none exactly when the requester has no entry on the slot; otherwise a booking of theirs no older than any other of theirs |
| Resenas.CrearResena | mytutor_backend_no_sql/src/main/java/uis/mytutor/servicio/impl/ResenaServicio.java:154-206 | errors, in source order, for an unknown slot, a score missing or outside 0..5, a slot never booked (its `null` history dereferenced), no booking by the requester, a latest booking not `COMPLETADA`, and an owner missing or not a valid tutor, each leaving the store intact; otherwise exactly one review by the requester is appended to the owner, with no duplicate check, and the average is recomputed over the new list |
| Resenas.AgregarResenaATutor | mytutor_backend_no_sql/src/main/java/uis/mytutor/servicio/impl/ResenaServicio.java:176-203 | an owner missing or not a valid tutor is an error that leaves the store intact; otherwise the review is appended to that owner alone, the average is stored over the new list, and the store stays valid |
| Resenas.ModificarResenaDe | mytutor_backend_no_sql/src/main/java/uis/mytutor/servicio/impl/ResenaServicio.java:212-257 | an unknown id and a requester who is not the author give their errors and change nothing; otherwise only that review changes, its non-null fields replaced and its score not re-validated, and the average is left alone |
| Usuarios.ToDTO | mytutor_backend_no_sql/src/main/java/uis/mytutor/servicio/impl/UsuarioServicio.java:24-37 | `null` exactly for `null`; otherwise a DTO carrying the user's id, nombre, apellido, user name, photo, active flag and role |
| Usuarios.ToDTONoRevela | mytutor_backend_no_sql/src/main/java/uis/mytutor/servicio/impl/UsuarioServicio.java:28-36 | the DTO is the same whatever the e-mail, phone, password and tutor profile, so none of them is copied |
| Usuarios.GetUsuarioById | mytutor_backend_no_sql/src/main/java/uis/mytutor/servicio/impl/UsuarioServicio.java:66-68 | `null` exactly when no user has the id; otherwise the DTO of the first user with that id |
| Usuarios.CorreoDesdeSegunPatron | mytutor_backend_no_sql/src/main/java/uis/mytutor/servicio/impl/UsuarioServicio.java:110 | the left-to-right matcher, already past `n` local characters, accepts exactly a split at some `@` with a local part of the class and a non-empty rest without line terminators |
| Usuarios.CorreoValidoSegunPatron | mytutor_backend_no_sql/src/main/java/uis/mytutor/servicio/impl/UsuarioServicio.java:110-112 | the address check accepts exactly a non-empty local part over `[A-Za-z0-9+_.-]`, an `@` and a non-empty one-line rest |
| Usuarios.NombreUsuarioLibreExacto | mytutor_backend_no_sql/src/main/java/uis/mytutor/servicio/impl/UsuarioServicio.java:130-135 | with unique user names, a name passes exactly when every holder of it has the id being updated |
| Usuarios.NombreLibreSoloPropio | mytutor_backend_no_sql/src/main/java/uis/mytutor/servicio/impl/UsuarioServicio.java:130-198 | a name that passes for an id is held by no other document |
| Usuarios.PropioNombreLibre | mytutor_backend_no_sql/src/main/java/uis/mytutor/servicio/impl/UsuarioServicio.java:130-198 | keeping one's own user name on update passes the uniqueness check |
| Usuarios.EsNuloOVacioEnBlanco | mytutor_backend_no_sql/src/main/java/uis/mytutor/servicio/impl/UsuarioServicio.java:84-86 | `null` or empty after Java `trim()` exactly when `null` or made only of characters up to U+0020 |
| Usuarios.ValidarCamposUsuarioCorrecto | mytutor_backend_no_sql/src/main/java/uis/mytutor/servicio/impl/UsuarioServicio.java:99-135 | the validator passes exactly the fields meeting every rule (required fields not blank, the password only when required, address pattern, 7 to 15 ASCII digits, no space in the user name, a non-blank password of at least 6 code units, a free name), reports missing fields first and a malformed address next |
| Usuarios.ValidacionSuperada | mytutor_backend_no_sql/src/main/java/uis/mytutor/servicio/impl/UsuarioServicio.java:99-135 | a passed validation guarantees the required fields and, when checked, a free user name |
| Usuarios.Register | mytutor_backend_no_sql/src/main/java/uis/mytutor/servicio/impl/UsuarioServicio.java:139-161 | a `null` request and a failed validation (password required, name free of every user) give their errors and change nothing; otherwise one active student with the encoded password is appended and its DTO returned, keeping both ids and user names unique |
| Usuarios.UpdateUsuario | mytutor_backend_no_sql/src/main/java/uis/mytutor/servicio/impl/UsuarioServicio.java:167-215 | a `null` body, a non-admin targeting another id (the target defaulting to the requester), a missing target and a failed validation give their errors and change nothing; otherwise only the target changes, its password only when a non-blank one is sent |
| Usuarios.DeleteUsuarioById | mytutor_backend_no_sql/src/main/java/uis/mytutor/servicio/impl/UsuarioServicio.java:220-228 | false with no change for a missing user; otherwise true and only that user's `activo` becomes false |
| Usuarios.DeleteUsuario | mytutor_backend_no_sql/src/main/java/uis/mytutor/servicio/impl/UsuarioServicio.java:231-239 | the same soft delete applied to the requester's own id |
| Auth.RolFinal | mytutor_backend_no_sql/src/main/java/uis/mytutor/servicio/impl/AuthServicio.java:40-52 | ADMIN exactly for a stored ADMIN named `admin`; TUTOR exactly for a stored TUTOR with an active tutor profile; every other case ESTUDIANTE |
| Auth.Login | mytutor_backend_no_sql/src/main/java/uis/mytutor/servicio/impl/AuthServicio.java:28-55 | an unknown name or a password mismatch gives invalid credentials; the inactive-user error happens exactly when the password matched on an inactive user; a token carries the name and the derived role |
| Auth.LoginExitoso | mytutor_backend_no_sql/src/main/java/uis/mytutor/servicio/impl/AuthServicio.java:29-36 | with unique user names, login succeeds exactly for an active user of that name whose password matches |
| Auth.LoginTrasBorrado | mytutor_backend_no_sql/src/main/java/uis/mytutor/servicio/impl/AuthServicio.java:35-36 | after the soft delete of the user-service the account cannot log in |
| Auth.LoginTrasDesactivarTutor | mytutor_backend_no_sql/src/main/java/uis/mytutor/servicio/impl/AuthServicio.java:47-51 | a tutor deactivated by the tutor-service logs in as a student |
| Auth.LoginTrasCrearTutor | mytutor_backend_no_sql/src/main/java/uis/mytutor/servicio/impl/AuthServicio.java:43-51 | a user promoted by the tutor-service logs in as a tutor, an `admin` account included |
| Tutores.MapToTutorDTO | mytutor_backend_no_sql/src/main/java/uis/mytutor/servicio/impl/TutorServicio.java:23-51 | `null` exactly for a `null` user and for anyone who is not a TUTOR with a profile; otherwise the DTO copies the user's id, first name, last name, e-mail, phone and photo, and the profile's bio, hourly price, experience, subjects, reviews and average |
| Tutores.GetTutores | mytutor_backend_no_sql/src/main/java/uis/mytutor/servicio/impl/TutorServicio.java:54-59 | one entry per user in store order, present exactly for valid tutors and carrying their id |
| Tutores.GetTutorPorId | mytutor_backend_no_sql/src/main/java/uis/mytutor/servicio/impl/TutorServicio.java:81-89 | unknown id and non-tutor give their errors; otherwise the DTO of that user |
| Tutores.GetTutorPorIdEnListado | mytutor_backend_no_sql/src/main/java/uis/mytutor/servicio/impl/TutorServicio.java:54-89 | with unique ids the lookup succeeds exactly for the id of a valid tutor, and its result is an entry of the public listing |
| Tutores.TutorNuevo | mytutor_backend_no_sql/src/main/java/uis/mytutor/servicio/impl/TutorServicio.java:123-129 | a new profile is active, has no reviews, and its default average is the average of no reviews |
| Tutores.CrearTutor | mytutor_backend_no_sql/src/main/java/uis/mytutor/servicio/impl/TutorServicio.java:115-139 | an existing valid tutor is refused and a `null` price fails, both changing nothing; otherwise only the requester changes, to role TUTOR with the new profile |
| Tutores.ConInfo | mytutor_backend_no_sql/src/main/java/uis/mytutor/servicio/impl/TutorServicio.java:100-106 | the profile update keeps the reviews, the average and the active flag |
| Tutores.ActualizarInfoTutorMismoUsuario | mytutor_backend_no_sql/src/main/java/uis/mytutor/servicio/impl/TutorServicio.java:94-111 | `null` with no change for a non-tutor, an error for a `null` price; otherwise only the requester's four editable fields change and the request is echoed |
| Tutores.Desactivado | mytutor_backend_no_sql/src/main/java/uis/mytutor/servicio/impl/TutorServicio.java:143-166 | a deactivated tutor has an inactive profile, role ESTUDIANTE and the same reviews |
| Tutores.DesactivadoFueraDelListado | mytutor_backend_no_sql/src/main/java/uis/mytutor/servicio/impl/TutorServicio.java:54-168 | after a deactivation the user's listing entry is `null` and every other entry is unchanged |
| Tutores.DtoPorPosicion | mytutor_backend_no_sql/src/main/java/uis/mytutor/servicio/impl/TutorServicio.java:54-59 | the listing entry at each position is the projection of the user there |
| Tutores.RecrearTrasDesactivar | mytutor_backend_no_sql/src/main/java/uis/mytutor/servicio/impl/TutorServicio.java:115-170 | `desactivarTutorPorId` followed by `crearTutor` for the same user on the same store: the request is accepted, the user is a `TUTOR` again with a fresh profile (no reviews, average 5.0), the old reviews are gone, and no other user changes |
| Tutores.TutorSeDesactivaElMismo | mytutor_backend_no_sql/src/main/java/uis/mytutor/servicio/impl/TutorServicio.java:142-150 | true exactly for a valid tutor, whose document alone is deactivated; false with no change otherwise |
| Tutores.DesactivarTutorPorId | mytutor_backend_no_sql/src/main/java/uis/mytutor/servicio/impl/TutorServicio.java:153-170 | false with no change for an unknown id or a non-tutor; otherwise true and only that user is deactivated |
| MisTutorias.TutoriasPorPosicion | mytutor_frontend_react/src/pages/Tutor/MyTutorias.jsx:22-37 | one row per slot with a non-empty history, in slot order, each with the slot's dates and the last entry's user, state and date |
| MisTutorias.LoadTutorias | mytutor_frontend_react/src/pages/Tutor/MyTutorias.jsx:14-40 | the loop builds exactly the projected rows |
| MisTutorias.FilaDeUnHorario | mytutor_frontend_react/src/pages/Tutor/MyTutorias.jsx:22-37 | every row is the row of some slot with bookings |
| MisTutorias.FilaDelHorario | mytutor_frontend_react/src/pages/Tutor/MyTutorias.jsx:22-101 | with unique slot ids, the lookup by a booked slot's id finds a row, and every row with that id is that slot's row |
| MisTutorias.HandleMarcar | mytutor_frontend_react/src/pages/Tutor/MyTutorias.jsx:100-146 | not found exactly when no row has the id; accepted exactly when the first row with the id has started, start equal to now included |
| MisTutorias.HandleCancelarTutoria | mytutor_frontend_react/src/pages/Tutor/MyTutorias.jsx:164-181 | not found exactly when no row has the id; accepted exactly when at least a full day is left before the first such row starts |
| MisTutorias.MarcarClienteYServidor | mytutor_frontend_react/src/pages/Tutor/MyTutorias.jsx:108-146 | the page accepts marking a booked slot exactly once it has started, so whatever the backend's end-time check admits on a coherent slot the page admits too |
| MisTutorias.MarcarDuranteLaSesion | mytutor_frontend_react/src/pages/Tutor/MyTutorias.jsx:108-114 | between start and end the page sends the request and the backend answers not-yet-ended, changing nothing |
| MisTutorias.CancelarClienteComoServidor | mytutor_frontend_react/src/pages/Tutor/MyTutorias.jsx:172-181 | the page's one-day check on the tutor's cancellation agrees with the backend's |
| MisTutorias.AccionesSoloPendientes | mytutor_frontend_react/src/pages/Tutor/MyTutorias.jsx:339 | the action buttons appear exactly when the live booking is `PENDIENTE` or `ESPERANDO_ACCION_TUTOR` |
| MisTutorias.FilteredTutorias | mytutor_frontend_react/src/pages/Tutor/MyTutorias.jsx:206-220 | `'all'` keeps everything, `'pendiente'` keeps the two pending states, and every result is a subsequence holding exactly the rows that pass |
| MisTutorias.ContadorPendientes | mytutor_frontend_react/src/pages/Tutor/MyTutorias.jsx:209-248 | the "Pendientes" counter equals the length of the `'pendiente'` filter and is the sum of the two pending states' counts |
| FiltroEstado.FiltrarPorEstado | mytutor_frontend_react/src/pages/Tutor/MyTutorias.jsx:206-220 | the status filter returns a subsequence holding exactly the elements whose state passes |
| FiltroEstado.FiltroTodas | mytutor_frontend_react/src/pages/Tutor/MyTutorias.jsx:208 | `'all'` keeps every element |
| FiltroEstado.FiltroPendiente | mytutor_frontend_react/src/pages/Tutor/MyTutorias.jsx:210-212 | `'pendiente'` keeps exactly the elements in a pending state |
| FiltroEstado.FiltroEquivalente | mytutor_frontend_react/src/pages/Tutor/MyTutorias.jsx:206-220 | any predicate that agrees with the status test on the elements selects the same subsequence |
| FiltroEstado.FiltroExacto | mytutor_frontend_react/src/pages/Tutor/MyTutorias.jsx:213-216 | any other filter value keeps exactly the elements whose state equals it |
| FiltroEstado.PendientesSuman | mytutor_frontend_react/src/pages/Tutor/MyTutorias.jsx:248 | the pending count is the count of `PENDIENTE` plus the count of `ESPERANDO_ACCION_TUTOR` |
| FiltroEstado.PendienteSegunEstado | mytutor_frontend_react/src/pages/Tutor/MyTutorias.jsx:211 | a state name counts as pending exactly for the two pending states of the backend |
| FiltroEstado.NombresDistintos | mytutor_backend_no_sql/src/main/java/uis/mytutor/modelo/Reserva.java:19-28 | each state serialises to its own name, so an exact-name filter selects exactly one state |
| MisReservas.NombreTutor | mytutor_frontend_react/src/pages/Estudiante/MyReservations.jsx:46-56 | never empty; a failed lookup shows `ID: ` and the id; a tutor with both names shows them joined by a space |
| MisReservas.VistasPorPosicion | mytutor_frontend_react/src/pages/Estudiante/MyReservations.jsx:40-71 | one row per slot with a non-empty history, in slot order, each showing that slot's last entry |
| MisReservas.LoadReservas | mytutor_frontend_react/src/pages/Estudiante/MyReservations.jsx:32-76 | the loop builds exactly the projected rows |
| MisReservas.VistaDelTutor | mytutor_frontend_react/src/pages/Estudiante/MyReservations.jsx:46-56 | a valid tutor's row shows their price and, when both are set, their full name; otherwise price 0 and the bare id |
| MisReservas.YaHiceResenaSegunBackend | mytutor_frontend_react/src/pages/Estudiante/MyReservations.jsx:85-90 | on the backend's list of own reviews, the check holds exactly when the student reviewed that tutor, and the slot id makes no difference |
| MisReservas.HandleCancelReserva | mytutor_frontend_react/src/pages/Estudiante/MyReservations.jsx:92-104 | the request goes ahead, for that slot, exactly when at least 24 hours (1440 minutes) are left before the start; otherwise the under-24-hours alert |
| MisReservas.CancelReservaComoServidor | mytutor_frontend_react/src/pages/Estudiante/MyReservations.jsx:92-104 | the fractional-hours check accepts exactly when the backend's one-day window is still open |
| MisReservas.HandleCancelar | mytutor_frontend_react/src/pages/Estudiante/MyReservations.jsx:154-169 | the cancel button's handler always sends the request |
| MisReservas.BotonCancelarSinVentana | mytutor_frontend_react/src/pages/Estudiante/MyReservations.jsx:154-341 | inside the last day the cancel button still sends the request though the unused time check would refuse |
| MisReservas.HandleCrearResena | mytutor_frontend_react/src/pages/Estudiante/MyReservations.jsx:124-151 | not found exactly when no row has the slot id; already-reviewed exactly when a row exists and the tutor is reviewed; otherwise the form gets the slot id, the tutor id and that row's tutor name |
| MisReservas.BotonesSegunEstado | mytutor_frontend_react/src/pages/Estudiante/MyReservations.jsx:314-347 | a row never offers both buttons; review only for a completed live booking; cancel exactly for a pending or awaiting one |
| MisReservas.BotonResenaAbreFormulario | mytutor_frontend_react/src/pages/Estudiante/MyReservations.jsx:124-330 | the review button always opens the form, with ids the form accepts when the row's ids are not empty |
| MisReservas.FilteredReservas | mytutor_frontend_react/src/pages/Estudiante/MyReservations.jsx:171-185 | `'all'` keeps everything, `'pendiente'` keeps the two pending states, and every result is a subsequence holding exactly the rows that pass |
| MisReservas.CancelacionDeReservaAjena | mytutor_frontend_react/src/pages/Estudiante/MyReservations.jsx:40-71 | a student who cancelled a slot that another student then booked sees that other booking as pending with a cancel button, and the backend refuses the cancellation |
| MisReservas.ResenaOfrecidaSinDerecho | mytutor_frontend_react/src/pages/Estudiante/MyReservations.jsx:40-330 | with the other booking completed, the row offers a review while the student's own latest booking is cancelled |
| MisReservas.VistaPropiaCoherente | mytutor_frontend_react/src/pages/Estudiante/MyReservations.jsx:40-71 | the row built from the student's own latest booking shows a completed one exactly when the backend's review check passes, and on a coherent slot a pending one only when the student holds the live booking |
| MisReservas.CadaReservaPropiaTieneVista | mytutor_frontend_react/src/pages/Estudiante/MyReservations.jsx:40-71 | every slot the backend returns to the student has one of their bookings, so the corrected row exists for each |
| AdminReservas.NombreEstudiante | mytutor_frontend_react/src/pages/Admin/AdminReservations.jsx:48-51 | the name the intended student lookup gives (the corrected half of the AdminReservations finding): never empty; an unknown student shows `Estudiante`; a student with both names shows them joined by a space |
| AdminReservas.EstudianteMostradoPorId | mytutor_frontend_react/src/pages/Admin/AdminReservations.jsx:47-56 | as written, a stored student `Ana Ruiz` appears in the student column as `ID: e1`, while the corrected row shows `Ana Ruiz` |
| AdminReservas.FilaCorregidaMuestraNombre | mytutor_frontend_react/src/pages/Admin/AdminReservations.jsx:47-56 | with the lookup through `GET /api/usuario/{id}`, an unknown student shows `Estudiante`, a student with both names shows them joined, and the row differs from the as-written one only in the student column |
| AdminReservas.FilasDePorPosicion | mytutor_frontend_react/src/pages/Admin/AdminReservations.jsx:43-73 | a slot gets one row per history entry, in history order, whose student column is `ID: ` and that entry's user id |
| AdminReservas.FilasExactas | mytutor_frontend_react/src/pages/Admin/AdminReservations.jsx:25-75 | as many rows as history entries over all slots, each the row of one entry of one slot, none with an e-mail, and each showing the student as `ID: ` and the student id |
| AdminReservas.CadaEntradaTieneFila | mytutor_frontend_react/src/pages/Admin/AdminReservations.jsx:25-75 | every entry of every slot, not only the live one, has its row, the one `FilaDe` builds, which names the student by `ID: ` and the entry's user id |
| AdminReservas.FilasDelHorario | mytutor_frontend_react/src/pages/Admin/AdminReservations.jsx:26-74 | the inner loop yields the slot's rows, one per entry, after a single tutor lookup, each naming the student by `ID: ` and id |
| AdminReservas.FilasDeEntradas | mytutor_frontend_react/src/pages/Admin/AdminReservations.jsx:43-73 | the inner loop pushes, entry by entry in history order, the row built from the slot, the tutor name and price already looked up, and `ID: ` with that entry's user id as the student |
| AdminReservas.LoadReservasAdmin | mytutor_frontend_react/src/pages/Admin/AdminReservations.jsx:16-80 | the nested loops build exactly the rows of all entries, slot by slot, each naming the student by `ID: ` and id |
| AdminReservas.FilteredReservasAdmin | mytutor_frontend_react/src/pages/Admin/AdminReservations.jsx:89-117 | a subsequence holding exactly the rows that pass the status filter and the search |
| AdminReservas.BusquedaVacia | mytutor_frontend_react/src/pages/Admin/AdminReservations.jsx:103 | an empty search keeps exactly the rows the status filter keeps, in order |
| AdminReservas.EmailNuncaCoincide | mytutor_frontend_react/src/pages/Admin/AdminReservations.jsx:52-114 | the e-mail column never matches a non-empty search |
| CrearResena.HandleSubmit | mytutor_frontend_react/src/pages/Estudiante/CreateReview.jsx:39-57 | a rating outside 1..5, 0 included, is refused first; then a trimmed comment shorter than 10 code units; the body is sent exactly when the rating is in 1..5 and the trimmed comment has at least 10 code units, and it carries the slot id, the rating and the trimmed comment, which has at least 5 characters |
| CrearResena.FormularioMasEstricto | mytutor_frontend_react/src/pages/Estudiante/CreateReview.jsx:40-44 | whatever the form posts passes the score check of `Resenas.CrearResena`, and the form refuses 0, which that check lets through |
| CrearResena.ClasificarError | mytutor_frontend_react/src/pages/Estudiante/CreateReview.jsx:69-91 | a duplicate-review phrase wins; otherwise status 400, 403 and 404 each give their message and any other status the general one, carrying the printed error text |
| Texto.RecortarInicio | mytutor_backend_no_sql/src/main/java/uis/mytutor/servicio/impl/UsuarioServicio.java:85 | the result is a suffix, everything dropped is blank, and it does not start blank |
| Texto.RecortarFin | mytutor_backend_no_sql/src/main/java/uis/mytutor/servicio/impl/UsuarioServicio.java:85 | the result is a prefix, everything dropped is blank, and it does not end blank |
| Texto.RecortarVacio | mytutor_backend_no_sql/src/main/java/uis/mytutor/servicio/impl/UsuarioServicio.java:85 | a string trims to nothing exactly when all of it is blank |
| Texto.ContieneCaracter | mytutor_backend_no_sql/src/main/java/uis/mytutor/servicio/impl/UsuarioServicio.java:120 | a one-character string is contained exactly when that character occurs |
| Texto.LongitudUtf16 | mytutor_frontend_react/src/pages/Estudiante/CreateReview.jsx:46 | the length in code units lies between the number of characters and twice it, and equals it when every character is in the basic plane |
| Texto.Pad2Digitos | mytutor_frontend_react/src/pages/Tutor/MySchedule.jsx:66-68 | a value below 100 is written as exactly its two decimal digits |
| Dashboard.LoadStats | mytutor_frontend_react/src/pages/Dashboard/Dashboard.jsx:44-77 | for `ROLE_ADMIN` the counters stay at zero; otherwise the nested loops count exactly the entries of all returned slots, classified by state |
| Dashboard.EntradasDePorPosicion | mytutor_frontend_react/src/pages/Dashboard/Dashboard.jsx:59-64 | one counted entry per history entry, in order, carrying its state name and date |
| Dashboard.TotalEsNumeroDeReservas | mytutor_frontend_react/src/pages/Dashboard/Dashboard.jsx:56-77 | the total is the sum of the history lengths over all slots |
| Dashboard.EntradasDeReservas | mytutor_frontend_react/src/pages/Dashboard/Dashboard.jsx:59-64 | every counted entry comes from a stored booking |
| Dashboard.PanelAcotado | mytutor_frontend_react/src/pages/Dashboard/Dashboard.jsx:71-77 | pending plus completed never exceed the total, which equals the number of history entries, and `CONFIRMADA` adds nothing to the pending count |
| Dashboard.PanelConReservaAjena | mytutor_frontend_react/src/pages/Dashboard/Dashboard.jsx:56-77 | a student who cancelled a slot another student then booked sees two bookings and one pending, though they hold neither |
| Dashboard.ReservaAjenaNoCuenta | mytutor_frontend_react/src/pages/Dashboard/Dashboard.jsx:56-77 | counted over the user's own entries, another user's booking of one of the slots changes neither the entries nor the counters |
| Fechas.DiasDelMes | mytutor_frontend_react/src/pages/Tutor/MySchedule.jsx:63 | every month has 28 to 31 days, and the common-year table is right for every month except February of a leap year |
| Fechas.DiasVecinos | mytutor_frontend_react/src/pages/Tutor/MySchedule.jsx:53-65 | the previous and the next calendar day undo each other |
| Fechas.IdaYVuelta | mytutor_frontend_react/src/pages/Tutor/MySchedule.jsx:44 | shifting a valid instant back by less than a day and forward again, or the other way round, returns it unchanged |
| Fechas.IsoDeAnchoFijo | mytutor_frontend_react/src/pages/Tutor/MySchedule.jsx:68 | with every field in range, month, day, hour and minute are each written as exactly two digits, so the text is 19 characters longer than the year |
| Fechas.OrdenDeDigitos | mytutor_frontend_react/src/pages/Tutor/MySchedule.jsx:38 | two-digit numbers compare as their digit pairs do |
| Fechas.OrdenDeRelojes | mytutor_frontend_react/src/pages/Tutor/MySchedule.jsx:38-42 | comparing two `HH:MM` texts as strings is comparing the times of day |
| MiHorario.RestarCincoHoras | mytutor_frontend_react/src/pages/Tutor/MySchedule.jsx:45-69 | a valid clock with the same minute; five hours earlier on the real calendar, except before 05:00 on 1 March of a leap year, where the day becomes 28 February |
| MiHorario.MarzoBisiesto | mytutor_frontend_react/src/pages/Tutor/MySchedule.jsx:53-65 | 2024-03-01 02:00 is sent as 2024-02-28 21:00, which five hours later is 29 February 02:00, not the selected day |
| MiHorario.RestarCincoHorasCorregido | mytutor_frontend_react/src/pages/Tutor/MySchedule.jsx:45-69 | with the real month lengths the result is five hours earlier on the calendar, and five hours later gives back the selection |
| MiHorario.HandleCreateHorario | mytutor_frontend_react/src/pages/Tutor/MySchedule.jsx:32-77 | refused exactly when the end is not after the start; otherwise, away from 1 March of a leap year, the two texts sent are the ISO forms of start and end each five hours earlier |
| MiHorario.AjustarHoraParaMostrar | mytutor_frontend_react/src/pages/Tutor/MySchedule.jsx:177-205 | the same year and minute; five hours earlier unless the shift crosses the first of a month, which shows day 30 of the previous month, December for January, in the same year |
| MiHorario.PrimeroDeMarzoMostrado | mytutor_frontend_react/src/pages/Tutor/MySchedule.jsx:192-198 | a session stored for 1 March 03:00 is listed on 30 February |
| MiHorario.AnioNuevoMostrado | mytutor_frontend_react/src/pages/Tutor/MySchedule.jsx:192-198 | a session stored for 1 January 02:00 is listed in December of the same year, not of the year before |
| MiHorario.EliminarSinReservaPendiente | mytutor_frontend_react/src/pages/Tutor/MySchedule.jsx:226 | a coherent slot that offers the delete button holds no pending booking |
| GestionHorarios.RegistrosDe | mytutor_frontend_react/src/pages/Tutor/ManageSchedule.jsx:21 | one record per stored slot, in order, without `activo` or `estado` properties |
| GestionHorarios.HorariosActivos | mytutor_frontend_react/src/pages/Tutor/ManageSchedule.jsx:27-42 | a subsequence holding exactly the records the active filter keeps |
| GestionHorarios.HorariosPasados | mytutor_frontend_react/src/pages/Tutor/ManageSchedule.jsx:50-53 | a subsequence holding exactly the records that ended before now |
| GestionHorarios.PasadosSonActivos | mytutor_frontend_react/src/pages/Tutor/ManageSchedule.jsx:27-53 | the past list holds exactly the active records that have ended |
| GestionHorarios.SlotsDelBackendSeListan | mytutor_frontend_react/src/pages/Tutor/ManageSchedule.jsx:27-42 | every stored slot is listed, the deactivated ones included |
| GestionHorarios.ValidarInicio | mytutor_frontend_react/src/pages/Tutor/ManageSchedule.jsx:119-141 | accepted exactly when the start is more than an hour after now, so an accepted start lies in the future |
| GestionHorarios.CalcularFechas | mytutor_frontend_react/src/pages/Tutor/ManageSchedule.jsx:144-184 | the start is the selection; the end has a valid clock equal to the start's plus the duration modulo a day, the same year and month, and the day advanced by one exactly when the end wraps past midnight; it is the real calendar sum unless the wrap falls on a month's last day |
| GestionHorarios.FinDeMes | mytutor_frontend_react/src/pages/Tutor/ManageSchedule.jsx:166-182 | a 60-minute session at 2025-01-31 23:30 gets the end 2025-01-32 00:30, where the calendar gives 2025-02-01 00:30 |
| GestionHorarios.CalcularFechasCorregido | mytutor_frontend_react/src/pages/Tutor/ManageSchedule.jsx:166-182 | with the calendar's next day the end is the start plus the duration, valid, and taking the duration back gives the start |
| GestionHorarios.ReservasActivasSonPendientes | mytutor_frontend_react/src/pages/Tutor/ManageSchedule.jsx:220-224 | the has-bookings check finds exactly a `PENDIENTE` entry, since no state is named `CONFIRMADA`; on a coherent slot, exactly a pending live booking |
| GestionHorarios.MensajeEliminar | mytutor_frontend_react/src/pages/Tutor/ManageSchedule.jsx:218-245 | a past slot gets the past-slot message; otherwise the warning exactly when it has active bookings, and the plain message when not |
| GestionHorarios.QuitarDeLista | mytutor_frontend_react/src/pages/Tutor/ManageSchedule.jsx:255 | a subsequence holding exactly the records with another id |
| GestionHorarios.QuitarUnSoloRegistro | mytutor_frontend_react/src/pages/Tutor/ManageSchedule.jsx:255 | with unique ids, deleting a listed slot removes exactly that record and keeps the rest in order |
| GestionHorarios.HandleLimpiarPasados | mytutor_frontend_react/src/pages/Tutor/ManageSchedule.jsx:68-100 | nothing to clean exactly for an empty list, not confirmed exactly when the dialog is declined; otherwise the loop counts the accepted deletions and the failed ones, which add up to the list, and none-deleted is reported exactly when none was accepted |

## Left out

- REST controllers, Spring Security filters, JWT signing and expiry: a token is modelled by its claims (user name and role), and the current user is a parameter that is in the store.
- The `GlobalExceptionHandler` mapping of exceptions to HTTP 400 responses: each thrown exception is an `Err` value naming its cause.
- Mongo persistence and queries beyond the repository methods the services call: `findById`, `findAll`, `save` and the overlap query of `HorarioRepositorio` are modelled on the `seq` field.
- The schedulers' timing (`@Scheduled` cron and rate): each job is one call with `now` as a parameter.
- The wall clock, time zones and `LocalDateTime`: instants are integer minutes, apart from the client's date strings, which `fechas.dfy` models through their fields.
- Password hashing (`PasswordEncoder.encode`/`matches`), the accent-stripping `normalizar`, and JavaScript `toLowerCase`: these are function parameters.
- Floating point: averages and hour counts are Dafny `real`, with no rounding.
- HTTP calls, React state, loading flags, `console` output, `alert`/`confirm` dialogs and navigation in the client pages: the models take the data each call returns.
- The `catch` branches of the client pages that only log or alert a failed load or action request: the models take the data each call returns. The tutor-lookup fallbacks of MyReservations and AdminReservations are modelled (`MisReservas.NombreTutor`: `"ID: "` and the tutor id, price 0, since a slot document carries no tutor name or price). The AdminReservations student fallback (`"ID: "` and the student id) is modelled too: it is what every row gets, because the lookup the page calls is not defined by its client API (see Findings).
- The `/api/horario/listMyHorarios` endpoint that MyTutorias, MySchedule and ManageSchedule call (through `getMyHorarios` and `listAllHorarios`): `HorarioControlador` does not define it, so the three pages are modelled over the slot list as given.
- The local-time `new Date(...)` construction in the client pages: dates are compared through the model's fields.
- A non-boolean `activo` field in the client data (such as `undefined`): every flag is a boolean.
- `obtenerResenaPorId`, `getUsuarios`, `getMyUsuario` and `getTutor`: these are plain lookups with no rule to state.
- MiHorario.HandleCreateHorario: the texts sent for a date of 1 March in a leap year are not stated; MiHorario.MarzoBisiesto shows one such case.
- GestionHorarios.CalcularFechas: where the end wraps past a month's last day, the end is characterised by its fields, not by a calendar instant (no such instant exists; see Findings).
- Texto.Decimal: only `|r| >= 1` is stated. That its characters are digits is not stated, because the extra quantifier makes the calendar proofs too costly.

## Findings

| source | as written | input that shows it | evidently intended | confidence | as-written member | corrected member |
|---|---|---|---|---|---|---|
| mytutor_frontend_react/src/pages/Estudiante/MyReservations.jsx:40-71 | a slot's row shows the slot's live booking, whoever holds it | a student cancels a slot, and another student books it; the first student's list shows the other's `PENDIENTE` booking with a cancel button, and the back end refuses the cancellation | the row shows the student's own latest booking | not executed | MisReservas.CancelacionDeReservaAjena | MisReservas.VistaPropiaCoherente |
| mytutor_frontend_react/src/pages/Dashboard/Dashboard.jsx:56-77 | the counters take every history entry of every slot returned by `getMyReservas` | the same slot: the first student's dashboard counts two bookings and one pending, though that student holds neither | count only the user's own entries | not executed | Dashboard.PanelConReservaAjena | Dashboard.ReservaAjenaNoCuenta |
| mytutor_frontend_react/src/pages/Tutor/MySchedule.jsx:53-65 | going back past the first of a month takes February as 28 days | 2024-03-01 02:00 is sent as 2024-02-28 21:00, and five hours later that is 2024-02-29 02:00 | the real length of February in leap years | not executed | MiHorario.MarzoBisiesto | MiHorario.RestarCincoHorasCorregido |
| mytutor_frontend_react/src/pages/Tutor/ManageSchedule.jsx:166-182 | the end day is the start day plus one, with no month or year carry | a 60-minute session at 2025-01-31 23:30 ends at `2025-01-32T00:30` | 2025-02-01 00:30 | not executed | GestionHorarios.FinDeMes | GestionHorarios.CalcularFechasCorregido |
| mytutor_frontend_react/src/pages/Admin/AdminReservations.jsx:47-56 | the student lookup calls `usuarioApi.getUserById`, which the client API does not define, so the call throws and every row shows `ID: ` and the student id, with an empty e-mail | a booking by the stored student Ana Ruiz, id `e1`, is listed with student `ID: e1` | look the student up through `GET /api/usuario/{id}` and show the name | not executed | AdminReservas.EstudianteMostradoPorId | AdminReservas.FilaCorregidaMuestraNombre |
