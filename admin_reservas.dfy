/**
 * The administrator's reservations page: one row per history entry of every slot, with the tutor
 * looked up and the student shown by id (the page calls a user lookup its client API does not
 * have), and the status and text filters. `minusculas` is JavaScript's
 * `toLowerCase` and `fechaLocal` the `toLocaleDateString('es-ES')` text of a date; the row key's
 * date is written with `EnteroATexto`, standing for the date's JSON text.
 */
module AdminReservas {

  import opened Wrappers
  import opened Seqs
  import opened Texto
  import opened Modelo
  import opened Repositorio
  import opened Tutores
  import opened Usuarios
  import opened FiltroEstado
  import opened MisReservas

  /** One row of the page. */
  datatype FilaAdmin = FilaAdmin(
    id: string,
    horarioId: string,
    fechaInicio: int,
    fechaFin: int,
    idTutor: string,
    tutorNombre: string,
    idEstudiante: string,
    estudianteNombre: string,
    estudianteEmail: string,
    estado: string,
    fechaReserva: int,
    precioHora: real)

  /** The React key of a row: slot id, student id and booking date joined by `-`. */
  function ClaveFila(horarioId: string, idUsuario: string, fecha: int): string
  {
    horarioId + "-" + idUsuario + "-" + EnteroATexto(fecha)
  }

  /**
   * The student's name the page means to show, from the user lookup `GET /api/usuario/{id}`. The
   * backend answers an unknown id with an empty body, which has no fields, so the name falls back
   * to `'Estudiante'`.
   */
  function NombreEstudiante(consulta: Option<UsuarioDTO>): (n: string)
    ensures n != []
    ensures consulta.None? ==> n == "Estudiante"
    ensures consulta.Some? && consulta.value.nombre != [] && consulta.value.apellido != [] ==>
      n == consulta.value.nombre + " " + consulta.value.apellido
  {
    match consulta
    case None => "Estudiante"
    case Some(d) =>
      if d.nombre != [] && d.apellido != [] then d.nombre + " " + d.apellido
      else if d.nombreUsuario != [] then d.nombreUsuario
      else "Estudiante"
  }

  /** The row of entry `r` of slot `h` once the names and the price are known. A user DTO has no `correo`, so the e-mail column is empty. */
  function FilaCon(h: Horario, r: Reserva, tutorNombre: string, estudianteNombre: string, precioHora: real): FilaAdmin
  {
    FilaAdmin(ClaveFila(h.id, r.idUsuario, r.fecha), h.id, h.fechaInicio, h.fechaFin, h.idTutor,
              tutorNombre, r.idUsuario, estudianteNombre, "", NombreEstado(r.estado), r.fecha, precioHora)
  }

  /**
   * The student column as the page fills it: the client's user API has no `getUserById`, so the
   * call throws inside the `try` and the `catch` writes the student's id.
   */
  function EstudianteSinConsulta(r: Reserva): string
  {
    "ID: " + r.idUsuario
  }

  /** The row of entry `r` of slot `h`: the tutor looked up, the student shown by id. */
  function FilaDe(h: Horario, r: Reserva, usuarios: seq<Usuario>): FilaAdmin
  {
    var tutor := GetTutorPorId(usuarios, h.idTutor);
    FilaCon(h, r, NombreTutor(tutor, h.idTutor), EstudianteSinConsulta(r),
            if tutor.Ok? then tutor.value.precioHora else 0.0)
  }

  /** The row the page evidently intends: the student looked up through `getUsuarioById`. */
  function FilaCorregida(h: Horario, r: Reserva, usuarios: seq<Usuario>): FilaAdmin
  {
    FilaDe(h, r, usuarios).(estudianteNombre := NombreEstudiante(GetUsuarioById(usuarios, r.idUsuario)))
  }

  /** The row builder of slot `h`. */
  function FilaDeEn(h: Horario, usuarios: seq<Usuario>): Reserva -> FilaAdmin
  {
    r => FilaDe(h, r, usuarios)
  }

  /** The rows of one slot's entries, in history order. */
  function FilasDe(h: Horario, rs: seq<Reserva>, usuarios: seq<Usuario>): seq<FilaAdmin>
  {
    Map(rs, FilaDeEn(h, usuarios))
  }

  /** A slot's rows follow its history: one per entry, in order. */
  lemma FilasDePorPosicion(h: Horario, rs: seq<Reserva>, usuarios: seq<Usuario>)
    ensures |FilasDe(h, rs, usuarios)| == |rs|
    ensures forall k :: 0 <= k < |rs| ==> FilasDe(h, rs, usuarios)[k] == FilaDe(h, rs[k], usuarios)
    ensures forall k :: 0 <= k < |rs| ==>
      FilasDe(h, rs, usuarios)[k].idEstudiante == rs[k].idUsuario
      && FilasDe(h, rs, usuarios)[k].estudianteNombre == "ID: " + rs[k].idUsuario
  {
    MapPorPosicion(rs, FilaDeEn(h, usuarios));
  }

  /** The rows `loadReservas` builds: every entry of every slot, slot by slot. */
  function Filas(horarios: seq<Horario>, usuarios: seq<Usuario>): seq<FilaAdmin>
  {
    if horarios == [] then []
    else
      var h := horarios[|horarios| - 1];
      Filas(horarios[..|horarios| - 1], usuarios) + FilasDe(h, h.historialReservas, usuarios)
  }

  /**
   * There is one row per history entry, not only per live booking: as many rows as entries, each
   * the row of an entry of one of the slots, none with an e-mail and each showing the student's id
   * in place of a name.
   */
  lemma {:induction false} FilasExactas(horarios: seq<Horario>, usuarios: seq<Usuario>)
    ensures |Filas(horarios, usuarios)| == NumeroDeReservas(horarios)
    ensures forall f :: f in Filas(horarios, usuarios) ==> f.estudianteNombre == "ID: " + f.idEstudiante
    ensures forall f :: f in Filas(horarios, usuarios) ==>
      f.estudianteEmail == "" && exists h, r :: h in horarios && r in h.historialReservas && f == FilaDe(h, r, usuarios)
  {
    if horarios != [] {
      var n := |horarios| - 1;
      var h := horarios[n];
      FilasExactas(horarios[..n], usuarios);
      FilasDePorPosicion(h, h.historialReservas, usuarios);
      forall f | f in Filas(horarios, usuarios)
        ensures f.estudianteEmail == "" && exists h, r :: h in horarios && r in h.historialReservas && f == FilaDe(h, r, usuarios)
      {
        if f in Filas(horarios[..n], usuarios) {
          var g, r :| g in horarios[..n] && r in g.historialReservas && f == FilaDe(g, r, usuarios);
          assert g in horarios;
        } else {
          var fs := FilasDe(h, h.historialReservas, usuarios);
          assert f in fs;
          var k :| 0 <= k < |fs| && fs[k] == f;
          assert h.historialReservas[k] in h.historialReservas;
        }
      }
    }
  }

  /** Every entry of every slot gets its row. */
  lemma {:induction false} CadaEntradaTieneFila(horarios: seq<Horario>, usuarios: seq<Usuario>, i: nat, k: nat)
    requires i < |horarios| && k < |horarios[i].historialReservas|
    ensures FilaDe(horarios[i], horarios[i].historialReservas[k], usuarios) in Filas(horarios, usuarios)
  {
    var n := |horarios| - 1;
    var h := horarios[n];
    var fila := FilaDe(horarios[i], horarios[i].historialReservas[k], usuarios);
    var previas := Filas(horarios[..n], usuarios);
    var fs := FilasDe(h, h.historialReservas, usuarios);
    assert Filas(horarios, usuarios) == previas + fs;
    if i < n {
      assert horarios[..n][i] == horarios[i];
      CadaEntradaTieneFila(horarios[..n], usuarios, i, k);
      assert fila in previas;
    } else {
      FilasDePorPosicion(h, h.historialReservas, usuarios);
      assert fs[k] == fila;
    }
  }

  /** The row builder of slot `h` once its tutor's name and price are known. */
  function FilaConEn(h: Horario, tutorNombre: string, precioHora: real): Reserva -> FilaAdmin
  {
    (r: Reserva) => FilaCon(h, r, tutorNombre, EstudianteSinConsulta(r), precioHora)
  }

  /** The inner loop of `loadReservas`: one row per entry, the failed student lookup falling back to the id. */
  method FilasDeEntradas(h: Horario, rs: seq<Reserva>, tutorNombre: string, precioHora: real)
    returns (filas: seq<FilaAdmin>)
    ensures filas == Map(rs, FilaConEn(h, tutorNombre, precioHora))
  {
    filas := [];
    for k := 0 to |rs|
      invariant filas == Map(rs[..k], FilaConEn(h, tutorNombre, precioHora))
    {
      var r := rs[k];
      var estudianteNombre := "ID: " + r.idUsuario;
      var fila := FilaCon(h, r, tutorNombre, estudianteNombre, precioHora);
      MapSnoc(rs, k, FilaConEn(h, tutorNombre, precioHora));
      filas := filas + [fila];
    }
    assert rs[..|rs|] == rs;
  }

  /** The body of `loadReservas`'s outer loop for a slot with bookings: one tutor lookup, then a row per entry. */
  method FilasDelHorario(h: Horario, usuarios: seq<Usuario>) returns (filas: seq<FilaAdmin>)
    ensures filas == FilasDe(h, h.historialReservas, usuarios)
  {
    var rs := h.historialReservas;
    var tutor := GetTutorPorId(usuarios, h.idTutor);
    var tutorNombre := NombreTutor(tutor, h.idTutor);
    var precioHora := if tutor.Ok? then tutor.value.precioHora else 0.0;
    filas := FilasDeEntradas(h, rs, tutorNombre, precioHora);
    forall r | r in rs ensures FilaConEn(h, tutorNombre, precioHora)(r) == FilaDeEn(h, usuarios)(r) {
    }
    MapExt(rs, FilaConEn(h, tutorNombre, precioHora), FilaDeEn(h, usuarios));
  }

  /** `loadReservas`: every entry of every slot, slot by slot. */
  method LoadReservasAdmin(horarios: seq<Horario>, usuarios: seq<Usuario>) returns (lista: seq<FilaAdmin>)
    ensures lista == Filas(horarios, usuarios)
  {
    lista := [];
    for i := 0 to |horarios|
      invariant lista == Filas(horarios[..i], usuarios)
    {
      var h := horarios[i];
      assert horarios[..i + 1][..i] == horarios[..i];
      if |h.historialReservas| > 0 {
        var filas := FilasDelHorario(h, usuarios);
        lista := lista + filas;
      }
    }
    assert horarios[..|horarios|] == horarios;
  }

  /** The page as written: a student with a name on record is still listed by id. */
  lemma EstudianteMostradoPorId()
    ensures var ana := Usuario("e1", "Ana", "Ruiz", "", "", None, true, "ana", "", ESTUDIANTE, None);
      var h := Horario("h1", "t1", 0, 60, false, [Reserva("e1", PENDIENTE, 0)], false);
      && Filas([h], [ana])[0].estudianteNombre == "ID: e1"
      && FilaCorregida(h, h.historialReservas[0], [ana]).estudianteNombre == "Ana Ruiz"
  {
    var ana := Usuario("e1", "Ana", "Ruiz", "", "", None, true, "ana", "", ESTUDIANTE, None);
    var h := Horario("h1", "t1", 0, 60, false, [Reserva("e1", PENDIENTE, 0)], false);
    FilasDePorPosicion(h, h.historialReservas, [ana]);
    assert Filas([h], [ana]) == FilasDe(h, h.historialReservas, [ana]) by {
      assert [h][..0] == [];
    }
    FilaCorregidaMuestraNombre(h, h.historialReservas[0], [ana]);
  }

  /**
   * The corrected row names the student: by first and last name when both are on record, and
   * `'Estudiante'` for an id nobody holds. Every other column is the row as the page builds it.
   */
  lemma FilaCorregidaMuestraNombre(h: Horario, r: Reserva, usuarios: seq<Usuario>)
    requires ClavesUnicas(usuarios, IdUsuario)
    ensures (forall j :: 0 <= j < |usuarios| ==> usuarios[j].id != r.idUsuario) ==>
      FilaCorregida(h, r, usuarios).estudianteNombre == "Estudiante"
    ensures forall j :: 0 <= j < |usuarios| && usuarios[j].id == r.idUsuario && usuarios[j].nombre != [] && usuarios[j].apellido != [] ==>
      FilaCorregida(h, r, usuarios).estudianteNombre == usuarios[j].nombre + " " + usuarios[j].apellido
    ensures FilaCorregida(h, r, usuarios).(estudianteNombre := "ID: " + r.idUsuario) == FilaDe(h, r, usuarios)
  {
    forall j | 0 <= j < |usuarios| && usuarios[j].id == r.idUsuario
      ensures GetUsuarioById(usuarios, r.idUsuario) == ToDTO(Some(usuarios[j]))
    {
      BuscarUnica(usuarios, IdUsuario, j);
    }
  }

  /** The text test of a row: the lower-cased term occurs in a lower-cased name, the e-mail, the state, or the start date's text. */
  predicate CoincideBusqueda(f: FilaAdmin, termino: string, minusculas: string -> string, fechaLocal: int -> string)
  {
    var s := minusculas(termino);
    Contiene(minusculas(f.estudianteNombre), s) || Contiene(minusculas(f.tutorNombre), s)
    || Contiene(minusculas(f.estudianteEmail), s) || Contiene(fechaLocal(f.fechaInicio), s)
    || Contiene(minusculas(f.estado), s)
  }

  /** Whether a row passes both filters. */
  predicate PasaFiltros(f: FilaAdmin, filtro: string, termino: string, minusculas: string -> string, fechaLocal: int -> string)
  {
    PasaFiltro(filtro, f.estado) && (termino == [] || CoincideBusqueda(f, termino, minusculas, fechaLocal))
  }

  /** `filteredReservas` */
  function FilteredReservasAdmin(filas: seq<FilaAdmin>, filtro: string, termino: string,
                                 minusculas: string -> string, fechaLocal: int -> string): (r: seq<FilaAdmin>)
    ensures IsSubseq(r, filas)
    ensures forall f {:trigger f in r} :: f in r <==> f in filas && PasaFiltros(f, filtro, termino, minusculas, fechaLocal)
  {
    Filter(filas, f => PasaFiltros(f, filtro, termino, minusculas, fechaLocal))
  }

  function EstadoFila(f: FilaAdmin): string { f.estado }

  /** An empty search keeps exactly the rows the status filter keeps, in order. */
  lemma BusquedaVacia(filas: seq<FilaAdmin>, filtro: string, minusculas: string -> string, fechaLocal: int -> string)
    ensures FilteredReservasAdmin(filas, filtro, "", minusculas, fechaLocal) == FiltrarPorEstado(filas, EstadoFila, filtro)
  {
    FiltroEquivalente(filas, EstadoFila, filtro, f => PasaFiltros(f, filtro, "", minusculas, fechaLocal));
  }

  /** The e-mail column never matches a search, since it is always empty and lower-casing keeps it so. */
  lemma EmailNuncaCoincide(h: Horario, r: Reserva, usuarios: seq<Usuario>, termino: string, minusculas: string -> string)
    requires minusculas("") == "" && minusculas(termino) != ""
    ensures !Contiene(minusculas(FilaDe(h, r, usuarios).estudianteEmail), minusculas(termino))
  {
  }
}
