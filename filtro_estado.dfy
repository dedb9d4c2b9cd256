/**
 * The status filter the client's booking lists share: `'all'` keeps every row, `'pendiente'`
 * merges `PENDIENTE` and `ESPERANDO_ACCION_TUTOR`, and any other value must equal the row's state.
 * States reach the client as their JSON names, so rows carry them as strings.
 */
module FiltroEstado {

  import opened Seqs
  import opened Modelo

  /** The two states the client shows as pending. */
  predicate EstadoPendiente(estado: string)
  {
    estado == "PENDIENTE" || estado == "ESPERANDO_ACCION_TUTOR"
  }

  /** Whether a row in state `estado` passes the filter button `filtro`. */
  predicate PasaFiltro(filtro: string, estado: string)
  {
    filtro == "all" || (if filtro == "pendiente" then EstadoPendiente(estado) else estado == filtro)
  }

  /** `rows.filter(...)` with the status test, for rows whose state `estadoDe` reads. */
  function FiltrarPorEstado<T(==,!new)>(xs: seq<T>, estadoDe: T -> string, filtro: string): (r: seq<T>)
    ensures IsSubseq(r, xs)
    ensures forall x {:trigger x in r} :: x in r <==> x in xs && PasaFiltro(filtro, estadoDe(x))
  {
    Filter(xs, x => PasaFiltro(filtro, estadoDe(x)))
  }

  /** `'all'` keeps every row, in order. */
  lemma FiltroTodas<T(!new)>(xs: seq<T>, estadoDe: T -> string)
    ensures FiltrarPorEstado(xs, estadoDe, "all") == xs
  {
    FilterAll(xs, x => PasaFiltro("all", estadoDe(x)));
  }

  /** `'pendiente'` keeps the same rows as the pending counter's own filter `p`. */
  lemma FiltroPendiente<T(!new)>(xs: seq<T>, estadoDe: T -> string, p: T -> bool)
    requires forall x :: p(x) == EstadoPendiente(estadoDe(x))
    ensures FiltrarPorEstado(xs, estadoDe, "pendiente") == Filter(xs, p)
  {
    FilterExt(xs, x => PasaFiltro("pendiente", estadoDe(x)), p);
  }

  /** Any predicate that agrees with the status test selects the same rows. */
  lemma FiltroEquivalente<T(!new)>(xs: seq<T>, estadoDe: T -> string, filtro: string, p: T -> bool)
    requires forall x :: x in xs ==> p(x) == PasaFiltro(filtro, estadoDe(x))
    ensures FiltrarPorEstado(xs, estadoDe, filtro) == Filter(xs, p)
  {
    FilterExt(xs, x => PasaFiltro(filtro, estadoDe(x)), p);
  }

  /** Any value other than `'all'` and `'pendiente'` is an exact match on the state. */
  lemma FiltroExacto<T(!new)>(xs: seq<T>, estadoDe: T -> string, filtro: string)
    requires filtro != "all" && filtro != "pendiente"
    ensures FiltrarPorEstado(xs, estadoDe, filtro) == Filter(xs, x => estadoDe(x) == filtro)
  {
    FilterExt(xs, x => PasaFiltro(filtro, estadoDe(x)), x => estadoDe(x) == filtro);
  }

  /** The pending rows `p` are the `PENDIENTE` rows plus the `ESPERANDO_ACCION_TUTOR` rows. */
  lemma PendientesSuman<T(!new)>(xs: seq<T>, estadoDe: T -> string, p: T -> bool)
    requires forall x :: p(x) == EstadoPendiente(estadoDe(x))
    ensures Count(xs, p) == Count(xs, x => estadoDe(x) == "PENDIENTE") + Count(xs, x => estadoDe(x) == "ESPERANDO_ACCION_TUTOR")
  {
    CountUnion(xs, x => estadoDe(x) == "PENDIENTE", x => estadoDe(x) == "ESPERANDO_ACCION_TUTOR", p);
  }

  /** Of the backend's states, exactly `PENDIENTE` and `ESPERANDO_ACCION_TUTOR` are shown as pending. */
  lemma PendienteSegunEstado(e: EstadoReserva)
    ensures EstadoPendiente(NombreEstado(e)) <==> e == PENDIENTE || e == ESPERANDO_ACCION_TUTOR
  {
  }

  /** Distinct states have distinct names, so an exact filter on a state's name selects that state only. */
  lemma NombresDistintos(e: EstadoReserva, f: EstadoReserva)
    ensures NombreEstado(e) == NombreEstado(f) <==> e == f
  {
  }
}
