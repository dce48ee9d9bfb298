/**
 * The listing endpoint: copy the store's list, keep the records that pass the
 * optional filters (activo, categoria, buscar), sort by the requested key and
 * direction, and cut out one page.  Query parameters that break their bounds
 * are rejected before any of this happens.
 */
module Listing {
  import opened Wrappers
  import opened Schemas
  import opened Sorting
  import Text

  datatype Filtros = Filtros(activo: Option<bool>, categoria: Option<string>, buscar: Option<string>)

  /** The query parameters as received. */
  datatype Parametros = Parametros(
    pagina: int,
    limite: int,
    activo: Option<bool>,
    categoria: Option<string>,
    buscar: Option<string>,
    ordenPor: string,
    direccion: string)

  /** A query whose parameters passed validation. */
  datatype Consulta = Consulta(pagina: int, limite: int, filtros: Filtros, orden: Orden)

  /** One page of the result together with the size of the whole filtered list. */
  datatype Pagina = Pagina(elementos: seq<Elemento>, total: nat, pagina: int, porPagina: int)

  /** The parameters the endpoint uses when none is given. */
  function ParametrosPorDefecto(): Parametros
  {
    Parametros(1, 10, None, None, None, "fecha_creacion", "desc")
  }

  /** orden_por must match ^(nombre|fecha_creacion|valor_numerico)$. */
  function ParseCampo(t: string): (r: Option<Campo>)
    ensures r.Some? <==> t in ["nombre", "fecha_creacion", "valor_numerico"]
    ensures r == Some(Nombre) <==> t == "nombre"
    ensures r == Some(ValorNumerico) <==> t == "valor_numerico"
    ensures r == Some(FechaCreacion) <==> t == "fecha_creacion"
  {
    if t == "nombre" then Some(Nombre)
    else if t == "valor_numerico" then Some(ValorNumerico)
    else if t == "fecha_creacion" then Some(FechaCreacion)
    else None
  }

  /** The numeric and length bounds of a validated query. */
  predicate ConsultaValida(q: Consulta)
  {
    && q.pagina >= 1
    && 1 <= q.limite <= 100
    && (q.filtros.buscar.None? || |q.filtros.buscar.value| >= 3)
  }

  /**
   * The checks FastAPI makes on the query parameters: pagina >= 1,
   * 1 <= limite <= 100, buscar of at least 3 characters, orden_por one of the
   * three keys and direccion asc or desc.  direccion == "desc" sorts in reverse.
   */
  function ValidarParametros(p: Parametros): (r: Result<Consulta, Error>)
    ensures r.Ok? <==> (p.pagina >= 1 && 1 <= p.limite <= 100 && (p.buscar.None? || |p.buscar.value| >= 3)
                        && p.ordenPor in ["nombre", "fecha_creacion", "valor_numerico"]
                        && p.direccion in ["asc", "desc"])
    ensures r.Err? ==> r.error == ValidacionFallida
    ensures r.Ok? ==> (ConsultaValida(r.value) && r.value.pagina == p.pagina && r.value.limite == p.limite
                       && r.value.filtros == Filtros(p.activo, p.categoria, p.buscar)
                       && Some(r.value.orden.campo) == ParseCampo(p.ordenPor)
                       && r.value.orden.desc == (p.direccion == "desc"))
  {
    var campo := ParseCampo(p.ordenPor);
    if p.pagina >= 1 && 1 <= p.limite <= 100 && (p.buscar.None? || |p.buscar.value| >= 3)
       && campo.Some? && (p.direccion == "asc" || p.direccion == "desc")
    then
      Ok(Consulta(p.pagina, p.limite, Filtros(p.activo, p.categoria, p.buscar), Orden(campo.value, p.direccion == "desc")))
    else
      Err(ValidacionFallida)
  }

  /** The text search: the lower-cased needle occurs in the lower-cased nombre or non-empty descripcion. */
  predicate Coincide(buscar: string, x: Elemento)
  {
    var needle := Text.Lower(buscar);
    Text.Contains(Text.Lower(x.nombre), needle)
    || (x.descripcion.Some? && x.descripcion.value != "" && Text.Contains(Text.Lower(x.descripcion.value), needle))
  }

  /** A record passes the filters.  An empty categoria or buscar filters nothing, as a falsy value does. */
  predicate Cumple(f: Filtros, x: Elemento)
  {
    && (f.activo.None? || x.activo == f.activo.value)
    && (f.categoria.None? || f.categoria.value == "" || x.categoria == f.categoria.value)
    && (f.buscar.None? || f.buscar.value == "" || Coincide(f.buscar.value, x))
  }

  /** One comprehension condition of the listing. */
  datatype Condicion = PorActivo(activo: bool) | PorCategoria(categoria: string) | PorBuscar(buscar: string)

  predicate Pasa(c: Condicion, x: Elemento)
  {
    match c
    case PorActivo(a) => x.activo == a
    case PorCategoria(cat) => x.categoria == cat
    case PorBuscar(b) => Coincide(b, x)
  }

  /** A list comprehension with a condition: keeps the records that pass c, in order. */
  function Keep(s: seq<Elemento>, c: Condicion): (r: seq<Elemento>)
    ensures forall x {:trigger multiset(r)[x]} :: multiset(r)[x] == if Pasa(c, x) then multiset(s)[x] else 0
    ensures |r| <= |s|
  {
    if s == [] then []
    else
      assert s == [s[0]] + s[1..];
      (if Pasa(c, s[0]) then [s[0]] else []) + Keep(s[1..], c)
  }

  /** The three filters, applied one after the other. */
  function Filtrar(db: seq<Elemento>, f: Filtros): (r: seq<Elemento>)
    ensures forall x :: multiset(r)[x] == if Cumple(f, x) then multiset(db)[x] else 0
  {
    var s1 := if f.activo.Some? then Keep(db, PorActivo(f.activo.value)) else db;
    var s2 := if f.categoria.Some? && f.categoria.value != "" then Keep(s1, PorCategoria(f.categoria.value)) else s1;
    if f.buscar.Some? && f.buscar.value != "" then Keep(s2, PorBuscar(f.buscar.value)) else s2
  }

  /** A comprehension over a concatenation keeps the kept records of each part, in order. */
  lemma {:induction false} KeepAppend(a: seq<Elemento>, b: seq<Elemento>, c: Condicion)
    ensures Keep(a + b, c) == Keep(a, c) + Keep(b, c)
  {
    if a == [] {
      assert a + b == b;
    } else {
      var h := if Pasa(c, a[0]) then [a[0]] else [];
      var resto := Keep(a[1..] + b, c);
      assert Keep(a + b, c) == h + resto by {
        assert (a + b)[0] == a[0] && (a + b)[1..] == a[1..] + b;
      }
      assert Keep(a, c) == h + Keep(a[1..], c);
      KeepAppend(a[1..], b, c);
      assert h + resto == (h + Keep(a[1..], c)) + Keep(b, c);
    }
  }

  /**
   * The comprehension keeps list order: the records with a given sort key
   * that survive it are those of the input with that key, in input order.
   */
  lemma {:induction false} KeepSameKey(campo: Campo, s: seq<Elemento>, c: Condicion, e: Elemento)
    ensures SameKeyAs(campo, Keep(s, c), e) == Keep(SameKeyAs(campo, s, e), c)
  {
    if s != [] {
      var x, t := s[0], s[1..];
      var both: seq<Elemento> := if Pasa(c, x) && SameKey(campo, x, e) then [x] else [];
      var head := if Pasa(c, x) then [x] else [];
      var headKey := if SameKey(campo, x, e) then [x] else [];
      assert SameKeyAs(campo, Keep(s, c), e) == both + Keep(SameKeyAs(campo, t, e), c) by {
        assert Keep(s, c) == head + Keep(t, c);
        SameKeyAsAppend(campo, head, Keep(t, c), e);
        assert SameKeyAs(campo, head, e) == both by {
          if head != [] { assert head[1..] == []; }
        }
        KeepSameKey(campo, t, c, e);
      }
      assert Keep(SameKeyAs(campo, s, e), c) == both + Keep(SameKeyAs(campo, t, e), c) by {
        assert SameKeyAs(campo, s, e) == headKey + SameKeyAs(campo, t, e);
        KeepAppend(headKey, SameKeyAs(campo, t, e), c);
        assert Keep(headKey, c) == both by {
          if headKey != [] { assert headKey[1..] == []; }
        }
      }
    }
  }

  /** Filtering keeps store order among the records with a given sort key. */
  lemma FiltrarSameKey(campo: Campo, db: seq<Elemento>, f: Filtros, e: Elemento)
    ensures SameKeyAs(campo, Filtrar(db, f), e) == Filtrar(SameKeyAs(campo, db, e), f)
  {
    if f.activo.Some? { KeepSameKey(campo, db, PorActivo(f.activo.value), e); }
    var s1 := if f.activo.Some? then Keep(db, PorActivo(f.activo.value)) else db;
    if f.categoria.Some? && f.categoria.value != "" { KeepSameKey(campo, s1, PorCategoria(f.categoria.value), e); }
    var s2 := if f.categoria.Some? && f.categoria.value != "" then Keep(s1, PorCategoria(f.categoria.value)) else s1;
    if f.buscar.Some? && f.buscar.value != "" { KeepSameKey(campo, s2, PorBuscar(f.buscar.value), e); }
  }

  /** Python slicing s[lo:hi] for 0 <= lo <= hi: clamped to the length. */
  function Tramo(s: seq<Elemento>, lo: nat, hi: nat): (r: seq<Elemento>)
    requires lo <= hi
    ensures |r| == if lo >= |s| then 0 else (if hi <= |s| then hi else |s|) - lo
    ensures forall k | 0 <= k < |r| :: r[k] == s[lo + k]
  {
    if lo >= |s| then [] else s[lo..if hi <= |s| then hi else |s|]
  }

  /** A slice holds only members of the list. */
  lemma TramoDe(s: seq<Elemento>, lo: nat, hi: nat)
    requires lo <= hi
    ensures forall x | x in Tramo(s, lo, hi) :: x in s
  {
    var t := Tramo(s, lo, hi);
    forall x | x in t ensures x in s {
      var i :| 0 <= i < |t| && t[i] == x;
      assert s[lo + i] == x;
    }
  }

  /** A slice of a sorted list is sorted. */
  lemma TramoOrdenado(o: Orden, s: seq<Elemento>, lo: nat, hi: nat)
    requires lo <= hi && Sorted(o, s)
    ensures Sorted(o, Tramo(s, lo, hi))
  {
    var t := Tramo(s, lo, hi);
    forall i, j | 0 <= i < j < |t| ensures !Before(o, t[j], t[i]) {
      assert t[i] == s[lo + i] && t[j] == s[lo + j];
    }
  }

  /** Position of the first record of the requested page. */
  function Inicio(q: Consulta): nat
    requires ConsultaValida(q)
  {
    InicioDe(q.pagina, q.limite)
  }

  /**
   * Start of page `pagina`: (pagina - 1) * limite, written as repeated
   * addition so that the product stays out of every proof that does not ask
   * for it (InicioDeProducto).
   */
  function InicioDe(pagina: int, limite: int): nat
    requires pagina >= 1 && limite >= 1
    decreases pagina
  {
    if pagina == 1 then 0 else InicioDe(pagina - 1, limite) + limite
  }

  lemma {:induction false} InicioDeProducto(pagina: int, limite: int)
    requires pagina >= 1 && limite >= 1
    ensures InicioDe(pagina, limite) == (pagina - 1) * limite
    decreases pagina
  {
    if pagina > 1 { InicioDeProducto(pagina - 1, limite); }
  }

  /** The sorted list of every record that passes the filters, before pagination. */
  function Ordenados(db: seq<Elemento>, q: Consulta): seq<Elemento>
  {
    Sort(q.orden, Filtrar(db, q.filtros))
  }

  /** The sorted list holds exactly the records of the store that pass the filters, with their multiplicity. */
  lemma OrdenadosContenido(db: seq<Elemento>, q: Consulta)
    ensures forall x :: multiset(Ordenados(db, q))[x] == if Cumple(q.filtros, x) then multiset(db)[x] else 0
  {
    assert multiset(Ordenados(db, q)) == multiset(Filtrar(db, q.filtros));
  }

  /**
   * Ties after the stable sort: the listed records whose sort key equals e's
   * are the store's records with that key that pass the filters, in store order.
   */
  lemma OrdenadosEstable(db: seq<Elemento>, q: Consulta, e: Elemento)
    ensures SameKeyAs(q.orden.campo, Ordenados(db, q), e) == Filtrar(SameKeyAs(q.orden.campo, db, e), q.filtros)
  {
    SortStable(q.orden, Filtrar(db, q.filtros), e);
    FiltrarSameKey(q.orden.campo, db, q.filtros, e);
  }

  /** The page a validated query asks for. */
  function Paginar(db: seq<Elemento>, q: Consulta): (r: Pagina)
    requires ConsultaValida(q)
    ensures r.total == |Filtrar(db, q.filtros)| && r.pagina == q.pagina && r.porPagina == q.limite
    ensures |r.elementos| <= q.limite
  {
    var filtrados := Ordenados(db, q);
    Pagina(Tramo(filtrados, Inicio(q), Inicio(q) + q.limite), |filtrados|, q.pagina, q.limite)
  }

  /** Every record on a page is a record of the store that passes the filters. */
  lemma PaginarSoloFiltrados(db: seq<Elemento>, q: Consulta)
    requires ConsultaValida(q)
    ensures forall x | x in Paginar(db, q).elementos :: x in db && Cumple(q.filtros, x)
  {
    var filtrados := Ordenados(db, q);
    TramoDe(filtrados, Inicio(q), Inicio(q) + q.limite);
    OrdenadosContenido(db, q);
    assert forall x | x in Paginar(db, q).elementos :: multiset(filtrados)[x] > 0;
  }

  /** The endpoint: invalid parameters are rejected, valid ones give their page. */
  function Listar(db: seq<Elemento>, p: Parametros): (r: Result<Pagina, Error>)
    ensures r.Err? <==> ValidarParametros(p).Err?
    ensures r.Err? ==> r.error == ValidacionFallida
    ensures r.Ok? ==> (r.value.total == |Filtrar(db, Filtros(p.activo, p.categoria, p.buscar))|
                       && r.value.pagina == p.pagina && |r.value.elementos| <= p.limite)
    ensures r.Ok? ==> forall x | x in r.value.elementos :: x in db && Cumple(Filtros(p.activo, p.categoria, p.buscar), x)
    ensures r.Ok? ==> ValidarParametros(p).Ok? && Sorted(ValidarParametros(p).value.orden, r.value.elementos)
  {
    match ValidarParametros(p)
    case Err(e) => Err(e)
    case Ok(q) =>
      PaginarSoloFiltrados(db, q);
      PaginarOrdenado(db, q);
      Ok(Paginar(db, q))
  }

  /** The page is listed in the requested order. */
  lemma PaginarOrdenado(db: seq<Elemento>, q: Consulta)
    requires ConsultaValida(q)
    ensures Sorted(q.orden, Paginar(db, q).elementos)
  {
    PaginarEsTramo(db, q);
    SortSorted(q.orden, Filtrar(db, q.filtros));
    TramoOrdenado(q.orden, Ordenados(db, q), Inicio(q), Inicio(q) + q.limite);
  }

  lemma PaginarEsTramo(db: seq<Elemento>, q: Consulta)
    requires ConsultaValida(q)
    ensures Paginar(db, q).elementos == Tramo(Ordenados(db, q), Inicio(q), Inicio(q) + q.limite)
  {
  }

  /** Page p holds positions Inicio(q), Inicio(q) + 1, ... of the sorted filtered list, at most limite of them, and Inicio(q) is (p - 1) * limite. */
  lemma PaginarPaginaEsTramo(db: seq<Elemento>, q: Consulta)
    requires ConsultaValida(q)
    ensures Inicio(q) == (q.pagina - 1) * q.limite
    ensures var page := Paginar(db, q).elementos;
            var all := Ordenados(db, q);
            && |page| == (if Inicio(q) >= |all| then 0
                          else if |all| - Inicio(q) < q.limite then |all| - Inicio(q) else q.limite)
            && (forall k | 0 <= k < |page| :: page[k] == all[Inicio(q) + k])
  {
    PaginarEsTramo(db, q);
    InicioDeProducto(q.pagina, q.limite);
  }

  /** Position k lies on page k / l + 1. */
  lemma PaginaDe(k: nat, l: nat) returns (p: int)
    requires l >= 1
    ensures p == k / l + 1
    ensures p >= 1 && InicioDe(p, l) <= k < InicioDe(p, l) + l
  {
    p := k / l + 1;
    InicioDeProducto(p, l);
    assert k == (k / l) * l + k % l;
  }

  /** The element at position k of s is in the slice of the page that contains k. */
  lemma TramoContiene(s: seq<Elemento>, l: nat, k: nat) returns (p: int)
    requires l >= 1 && k < |s|
    ensures p >= 1 && s[k] in Tramo(s, InicioDe(p, l), InicioDe(p, l) + l)
  {
    p := PaginaDe(k, l);
    var lo := InicioDe(p, l);
    var t := Tramo(s, lo, lo + l);
    assert t[k - lo] == s[k];
  }

  /** Every member of s is on some page of s. */
  lemma TramoCubre(s: seq<Elemento>, l: nat, x: Elemento) returns (p: int)
    requires l >= 1 && x in s
    ensures p >= 1 && x in Tramo(s, InicioDe(p, l), InicioDe(p, l) + l)
  {
    var k :| 0 <= k < |s| && s[k] == x;
    p := TramoContiene(s, l, k);
  }

  /** Asking for another page of the same query cuts another slice of the same list. */
  lemma OtraPagina(db: seq<Elemento>, q: Consulta, p: int)
    requires ConsultaValida(q) && p >= 1
    ensures Paginar(db, q.(pagina := p)).elementos == Tramo(Ordenados(db, q), InicioDe(p, q.limite), InicioDe(p, q.limite) + q.limite)
  {
    var q2 := q.(pagina := p);
    assert q2.filtros == q.filtros && q2.orden == q.orden && q2.limite == q.limite;
    PaginarEsTramo(db, q2);
  }

  /** No record that passes the filters is lost: it is on the page given by its position. */
  lemma PaginarCubre(db: seq<Elemento>, q: Consulta, x: Elemento) returns (p: int)
    requires ConsultaValida(q) && x in db && Cumple(q.filtros, x)
    ensures p >= 1 && x in Paginar(db, q.(pagina := p)).elementos
  {
    OrdenadosContenido(db, q);
    assert x in multiset(Ordenados(db, q));
    p := TramoCubre(Ordenados(db, q), q.limite, x);
    OtraPagina(db, q, p);
  }

  /** The search ignores the case of ASCII letters in the needle. */
  lemma BuscarIgnoraMayusculas(b: string, x: Elemento)
    ensures Coincide(b, x) == Coincide(Text.Lower(b), x)
  {
    Text.LowerIdempotent(b);
  }

  /** A needle that occurs verbatim in nombre is always found. */
  lemma BuscarEncuentraSubcadena(b: string, x: Elemento)
    requires Text.Contains(x.nombre, b)
    ensures Coincide(b, x)
  {
    Text.ContainsCorrect(x.nombre, b);
    var i :| Text.OccursAt(b, x.nombre, i);
    var h, n := Text.Lower(x.nombre), Text.Lower(b);
    assert h[i..i + |n|] == n by {
      forall k | 0 <= k < |n| ensures h[i..i + |n|][k] == n[k] {
        assert x.nombre[i..i + |b|][k] == b[k];
        Text.LowerAt(x.nombre, i + k);
        Text.LowerAt(b, k);
      }
    }
    assert Text.OccursAt(n, h, i);
    Text.ContainsCorrect(h, n);
  }

  /** The default parameters are valid and list the newest records first. */
  lemma ParametrosPorDefectoValidos()
    ensures ValidarParametros(ParametrosPorDefecto()).Ok?
    ensures ValidarParametros(ParametrosPorDefecto()).value.orden == Orden(FechaCreacion, true)
  {
  }
}
