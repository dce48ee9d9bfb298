/**
 * The in-memory store of "type A" records: a list of records and the next id
 * to hand out.  Create appends, update rewrites one record in place, delete
 * pops one record, and get and statistics only read.  The invariants the
 * store keeps are stated once, on a snapshot (the list and the counter), and
 * every operation is proved to preserve them.
 */
module Store {
  import opened Wrappers
  import opened Schemas

  // ---------------------------------------------------------------------------
  // Invariants of a snapshot

  /** ids strictly increase in list order (records are appended with a growing counter). */
  predicate IdsCrecientes(db: seq<Elemento>)
  {
    forall i, j | 0 <= i < j < |db| :: db[i].id < db[j].id
  }

  /** No two records share a codigo. */
  predicate CodigosUnicos(db: seq<Elemento>)
  {
    forall i, j | 0 <= i < j < |db| :: db[i].codigo != db[j].codigo
  }

  /** Every id was handed out already: 1 <= id < contador. */
  predicate IdsBajo(db: seq<Elemento>, contador: int)
  {
    forall i | 0 <= i < |db| :: 1 <= db[i].id < contador
  }

  predicate RegistrosValidos(db: seq<Elemento>)
  {
    forall i | 0 <= i < |db| :: ElementoValido(db[i])
  }

  predicate Invariante(db: seq<Elemento>, contador: int)
  {
    contador >= 1 && IdsCrecientes(db) && CodigosUnicos(db) && IdsBajo(db, contador) && RegistrosValidos(db)
  }

  // ---------------------------------------------------------------------------
  // Searching

  /** The position of the first record with this id, as next(i for i, e in enumerate(db) if e.id == id). */
  function Posicion(db: seq<Elemento>, id: int): (r: Option<nat>)
    ensures r.Some? ==> r.value < |db| && db[r.value].id == id
    ensures r.Some? ==> forall j | 0 <= j < r.value :: db[j].id != id
    ensures r.None? <==> forall j | 0 <= j < |db| :: db[j].id != id
  {
    if db == [] then None
    else if db[0].id == id then Some(0)
    else
      match Posicion(db[1..], id)
      case None => None
      case Some(k) => Some(k + 1)
  }

  /** With strictly increasing ids, the record found is the only one with that id. */
  lemma PosicionUnica(db: seq<Elemento>, id: int, j: nat)
    requires IdsCrecientes(db) && j < |db| && db[j].id == id
    ensures Posicion(db, id) == Some(j)
  {
    assert forall k | 0 <= k < j :: db[k].id < db[j].id;
  }

  /** The duplicate check: some record already has this codigo. */
  predicate CodigoEnUso(db: seq<Elemento>, codigo: string)
  {
    exists i | 0 <= i < |db| :: db[i].codigo == codigo
  }

  // ---------------------------------------------------------------------------
  // The three ways a snapshot changes

  /**
   * The record create stores: the request fields, the given id, status
   * activo, and the two clock readings taken for fecha_creacion and
   * fecha_actualizacion.
   */
  function NuevoRegistro(c: ElementoCreate, id: int, creado: int, actualizado: int): (e: Elemento)
    ensures e.id == id && e.status == Activo && e.fechaCreacion == creado && e.fechaActualizacion == actualizado
    ensures e.codigo == c.codigo && e.nombre == c.nombre && e.descripcion == c.descripcion
    ensures e.valorNumerico == c.valorNumerico && e.activo == c.activo && e.categoria == c.categoria
    ensures CreateValido(c) ==> ElementoValido(e)
  {
    Elemento(id, c.codigo, c.nombre, c.descripcion, c.valorNumerico, c.activo, c.categoria, creado, actualizado, Activo)
  }

  function ValorO<T>(o: Option<T>, actual: T): T
  {
    if o.Some? then o.value else actual
  }

  /**
   * dict.update with the keys that were sent, then the new update time.  The
   * update schema has no id, codigo, fecha_creacion or status key, so those
   * are never touched.
   */
  function Aplicar(e: Elemento, p: Patch, ahora: int): (r: Elemento)
    ensures r.id == e.id && r.codigo == e.codigo && r.fechaCreacion == e.fechaCreacion && r.status == e.status
    ensures r.fechaActualizacion == ahora
    ensures ElementoValido(e) && PatchValido(p) ==> ElementoValido(r)
  {
    e.(nombre := ValorO(p.nombre, e.nombre),
       descripcion := match p.descripcion
                      case Unset => e.descripcion
                      case Null => None
                      case Given(d) => Some(d),
       valorNumerico := ValorO(p.valorNumerico, e.valorNumerico),
       activo := ValorO(p.activo, e.activo),
       categoria := ValorO(p.categoria, e.categoria),
       fechaActualizacion := ahora)
  }

  /** list.pop(i). */
  function Quitar(db: seq<Elemento>, i: nat): (r: seq<Elemento>)
    requires i < |db|
    ensures |r| == |db| - 1
    ensures multiset(r) + multiset{db[i]} == multiset(db)
  {
    assert db == db[..i] + [db[i]] + db[i + 1..];
    db[..i] + db[i + 1..]
  }

  // ---------------------------------------------------------------------------
  // The invariant survives every change

  lemma InvarianteAlCrear(db: seq<Elemento>, contador: int, c: ElementoCreate, creado: int, actualizado: int)
    requires Invariante(db, contador) && CreateValido(c) && !CodigoEnUso(db, c.codigo)
    ensures Invariante(db + [NuevoRegistro(c, contador, creado, actualizado)], contador + 1)
  {
    var s := db + [NuevoRegistro(c, contador, creado, actualizado)];
    forall i, j | 0 <= i < j < |s| ensures s[i].id < s[j].id && s[i].codigo != s[j].codigo {
      if j == |db| {
        assert s[i] == db[i];
      } else {
        assert s[i] == db[i] && s[j] == db[j];
      }
    }
    forall i | 0 <= i < |s| ensures 1 <= s[i].id < contador + 1 && ElementoValido(s[i]) {
      if i < |db| { assert s[i] == db[i]; }
    }
  }

  lemma InvarianteAlActualizar(db: seq<Elemento>, contador: int, i: nat, p: Patch, ahora: int)
    requires Invariante(db, contador) && i < |db| && PatchValido(p)
    ensures Invariante(db[i := Aplicar(db[i], p, ahora)], contador)
  {
  }

  lemma InvarianteAlQuitar(db: seq<Elemento>, contador: int, i: nat)
    requires Invariante(db, contador) && i < |db|
    ensures Invariante(Quitar(db, i), contador)
  {
    var s := Quitar(db, i);
    assert forall k | 0 <= k < |s| :: s[k] == if k < i then db[k] else db[k + 1];
  }

  // ---------------------------------------------------------------------------
  // Properties relating the operations

  /** A newly created record is found by its id at the end of the list. */
  lemma CrearLuegoObtener(db: seq<Elemento>, contador: int, c: ElementoCreate, creado: int, actualizado: int)
    requires IdsBajo(db, contador)
    ensures Posicion(db + [NuevoRegistro(c, contador, creado, actualizado)], contador) == Some(|db|)
  {
    var s := db + [NuevoRegistro(c, contador, creado, actualizado)];
    assert forall j | 0 <= j < |db| :: s[j].id != contador by {
      forall j | 0 <= j < |db| ensures s[j].id != contador {
        assert s[j] == db[j];
      }
    }
    assert s[|db|].id == contador;
  }

  /** After the pop no record with that id remains, and the others keep their order. */
  lemma QuitarLuegoObtener(db: seq<Elemento>, i: nat)
    requires IdsCrecientes(db) && i < |db|
    ensures Posicion(Quitar(db, i), db[i].id).None?
    ensures forall k | 0 <= k < |db| - 1 :: Quitar(db, i)[k] == if k < i then db[k] else db[k + 1]
  {
    var s := Quitar(db, i);
    assert forall k | 0 <= k < |s| :: s[k] == if k < i then db[k] else db[k + 1];
    forall k | 0 <= k < |s| ensures s[k].id != db[i].id {
      if k < i {
        assert db[k].id < db[i].id;
      } else {
        assert db[i].id < db[k + 1].id;
      }
    }
  }

  /** Sending the same patch twice gives the same record as sending it once. */
  lemma AplicarIdempotente(e: Elemento, p: Patch, ahora: int)
    ensures Aplicar(Aplicar(e, p, ahora), p, ahora) == Aplicar(e, p, ahora)
  {
  }

  /** A body with no keys only sets the update time. */
  lemma AplicarVacio(e: Elemento, ahora: int)
    ensures ValidarUpdate(UpdateBody(Unset, Unset, Unset, Unset, Unset)).Ok?
    ensures Aplicar(e, ValidarUpdate(UpdateBody(Unset, Unset, Unset, Unset, Unset)).value, ahora)
            == e.(fechaActualizacion := ahora)
  {
  }

  /**
   * From the request body to the stored record: a key that was sent takes
   * the sent value (null clears descripcion), a key that was not sent keeps
   * the stored value.
   */
  lemma ActualizarSoloEnviados(e: Elemento, b: UpdateBody, ahora: int)
    requires ValidarUpdate(b).Ok?
    ensures var r := Aplicar(e, ValidarUpdate(b).value, ahora);
            && r.nombre == (if b.nombre.Given? then b.nombre.value else e.nombre)
            && r.descripcion == (match b.descripcion
                                 case Unset => e.descripcion
                                 case Null => None
                                 case Given(d) => Some(d))
            && r.valorNumerico == (if b.valorNumerico.Given? then b.valorNumerico.value else e.valorNumerico)
            && r.activo == (if b.activo.Given? then b.activo.value else e.activo)
            && r.categoria == (if b.categoria.Given? then b.categoria.value else e.categoria)
  {
  }

  // ---------------------------------------------------------------------------
  // Statistics

  /** sum(1 for e in db if e.activo). */
  function ContarActivos(db: seq<Elemento>): (n: nat)
    ensures n <= |db|
  {
    if db == [] then 0 else (if db[0].activo then 1 else 0) + ContarActivos(db[1..])
  }

  /** Number of records in the category. */
  function ContarCategoria(db: seq<Elemento>, c: string): (n: nat)
    ensures n <= |db|
    ensures n > 0 <==> exists i | 0 <= i < |db| :: db[i].categoria == c
  {
    if db == [] then 0
    else
      var m := ContarCategoria(db[..|db| - 1], c);
      assert forall i | 0 <= i < |db| - 1 :: db[..|db| - 1][i] == db[i];
      (if db[|db| - 1].categoria == c then 1 else 0) + m
  }

  /** The dictionary the loop builds: categorias[cat] = categorias.get(cat, 0) + 1 for each record in turn. */
  function Categorias(db: seq<Elemento>): map<string, nat>
  {
    if db == [] then map[]
    else
      var m := Categorias(db[..|db| - 1]);
      var c := db[|db| - 1].categoria;
      m[c := (if c in m then m[c] else 0) + 1]
  }

  /** Each category of the store is a key, counting its records, and no other key appears. */
  lemma {:induction false} CategoriasCuentan(db: seq<Elemento>, c: string)
    ensures c in Categorias(db) <==> ContarCategoria(db, c) > 0
    ensures c in Categorias(db) ==> Categorias(db)[c] == ContarCategoria(db, c)
  {
    if db != [] {
      CategoriasCuentan(db[..|db| - 1], c);
    }
  }

  /** Sum of the values of a map. */
  ghost function SumaValores(m: map<string, nat>): nat
    decreases |m|
  {
    if m == map[] then 0
    else
      var k :| k in m;
      m[k] + SumaValores(m - {k})
  }

  /** The sum can be taken from any key first. */
  lemma {:induction false} SumaValoresSin(m: map<string, nat>, k: string)
    requires k in m
    ensures SumaValores(m) == m[k] + SumaValores(m - {k})
    decreases |m|
  {
    var k0 :| k0 in m && SumaValores(m) == m[k0] + SumaValores(m - {k0});
    if k0 != k {
      assert k in m - {k0};
      SumaValoresSin(m - {k0}, k);
      assert k0 in m - {k};
      SumaValoresSin(m - {k}, k0);
      assert (m - {k0}) - {k} == (m - {k}) - {k0};
    }
  }

  /** Raising the count of one key by one raises the sum by one. */
  lemma SumaValoresIncremento(m: map<string, nat>, k: string)
    ensures SumaValores(m[k := (if k in m then m[k] else 0) + 1]) == SumaValores(m) + 1
  {
    var m2 := m[k := (if k in m then m[k] else 0) + 1];
    SumaValoresSin(m2, k);
    assert m2 - {k} == m - {k};
    if k in m {
      SumaValoresSin(m, k);
    } else {
      assert m - {k} == m;
    }
  }

  /** The per-category counts add up to the number of records. */
  lemma {:induction false} CategoriasSuman(db: seq<Elemento>)
    ensures SumaValores(Categorias(db)) == |db|
  {
    if db != [] {
      CategoriasSuman(db[..|db| - 1]);
      SumaValoresIncremento(Categorias(db[..|db| - 1]), db[|db| - 1].categoria);
    }
  }

  /** The statistics the service reports (without the floating-point ones). */
  datatype Resumen = Resumen(totalElementos: nat, elementosActivos: nat, elementosInactivos: int, categorias: map<string, nat>)

  // ---------------------------------------------------------------------------
  // The store

  class Almacen {
    var elementos: seq<Elemento>
    var contadorId: int

    ghost predicate Valid()
      reads this
    {
      Invariante(elementos, contadorId)
    }

    /** The state at start-up: no records, and the first id to hand out is 1. */
    constructor ()
      ensures Valid() && elementos == [] && contadorId == 1
    {
      elementos := [];
      contadorId := 1;
    }

    /**
     * crear_elemento: a codigo already in use is rejected with nothing
     * changed; otherwise one record with id contadorId and status activo is
     * appended and the counter moves on by one.
     */
    method Crear(c: ElementoCreate, creado: int, actualizado: int) returns (r: Result<Elemento, Error>)
      requires Valid() && CreateValido(c)
      modifies this
      ensures Valid()
      ensures CodigoEnUso(old(elementos), c.codigo) ==>
                r == Err(CodigoDuplicado) && elementos == old(elementos) && contadorId == old(contadorId)
      ensures !CodigoEnUso(old(elementos), c.codigo) ==>
                && r == Ok(NuevoRegistro(c, old(contadorId), creado, actualizado))
                && elementos == old(elementos) + [r.value]
                && contadorId == old(contadorId) + 1
    {
      if CodigoEnUso(elementos, c.codigo) {
        return Err(CodigoDuplicado);
      }
      var nuevo := NuevoRegistro(c, contadorId, creado, actualizado);
      InvarianteAlCrear(elementos, contadorId, c, creado, actualizado);
      elementos := elementos + [nuevo];
      contadorId := contadorId + 1;
      r := Ok(nuevo);
    }

    /** obtener_elemento: an id <= 0 is rejected (422), an unknown id is 404, otherwise the record with that id. */
    function Obtener(id: int): (r: Result<Elemento, Error>)
      reads this
      ensures id <= 0 ==> r == Err(ValidacionFallida)
      ensures id > 0 ==> (r.Ok? <==> exists i | 0 <= i < |elementos| :: elementos[i].id == id)
      ensures id > 0 && r.Err? ==> r.error == ElementoNoEncontrado
      ensures r.Ok? ==> r.value in elementos && r.value.id == id
    {
      if id <= 0 then Err(ValidacionFallida)
      else
        match Posicion(elementos, id)
        case None => Err(ElementoNoEncontrado)
        case Some(i) => Ok(elementos[i])
    }

    /**
     * actualizar_elemento: the record with that id gets the sent fields and
     * a new update time, in place; every other record and the counter stay.
     * An unknown id changes nothing.
     */
    method Actualizar(id: int, p: Patch, ahora: int) returns (r: Result<Elemento, Error>)
      requires Valid() && PatchValido(p)
      modifies this
      ensures Valid() && contadorId == old(contadorId)
      ensures id <= 0 ==> r == Err(ValidacionFallida) && elementos == old(elementos)
      ensures id > 0 && Posicion(old(elementos), id).None? ==> r == Err(ElementoNoEncontrado) && elementos == old(elementos)
      ensures id > 0 && Posicion(old(elementos), id).Some? ==>
                var i := Posicion(old(elementos), id).value;
                && elementos == old(elementos)[i := Aplicar(old(elementos)[i], p, ahora)]
                && r == Ok(elementos[i])
    {
      if id <= 0 {
        return Err(ValidacionFallida);
      }
      var idx := Posicion(elementos, id);
      if idx.None? {
        return Err(ElementoNoEncontrado);
      }
      var i := idx.value;
      InvarianteAlActualizar(elementos, contadorId, i, p, ahora);
      elementos := elementos[i := Aplicar(elementos[i], p, ahora)];
      r := Ok(elementos[i]);
    }

    /**
     * eliminar_elemento: the record with that id is popped from the list;
     * the counter is not moved back, so its id is never handed out again.
     * An unknown id changes nothing.
     */
    method Eliminar(id: int) returns (r: Result<(), Error>)
      requires Valid()
      modifies this
      ensures Valid() && contadorId == old(contadorId)
      ensures id <= 0 ==> r == Err(ValidacionFallida) && elementos == old(elementos)
      ensures id > 0 && Posicion(old(elementos), id).None? ==> r == Err(ElementoNoEncontrado) && elementos == old(elementos)
      ensures id > 0 && Posicion(old(elementos), id).Some? ==>
                var i := Posicion(old(elementos), id).value;
                && elementos == Quitar(old(elementos), i)
                && r == Ok(())
    {
      if id <= 0 {
        return Err(ValidacionFallida);
      }
      var idx := Posicion(elementos, id);
      if idx.None? {
        return Err(ElementoNoEncontrado);
      }
      var i := idx.value;
      InvarianteAlQuitar(elementos, contadorId, i);
      elementos := Quitar(elementos, i);
      r := Ok(());
    }

    /**
     * obtener_estadisticas: the counts by active flag and the dictionary of
     * counts by category, built by one pass over the records.
     */
    method Estadisticas() returns (st: Resumen)
      ensures st.totalElementos == |elementos|
      ensures st.elementosActivos == ContarActivos(elementos)
      ensures st.elementosActivos + st.elementosInactivos == st.totalElementos
      ensures st.categorias == Categorias(elementos)
      ensures elementos == [] ==> st == Resumen(0, 0, 0, map[])
    {
      if elementos == [] {
        return Resumen(0, 0, 0, map[]);
      }
      var activos := ContarActivos(elementos);
      var categorias: map<string, nat> := map[];
      var i := 0;
      while i < |elementos|
        invariant 0 <= i <= |elementos|
        invariant categorias == Categorias(elementos[..i])
      {
        var cat := elementos[i].categoria;
        assert elementos[..i + 1][..i] == elementos[..i];
        categorias := categorias[cat := (if cat in categorias then categorias[cat] else 0) + 1];
        i := i + 1;
      }
      assert elementos[..i] == elementos;
      st := Resumen(|elementos|, activos, |elementos| - activos, categorias);
    }
  }
}
