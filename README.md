# Verified model of the "type A" record store of the dental-clinic API

The clinic's "type A" service keeps clinical records (patients, treatments,
appointment entries) in an in-memory table behind a REST router. This
project models that table and the field rules that guard it, and proves
properties of the model with Dafny. The table is the module-level list
`elementos_db` plus the counter `contador_id`, in
`semana8/proyecto-tipo-a/app/routers/items.py`. The field rules are the
Pydantic schemas in `semana8/proyecto-tipo-a/app/models/schemas.py`.

The modules follow the program's structure:

- `Wrappers`: `Option` and `Result`.
- `Schemas`, which covers schemas.py:
  - the status enum;
  - the `codigo` pattern `^[A-Z]{2,5}-[0-9]{3,6}$`, as a declarative predicate and as a left-to-right matcher, proved equal;
  - the length and range bounds of each field;
  - the create schema with its `activo = True` default;
  - the all-optional update schema;
  - the stored record.

  A JSON body is modelled key by key: a key is absent (`Unset`), present with `null` (`Null`), or present with a value (`Given`).
- `Text`: ASCII `str.lower()`, Python's substring test `in`, and Python's string ordering `<`.
- `Sorting`: Python's stable `list.sort(key=..., reverse=...)` on the three keys. It is proved to sort, to permute, and to keep records with equal keys in their original order, in both directions.
- `Listing`: `listar_elementos`, a pure function over the list. It validates the query parameters, filters, sorts a copy and cuts one page.
- `Store`: the table as the class `Almacen`, with fields `elementos` (the list) and `contadorId` (the counter).
  - Methods: `Crear`, `Actualizar` and `Eliminar` change the table in place. `Obtener` and `Estadisticas` only read it.
  - Invariant (`Invariante`/`Valid`): ids strictly increase in list order, `codigo` values are unique, every id is below the counter, and every record obeys the field rules. Every operation preserves it.
  - Failure: every operation that fails leaves the table unchanged.
- `UpdateAsWritten`: the partial update exactly as the code performs it on the stored dictionary, including the defect described under "## Findings".

Timestamps (`datetime.now()`) are integers supplied by the caller; create
reads the clock twice, once per timestamp, and takes two readings. The id in
the URL path is validated with `gt=0`, so an id `<= 0` is answered with 422
before the handler runs; the model returns `ValidacionFallida` for it.

## Model

| member | source | states |
|---|---|---|
| Schemas.ParseStatus | semana8/proyecto-tipo-a/app/models/schemas.py:6-10 | a decoded status renders back to the same wire string |
| Schemas.StatusExactlyThree | semana8/proyecto-tipo-a/app/models/schemas.py:6-10 | exactly "activo", "inactivo" and "pendiente" decode, and every status round-trips through its wire value |
| Schemas.UpperRun | semana8/proyecto-tipo-a/app/models/schemas.py:32 | the greedy run of leading A-Z letters is all upper case and is followed by a non-letter or the end |
| Schemas.MatchCodigoCorrect | semana8/proyecto-tipo-a/app/models/schemas.py:27-34 | the left-to-right matcher accepts exactly the strings in the pattern's language: 2-5 upper-case letters, '-', 3-6 digits |
| Schemas.CodigoLength | semana8/proyecto-tipo-a/app/models/schemas.py:27-34 | a codigo in the pattern has 6..12 characters, so min_length 3 and max_length 20 never reject one |
| Schemas.ValidarCreate | semana8/proyecto-tipo-a/app/models/schemas.py:27-73 | a body is accepted iff codigo, nombre, valor_numerico and categoria are sent with valid values, descripcion is absent, null or at most 500 characters, and activo is not null; an accepted body is carried over field by field with activo defaulting to true; a rejection is a 422 |
| Schemas.CodigoPattern | semana8/proyecto-tipo-a/app/models/schemas.py:32 | the declarative reading of the pattern: some split point k in 2..5 with upper-case letters before it, a dash at k, and 3 to 6 digits after it |
| Schemas.MatchCodigo | semana8/proyecto-tipo-a/app/models/schemas.py:32 | the regex run left to right: take the greedy letter run, then demand the dash and the digit block |
| Schemas.CodigoValido | semana8/proyecto-tipo-a/app/models/schemas.py:27-34 | the codigo rule: the pattern together with 3 <= length <= 20 |
| Schemas.NombreValido | semana8/proyecto-tipo-a/app/models/schemas.py:36-42 | a nombre is valid iff 5 <= length <= 100 |
| Schemas.DescripcionValida | semana8/proyecto-tipo-a/app/models/schemas.py:44-49 | descripcion is absent or has at most 500 characters |
| Schemas.ValorValido | semana8/proyecto-tipo-a/app/models/schemas.py:51-57 | valor_numerico lies in the closed range [0, 10000] |
| Schemas.HttpStatus | semana8/proyecto-tipo-a/app/routers/items.py:87-95 | validation failures are 422, a duplicate codigo 400, an unknown id 404 (items.py:252-260, 297-305, 344-352), and a response that fails its schema 500 |
| Schemas.ValidarCreateRoundTrip | semana8/proyecto-tipo-a/app/models/schemas.py:27-73 | a full request is accepted iff it obeys the rules, and is then returned unchanged |
| Schemas.ActivoDefaultsToTrue | semana8/proyecto-tipo-a/app/models/schemas.py:59-63 | omitting activo is the same as sending true |
| Schemas.ValidarUpdate | semana8/proyecto-tipo-a/app/models/schemas.py:75-92 | every key is optional, and a sent key obeys the create bound; the body is rejected iff a bound is broken or a non-nullable key is null (the corrected rule, see Findings); the body has no codigo or id key |
| Text.LowerChar | semana8/proyecto-tipo-a/app/routers/items.py:194 | A-Z map to a-z, every other character is kept |
| Text.Lower | semana8/proyecto-tipo-a/app/routers/items.py:194 | lower-casing keeps the length |
| Text.LowerAt | semana8/proyecto-tipo-a/app/routers/items.py:194 | lower-casing works character by character |
| Text.LowerIdempotent | semana8/proyecto-tipo-a/app/routers/items.py:194-198 | lower-casing twice equals lower-casing once, and leaves no upper-case letter |
| Text.Contains | semana8/proyecto-tipo-a/app/routers/items.py:197-198 | Python `in` on str: the needle is a prefix of hay or occurs in hay after its first character |
| Text.ContainsCorrect | semana8/proyecto-tipo-a/app/routers/items.py:197-198 | `needle in hay` holds iff the needle occurs at some position of hay |
| Text.StrLt | semana8/proyecto-tipo-a/app/routers/items.py:204 | Python `<` on str: compare code points left to right, a proper prefix first |
| Text.StrLtIrreflexive | semana8/proyecto-tipo-a/app/routers/items.py:204 | no nombre sorts before itself |
| Text.StrLtTransitive | semana8/proyecto-tipo-a/app/routers/items.py:204 | string order is transitive |
| Text.StrLtTrichotomy | semana8/proyecto-tipo-a/app/routers/items.py:204 | any two nombres are ordered or equal |
| Sorting.BeforeOrder | semana8/proyecto-tipo-a/app/routers/items.py:202-208 | each key and direction gives a strict weak order whose ties are exactly equal keys |
| Sorting.BeforeThenNotAfter | semana8/proyecto-tipo-a/app/routers/items.py:202-208 | if x goes before a and y does not go before a, then x goes before y |
| Sorting.Insert | semana8/proyecto-tipo-a/app/routers/items.py:204-208 | insertion adds exactly one copy of the record |
| Sorting.InsertSorted | semana8/proyecto-tipo-a/app/routers/items.py:204-208 | insertion into a sorted list keeps it sorted |
| Sorting.InsertStable | semana8/proyecto-tipo-a/app/routers/items.py:204-208 | the inserted record lands after every record with an equal key |
| Sorting.Sort | semana8/proyecto-tipo-a/app/routers/items.py:202-208 | the sorted list is a permutation of the input |
| Sorting.SortSorted | semana8/proyecto-tipo-a/app/routers/items.py:202-208 | the result is ordered by the key, ascending or, with reverse, descending |
| Sorting.SortStable | semana8/proyecto-tipo-a/app/routers/items.py:202-208 | records with equal keys keep their original relative order, with reverse=True too |
| Listing.Coincide | semana8/proyecto-tipo-a/app/routers/items.py:193-199 | the lower-cased needle occurs in the lower-cased nombre, or in a present, non-empty descripcion |
| Listing.Cumple | semana8/proyecto-tipo-a/app/routers/items.py:187-199 | a record passes the activo filter when one is given, the categoria filter when it is a non-empty string, and the buscar filter when it is a non-empty string |
| Listing.ParseCampo | semana8/proyecto-tipo-a/app/routers/items.py:159-208 | orden_por is accepted iff it is one of the three key names, and each name selects its own key: "nombre" sorts by nombre, "valor_numerico" by valor_numerico, "fecha_creacion" by fecha_creacion |
| Listing.ValidarParametros | semana8/proyecto-tipo-a/app/routers/items.py:130-170 | the query is accepted iff pagina >= 1, 1 <= limite <= 100, buscar has at least 3 characters, orden_por is a key name and direccion is asc or desc; otherwise 422; desc means reverse |
| Listing.ParametrosPorDefectoValidos | semana8/proyecto-tipo-a/app/routers/items.py:130-170 | the defaults (page 1, 10 per page, newest first) are valid |
| Listing.Keep | semana8/proyecto-tipo-a/app/routers/items.py:188-199 | a comprehension keeps every record that passes its condition, with its multiplicity, and drops every other; the kept records stay in list order (KeepAppend, KeepSameKey) |
| Listing.KeepAppend | semana8/proyecto-tipo-a/app/routers/items.py:188-199 | the comprehension over a + b is the comprehension over a followed by the comprehension over b, so the kept records keep their relative order |
| Listing.KeepSameKey | semana8/proyecto-tipo-a/app/routers/items.py:188-199 | the kept records with a given sort key are the input's records with that key that pass the condition, in input order |
| Listing.Filtrar | semana8/proyecto-tipo-a/app/routers/items.py:185-199 | the filtered list holds exactly the records of the store that satisfy the activo, categoria and buscar filters (an empty categoria or buscar filters nothing), in store order (FiltrarSameKey) |
| Listing.FiltrarSameKey | semana8/proyecto-tipo-a/app/routers/items.py:185-199 | among the records with a given sort key, filtering keeps store order: the filtered ones with that key are the store's ones with that key that pass the filters, in store order |
| Listing.OrdenadosEstable | semana8/proyecto-tipo-a/app/routers/items.py:185-208 | after the stable sort, the records tied on the sort key appear in store order: exactly the store's records with that key that pass the filters, in the order they were created |
| Listing.Tramo | semana8/proyecto-tipo-a/app/routers/items.py:214 | Python slicing clamps to the length and holds the elements from lo on |
| Listing.TramoDe | semana8/proyecto-tipo-a/app/routers/items.py:214 | a slice holds only members of the list |
| Listing.TramoOrdenado | semana8/proyecto-tipo-a/app/routers/items.py:214 | a slice of a sorted list is sorted |
| Listing.InicioDeProducto | semana8/proyecto-tipo-a/app/routers/items.py:212 | the start of page p is (p - 1) * limite |
| Listing.OrdenadosContenido | semana8/proyecto-tipo-a/app/routers/items.py:185-208 | the sorted list before pagination holds exactly the records that pass the filters, with their multiplicity |
| Listing.Paginar | semana8/proyecto-tipo-a/app/routers/items.py:210-220 | total is the filtered count, pagina and por_pagina echo the query, and the page has at most limite records |
| Listing.PaginarSoloFiltrados | semana8/proyecto-tipo-a/app/routers/items.py:185-220 | every listed record is in the store and satisfies the filters |
| Listing.Listar | semana8/proyecto-tipo-a/app/routers/items.py:129-221 | invalid parameters give 422; otherwise total is the filtered count, the page has at most limite records, all from the store and all satisfying the filters, and the page is in the requested order |
| Listing.PaginarOrdenado | semana8/proyecto-tipo-a/app/routers/items.py:202-214 | the page is in the requested order |
| Listing.PaginarPaginaEsTramo | semana8/proyecto-tipo-a/app/routers/items.py:211-214 | the page starts at (pagina - 1) * limite, has min(limite, what remains) records, and holds the consecutive records from that position |
| Listing.PaginaDe | semana8/proyecto-tipo-a/app/routers/items.py:212-213 | position k lies on page k / limite + 1 |
| Listing.TramoContiene | semana8/proyecto-tipo-a/app/routers/items.py:212-214 | the element at position k appears on the page that contains k |
| Listing.TramoCubre | semana8/proyecto-tipo-a/app/routers/items.py:212-214 | every member of a list appears on some page |
| Listing.OtraPagina | semana8/proyecto-tipo-a/app/routers/items.py:185-214 | asking for another page of the same query cuts another slice of the same sorted list |
| Listing.PaginarCubre | semana8/proyecto-tipo-a/app/routers/items.py:185-214 | no record that passes the filters is lost: some page lists it |
| Listing.BuscarIgnoraMayusculas | semana8/proyecto-tipo-a/app/routers/items.py:194-198 | the search ignores the case of ASCII letters in the needle |
| Listing.BuscarEncuentraSubcadena | semana8/proyecto-tipo-a/app/routers/items.py:194-198 | a needle that occurs verbatim in nombre is always found |
| Store.Invariante | semana8/proyecto-tipo-a/app/routers/items.py:50-51 | the table invariant: counter >= 1, ids strictly increasing in list order, codigos unique, every id in 1..counter-1, every record obeying the field rules |
| Store.CodigoEnUso | semana8/proyecto-tipo-a/app/routers/items.py:86 | the duplicate check: some stored record has this codigo |
| Store.Posicion | semana8/proyecto-tipo-a/app/routers/items.py:291-294 | the first position whose id matches, or none iff no record has the id |
| Store.PosicionUnica | semana8/proyecto-tipo-a/app/routers/items.py:249 | with increasing ids, the record found is the only one with that id |
| Store.NuevoRegistro | semana8/proyecto-tipo-a/app/routers/items.py:97-103 | the new record carries the request fields, the given id, the two clock readings as fecha_creacion and fecha_actualizacion, and status activo, and obeys the field rules |
| Store.Aplicar | semana8/proyecto-tipo-a/app/routers/items.py:307-310 | an update never touches id, codigo, fecha_creacion or status, sets fecha_actualizacion, and keeps a valid record valid |
| Store.Quitar | semana8/proyecto-tipo-a/app/routers/items.py:354 | pop removes exactly one copy of the record at that position |
| Store.InvarianteAlCrear | semana8/proyecto-tipo-a/app/routers/items.py:86-106 | appending a record with a fresh codigo and id contador_id, then incrementing the counter, keeps ids increasing, codigos unique and ids below the counter |
| Store.InvarianteAlActualizar | semana8/proyecto-tipo-a/app/routers/items.py:307-310 | a validated update keeps the table invariant |
| Store.InvarianteAlQuitar | semana8/proyecto-tipo-a/app/routers/items.py:354 | deleting keeps the table invariant with the counter unchanged |
| Store.CrearLuegoObtener | semana8/proyecto-tipo-a/app/routers/items.py:97-106 | a newly created record is found by its id at the end of the list |
| Store.QuitarLuegoObtener | semana8/proyecto-tipo-a/app/routers/items.py:338-354 | after the delete, no record with that id remains and the others keep their order |
| Store.AplicarIdempotente | semana8/proyecto-tipo-a/app/routers/items.py:307-310 | sending the same update twice gives the same record as sending it once |
| Store.AplicarVacio | semana8/proyecto-tipo-a/app/routers/items.py:307-310 | an empty body only sets fecha_actualizacion |
| Store.ActualizarSoloEnviados | semana8/proyecto-tipo-a/app/routers/items.py:307-310 | a sent key takes the sent value (null clears descripcion); a key that was not sent keeps the stored value |
| Store.ContarActivos | semana8/proyecto-tipo-a/app/routers/items.py:380 | the active count is at most the number of records |
| Store.ContarCategoria | semana8/proyecto-tipo-a/app/routers/items.py:384-387 | a category's count is positive iff some record has that category |
| Store.Categorias | semana8/proyecto-tipo-a/app/routers/items.py:384-387 | the dictionary built by the loop: each record in turn raises the count of its category by one, starting from 0 |
| Store.CategoriasCuentan | semana8/proyecto-tipo-a/app/routers/items.py:384-387 | the categorias keys are exactly the categories in the store, each mapped to its record count |
| Store.CategoriasSuman | semana8/proyecto-tipo-a/app/routers/items.py:384-392 | the per-category counts sum to total_elementos |
| Store.Almacen.constructor | semana8/proyecto-tipo-a/app/routers/items.py:50-51 | the table starts empty with the counter at 1 |
| Store.Almacen.Crear | semana8/proyecto-tipo-a/app/routers/items.py:74-108 | a duplicate codigo gives 400 with nothing changed; otherwise exactly one record with id old contador_id and status activo is appended, earlier records stay, and the counter grows by one |
| Store.Almacen.Obtener | semana8/proyecto-tipo-a/app/routers/items.py:235-262 | an id <= 0 is 422; otherwise the result is found iff some record has the id, it is in the table with that id, and a miss is 404 |
| Store.Almacen.Actualizar | semana8/proyecto-tipo-a/app/routers/items.py:276-312 | an unknown id gives 404 with nothing changed; otherwise only that record is replaced by the updated one and returned, and the counter stays |
| Store.Almacen.Eliminar | semana8/proyecto-tipo-a/app/routers/items.py:325-355 | an unknown id gives 404 with nothing changed; otherwise exactly that record is popped and the counter is not decremented |
| Store.Almacen.Estadisticas | semana8/proyecto-tipo-a/app/routers/items.py:371-392 | total_elementos is the record count and elementos_activos the active count; activos plus inactivos equal the total; categorias is the per-category dictionary; an empty table gives zeros and no categories |
| UpdateAsWritten.Respuesta | semana8/proyecto-tipo-a/app/models/schemas.py:94-135 | building a response succeeds only from a row with every required key present and valid, and gives back that row |
| UpdateAsWritten.RespuestaDeFila | semana8/proyecto-tipo-a/app/models/schemas.py:94-135 | a stored record becomes a response unchanged iff it obeys the field rules |
| UpdateAsWritten.ValidarUpdateComoEscrito | semana8/proyecto-tipo-a/app/models/schemas.py:88-92 | as written, the update schema rejects only broken bounds: null passes on every key, and the dump keeps the sent keys |
| UpdateAsWritten.ActualizarFila | semana8/proyecto-tipo-a/app/routers/items.py:308-310 | dict.update never touches id, codigo, fecha_creacion or status, and sets fecha_actualizacion |
| UpdateAsWritten.ActualizarComoEscrito | semana8/proyecto-tipo-a/app/routers/items.py:307-312 | a rejected body leaves the row unchanged; otherwise the row is overwritten first and the response is built from it |
| UpdateAsWritten.NombreNuloCorrompeElRegistro | semana8/proyecto-tipo-a/app/routers/items.py:307-312 | as written, {"nombre": null} passes, changes the stored row to one with no nombre, and answers 500; the corrected schema answers 422 |
| UpdateAsWritten.NuloRechazadoCorrompe | semana8/proyecto-tipo-a/app/models/schemas.py:88-92 | every body that the corrected schema rejects but the as-written schema accepts changes the row and answers 500 |
| UpdateAsWritten.CorregidoCoincide | semana8/proyecto-tipo-a/app/routers/items.py:307-312 | on every body the corrected schema accepts, the corrected update stores and returns the same record as the code as written |

## Left out

- Floating-point statistics: valor_promedio, valor_minimo and valor_maximo (items.py:381, 393-395). `Store.Almacen.Estadisticas` reports only the counts and the category dictionary.
- Floats: `valor_numerico` is an exact `real`. Float rounding and NaN are not modelled. The bound [0, 10000] and the sort order are the same for the values the schema admits.
- Timestamps: `datetime.now()` values are integers supplied by the caller. Error payload timestamps and messages are not modelled.
- HTTP layer: `HTTPException`, `JSONResponse`, status-code routing and response shaping are reduced to the `Error` kinds and their codes (`Schemas.HttpStatus`).
- Type coercion: a request body arrives already typed. Pydantic's coercion of JSON values (for example the string "1" for a bool) is not modelled.
- Dictionary order: the categorias dictionary is a `map`, so its insertion order (the order of the JSON keys) is not modelled.
- Text.Lower: lower-cases only ASCII A-Z, while Python's `str.lower()` folds every Unicode letter, so a search that relies on non-ASCII case folding (É against é) is not captured.
- Store.Almacen.Crear: requires a body that passed `Schemas.ValidarCreate`, since FastAPI validates the body before the handler runs. `Schemas.ValidarCreate` models that step separately.
- Store.Almacen.Actualizar: requires a patch that passed the corrected `Schemas.ValidarUpdate`. The behaviour of the code as written on null values is modelled in `UpdateAsWritten`, on one record.
- Concurrency: the handlers are async but never await between reading and writing the list. Interleaving of requests is not modelled.
- The list endpoint works on a snapshot (`Listing.Listar` over the list `elementos`). It is not a method of `Store.Almacen`, because it does not change the table.
- Out of scope: authentication, the appointment (type B) service (no source file implements the appointment endpoints that semana8/tests/test_tipo_b exercises), main.py middleware and OpenAPI customisation, the documentation strings, the database-backed code in semana6, and the test helpers.

## Findings

| source | as written | input that shows it | evidently intended | confidence | as-written member | corrected member |
|---|---|---|---|---|---|---|
| semana8/proyecto-tipo-a/app/models/schemas.py:88-92 with semana8/proyecto-tipo-a/app/routers/items.py:307-312 | the update fields are `Optional[...]` with default None, so an explicit null passes validation for nombre, valor_numerico, activo and categoria; `model_dump(exclude_unset=True)` keeps the None and `dict.update` writes it into the stored record before the response model rejects it | PUT /elementos/1 with body {"nombre": null} on a stored record: the answer is 500, and the stored record has lost its nombre, so later reads of it fail too; a body with a null valor_numerico, activo or categoria does the same | a null on a field the record requires is rejected with 422 and the store is left unchanged (null stays legitimate for descripcion, which it clears) | not executed | UpdateAsWritten.NombreNuloCorrompeElRegistro | Schemas.ValidarUpdate |
