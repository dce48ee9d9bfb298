/**
 * The partial update exactly as the router performs it on the stored
 * dictionary.  The update schema declares every field Optional[...] with a
 * default of None, so an explicit null passes validation on every key;
 * model_dump(exclude_unset=True) keeps such a key with the value None,
 * dict.update writes it into the stored record, and only then does building
 * the response (which requires nombre, valor_numerico, activo and categoria)
 * fail.  The store has been changed by a request that answered 500, and the
 * record no longer satisfies the response schema.
 *
 * The corrected update (Schemas.ValidarUpdate with Store.Aplicar) rejects
 * those nulls up front; on every body it accepts it does exactly what the
 * code as written does.
 */
module UpdateAsWritten {
  import opened Wrappers
  import opened Schemas
  import opened Store

  /** A stored record as a dictionary: after dict.update any updatable key may hold None. */
  datatype Fila = Fila(
    id: int,
    codigo: string,
    nombre: Option<string>,
    descripcion: Option<string>,
    valorNumerico: Option<real>,
    activo: Option<bool>,
    categoria: Option<string>,
    fechaCreacion: int,
    fechaActualizacion: int,
    status: Status)

  function FilaDe(e: Elemento): Fila
  {
    Fila(e.id, e.codigo, Some(e.nombre), e.descripcion, Some(e.valorNumerico), Some(e.activo), Some(e.categoria),
         e.fechaCreacion, e.fechaActualizacion, e.status)
  }

  /**
   * ElementoTipoAResponse(**fila): the response schema requires nombre,
   * valor_numerico, activo and categoria and checks the base field rules.
   */
  function Respuesta(f: Fila): (r: Result<Elemento, Error>)
    ensures r.Ok? ==> ElementoValido(r.value) && FilaDe(r.value) == f
    ensures r.Err? ==> r.error == ErrorInterno
    ensures (f.nombre.None? || f.valorNumerico.None? || f.activo.None? || f.categoria.None?) ==> r.Err?
  {
    if f.nombre.Some? && f.valorNumerico.Some? && f.activo.Some? && f.categoria.Some? then
      var e := Elemento(f.id, f.codigo, f.nombre.value, f.descripcion, f.valorNumerico.value, f.activo.value,
                        f.categoria.value, f.fechaCreacion, f.fechaActualizacion, f.status);
      if ElementoValido(e) then Ok(e) else Err(ErrorInterno)
    else
      Err(ErrorInterno)
  }

  /** A record becomes a response unchanged exactly when it obeys the field rules. */
  lemma RespuestaDeFila(e: Elemento)
    ensures Respuesta(FilaDe(e)).Ok? <==> ElementoValido(e)
    ensures ElementoValido(e) ==> Respuesta(FilaDe(e)) == Ok(e)
  {
  }

  /**
   * The update schema as written: a sent value obeys the field bounds, and
   * null is accepted on every key.  The result is model_dump(exclude_unset=True):
   * the sent keys with their values, null included.
   */
  function ValidarUpdateComoEscrito(b: UpdateBody): (r: Result<UpdateBody, Error>)
    ensures r.Ok? <==> (Optional(b.nombre, NombreValido) && Optional(b.descripcion, DescripcionTextoValido)
                        && Optional(b.valorNumerico, ValorValido))
    ensures r.Ok? ==> r.value == b
    ensures r.Err? ==> r.error == ValidacionFallida
  {
    if Optional(b.nombre, NombreValido) && Optional(b.descripcion, DescripcionTextoValido)
       && Optional(b.valorNumerico, ValorValido)
    then Ok(b)
    else Err(ValidacionFallida)
  }

  /** One key of dict.update: absent keeps the stored value, null stores None, a value stores it. */
  function Escribir<T>(enviado: Sent<T>, actual: Option<T>): Option<T>
  {
    match enviado
    case Unset => actual
    case Null => None
    case Given(v) => Some(v)
  }

  /** elementos_db[idx].update(update_data), then the new fecha_actualizacion. */
  function ActualizarFila(f: Fila, d: UpdateBody, ahora: int): (r: Fila)
    ensures r.id == f.id && r.codigo == f.codigo && r.fechaCreacion == f.fechaCreacion && r.status == f.status
    ensures r.fechaActualizacion == ahora
  {
    f.(nombre := Escribir(d.nombre, f.nombre),
       descripcion := Escribir(d.descripcion, f.descripcion),
       valorNumerico := Escribir(d.valorNumerico, f.valorNumerico),
       activo := Escribir(d.activo, f.activo),
       categoria := Escribir(d.categoria, f.categoria),
       fechaActualizacion := ahora)
  }

  /**
   * The handler as written on one record: the body is validated, the stored
   * row is overwritten, and the response is built from the new row.
   * Returns the stored row after the call and the answer.
   */
  function ActualizarComoEscrito(f: Fila, b: UpdateBody, ahora: int): (r: (Fila, Result<Elemento, Error>))
    ensures ValidarUpdateComoEscrito(b).Err? ==> r == (f, Err(ValidacionFallida))
    ensures ValidarUpdateComoEscrito(b).Ok? ==> r.0 == ActualizarFila(f, b, ahora) && r.1 == Respuesta(r.0)
  {
    match ValidarUpdateComoEscrito(b)
    case Err(e) => (f, Err(e))
    case Ok(d) =>
      var nueva := ActualizarFila(f, d, ahora);
      (nueva, Respuesta(nueva))
  }

  /**
   * The discrepancy: {"nombre": null} on a valid stored record passes the
   * schema as written, changes the stored row, leaves a row the response
   * schema rejects, and answers 500.  The corrected validation answers 422.
   */
  lemma NombreNuloCorrompeElRegistro(e: Elemento, ahora: int)
    requires ElementoValido(e)
    ensures var b := UpdateBody(Null, Unset, Unset, Unset, Unset);
            var (fila, respuesta) := ActualizarComoEscrito(FilaDe(e), b, ahora);
            && ValidarUpdateComoEscrito(b).Ok?
            && fila != FilaDe(e)
            && fila.nombre.None?
            && respuesta == Err(ErrorInterno)
            && HttpStatus(respuesta.error) == 500
            && ValidarUpdate(b) == Err(ValidacionFallida)
  {
  }

  /** Every null the corrected schema rejects corrupts the row as written. */
  lemma NuloRechazadoCorrompe(e: Elemento, b: UpdateBody, ahora: int)
    requires ValidarUpdateComoEscrito(b).Ok? && ValidarUpdate(b).Err?
    ensures ActualizarComoEscrito(FilaDe(e), b, ahora).1 == Err(ErrorInterno)
    ensures ActualizarComoEscrito(FilaDe(e), b, ahora).0 != FilaDe(e)
  {
  }

  /**
   * The corrected update agrees with the code as written on every body it
   * accepts: the stored row is the row of Store.Aplicar's record, and the
   * answer is that record.
   */
  lemma CorregidoCoincide(e: Elemento, b: UpdateBody, ahora: int)
    requires ElementoValido(e) && ValidarUpdate(b).Ok?
    ensures ValidarUpdateComoEscrito(b).Ok?
    ensures var nuevo := Aplicar(e, ValidarUpdate(b).value, ahora);
            ActualizarComoEscrito(FilaDe(e), b, ahora) == (FilaDe(nuevo), Ok(nuevo))
  {
    var nuevo := Aplicar(e, ValidarUpdate(b).value, ahora);
    RespuestaDeFila(nuevo);
  }
}
