/**
 * The field rules of the clinic's "type A" records: the status enum, the
 * create schema (with its defaults), the all-optional update schema and the
 * record the store keeps.  A request body is given key by key: a key is
 * absent, present with JSON null, or present with a value.
 */
module Schemas {
  import opened Wrappers

  /** The three record states. */
  datatype Status = Activo | Inactivo | Pendiente

  function StatusValue(s: Status): string
  {
    match s
    case Activo => "activo"
    case Inactivo => "inactivo"
    case Pendiente => "pendiente"
  }

  /** Enum validation of a JSON string. */
  function ParseStatus(t: string): (r: Option<Status>)
    ensures r.Some? ==> StatusValue(r.value) == t
  {
    if t == "activo" then Some(Activo)
    else if t == "inactivo" then Some(Inactivo)
    else if t == "pendiente" then Some(Pendiente)
    else None
  }

  /** Exactly the three wire values are accepted, and each decodes to its own state. */
  lemma StatusExactlyThree(t: string)
    ensures ParseStatus(t).Some? <==> t in ["activo", "inactivo", "pendiente"]
    ensures forall s: Status :: ParseStatus(StatusValue(s)) == Some(s)
  {
    forall s: Status ensures ParseStatus(StatusValue(s)) == Some(s) {
      match s
      case Activo =>
      case Inactivo =>
      case Pendiente =>
    }
  }

  /**
   * The error kinds the router reports, with their HTTP status codes.
   * ErrorInterno is a response that fails its own schema (an unhandled
   * exception, answered with 500).
   */
  datatype Error = ValidacionFallida | CodigoDuplicado | ElementoNoEncontrado | ErrorInterno

  function HttpStatus(e: Error): int
  {
    match e
    case ValidacionFallida => 422
    case CodigoDuplicado => 400
    case ElementoNoEncontrado => 404
    case ErrorInterno => 500
  }

  // ---------------------------------------------------------------------------
  // codigo: pattern ^[A-Z]{2,5}-[0-9]{3,6}$ and length 3..20

  predicate IsUpper(c: char) { 'A' <= c <= 'Z' }

  predicate IsDigit(c: char) { '0' <= c <= '9' }

  predicate AllUpper(s: string) { forall i | 0 <= i < |s| :: IsUpper(s[i]) }

  predicate AllDigits(s: string) { forall i | 0 <= i < |s| :: IsDigit(s[i]) }

  /** Declarative reading of the pattern: a letter block of 2..5, a dash, a digit block of 3..6. */
  predicate CodigoPattern(s: string)
  {
    exists k | 2 <= k <= 5 && k < |s| ::
      s[k] == '-' && AllUpper(s[..k]) && AllDigits(s[k + 1..]) && 3 <= |s| - k - 1 <= 6
  }

  /** The codigo field rule: the pattern together with min_length/max_length. */
  predicate CodigoValido(s: string)
  {
    3 <= |s| <= 20 && CodigoPattern(s)
  }

  /** Number of leading upper-case letters of s. */
  function UpperRun(s: string): (n: nat)
    ensures n <= |s| && AllUpper(s[..n]) && (n == |s| || !IsUpper(s[n]))
  {
    if s == [] || !IsUpper(s[0]) then 0
    else
      var n := UpperRun(s[1..]);
      assert s[..n + 1] == [s[0]] + s[1..][..n];
      n + 1
  }

  /** A left-to-right matcher for the pattern, as a regex engine runs it. */
  function MatchCodigo(s: string): bool
  {
    var k := UpperRun(s);
    2 <= k <= 5 && k < |s| && s[k] == '-' && AllDigits(s[k + 1..]) && 3 <= |s| - k - 1 <= 6
  }

  /** The matcher accepts exactly the strings the pattern describes. */
  lemma MatchCodigoCorrect(s: string)
    ensures MatchCodigo(s) <==> CodigoPattern(s)
  {
    var n := UpperRun(s);
    if CodigoPattern(s) {
      var k :| 2 <= k <= 5 && k < |s| && s[k] == '-' && AllUpper(s[..k]) && AllDigits(s[k + 1..]) && 3 <= |s| - k - 1 <= 6;
      assert forall i | 0 <= i < k :: IsUpper(s[i]) by {
        forall i | 0 <= i < k ensures IsUpper(s[i]) { assert s[..k][i] == s[i]; }
      }
      assert forall i | 0 <= i < n :: IsUpper(s[i]) by {
        forall i | 0 <= i < n ensures IsUpper(s[i]) { assert s[..n][i] == s[i]; }
      }
      assert n == k;
    }
  }

  /** Every codigo matching the pattern has 6..12 characters, so the length bounds never reject one. */
  lemma CodigoLength(s: string)
    ensures CodigoPattern(s) ==> 6 <= |s| <= 12
    ensures CodigoValido(s) <==> CodigoPattern(s)
  {
  }

  // ---------------------------------------------------------------------------
  // Other field bounds

  predicate NombreValido(s: string) { 5 <= |s| <= 100 }

  predicate DescripcionTextoValido(s: string) { |s| <= 500 }

  predicate DescripcionValida(d: Option<string>) { d.None? || DescripcionTextoValido(d.value) }

  /** valor_numerico lies in [0, 10000]. */
  predicate ValorValido(v: real) { 0.0 <= v <= 10000.0 }

  // ---------------------------------------------------------------------------
  // Bodies and validated values

  /** State of one key of a JSON request body. */
  datatype Sent<+T> = Unset | Null | Given(value: T)

  /** A create request body as sent. */
  datatype CreateBody = CreateBody(
    codigo: Sent<string>,
    nombre: Sent<string>,
    descripcion: Sent<string>,
    valorNumerico: Sent<real>,
    activo: Sent<bool>,
    categoria: Sent<string>)

  /** A validated create request (the create schema after defaults). */
  datatype ElementoCreate = ElementoCreate(
    codigo: string,
    nombre: string,
    descripcion: Option<string>,
    valorNumerico: real,
    activo: bool,
    categoria: string)

  predicate CreateValido(c: ElementoCreate)
  {
    CodigoValido(c.codigo) && NombreValido(c.nombre) && DescripcionValida(c.descripcion) && ValorValido(c.valorNumerico)
  }

  /** A required field: present, not null, and obeying its rule. */
  predicate Required<T>(f: Sent<T>, ok: T -> bool)
  {
    f.Given? && ok(f.value)
  }

  /** An optional field with a rule: absent, null, or a value obeying the rule. */
  predicate Optional<T>(f: Sent<T>, ok: T -> bool)
  {
    !f.Given? || ok(f.value)
  }

  function OptionOf<T>(f: Sent<T>): Option<T>
  {
    if f.Given? then Some(f.value) else None
  }

  /** Validation of a create body against the create schema; absent activo becomes true. */
  function ValidarCreate(b: CreateBody): (r: Result<ElementoCreate, Error>)
    ensures r.Ok? <==> (Required(b.codigo, CodigoValido) && Required(b.nombre, NombreValido)
                        && Optional(b.descripcion, DescripcionTextoValido) && Required(b.valorNumerico, ValorValido)
                        && !b.activo.Null? && b.categoria.Given?)
    ensures r.Ok? ==> CreateValido(r.value)
    ensures r.Err? ==> r.error == ValidacionFallida
    ensures r.Ok? ==> (b.codigo == Given(r.value.codigo) && b.nombre == Given(r.value.nombre)
                       && b.valorNumerico == Given(r.value.valorNumerico) && b.categoria == Given(r.value.categoria)
                       && r.value.descripcion == OptionOf(b.descripcion))
    ensures r.Ok? ==> r.value.activo == (b.activo.Unset? || (b.activo.Given? && b.activo.value))
    ensures b.codigo.Given? && !CodigoValido(b.codigo.value) ==> r.Err?
    ensures b.nombre.Given? && !NombreValido(b.nombre.value) ==> r.Err?
    ensures b.valorNumerico.Given? && !ValorValido(b.valorNumerico.value) ==> r.Err?
    ensures b.descripcion.Given? && !DescripcionTextoValido(b.descripcion.value) ==> r.Err?
    ensures !b.codigo.Given? || !b.nombre.Given? || !b.valorNumerico.Given? || !b.categoria.Given? || b.activo.Null? ==> r.Err?
  {
    if Required(b.codigo, CodigoValido) && Required(b.nombre, NombreValido)
       && Optional(b.descripcion, DescripcionTextoValido) && Required(b.valorNumerico, ValorValido)
       && !b.activo.Null? && b.categoria.Given?
    then
      Ok(ElementoCreate(b.codigo.value, b.nombre.value, OptionOf(b.descripcion), b.valorNumerico.value,
                        if b.activo.Given? then b.activo.value else true, b.categoria.value))
    else
      Err(ValidacionFallida)
  }

  /** The body a client sends for a create request, every key present. */
  function CreateBodyOf(c: ElementoCreate): CreateBody
  {
    CreateBody(Given(c.codigo), Given(c.nombre), if c.descripcion.Some? then Given(c.descripcion.value) else Unset,
               Given(c.valorNumerico), Given(c.activo), Given(c.categoria))
  }

  /** Validation accepts exactly the valid requests and gives them back unchanged. */
  lemma ValidarCreateRoundTrip(c: ElementoCreate)
    ensures ValidarCreate(CreateBodyOf(c)).Ok? <==> CreateValido(c)
    ensures CreateValido(c) ==> ValidarCreate(CreateBodyOf(c)) == Ok(c)
  {
  }

  /** Omitting activo is the same as sending true. */
  lemma ActivoDefaultsToTrue(b: CreateBody)
    requires b.activo.Unset?
    ensures ValidarCreate(b) == ValidarCreate(b.(activo := Given(true)))
  {
  }

  // ---------------------------------------------------------------------------
  // Update schema: every field optional, no codigo and no id

  /** An update request body as sent.  It has no codigo and no id key. */
  datatype UpdateBody = UpdateBody(
    nombre: Sent<string>,
    descripcion: Sent<string>,
    valorNumerico: Sent<real>,
    activo: Sent<bool>,
    categoria: Sent<string>)

  /**
   * A validated update: None means the key was not sent.  descripcion keeps
   * the three states because null is a legitimate value for it (it clears it).
   */
  datatype Patch = Patch(
    nombre: Option<string>,
    descripcion: Sent<string>,
    valorNumerico: Option<real>,
    activo: Option<bool>,
    categoria: Option<string>)

  predicate PatchValido(p: Patch)
  {
    (p.nombre.None? || NombreValido(p.nombre.value))
    && Optional(p.descripcion, DescripcionTextoValido)
    && (p.valorNumerico.None? || ValorValido(p.valorNumerico.value))
  }

  /** A key that may be absent but, when sent, must carry a value obeying its rule. */
  predicate NotNull<T>(f: Sent<T>, ok: T -> bool)
  {
    !f.Null? && Optional(f, ok)
  }

  /**
   * Validation of an update body: a sent value obeys the same bounds as on
   * create; null is accepted only for descripcion.
   */
  function ValidarUpdate(b: UpdateBody): (r: Result<Patch, Error>)
    ensures r.Ok? ==> PatchValido(r.value)
    ensures r.Err? ==> r.error == ValidacionFallida
    ensures r.Ok? ==> (r.value.nombre == OptionOf(b.nombre) && r.value.descripcion == b.descripcion
                       && r.value.valorNumerico == OptionOf(b.valorNumerico) && r.value.activo == OptionOf(b.activo)
                       && r.value.categoria == OptionOf(b.categoria))
    ensures r.Err? <==> (b.nombre.Null? || b.valorNumerico.Null? || b.activo.Null? || b.categoria.Null?
                         || !Optional(b.nombre, NombreValido) || !Optional(b.descripcion, DescripcionTextoValido)
                         || !Optional(b.valorNumerico, ValorValido))
  {
    if NotNull(b.nombre, NombreValido) && Optional(b.descripcion, DescripcionTextoValido)
       && NotNull(b.valorNumerico, ValorValido) && !b.activo.Null? && !b.categoria.Null?
    then
      Ok(Patch(OptionOf(b.nombre), b.descripcion, OptionOf(b.valorNumerico), OptionOf(b.activo), OptionOf(b.categoria)))
    else
      Err(ValidacionFallida)
  }

  // ---------------------------------------------------------------------------
  // The stored record (the response schema)

  datatype Elemento = Elemento(
    id: int,
    codigo: string,
    nombre: string,
    descripcion: Option<string>,
    valorNumerico: real,
    activo: bool,
    categoria: string,
    fechaCreacion: int,
    fechaActualizacion: int,
    status: Status)

  /** A record the response schema accepts: its fields obey the base rules. */
  predicate ElementoValido(e: Elemento)
  {
    CodigoValido(e.codigo) && NombreValido(e.nombre) && DescripcionValida(e.descripcion) && ValorValido(e.valorNumerico)
  }
}
