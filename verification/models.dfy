/** The records of the service and the field validators run on every request
    body: `AutoBase`/`AutoCreate`, `AutoUpdate`, `VentaBase`/`VentaCreate`,
    `VentaUpdate` and the rows `Auto` and `Venta`. */
module Models {
  import opened Table
  import opened Text

  /** The columns of a car besides its key (`AutoBase`, also the create payload). */
  datatype AutoData = AutoData(marca: string, modelo: string, anio: int, numeroChasis: string)

  /** A stored car: `Auto` with its `id`. */
  type Auto = Row<AutoData>

  /** A partial update of a car; `None` is a field the client did not send. */
  datatype AutoUpdate = AutoUpdate(
    marca: Option<string>, modelo: Option<string>, anio: Option<int>, numeroChasis: Option<string>)

  /** The columns of a sale besides its key (`VentaCreate`). The price is compared
      only, so a real number stands for the float; the date is a timestamp. */
  datatype VentaData = VentaData(nombreComprador: string, precio: real, fechaVenta: int, autoId: int)

  /** A stored sale: `Venta` with its `id`. */
  type Venta = Row<VentaData>

  /** A partial update of a sale; `None` is a field the client did not send. */
  datatype VentaUpdate = VentaUpdate(
    nombreComprador: Option<string>, precio: Option<real>, fechaVenta: Option<int>, autoId: Option<int>)

  /** The `ValueError` each validator raises. */
  datatype FieldError = AnioFueraDeRango | ChasisNoAlfanumerico | PrecioNoPositivo | NombreVacio | FechaFutura

  /** What a single validator does with one field: return a value or raise. */
  datatype Check<T> = Pass(value: T) | Fail(error: FieldError)

  /** What parsing a whole body does: the validated record, or every field error. */
  datatype Validated<T> = Accepted(value: T) | Rejected(errors: seq<FieldError>)

  const MinAnio: int := 1900

  // ---------- the rules, stated directly ----------

  predicate ChasisChar(c: char)
  {
    'A' <= c <= 'Z' || 'a' <= c <= 'z' || '0' <= c <= '9' || c == '-'
  }

  predicate AnioOk(anio: int, currentYear: int)
  {
    MinAnio <= anio <= currentYear
  }

  /** A chassis number is one or more of A-Z, a-z, 0-9 and '-'. */
  predicate ChasisOk(s: string)
  {
    s != [] && forall i :: 0 <= i < |s| ==> ChasisChar(s[i])
  }

  /** A car whose year and chassis a create would accept. */
  predicate ValidAuto(a: AutoData, currentYear: int)
  {
    AnioOk(a.anio, currentYear) && ChasisOk(a.numeroChasis)
  }

  /** The sale fields no later request can make invalid: a positive price and a
      buyer name that is not blank. */
  predicate ValidVenta(v: VentaData)
  {
    v.precio > 0.0 && !AllSpace(v.nombreComprador)
  }

  // ---------- the validators ----------

  /** `re.fullmatch(r"[A-Za-z0-9\-]+", s)`: one class character, then the rest.
      The regular expression accepts exactly the chassis numbers `ChasisOk` describes. */
  function MatchesChasisPattern(s: string): (r: bool)
    ensures r <==> ChasisOk(s)
  {
    ChasisOkSplit(s);
    |s| > 0 && ChasisChar(s[0]) && (|s| == 1 || MatchesChasisPattern(s[1..]))
  }

  /** A string of two or more characters is a chassis number exactly when its first
      character is in the class and the rest is a chassis number. */
  lemma ChasisOkSplit(s: string)
    ensures |s| > 1 ==> (ChasisOk(s) <==> ChasisChar(s[0]) && ChasisOk(s[1..]))
  {
    if |s| > 1 {
      if ChasisChar(s[0]) && ChasisOk(s[1..]) {
        forall i | 0 <= i < |s|
          ensures ChasisChar(s[i])
        {
          if i > 0 {
            assert s[i] == s[1..][i - 1];
          }
        }
      }
    }
  }

  /** `año_valido`. */
  function AnioValido(v: int, currentYear: int): (r: Check<int>)
    ensures r.Pass? <==> AnioOk(v, currentYear)
    ensures r.Pass? ==> r.value == v
    ensures r.Fail? ==> r.error == AnioFueraDeRango
  {
    if !(MinAnio <= v <= currentYear) then Fail(AnioFueraDeRango) else Pass(v)
  }

  /** `chasis_alfanumerico`. */
  function ChasisAlfanumerico(v: string): (r: Check<string>)
    ensures r.Pass? <==> ChasisOk(v)
    ensures r.Pass? ==> r.value == v
    ensures r.Fail? ==> r.error == ChasisNoAlfanumerico
  {
    if !MatchesChasisPattern(v) then Fail(ChasisNoAlfanumerico) else Pass(v)
  }

  /** `precio_positivo`. */
  function PrecioPositivo(v: real): (r: Check<real>)
    ensures r.Pass? <==> v > 0.0
    ensures r.Pass? ==> r.value == v
    ensures r.Fail? ==> r.error == PrecioNoPositivo
  {
    if v <= 0.0 then Fail(PrecioNoPositivo) else Pass(v)
  }

  /** `nombre_no_vacio` on a create: rejects an empty or blank name and stores it stripped. */
  function NombreNoVacio(v: string): (r: Check<string>)
    ensures r.Pass? <==> !AllSpace(v)
    ensures r.Pass? ==> r.value != [] && !IsSpace(r.value[0]) && !IsSpace(r.value[|r.value| - 1])
    ensures r.Pass? ==> r.value == Strip(v) && Strip(r.value) == r.value
    ensures r.Fail? ==> r.error == NombreVacio
  {
    StripIdempotent(v);
    if v == [] || Strip(v) == [] then Fail(NombreVacio) else Pass(Strip(v))
  }

  /** `fecha_no_futura`, with the clock reading passed in. */
  function FechaNoFutura(v: int, now: int): (r: Check<int>)
    ensures r.Pass? <==> v <= now
    ensures r.Pass? ==> r.value == v
    ensures r.Fail? ==> r.error == FechaFutura
  {
    if v > now then Fail(FechaFutura) else Pass(v)
  }

  /** The `*Update` form of a validator: a field that was not sent passes unchecked. */
  function IfSupplied<T>(v: Option<T>, check: T -> Check<T>): (r: Check<Option<T>>)
    ensures v.None? ==> r == Pass(None)
    ensures v.Some? ==> (r.Pass? <==> check(v.value).Pass?)
    ensures v.Some? && r.Pass? ==> r.value == Some(check(v.value).value)
    ensures v.Some? && r.Fail? ==> r.error == check(v.value).error
  {
    match v
    case None => Pass(None)
    case Some(x) =>
      match check(x)
      case Pass(y) => Pass(Some(y))
      case Fail(e) => Fail(e)
  }

  /** `VentaUpdate.nombre_no_vacio`: rejects a blank name but, unlike the create
      validator, returns the name as sent, without stripping it. */
  function NombreNoVacioPatch(v: Option<string>): (r: Check<Option<string>>)
    ensures r.Pass? <==> (v.Some? ==> !AllSpace(v.value))
    ensures r.Pass? ==> r.value == v
  {
    if v.Some? && Strip(v.value) == [] then Fail(NombreVacio) else Pass(v)
  }

  function ErrorsOf<T>(c: Check<T>): seq<FieldError>
  {
    if c.Fail? then [c.error] else []
  }

  /** Parsing an `AutoCreate` body: the year and chassis validators, in field order. */
  function ValidateAutoCreate(p: AutoData, currentYear: int): (r: Validated<AutoData>)
    ensures r.Accepted? <==> ValidAuto(p, currentYear)
    ensures r.Accepted? ==> r.value == p
    ensures r.Rejected? ==> r.errors != []
    ensures r.Rejected? ==> (AnioFueraDeRango in r.errors <==> !AnioOk(p.anio, currentYear))
    ensures r.Rejected? ==> (ChasisNoAlfanumerico in r.errors <==> !ChasisOk(p.numeroChasis))
  {
    var errors := ErrorsOf(AnioValido(p.anio, currentYear)) + ErrorsOf(ChasisAlfanumerico(p.numeroChasis));
    if errors == [] then Accepted(p) else Rejected(errors)
  }

  /** The fields an `AutoUpdate` supplies are valid; absent ones are not looked at. */
  predicate ValidAutoUpdate(p: AutoUpdate, currentYear: int)
  {
    && (p.anio.Some? ==> AnioOk(p.anio.value, currentYear))
    && (p.numeroChasis.Some? ==> ChasisOk(p.numeroChasis.value))
  }

  /** Parsing an `AutoUpdate` body: the same two rules, applied only to fields that were sent. */
  function ValidateAutoUpdate(p: AutoUpdate, currentYear: int): (r: Validated<AutoUpdate>)
    ensures r.Accepted? <==> ValidAutoUpdate(p, currentYear)
    ensures r.Accepted? ==> r.value == p
    ensures r.Rejected? ==> r.errors != []
    ensures r.Rejected? ==> (AnioFueraDeRango in r.errors <==> !(p.anio.Some? ==> AnioOk(p.anio.value, currentYear)))
    ensures r.Rejected? ==> (ChasisNoAlfanumerico in r.errors <==> !(p.numeroChasis.Some? ==> ChasisOk(p.numeroChasis.value)))
  {
    var errors :=
      ErrorsOf(IfSupplied(p.anio, (v: int) => AnioValido(v, currentYear)))
      + ErrorsOf(IfSupplied(p.numeroChasis, ChasisAlfanumerico));
    if errors == [] then Accepted(p) else Rejected(errors)
  }

  /** Parsing a `VentaCreate` body: name, price and date validators in field order;
      the accepted record carries the stripped name. */
  function ValidateVentaCreate(p: VentaData, now: int): (r: Validated<VentaData>)
    ensures r.Accepted? <==> ValidVenta(p) && p.fechaVenta <= now
    ensures r.Accepted? ==> ValidVenta(r.value) && Strip(r.value.nombreComprador) == r.value.nombreComprador
    ensures r.Accepted? ==> r.value == p.(nombreComprador := Strip(p.nombreComprador))
    ensures r.Rejected? ==> r.errors != []
  {
    var nombre := NombreNoVacio(p.nombreComprador);
    var errors := ErrorsOf(nombre) + ErrorsOf(PrecioPositivo(p.precio)) + ErrorsOf(FechaNoFutura(p.fechaVenta, now));
    if errors == [] then Accepted(p.(nombreComprador := nombre.value)) else Rejected(errors)
  }

  /** A rejected `VentaCreate` body reports exactly the fields that broke a rule. */
  lemma VentaCreateErrors(p: VentaData, now: int)
    requires ValidateVentaCreate(p, now).Rejected?
    ensures var errors := ValidateVentaCreate(p, now).errors;
      && (NombreVacio in errors <==> AllSpace(p.nombreComprador))
      && (PrecioNoPositivo in errors <==> p.precio <= 0.0)
      && (FechaFutura in errors <==> p.fechaVenta > now)
  {
    var nombre := NombreNoVacio(p.nombreComprador);
    var precio := PrecioPositivo(p.precio);
    var fecha := FechaNoFutura(p.fechaVenta, now);
    assert ValidateVentaCreate(p, now).errors == ErrorsOf(nombre) + ErrorsOf(precio) + ErrorsOf(fecha);
  }

  /** The fields a `VentaUpdate` supplies are valid; absent ones are not looked at. */
  predicate ValidVentaUpdate(p: VentaUpdate, now: int)
  {
    && (p.nombreComprador.Some? ==> !AllSpace(p.nombreComprador.value))
    && (p.precio.Some? ==> p.precio.value > 0.0)
    && (p.fechaVenta.Some? ==> p.fechaVenta.value <= now)
  }

  /** Parsing a `VentaUpdate` body: the same three rules on the fields that were
      sent; the accepted patch is returned as sent (the name is not stripped). */
  function ValidateVentaUpdate(p: VentaUpdate, now: int): (r: Validated<VentaUpdate>)
    ensures r.Accepted? <==> ValidVentaUpdate(p, now)
    ensures r.Accepted? ==> r.value == p
    ensures r.Rejected? ==> r.errors != []
    ensures r.Rejected? ==> (NombreVacio in r.errors <==> !(p.nombreComprador.Some? ==> !AllSpace(p.nombreComprador.value)))
    ensures r.Rejected? ==> (PrecioNoPositivo in r.errors <==> !(p.precio.Some? ==> p.precio.value > 0.0))
    ensures r.Rejected? ==> (FechaFutura in r.errors <==> !(p.fechaVenta.Some? ==> p.fechaVenta.value <= now))
  {
    var errors :=
      ErrorsOf(NombreNoVacioPatch(p.nombreComprador))
      + ErrorsOf(IfSupplied(p.precio, PrecioPositivo))
      + ErrorsOf(IfSupplied(p.fechaVenta, (v: int) => FechaNoFutura(v, now)));
    if errors == [] then Accepted(p) else Rejected(errors)
  }

  // ---------- applying a patch ----------

  /** The record a patch describes: each supplied field replaced, the others kept. */
  function ApplyAutoPatch(a: AutoData, p: AutoUpdate): AutoData
  {
    AutoData(
      if p.marca.Some? then p.marca.value else a.marca,
      if p.modelo.Some? then p.modelo.value else a.modelo,
      if p.anio.Some? then p.anio.value else a.anio,
      if p.numeroChasis.Some? then p.numeroChasis.value else a.numeroChasis)
  }

  function ApplyVentaPatch(v: VentaData, p: VentaUpdate): VentaData
  {
    VentaData(
      if p.nombreComprador.Some? then p.nombreComprador.value else v.nombreComprador,
      if p.precio.Some? then p.precio.value else v.precio,
      if p.fechaVenta.Some? then p.fechaVenta.value else v.fechaVenta,
      if p.autoId.Some? then p.autoId.value else v.autoId)
  }

  /** A patch that sends nothing leaves the record as it is, applying the same patch
      twice is applying it once, and a field that is sent ends up holding exactly
      the sent value whatever the record held. */
  lemma AutoPatchLaws(a: AutoData, b: AutoData, p: AutoUpdate)
    ensures ApplyAutoPatch(a, AutoUpdate(None, None, None, None)) == a
    ensures ApplyAutoPatch(ApplyAutoPatch(a, p), p) == ApplyAutoPatch(a, p)
    ensures p.marca.Some? ==> ApplyAutoPatch(a, p).marca == ApplyAutoPatch(b, p).marca
    ensures p.modelo.Some? ==> ApplyAutoPatch(a, p).modelo == ApplyAutoPatch(b, p).modelo
    ensures p.anio.Some? ==> ApplyAutoPatch(a, p).anio == ApplyAutoPatch(b, p).anio
    ensures p.numeroChasis.Some? ==> ApplyAutoPatch(a, p).numeroChasis == ApplyAutoPatch(b, p).numeroChasis
    ensures p.marca.None? ==> ApplyAutoPatch(a, p).marca == a.marca
    ensures p.modelo.None? ==> ApplyAutoPatch(a, p).modelo == a.modelo
    ensures p.anio.None? ==> ApplyAutoPatch(a, p).anio == a.anio
    ensures p.numeroChasis.None? ==> ApplyAutoPatch(a, p).numeroChasis == a.numeroChasis
  {
  }

  lemma VentaPatchLaws(v: VentaData, w: VentaData, p: VentaUpdate)
    ensures ApplyVentaPatch(v, VentaUpdate(None, None, None, None)) == v
    ensures ApplyVentaPatch(ApplyVentaPatch(v, p), p) == ApplyVentaPatch(v, p)
    ensures p.nombreComprador.Some? ==> ApplyVentaPatch(v, p).nombreComprador == ApplyVentaPatch(w, p).nombreComprador
    ensures p.precio.Some? ==> ApplyVentaPatch(v, p).precio == ApplyVentaPatch(w, p).precio
    ensures p.fechaVenta.Some? ==> ApplyVentaPatch(v, p).fechaVenta == ApplyVentaPatch(w, p).fechaVenta
    ensures p.autoId.Some? ==> ApplyVentaPatch(v, p).autoId == ApplyVentaPatch(w, p).autoId
    ensures p.nombreComprador.None? ==> ApplyVentaPatch(v, p).nombreComprador == v.nombreComprador
    ensures p.precio.None? ==> ApplyVentaPatch(v, p).precio == v.precio
    ensures p.fechaVenta.None? ==> ApplyVentaPatch(v, p).fechaVenta == v.fechaVenta
    ensures p.autoId.None? ==> ApplyVentaPatch(v, p).autoId == v.autoId
  {
  }

  /** One `setattr(row, name, value)` of the update loop. */
  datatype AutoAssignment = SetMarca(marca: string) | SetModelo(modelo: string) | SetAnio(anio: int) | SetNumeroChasis(numeroChasis: string)
  datatype VentaAssignment = SetNombreComprador(nombre: string) | SetPrecio(precio: real) | SetFechaVenta(fecha: int) | SetAutoId(autoId: int)

  /** `patch.dict(exclude_unset=True).items()`: the supplied fields in declaration order. */
  function AutoAssignments(p: AutoUpdate): seq<AutoAssignment>
  {
    (if p.marca.Some? then [SetMarca(p.marca.value)] else [])
    + (if p.modelo.Some? then [SetModelo(p.modelo.value)] else [])
    + (if p.anio.Some? then [SetAnio(p.anio.value)] else [])
    + (if p.numeroChasis.Some? then [SetNumeroChasis(p.numeroChasis.value)] else [])
  }

  function VentaAssignments(p: VentaUpdate): seq<VentaAssignment>
  {
    (if p.nombreComprador.Some? then [SetNombreComprador(p.nombreComprador.value)] else [])
    + (if p.precio.Some? then [SetPrecio(p.precio.value)] else [])
    + (if p.fechaVenta.Some? then [SetFechaVenta(p.fechaVenta.value)] else [])
    + (if p.autoId.Some? then [SetAutoId(p.autoId.value)] else [])
  }

  function SetAutoAttr(a: AutoData, s: AutoAssignment): AutoData
  {
    match s
    case SetMarca(x) => a.(marca := x)
    case SetModelo(x) => a.(modelo := x)
    case SetAnio(x) => a.(anio := x)
    case SetNumeroChasis(x) => a.(numeroChasis := x)
  }

  function SetVentaAttr(v: VentaData, s: VentaAssignment): VentaData
  {
    match s
    case SetNombreComprador(x) => v.(nombreComprador := x)
    case SetPrecio(x) => v.(precio := x)
    case SetFechaVenta(x) => v.(fechaVenta := x)
    case SetAutoId(x) => v.(autoId := x)
  }

  /** The record after the first |ss| iterations of the `setattr` loop. */
  function SetAutoAttrs(a: AutoData, ss: seq<AutoAssignment>): AutoData
  {
    if ss == [] then a else SetAutoAttr(SetAutoAttrs(a, ss[..|ss| - 1]), ss[|ss| - 1])
  }

  function SetVentaAttrs(v: VentaData, ss: seq<VentaAssignment>): VentaData
  {
    if ss == [] then v else SetVentaAttr(SetVentaAttrs(v, ss[..|ss| - 1]), ss[|ss| - 1])
  }

  /** Running the `setattr` loop over the supplied fields applies the patch. */
  lemma {:induction false} AutoAssignmentsApplyPatch(a: AutoData, p: AutoUpdate)
    ensures SetAutoAttrs(a, AutoAssignments(p)) == ApplyAutoPatch(a, p)
  {
    var m := if p.marca.Some? then [SetMarca(p.marca.value)] else [];
    var mo := if p.modelo.Some? then [SetModelo(p.modelo.value)] else [];
    var an := if p.anio.Some? then [SetAnio(p.anio.value)] else [];
    var ch := if p.numeroChasis.Some? then [SetNumeroChasis(p.numeroChasis.value)] else [];
    SetAutoAttrsAppend(a, m, mo);
    SetAutoAttrsAppend(a, m + mo, an);
    SetAutoAttrsAppend(a, m + mo + an, ch);
  }

  lemma SetAutoAttrsAppend(a: AutoData, ss: seq<AutoAssignment>, tail: seq<AutoAssignment>)
    requires |tail| <= 1
    ensures SetAutoAttrs(a, ss + tail) == if tail == [] then SetAutoAttrs(a, ss) else SetAutoAttr(SetAutoAttrs(a, ss), tail[0])
  {
    if tail != [] {
      assert (ss + tail)[..|ss + tail| - 1] == ss;
    } else {
      assert ss + tail == ss;
    }
  }

  lemma {:induction false} VentaAssignmentsApplyPatch(v: VentaData, p: VentaUpdate)
    ensures SetVentaAttrs(v, VentaAssignments(p)) == ApplyVentaPatch(v, p)
  {
    var n := if p.nombreComprador.Some? then [SetNombreComprador(p.nombreComprador.value)] else [];
    var pr := if p.precio.Some? then [SetPrecio(p.precio.value)] else [];
    var f := if p.fechaVenta.Some? then [SetFechaVenta(p.fechaVenta.value)] else [];
    var id := if p.autoId.Some? then [SetAutoId(p.autoId.value)] else [];
    SetVentaAttrsAppend(v, n, pr);
    SetVentaAttrsAppend(v, n + pr, f);
    SetVentaAttrsAppend(v, n + pr + f, id);
  }

  lemma SetVentaAttrsAppend(v: VentaData, ss: seq<VentaAssignment>, tail: seq<VentaAssignment>)
    requires |tail| <= 1
    ensures SetVentaAttrs(v, ss + tail) == if tail == [] then SetVentaAttrs(v, ss) else SetVentaAttr(SetVentaAttrs(v, ss), tail[0])
  {
    if tail != [] {
      assert (ss + tail)[..|ss + tail| - 1] == ss;
    } else {
      assert ss + tail == ss;
    }
  }

  // ---------- what the validators guarantee together ----------

  /** A validated patch applied to a valid car gives a valid car. */
  lemma AutoPatchKeepsValid(a: AutoData, p: AutoUpdate, currentYear: int)
    requires ValidAuto(a, currentYear) && ValidateAutoUpdate(p, currentYear).Accepted?
    ensures ValidAuto(ApplyAutoPatch(a, p), currentYear)
  {
  }

  /** A validated patch applied to a sale with a positive price and a non-blank
      name keeps both. */
  lemma VentaPatchKeepsValid(v: VentaData, p: VentaUpdate, now: int)
    requires ValidVenta(v) && ValidateVentaUpdate(p, now).Accepted?
    ensures ValidVenta(ApplyVentaPatch(v, p))
  {
  }

  /** The patch that sends every field of a create body. */
  function FullAutoUpdate(p: AutoData): AutoUpdate
  {
    AutoUpdate(Some(p.marca), Some(p.modelo), Some(p.anio), Some(p.numeroChasis))
  }

  function FullVentaUpdate(p: VentaData): VentaUpdate
  {
    VentaUpdate(Some(p.nombreComprador), Some(p.precio), Some(p.fechaVenta), Some(p.autoId))
  }

  /** The update validators apply the create rules to every field that is present:
      a patch sending every field is accepted exactly when the create body is, and
      it overwrites a car with exactly that body. */
  lemma AutoUpdateRulesMatchCreate(p: AutoData, any: AutoData, currentYear: int)
    ensures ValidateAutoUpdate(FullAutoUpdate(p), currentYear).Accepted? <==> ValidateAutoCreate(p, currentYear).Accepted?
    ensures ApplyAutoPatch(any, FullAutoUpdate(p)) == p
  {
  }

  /** For sales the acceptance is the same, but the create stores the stripped name
      while the patch stores the name as sent. */
  lemma VentaUpdateRulesMatchCreate(p: VentaData, any: VentaData, now: int)
    ensures ValidateVentaUpdate(FullVentaUpdate(p), now).Accepted? <==> ValidateVentaCreate(p, now).Accepted?
    ensures ValidateVentaCreate(p, now).Accepted? ==>
      ValidateVentaCreate(p, now).value == ApplyVentaPatch(any, FullVentaUpdate(p)).(nombreComprador := Strip(p.nombreComprador))
  {
  }

  /** A name with surrounding blanks: the create stores "Jane Doe", an update keeps
      the blanks. */
  lemma NameStrippedOnCreateOnly()
    ensures ValidateVentaCreate(VentaData("  Jane Doe  ", 15000.0, 0, 1), 0) == Accepted(VentaData("Jane Doe", 15000.0, 0, 1))
    ensures ValidateVentaUpdate(VentaUpdate(Some("  Jane Doe  "), None, None, None), 0).Accepted?
    ensures ApplyVentaPatch(VentaData("Jane Doe", 15000.0, 0, 1), VentaUpdate(Some("  Jane Doe  "), None, None, None)).nombreComprador == "  Jane Doe  "
  {
    StripJaneDoe();
  }

  lemma StripJaneDoe()
    ensures Strip("  Jane Doe  ") == "Jane Doe"
  {
    var s := "  Jane Doe  ";
    assert LeadingSpaces(s[2..]) == 0;
    assert LeadingSpaces(s[1..]) == 1;
    assert LeadingSpaces(s) == 2;
    var rest := s[2..];
    assert TrailingSpaces(rest[..|rest| - 2]) == 0;
    assert TrailingSpaces(rest[..|rest| - 1]) == 1;
    assert TrailingSpaces(rest) == 2;
  }

  /** Both bounds of the year range are inclusive. */
  lemma AnioBoundsInclusive(currentYear: int)
    requires currentYear >= MinAnio
    ensures AnioValido(MinAnio, currentYear) == Pass(MinAnio)
    ensures AnioValido(currentYear, currentYear) == Pass(currentYear)
    ensures AnioValido(MinAnio - 1, currentYear).Fail?
    ensures AnioValido(currentYear + 1, currentYear).Fail?
  {
  }

  // ---------- the response models ----------

  /** A sale as `VentaResponse` returns it: the response model runs `VentaBase`'s
      validators again, so the buyer name comes back stripped; every other field,
      which those validators return as given, is the stored one. */
  function AsVentaResponse(v: Venta): (r: Venta)
    ensures r.id == v.id
    ensures r.data.precio == v.data.precio && r.data.fechaVenta == v.data.fechaVenta && r.data.autoId == v.data.autoId
    ensures r.data.nombreComprador == Strip(v.data.nombreComprador)
    ensures Strip(r.data.nombreComprador) == r.data.nombreComprador
    ensures ValidVenta(v.data) ==> ValidVenta(r.data)
    ensures Strip(v.data.nombreComprador) == v.data.nombreComprador ==> r == v
  {
    StripIdempotent(v.data.nombreComprador);
    StripNotBlank(v.data.nombreComprador);
    Row(v.id, v.data.(nombreComprador := Strip(v.data.nombreComprador)))
  }

  /** A `List[VentaResponse]`: each sale of the list, in order, as it is returned. */
  function VentaResponses(vs: seq<Venta>): (r: seq<Venta>)
    ensures |r| == |vs| && forall i :: 0 <= i < |vs| ==> r[i] == AsVentaResponse(vs[i])
  {
    seq(|vs|, i requires 0 <= i < |vs| => AsVentaResponse(vs[i]))
  }

  /** A sale is listed exactly when it is the response of a sale of the list. */
  lemma VentaResponsesMembers(vs: seq<Venta>)
    ensures forall v :: v in vs ==> AsVentaResponse(v) in VentaResponses(vs)
    ensures forall x :: x in VentaResponses(vs) ==> exists v :: v in vs && x == AsVentaResponse(v)
  {
    var r := VentaResponses(vs);
    forall v | v in vs
      ensures AsVentaResponse(v) in r
    {
      var i :| 0 <= i < |vs| && vs[i] == v;
      assert r[i] == AsVentaResponse(v);
    }
    forall x | x in r
      ensures exists v :: v in vs && x == AsVentaResponse(v)
    {
      var i :| 0 <= i < |r| && r[i] == x;
      assert vs[i] in vs;
    }
  }
}
