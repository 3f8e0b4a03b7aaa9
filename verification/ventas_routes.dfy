/** The `/ventas` routes. As for the car routes, a body that fails its validators
    or paging out of bounds is answered 422 before the handler runs; `now` is the
    clock reading the date validator compares with. */
module VentaRoutes {
  import opened Table
  import opened Text
  import opened Models
  import opened Repository
  import opened Http

  /** Every stored sale has a positive price and a non-blank buyer name. */
  ghost predicate VentasValid(ventas: seq<Venta>)
  {
    forall v :: v in ventas ==> ValidVenta(v.data)
  }

  /** `POST /ventas/`: the body is validated (the buyer name is stored stripped),
      then the car it names is looked up and a missing car answered 400. */
  method CreateVenta(db: Database, body: VentaData, now: int) returns (resp: Response<Venta>)
    requires db.Valid()
    modifies db
    ensures db.Valid()
    ensures db.autos == old(db.autos) && db.nextAutoId == old(db.nextAutoId)
    ensures VentasValid(old(db.ventas)) ==> VentasValid(db.ventas)
    ensures !(ValidVenta(body) && body.fechaVenta <= now) ==>
      resp == InvalidBody(ValidateVentaCreate(body, now).errors) && unchanged(db)
    ensures ValidVenta(body) && body.fechaVenta <= now && body.autoId !in Ids(old(db.autos)) ==>
      resp == BadRequest(AutoInexistente) && unchanged(db)
    ensures ValidVenta(body) && body.fechaVenta <= now && body.autoId in Ids(old(db.autos)) ==>
      && resp == Created(Row(old(db.nextVentaId), body.(nombreComprador := Strip(body.nombreComprador))))
      && db.ventas == old(db.ventas) + [resp.body]
      && db.nextVentaId == old(db.nextVentaId) + 1
      && resp.body in VentasByAutoId(db.ventas, body.autoId)
  {
    var parsed := ValidateVentaCreate(body, now);
    if parsed.Rejected? {
      return InvalidBody(parsed.errors);
    }
    if GetById(db.autos, body.autoId).None? {
      return BadRequest(AutoInexistente);
    }
    ghost var before := db.ventas;
    if VentasValid(before) {
      AppendKeepsVentasValid(before, Row(db.nextVentaId, parsed.value));
    }
    var r := db.CreateVenta(parsed.value);
    match r {
      case Committed(venta) =>
        NewSaleListedForItsCar(before, venta);
        assert venta.data.nombreComprador == parsed.value.nombreComprador;
        resp := Created(AsVentaResponse(venta));
      case Missing => assert false;  // an insert never misses a row
      case IntegrityError => resp := BadRequest(CommitRechazado);
    }
  }

  lemma AppendKeepsVentasValid(ventas: seq<Venta>, venta: Venta)
    requires VentasValid(ventas) && ValidVenta(venta.data)
    ensures VentasValid(ventas + [venta])
  {
  }

  /** A sale just appended is among the sales of the car it names. */
  lemma NewSaleListedForItsCar(ventas: seq<Venta>, venta: Venta)
    ensures venta in VentasByAutoId(ventas + [venta], venta.data.autoId)
  {
    assert venta in ventas + [venta];
  }

  predicate PriceGiven(minPrice: Option<real>, maxPrice: Option<real>)
  {
    minPrice.Some? || maxPrice.Some?
  }

  /** The one condition `list_ventas` filters by: the price range when either price
      bound is given, the date range otherwise (with no date bound, every sale). */
  predicate ListFilter(v: Venta, minPrice: Option<real>, maxPrice: Option<real>, start: Option<int>, end: Option<int>)
  {
    if PriceGiven(minPrice, maxPrice) then InPriceRange(v.data.precio, minPrice, maxPrice)
    else InDateRange(v.data.fechaVenta, start, end)
  }

  /** `GET /ventas/`: the price filter wins over the date filter, which wins over the
      plain page. Each sale is returned as `VentaResponse` serialises it. */
  function ListVentas(ventas: seq<Venta>, skip: int, limit: int, minPrice: Option<real>, maxPrice: Option<real>,
                      start: Option<int>, end: Option<int>): (resp: Response<seq<Venta>>)
    ensures resp.Ok? <==> QueryOk(skip, limit)
    ensures !resp.Ok? ==> resp == InvalidQuery
    ensures resp.Ok? ==> |resp.body| <= limit
    ensures resp.Ok? ==> forall x :: x in resp.body ==>
      exists v :: v in ventas && ListFilter(v, minPrice, maxPrice, start, end) && x == AsVentaResponse(v)
  {
    if !QueryOk(skip, limit) then InvalidQuery
    else
      var page :=
        if PriceGiven(minPrice, maxPrice) then VentasByPriceRange(ventas, minPrice, maxPrice, skip, limit)
        else if start.Some? || end.Some? then VentasByDateRange(ventas, start, end, skip, limit)
        else Page(ventas, skip, limit);
      VentaResponsesMembers(page);
      Ok(VentaResponses(page))
  }

  /** The three branches are one query: the page of the sales that pass `ListFilter`. */
  lemma ListVentasIsFilteredPage(ventas: seq<Venta>, skip: int, limit: int, minPrice: Option<real>, maxPrice: Option<real>,
                                 start: Option<int>, end: Option<int>)
    requires QueryOk(skip, limit)
    ensures ListVentas(ventas, skip, limit, minPrice, maxPrice, start, end)
      == Ok(VentaResponses(Page(Select(ventas, (v: Venta) => ListFilter(v, minPrice, maxPrice, start, end)), skip, limit)))
  {
    var keep := (v: Venta) => ListFilter(v, minPrice, maxPrice, start, end);
    if PriceGiven(minPrice, maxPrice) {
      SelectCongruent(ventas, keep, (v: Venta) => InPriceRange(v.data.precio, minPrice, maxPrice));
    } else if start.Some? || end.Some? {
      SelectCongruent(ventas, keep, (v: Venta) => InDateRange(v.data.fechaVenta, start, end));
    } else {
      SelectAll(ventas, keep);
    }
  }

  /** When a price bound is given the date bounds are ignored. */
  lemma DatesIgnoredWhenPriced(ventas: seq<Venta>, skip: int, limit: int, minPrice: Option<real>, maxPrice: Option<real>,
                               start: Option<int>, end: Option<int>)
    requires PriceGiven(minPrice, maxPrice)
    ensures ListVentas(ventas, skip, limit, minPrice, maxPrice, start, end)
      == ListVentas(ventas, skip, limit, minPrice, maxPrice, None, None)
  {
  }

  /** `GET /ventas/auto/{auto_id}`: a car that is not stored has no sales, not a 404. */
  function VentasPorAuto(ventas: seq<Venta>, autoId: int): (resp: Response<seq<Venta>>)
    ensures resp.Ok?
    ensures forall v :: v in ventas && v.data.autoId == autoId ==> AsVentaResponse(v) in resp.body
    ensures forall x :: x in resp.body ==> exists v :: v in ventas && v.data.autoId == autoId && x == AsVentaResponse(v)
  {
    var sales := VentasByAutoId(ventas, autoId);
    VentaResponsesMembers(sales);
    Ok(VentaResponses(sales))
  }

  /** `GET /ventas/comprador/{nombre}`: the pattern is matched against the stored
      name, the name is returned stripped. */
  function VentasPorComprador(ventas: seq<Venta>, nombre: string): (resp: Response<seq<Venta>>)
    ensures resp.Ok?
    ensures forall v :: v in ventas && ContainsIgnoreCase(v.data.nombreComprador, nombre) ==> AsVentaResponse(v) in resp.body
    ensures forall x :: x in resp.body ==>
      exists v :: v in ventas && ContainsIgnoreCase(v.data.nombreComprador, nombre) && x == AsVentaResponse(v)
  {
    var sales := VentasByComprador(ventas, nombre);
    VentaResponsesMembers(sales);
    Ok(VentaResponses(sales))
  }

  /** `GET /ventas/{venta_id}`. */
  function GetVenta(ventas: seq<Venta>, id: int): (resp: Response<Venta>)
    ensures resp.Ok? || resp == NotFound(VentaNoEncontrada)
    ensures resp.Ok? <==> id in Ids(ventas)
    ensures resp.Ok? ==> resp.body.id == id && exists v :: v in ventas && v.id == id && resp.body == AsVentaResponse(v)
  {
    match GetById(ventas, id)
    case None => NotFound(VentaNoEncontrada)
    case Some(v) => Ok(AsVentaResponse(v))
  }

  /** The route looks the car up only for a truthy `auto_id`: sent and not 0. */
  predicate AutoIdChecked(patch: VentaUpdate)
  {
    patch.autoId.Some? && patch.autoId.value != 0
  }

  /** `PUT /ventas/{venta_id}`: a car id that is sent is looked up before the sale,
      so a missing car is answered 400 even for a sale id that is not stored. An
      `auto_id` of 0 skips that lookup; no car has key 0, so the commit breaks the
      FOREIGN KEY, nothing catches the error and the answer is 500 with the sale
      unchanged. */
  method UpdateVenta(db: Database, id: int, patch: VentaUpdate, now: int) returns (resp: Response<Venta>)
    requires db.Valid()
    modifies db
    ensures db.Valid()
    ensures db.autos == old(db.autos) && db.nextAutoId == old(db.nextAutoId) && db.nextVentaId == old(db.nextVentaId)
    ensures VentasValid(old(db.ventas)) ==> VentasValid(db.ventas)
    ensures !ValidVentaUpdate(patch, now) ==>
      resp == InvalidBody(ValidateVentaUpdate(patch, now).errors) && db.ventas == old(db.ventas)
    ensures ValidVentaUpdate(patch, now) && AutoIdChecked(patch) && patch.autoId.value !in Ids(old(db.autos)) ==>
      resp == BadRequest(AutoInexistente) && db.ventas == old(db.ventas)
    ensures (ValidVentaUpdate(patch, now) && !(AutoIdChecked(patch) && patch.autoId.value !in Ids(old(db.autos)))) ==>
      if id !in Ids(old(db.ventas)) then resp == NotFound(VentaNoEncontrada) && db.ventas == old(db.ventas)
      else if patch.autoId == Some(0) then resp == ServerError && db.ventas == old(db.ventas)
      else
        var k := IndexOf(old(db.ventas), id);
        var stored := Row(id, ApplyVentaPatch(old(db.ventas)[k].data, patch));
        && db.ventas == old(db.ventas)[k := stored]
        && resp == Ok(AsVentaResponse(stored))
  {
    var parsed := ValidateVentaUpdate(patch, now);
    if parsed.Rejected? {
      return InvalidBody(parsed.errors);
    }
    if AutoIdChecked(patch) {
      if GetById(db.autos, patch.autoId.value).None? {
        return BadRequest(AutoInexistente);
      }
    }
    ghost var before := db.ventas;
    ghost var k := IndexOf(before, id);
    KeyedIds(db.autos, db.nextAutoId);
    if k >= 0 {
      assert before[k] in before;
      if VentasValid(before) {
        VentaPatchKeepsValid(before[k].data, patch, now);
        ReplaceKeepsVentasValid(before, k, ApplyVentaPatch(before[k].data, patch));
      }
    }
    var r := db.UpdateVenta(id, patch);
    match r {
      case Committed(venta) => resp := Ok(AsVentaResponse(venta));
      case Missing => resp := NotFound(VentaNoEncontrada);
      case IntegrityError => resp := ServerError;
    }
  }

  lemma ReplaceKeepsVentasValid(ventas: seq<Venta>, k: nat, d: VentaData)
    requires k < |ventas| && VentasValid(ventas) && ValidVenta(d)
    ensures VentasValid(ventas[k := Row(ventas[k].id, d)])
  {
  }

  /** `DELETE /ventas/{venta_id}`. */
  method DeleteVenta(db: Database, id: int) returns (resp: Response<()>)
    requires db.Valid()
    modifies db
    ensures db.Valid()
    ensures db.autos == old(db.autos) && db.nextAutoId == old(db.nextAutoId) && db.nextVentaId == old(db.nextVentaId)
    ensures forall v :: v in db.ventas ==> v in old(db.ventas)
    ensures id !in Ids(old(db.ventas)) ==> resp == NotFound(VentaNoEncontrada) && db.ventas == old(db.ventas)
    ensures id in Ids(old(db.ventas)) ==>
      && resp == NoContent
      && db.ventas == RemoveAt(old(db.ventas), IndexOf(old(db.ventas), id))
      && Ids(db.ventas) == Ids(old(db.ventas)) - {id}
  {
    var r := db.DeleteVenta(id);
    if r.Missing? {
      return NotFound(VentaNoEncontrada);
    }
    resp := NoContent;
  }

  /** The body of `VentaResponseWithAuto`: a sale, as `VentaResponse` returns it, and
      the car it names, if stored. */
  datatype VentaWithAuto = VentaWithAuto(venta: Venta, auto: Option<Auto>)

  /** `GET /ventas/{venta_id}/with-auto`. */
  function GetVentaWithAuto(autos: seq<Auto>, ventas: seq<Venta>, id: int): (resp: Response<VentaWithAuto>)
    ensures resp.Ok? || resp == NotFound(VentaNoEncontrada)
    ensures resp.Ok? <==> id in Ids(ventas)
    ensures resp.Ok? ==> resp.body.venta.id == id
    ensures resp.Ok? ==> exists v :: v in ventas && v.id == id && resp.body.venta == AsVentaResponse(v)
    ensures resp.Ok? ==> (resp.body.auto.Some? <==> resp.body.venta.data.autoId in Ids(autos))
    ensures resp.Ok? && resp.body.auto.Some? ==>
      resp.body.auto.value in autos && resp.body.auto.value.id == resp.body.venta.data.autoId
  {
    match GetById(ventas, id)
    case None => NotFound(VentaNoEncontrada)
    case Some(v) => Ok(VentaWithAuto(AsVentaResponse(v), GetById(autos, v.data.autoId)))
  }

  /** Under the FOREIGN KEY every sale that is found comes with its car. */
  lemma SaleAlwaysHasItsCar(autos: seq<Auto>, ventas: seq<Venta>, id: int)
    requires SalesReferenceCars(autos, ventas)
    ensures GetVentaWithAuto(autos, ventas, id).Ok? ==> GetVentaWithAuto(autos, ventas, id).body.auto.Some?
  {
  }
}
