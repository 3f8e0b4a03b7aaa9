/** The `/autos` routes. Each runs after its body and query parameters have been
    parsed, so a body that fails its validators or paging out of bounds is
    answered 422 before the handler looks at the database. `currentYear` is the
    year the service read from the clock when it started. */
module AutoRoutes {
  import opened Table
  import opened Models
  import opened Repository
  import opened Http

  /** Every stored car passes the validators its create body passed. */
  ghost predicate AutosValid(autos: seq<Auto>, currentYear: int)
  {
    forall a :: a in autos ==> ValidAuto(a.data, currentYear)
  }

  /** Another car than `id` already has chassis `c`. */
  ghost predicate ChasisOfAnother(autos: seq<Auto>, c: string, id: int)
  {
    exists a :: a in autos && a.data.numeroChasis == c && a.id != id
  }

  /** The route's lookup by key and the UNIQUE index's check by position agree:
      another car than `id` has chassis `c` exactly when a car at another position
      than `id`'s has it (every position, when `id` is not stored). */
  lemma ChasisOfAnotherIsTaken(autos: seq<Auto>, c: string, id: int)
    requires Ascending(autos)
    ensures ChasisTaken(autos, c, IndexOf(autos, id)) <==> ChasisOfAnother(autos, c, id)
  {
    var k := IndexOf(autos, id);
    if ChasisTaken(autos, c, k) {
      var i :| 0 <= i < |autos| && i != k && autos[i].data.numeroChasis == c;
      assert autos[i] in autos;
      if k >= 0 {
        assert autos[i].id != autos[k].id;
      } else {
        assert autos[i].id in Ids(autos);
      }
    }
    if ChasisOfAnother(autos, c, id) {
      var a :| a in autos && a.data.numeroChasis == c && a.id != id;
      var i :| 0 <= i < |autos| && autos[i] == a;
      assert i != k;
    }
  }

  /** `POST /autos/`: the chassis is looked up first and a duplicate answered 400;
      the database error of a failed insert is caught and answered 400 as well. */
  method CreateAuto(db: Database, body: AutoData, currentYear: int) returns (resp: Response<Auto>)
    requires db.Valid()
    modifies db
    ensures db.Valid()
    ensures db.ventas == old(db.ventas) && db.nextVentaId == old(db.nextVentaId)
    ensures AutosValid(old(db.autos), currentYear) ==> AutosValid(db.autos, currentYear)
    ensures !ValidAuto(body, currentYear) ==>
      resp == InvalidBody(ValidateAutoCreate(body, currentYear).errors) && unchanged(db)
    ensures ValidAuto(body, currentYear) && ChasisOfAnother(old(db.autos), body.numeroChasis, -1) ==>
      resp == BadRequest(ChasisYaExiste) && unchanged(db)
    ensures ValidAuto(body, currentYear) && !ChasisOfAnother(old(db.autos), body.numeroChasis, -1) ==>
      && resp == Created(Row(old(db.nextAutoId), body))
      && db.autos == old(db.autos) + [resp.body]
      && db.nextAutoId == old(db.nextAutoId) + 1
  {
    var parsed := ValidateAutoCreate(body, currentYear);
    if parsed.Rejected? {
      return InvalidBody(parsed.errors);
    }
    if AutoByChasis(db.autos, body.numeroChasis).Some? {
      return BadRequest(ChasisYaExiste);
    }
    var r := db.CreateAuto(parsed.value);
    match r {
      case Committed(auto) => resp := Created(auto);
      case Missing => assert false;  // an insert never misses a row
      case IntegrityError => resp := BadRequest(CommitRechazado);
    }
  }

  /** `GET /autos/`: a search when either text filter is given, the plain page otherwise. */
  function ListAutos(autos: seq<Auto>, skip: int, limit: int, marca: Option<string>, modelo: Option<string>): (resp: Response<seq<Auto>>)
    ensures resp.Ok? <==> QueryOk(skip, limit)
    ensures !resp.Ok? ==> resp == InvalidQuery
    ensures resp.Ok? ==> |resp.body| <= limit
    ensures resp.Ok? ==> forall a :: a in resp.body ==> a in autos && MatchesSearch(a.data, marca, modelo)
  {
    if !QueryOk(skip, limit) then InvalidQuery
    else if Given(marca) || Given(modelo) then Ok(SearchAutos(autos, marca, modelo, skip, limit))
    else
      Ok(Page(autos, skip, limit))
  }

  /** Choosing between `search` and `get_all` changes nothing: without a filter the
      search is the plain page. */
  lemma ListAutosIsSearch(autos: seq<Auto>, skip: int, limit: int, marca: Option<string>, modelo: Option<string>)
    requires QueryOk(skip, limit)
    ensures ListAutos(autos, skip, limit, marca, modelo) == Ok(SearchAutos(autos, marca, modelo, skip, limit))
  {
    if !(Given(marca) || Given(modelo)) {
      SearchWithoutFilters(autos, marca, modelo, skip, limit);
    }
  }

  /** `GET /autos/chasis/{numero_chasis}`. */
  function GetByChasis(autos: seq<Auto>, numeroChasis: string): (resp: Response<Auto>)
    ensures resp.Ok? || resp == NotFound(AutoNoEncontrado)
    ensures resp.Ok? <==> exists a :: a in autos && a.data.numeroChasis == numeroChasis
    ensures resp.Ok? ==> resp.body in autos && resp.body.data.numeroChasis == numeroChasis
  {
    match AutoByChasis(autos, numeroChasis)
    case None => NotFound(AutoNoEncontrado)
    case Some(a) => Ok(a)
  }

  /** `GET /autos/{auto_id}`. */
  function GetAuto(autos: seq<Auto>, id: int): (resp: Response<Auto>)
    ensures resp.Ok? || resp == NotFound(AutoNoEncontrado)
    ensures resp.Ok? <==> id in Ids(autos)
    ensures resp.Ok? ==> resp.body in autos && resp.body.id == id
  {
    match GetById(autos, id)
    case None => NotFound(AutoNoEncontrado)
    case Some(a) => Ok(a)
  }

  /** The body of `AutoResponseWithVentas`: a car and the sales that name it, each
      as `VentaResponse` returns it. */
  datatype AutoWithVentas = AutoWithVentas(auto: Auto, ventas: seq<Venta>)

  /** `GET /autos/{auto_id}/with-ventas`. */
  function GetAutoWithVentas(autos: seq<Auto>, ventas: seq<Venta>, id: int): (resp: Response<AutoWithVentas>)
    ensures resp.Ok? || resp == NotFound(AutoNoEncontrado)
    ensures resp.Ok? <==> id in Ids(autos)
    ensures resp.Ok? ==> resp.body.auto in autos && resp.body.auto.id == id
    ensures resp.Ok? ==> forall v :: v in ventas && v.data.autoId == id ==> AsVentaResponse(v) in resp.body.ventas
    ensures resp.Ok? ==> forall x :: x in resp.body.ventas ==>
      exists v :: v in ventas && v.data.autoId == id && x == AsVentaResponse(v)
  {
    match GetById(autos, id)
    case None => NotFound(AutoNoEncontrado)
    case Some(a) =>
      var sales := VentasByAutoId(ventas, id);
      VentaResponsesMembers(sales);
      Ok(AutoWithVentas(a, VentaResponses(sales)))
  }

  /** `PUT /autos/{auto_id}`: a chassis that is sent is looked up before the car
      itself, so a chassis of another car is answered 400 even for an id that is
      not stored. Each field sent replaces the stored one and nothing else changes. */
  method UpdateAuto(db: Database, id: int, patch: AutoUpdate, currentYear: int) returns (resp: Response<Auto>)
    requires db.Valid()
    modifies db
    ensures db.Valid()
    ensures db.ventas == old(db.ventas) && db.nextAutoId == old(db.nextAutoId) && db.nextVentaId == old(db.nextVentaId)
    ensures AutosValid(old(db.autos), currentYear) ==> AutosValid(db.autos, currentYear)
    ensures !ValidAutoUpdate(patch, currentYear) ==>
      resp == InvalidBody(ValidateAutoUpdate(patch, currentYear).errors) && db.autos == old(db.autos)
    ensures (ValidAutoUpdate(patch, currentYear) && patch.numeroChasis.Some?
      && ChasisOfAnother(old(db.autos), patch.numeroChasis.value, id)) ==>
      resp == BadRequest(ChasisYaExiste) && db.autos == old(db.autos)
    ensures (ValidAutoUpdate(patch, currentYear)
      && !(patch.numeroChasis.Some? && ChasisOfAnother(old(db.autos), patch.numeroChasis.value, id))) ==>
      if id !in Ids(old(db.autos)) then resp == NotFound(AutoNoEncontrado) && db.autos == old(db.autos)
      else
        var k := IndexOf(old(db.autos), id);
        && resp == Ok(Row(id, ApplyAutoPatch(old(db.autos)[k].data, patch)))
        && db.autos == old(db.autos)[k := resp.body]
  {
    var parsed := ValidateAutoUpdate(patch, currentYear);
    if parsed.Rejected? {
      return InvalidBody(parsed.errors);
    }
    if Given(patch.numeroChasis) {
      var existing := AutoByChasis(db.autos, patch.numeroChasis.value);
      if existing.Some? && existing.value.id != id {
        return BadRequest(ChasisYaExiste);
      }
      ChasisGuardComplete(db.autos, patch.numeroChasis.value, id);
    }
    ghost var before := db.autos;
    ghost var k := IndexOf(before, id);
    if k >= 0 {
      var updated := ApplyAutoPatch(before[k].data, patch);
      UpdateKeepsChasisUnique(before, k, updated, patch.numeroChasis);
      if AutosValid(before, currentYear) {
        AutoPatchKeepsValid(before[k].data, patch, currentYear);
        ReplaceKeepsAutosValid(before, k, updated, currentYear);
      }
    }
    var r := db.UpdateAuto(id, patch);
    match r {
      case Committed(auto) => resp := Ok(auto);
      case Missing => resp := NotFound(AutoNoEncontrado);
      case IntegrityError => resp := BadRequest(CommitRechazado);
    }
  }

  lemma ReplaceKeepsAutosValid(autos: seq<Auto>, k: nat, d: AutoData, currentYear: int)
    requires k < |autos| && AutosValid(autos, currentYear) && ValidAuto(d, currentYear)
    ensures AutosValid(autos[k := Row(autos[k].id, d)], currentYear)
  {
  }

  /** Under the UNIQUE index, the lookup the update route makes finds every chassis
      that belongs to another car. */
  lemma ChasisGuardComplete(autos: seq<Auto>, c: string, id: int)
    requires ChasisUnique(autos)
    requires var existing := AutoByChasis(autos, c); !(existing.Some? && existing.value.id != id)
    ensures !ChasisOfAnother(autos, c, id)
  {
    forall a | a in autos && a.data.numeroChasis == c
      ensures a.id == id
    {
      AutoByChasisFindsTheCar(autos, a);
    }
  }

  /** The row at `k` keeps its chassis unless a new one is sent, and a new one no
      other car has cannot collide at commit. */
  lemma UpdateKeepsChasisUnique(autos: seq<Auto>, k: nat, d: AutoData, sent: Option<string>)
    requires ChasisUnique(autos) && Ascending(autos) && k < |autos|
    requires sent.None? ==> d.numeroChasis == autos[k].data.numeroChasis
    requires sent.Some? ==> d.numeroChasis == sent.value && !ChasisOfAnother(autos, sent.value, autos[k].id)
    ensures !ChasisTaken(autos, d.numeroChasis, k)
  {
    forall i | 0 <= i < |autos| && i != k
      ensures autos[i].data.numeroChasis != d.numeroChasis
    {
      if sent.None? {
        if i < k {
          assert autos[i].data.numeroChasis != autos[k].data.numeroChasis;
        } else {
          assert autos[k].data.numeroChasis != autos[i].data.numeroChasis;
        }
      } else {
        if i < k {
          assert autos[i].id < autos[k].id;
        } else {
          assert autos[k].id < autos[i].id;
        }
        assert autos[i] in autos;
      }
    }
  }

  /** `DELETE /autos/{auto_id}`: a car with sales is answered 400 and kept. */
  method DeleteAuto(db: Database, id: int) returns (resp: Response<()>)
    requires db.Valid()
    modifies db
    ensures db.Valid()
    ensures db.ventas == old(db.ventas) && db.nextAutoId == old(db.nextAutoId) && db.nextVentaId == old(db.nextVentaId)
    ensures forall a :: a in db.autos ==> a in old(db.autos)
    ensures id !in Ids(old(db.autos)) ==> resp == NotFound(AutoNoEncontrado) && unchanged(db)
    ensures id in Ids(old(db.autos)) && VentasByAutoId(old(db.ventas), id) != [] ==>
      resp == BadRequest(AutoConVentas) && unchanged(db)
    ensures id in Ids(old(db.autos)) && VentasByAutoId(old(db.ventas), id) == [] ==>
      && resp == NoContent
      && db.autos == RemoveAt(old(db.autos), IndexOf(old(db.autos), id))
      && Ids(db.autos) == Ids(old(db.autos)) - {id}
  {
    var auto := GetById(db.autos, id);
    if auto.None? {
      return NotFound(AutoNoEncontrado);
    }
    if VentasByAutoId(db.ventas, id) != [] {
      return BadRequest(AutoConVentas);
    }
    var r := db.DeleteAuto(id);
    if r.IntegrityError? {
      return ServerError;
    }
    resp := NoContent;
  }
}
