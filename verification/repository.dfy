/** `AutoRepository` and `VentaRepository` over one store that stands for the
    database session. The reads are selections and pages over the current
    tables. The writes are methods of `Database`; each commit enforces the two
    constraints of the schema, the UNIQUE index on `numero_chasis` and the
    FOREIGN KEY from `venta.auto_id` to `auto.id`. A commit that would break
    one raises an integrity error, and the rollback leaves both tables as they
    were. */
module Repository {
  import opened Table
  import opened Text
  import opened Models

  /** How a write ends: committed, `None`/`False` for a key that is not there,
      or the `IntegrityError` a violated constraint raises. */
  datatype Commit<T> = Committed(value: T) | Missing | IntegrityError

  /** The UNIQUE constraint on `auto.numero_chasis`. */
  ghost predicate ChasisUnique(autos: seq<Auto>)
  {
    forall i, j :: 0 <= i < j < |autos| ==> autos[i].data.numeroChasis != autos[j].data.numeroChasis
  }

  /** The FOREIGN KEY constraint: every sale names a stored car. */
  ghost predicate SalesReferenceCars(autos: seq<Auto>, ventas: seq<Venta>)
  {
    forall v :: v in ventas ==> v.data.autoId in Ids(autos)
  }

  /** Some car other than the one at position `except` has chassis `c`. */
  predicate ChasisTaken(autos: seq<Auto>, c: string, except: int)
  {
    exists i :: 0 <= i < |autos| && i != except && autos[i].data.numeroChasis == c
  }

  /** Appending a car whose chassis no car has keeps the UNIQUE index. */
  lemma AppendKeepsChasisUnique(autos: seq<Auto>, row: Auto)
    requires ChasisUnique(autos) && !ChasisTaken(autos, row.data.numeroChasis, -1)
    ensures ChasisUnique(autos + [row])
  {
  }

  /** Overwriting a car with a chassis no other car has keeps the UNIQUE index. */
  lemma ReplaceKeepsChasisUnique(autos: seq<Auto>, k: nat, d: AutoData)
    requires ChasisUnique(autos) && k < |autos| && !ChasisTaken(autos, d.numeroChasis, k)
    ensures ChasisUnique(autos[k := Row(autos[k].id, d)])
  {
  }

  // ---------- reads ----------

  /** `AutoRepository.get_by_chasis`: the first car whose chassis is exactly `c`. */
  function AutoByChasis(autos: seq<Auto>, c: string): (r: Option<Auto>)
    ensures r.None? <==> forall a :: a in autos ==> a.data.numeroChasis != c
    ensures r.Some? ==> r.value in autos && r.value.data.numeroChasis == c
  {
    var found := Select(autos, (a: Auto) => a.data.numeroChasis == c);
    if found == [] then None
    else
      assert found[0] in found;
      Some(found[0])
  }

  /** Under the UNIQUE constraint the lookup by chassis finds the one car that has it. */
  lemma AutoByChasisFindsTheCar(autos: seq<Auto>, a: Auto)
    requires ChasisUnique(autos) && a in autos
    ensures AutoByChasis(autos, a.data.numeroChasis) == Some(a)
  {
    var r := AutoByChasis(autos, a.data.numeroChasis).value;
    var i :| 0 <= i < |autos| && autos[i] == a;
    var j :| 0 <= j < |autos| && autos[j] == r;
    if i < j {
      assert autos[i].data.numeroChasis != autos[j].data.numeroChasis;
    } else if j < i {
      assert autos[j].data.numeroChasis != autos[i].data.numeroChasis;
    }
  }

  /** An optional text filter is applied when it is truthy: present and non-empty. */
  predicate Given(f: Option<string>)
  {
    f.Some? && f.value != []
  }

  /** The `WHERE` clauses of `search`: `ILIKE '%marca%'` and `ILIKE '%modelo%'`,
      each only when its filter is given. */
  predicate MatchesSearch(a: AutoData, marca: Option<string>, modelo: Option<string>)
  {
    && (Given(marca) ==> ContainsIgnoreCase(a.marca, marca.value))
    && (Given(modelo) ==> ContainsIgnoreCase(a.modelo, modelo.value))
  }

  /** `AutoRepository.search`: a page of the cars matching both filters. */
  function SearchAutos(autos: seq<Auto>, marca: Option<string>, modelo: Option<string>, skip: nat, limit: nat): (r: seq<Auto>)
    ensures |r| <= limit
    ensures forall a :: a in r ==> a in autos && MatchesSearch(a.data, marca, modelo)
  {
    Page(Select(autos, (a: Auto) => MatchesSearch(a.data, marca, modelo)), skip, limit)
  }

  /** A page of a search is read in key order, and a page from the start that is
      large enough holds every matching car. */
  lemma SearchAutosSpec(autos: seq<Auto>, marca: Option<string>, modelo: Option<string>, skip: nat, limit: nat)
    requires Ascending(autos)
    ensures Ascending(SearchAutos(autos, marca, modelo, skip, limit))
    ensures skip == 0 && limit >= |autos| ==>
      forall a :: a in SearchAutos(autos, marca, modelo, skip, limit) <==> a in autos && MatchesSearch(a.data, marca, modelo)
  {
    var keep := (a: Auto) => MatchesSearch(a.data, marca, modelo);
    var selected := Select(autos, keep);
    SelectAscending(autos, keep);
    if skip == 0 && limit >= |autos| {
      assert Page(selected, skip, limit) == selected;
    }
  }

  /** With neither filter given, a search is the plain page `get_all` returns. */
  lemma {:induction false} SearchWithoutFilters(autos: seq<Auto>, marca: Option<string>, modelo: Option<string>, skip: nat, limit: nat)
    requires !Given(marca) && !Given(modelo)
    ensures SearchAutos(autos, marca, modelo, skip, limit) == Page(autos, skip, limit)
  {
    SelectAll(autos, (a: Auto) => MatchesSearch(a.data, marca, modelo));
  }

  /** `VentaRepository.get_by_auto_id`: every sale of one car. */
  function VentasByAutoId(ventas: seq<Venta>, autoId: int): (r: seq<Venta>)
    ensures forall v :: v in r <==> v in ventas && v.data.autoId == autoId
  {
    Select(ventas, (v: Venta) => v.data.autoId == autoId)
  }

  /** `VentaRepository.get_by_comprador`: every sale whose buyer name contains `nombre`, ignoring case. */
  function VentasByComprador(ventas: seq<Venta>, nombre: string): (r: seq<Venta>)
    ensures forall v :: v in r <==> v in ventas && ContainsIgnoreCase(v.data.nombreComprador, nombre)
  {
    Select(ventas, (v: Venta) => ContainsIgnoreCase(v.data.nombreComprador, nombre))
  }

  /** `start <= fecha <= end` for whichever bounds are given. */
  predicate InDateRange(fecha: int, start: Option<int>, end: Option<int>)
  {
    (start.Some? ==> start.value <= fecha) && (end.Some? ==> fecha <= end.value)
  }

  predicate InPriceRange(precio: real, min: Option<real>, max: Option<real>)
  {
    (min.Some? ==> min.value <= precio) && (max.Some? ==> precio <= max.value)
  }

  /** `VentaRepository.filter_by_date_range`. */
  function VentasByDateRange(ventas: seq<Venta>, start: Option<int>, end: Option<int>, skip: nat, limit: nat): (r: seq<Venta>)
    ensures |r| <= limit
    ensures forall v :: v in r ==> v in ventas && InDateRange(v.data.fechaVenta, start, end)
  {
    Page(Select(ventas, (v: Venta) => InDateRange(v.data.fechaVenta, start, end)), skip, limit)
  }

  /** `VentaRepository.filter_by_price_range`. */
  function VentasByPriceRange(ventas: seq<Venta>, min: Option<real>, max: Option<real>, skip: nat, limit: nat): (r: seq<Venta>)
    ensures |r| <= limit
    ensures forall v :: v in r ==> v in ventas && InPriceRange(v.data.precio, min, max)
  {
    Page(Select(ventas, (v: Venta) => InPriceRange(v.data.precio, min, max)), skip, limit)
  }

  /** The bounds are inclusive, and a missing bound leaves that end open: a first
      page large enough holds every sale in range. */
  lemma RangeFiltersComplete(ventas: seq<Venta>, start: Option<int>, end: Option<int>, min: Option<real>, max: Option<real>, limit: nat)
    requires limit >= |ventas|
    ensures forall v :: v in VentasByDateRange(ventas, start, end, 0, limit) <==> v in ventas && InDateRange(v.data.fechaVenta, start, end)
    ensures forall v :: v in VentasByPriceRange(ventas, min, max, 0, limit) <==> v in ventas && InPriceRange(v.data.precio, min, max)
  {
    var byDate := Select(ventas, (v: Venta) => InDateRange(v.data.fechaVenta, start, end));
    var byPrice := Select(ventas, (v: Venta) => InPriceRange(v.data.precio, min, max));
    assert Page(byDate, 0, limit) == byDate;
    assert Page(byPrice, 0, limit) == byPrice;
  }

  // ---------- writes ----------

  /** The database: both tables, read in key order, and the two serial sequences
      that hand out keys. */
  class Database {
    var autos: seq<Auto>
    var ventas: seq<Venta>
    var nextAutoId: int
    var nextVentaId: int

    /** What the schema guarantees between commits. */
    ghost predicate Valid()
      reads this
    {
      && nextAutoId >= 1 && nextVentaId >= 1
      && Keyed(autos, nextAutoId) && Keyed(ventas, nextVentaId)
      && ChasisUnique(autos)
      && SalesReferenceCars(autos, ventas)
    }

    constructor ()
      ensures Valid()
      ensures autos == [] && ventas == [] && nextAutoId == 1 && nextVentaId == 1
    {
      autos, ventas := [], [];
      nextAutoId, nextVentaId := 1, 1;
    }

    /** `AutoRepository.create`: insert with the next serial key. A chassis that is
        already stored violates the UNIQUE index and nothing is inserted, though the
        serial value is spent all the same. */
    method CreateAuto(data: AutoData) returns (r: Commit<Auto>)
      requires Valid()
      modifies this
      ensures Valid()
      ensures ventas == old(ventas) && nextVentaId == old(nextVentaId)
      ensures nextAutoId == old(nextAutoId) + 1
      ensures ChasisTaken(old(autos), data.numeroChasis, -1) ==> r == IntegrityError && autos == old(autos)
      ensures !ChasisTaken(old(autos), data.numeroChasis, -1) ==>
        r == Committed(Row(old(nextAutoId), data)) && autos == old(autos) + [r.value]
    {
      var row := Row(nextAutoId, data);
      nextAutoId := nextAutoId + 1;
      if ChasisTaken(autos, data.numeroChasis, -1) {
        return IntegrityError;
      }
      AppendKeyed(autos, row.id, row);
      AppendKeepsChasisUnique(autos, row);
      autos := autos + [row];
      r := Committed(row);
    }

    /** `AutoRepository.update`: `setattr` each supplied field on the stored car,
        then commit; the UNIQUE index rejects a chassis another car has. */
    method UpdateAuto(id: int, patch: AutoUpdate) returns (r: Commit<Auto>)
      requires Valid()
      modifies this
      ensures Valid()
      ensures ventas == old(ventas) && nextAutoId == old(nextAutoId) && nextVentaId == old(nextVentaId)
      ensures id !in Ids(old(autos)) ==> r == Missing && autos == old(autos)
      ensures id in Ids(old(autos)) ==>
        var k := IndexOf(old(autos), id);
        var row := Row(id, ApplyAutoPatch(old(autos)[k].data, patch));
        if ChasisTaken(old(autos), row.data.numeroChasis, k) then r == IntegrityError && autos == old(autos)
        else r == Committed(row) && autos == old(autos)[k := row]
    {
      var k := IndexOf(autos, id);
      if k < 0 {
        return Missing;
      }
      var stored := autos[k].data;
      var data := stored;
      var assignments := AutoAssignments(patch);
      var i := 0;
      while i < |assignments|
        invariant 0 <= i <= |assignments|
        invariant data == SetAutoAttrs(stored, assignments[..i])
      {
        assert assignments[..i + 1][..i] == assignments[..i];
        data := SetAutoAttr(data, assignments[i]);
        i := i + 1;
      }
      assert assignments[..i] == assignments;
      AutoAssignmentsApplyPatch(stored, patch);
      if ChasisTaken(autos, data.numeroChasis, k) {
        return IntegrityError;
      }
      ReplaceDataKeyed(autos, nextAutoId, k, data);
      ReplaceKeepsChasisUnique(autos, k, data);
      autos := autos[k := Row(id, data)];
      r := Committed(Row(id, data));
    }

    /** `AutoRepository.delete`. When the car still has sales, the session first sets
        their `auto_id` to NULL (the relationship does not cascade deletes), the NOT
        NULL column makes the commit fail, and the error leaves `delete` uncaught:
        nothing is written, and the caller receives the error. */
    method DeleteAuto(id: int) returns (r: Commit<()>)
      requires Valid()
      modifies this
      ensures Valid()
      ensures ventas == old(ventas) && nextAutoId == old(nextAutoId) && nextVentaId == old(nextVentaId)
      ensures id !in Ids(old(autos)) ==> r == Missing && autos == old(autos)
      ensures id in Ids(old(autos)) && VentasByAutoId(old(ventas), id) != [] ==> r == IntegrityError && autos == old(autos)
      ensures id in Ids(old(autos)) && VentasByAutoId(old(ventas), id) == [] ==>
        && r == Committed(())
        && autos == RemoveAt(old(autos), IndexOf(old(autos), id))
        && Ids(autos) == Ids(old(autos)) - {id}
    {
      var k := IndexOf(autos, id);
      if k < 0 {
        return Missing;
      }
      if VentasByAutoId(ventas, id) != [] {
        return IntegrityError;
      }
      RemoveAtKeyed(autos, nextAutoId, k);
      autos := RemoveAt(autos, k);
      r := Committed(());
    }

    /** `VentaRepository.create`: insert with the next serial key. A car id that
        names no car violates the FOREIGN KEY and nothing is inserted. */
    method CreateVenta(data: VentaData) returns (r: Commit<Venta>)
      requires Valid()
      modifies this
      ensures Valid()
      ensures autos == old(autos) && nextAutoId == old(nextAutoId)
      ensures nextVentaId == old(nextVentaId) + 1
      ensures data.autoId !in Ids(old(autos)) ==> r == IntegrityError && ventas == old(ventas)
      ensures data.autoId in Ids(old(autos)) ==>
        r == Committed(Row(old(nextVentaId), data)) && ventas == old(ventas) + [r.value]
    {
      var row := Row(nextVentaId, data);
      nextVentaId := nextVentaId + 1;
      if GetById(autos, data.autoId).None? {
        return IntegrityError;
      }
      AppendKeyed(ventas, row.id, row);
      ventas := ventas + [row];
      r := Committed(row);
    }

    /** `VentaRepository.update`: `setattr` each supplied field on the stored sale,
        then commit; the FOREIGN KEY rejects a car id that names no car. */
    method UpdateVenta(id: int, patch: VentaUpdate) returns (r: Commit<Venta>)
      requires Valid()
      modifies this
      ensures Valid()
      ensures autos == old(autos) && nextAutoId == old(nextAutoId) && nextVentaId == old(nextVentaId)
      ensures id !in Ids(old(ventas)) ==> r == Missing && ventas == old(ventas)
      ensures id in Ids(old(ventas)) ==>
        var k := IndexOf(old(ventas), id);
        var row := Row(id, ApplyVentaPatch(old(ventas)[k].data, patch));
        if row.data.autoId !in Ids(autos) then r == IntegrityError && ventas == old(ventas)
        else r == Committed(row) && ventas == old(ventas)[k := row]
    {
      var k := IndexOf(ventas, id);
      if k < 0 {
        return Missing;
      }
      var stored := ventas[k].data;
      var data := stored;
      var assignments := VentaAssignments(patch);
      var i := 0;
      while i < |assignments|
        invariant 0 <= i <= |assignments|
        invariant data == SetVentaAttrs(stored, assignments[..i])
      {
        assert assignments[..i + 1][..i] == assignments[..i];
        data := SetVentaAttr(data, assignments[i]);
        i := i + 1;
      }
      assert assignments[..i] == assignments;
      VentaAssignmentsApplyPatch(stored, patch);
      if GetById(autos, data.autoId).None? {
        return IntegrityError;
      }
      ReplaceDataKeyed(ventas, nextVentaId, k, data);
      ventas := ventas[k := Row(id, data)];
      r := Committed(Row(id, data));
    }

    /** `VentaRepository.delete`: nothing references a sale, so only a missing key fails. */
    method DeleteVenta(id: int) returns (r: Commit<()>)
      requires Valid()
      modifies this
      ensures Valid()
      ensures autos == old(autos) && nextAutoId == old(nextAutoId) && nextVentaId == old(nextVentaId)
      ensures id !in Ids(old(ventas)) ==> r == Missing && ventas == old(ventas)
      ensures id in Ids(old(ventas)) ==>
        && r == Committed(())
        && ventas == RemoveAt(old(ventas), IndexOf(old(ventas), id))
        && Ids(ventas) == Ids(old(ventas)) - {id}
    {
      var k := IndexOf(ventas, id);
      if k < 0 {
        return Missing;
      }
      RemoveAtKeyed(ventas, nextVentaId, k);
      ventas := RemoveAt(ventas, k);
      r := Committed(());
    }
  }
}
