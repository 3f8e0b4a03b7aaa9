# Autos and ventas: a verified model of the CRUD service

This project models the core of a small REST service that keeps an inventory of
cars (`Auto`) and of their sales (`Venta`).

- **Validators.** Every request body runs through the field validators of
  `models.py`:
  - the year of a car lies between 1900 and the year the service started;
  - the chassis number is one or more of `A-Z a-z 0-9 -`;
  - the price of a sale is positive;
  - the buyer name is not blank;
  - the sale date is not in the future.

  No validator checks `marca` or `modelo`, so any string, the empty one
  included, is accepted (models.py:13-17).

  A create body stores the buyer name stripped of surrounding whitespace. An
  update body keeps it as sent.
- **Repositories.** The repositories of `repository.py` read and write the two
  tables of the database, which enforces two constraints at every commit:
  - a UNIQUE index on the chassis number;
  - a FOREIGN KEY from each sale to its car.
- **Routes.** The routes of `routes/autos.py` and `routes/ventas.py` check some
  of these conditions themselves before calling the repositories, and answer
  with status codes.

The model is written in Dafny in six modules:

| module | file | contents |
|---|---|---|
| `Text` | `text.dfy` | Python's `str.strip`, the substring scan behind `ILIKE '%…%'`, ASCII case folding |
| `Table` | `table.dfy` | rows with serial keys, `session.get`, `OFFSET/LIMIT`, `WHERE`, insertion and deletion of rows |
| `Models` | `models.dfy` | the records, every validator, whole-body validation, and the `setattr` loop of an update as a fold over the `dict(exclude_unset=True)` items |
| `Repository` | `repository.dfy` | the read queries as functions, and a `Database` class for the writes |
| `Http` | `http.dfy` | responses: status codes and the `detail` of each `HTTPException` |
| `AutoRoutes`, `VentaRoutes` | `autos_routes.dfy`, `ventas_routes.dfy` | one member per route |

The `Database` class holds both tables and their serial counters. Its methods
update them in place. Its invariant `Valid` is kept by every method and every
route:
- keys are ascending and were handed out by the counter;
- no two cars share a chassis;
- every sale names a stored car.

Each write method states its whole new state in terms of the old one. Only the
row that was written changes, and only in the fields the request supplied.

The routes also keep two further invariants:
- `AutosValid`: every stored car passes the create validators;
- `VentasValid`: every stored sale has a positive price and a non-blank buyer.

Facts about the service this model pins down:
- `PUT /autos/{id}` looks the chassis up before the car. A chassis of another
  car is answered 400 even for an id that is not stored.
- `PUT /ventas/{id}` looks the car up before the sale. A missing car is answered
  400 even for a sale id that is not stored.
- An `auto_id` of 0 is falsy, so `PUT /ventas/{id}` skips the car lookup. No car
  has key 0, so the commit breaks the FOREIGN KEY. `VentaRepository.update`
  does not catch the error, so the answer is 500 and the sale is unchanged.
- `GET /ventas/` filters by price when either price bound is given, even if
  date bounds are given too. Otherwise it filters by date when a date bound is
  given, and otherwise it returns the plain page.
- `DELETE /autos/{id}` is refused with 400 while any sale names the car. Without
  that check, `AutoRepository.delete` would fail: the session sets the sales'
  `auto_id` to NULL, which the NOT NULL column refuses at commit, and `delete`
  does not catch the error.
- Every sale a route returns goes through `VentaResponse`, whose validators run
  again. The buyer name therefore comes back stripped, even when an update
  stored it with its blanks. Cars come back unchanged: a stored car passes its
  validators as it is.
- Under the UNIQUE index, none of the 400 answers that carry a caught database
  error (`CommitRechazado`) can happen. The routes' own lookups already catch
  every duplicate chassis and every missing car.

Clock readings are parameters:
- `currentYear` is the year `models.py` reads once at import.
- `now` is the instant `fecha_no_futura` compares with.

## Model

| member | source | states |
|---|---|---|
| `Text.Strip` | models.py:88-90 | the stripped name is empty exactly when the name is all whitespace; otherwise it neither starts nor ends with whitespace and is the middle of the name with only whitespace cut off |
| `Text.StripNotBlank` | models.py:86-90 | a name that is not blank is still not blank once stripped |
| `Text.Contains` | repository.py:60-67 | the `LIKE '%sub%'` scan succeeds exactly when `sub` occurs at some position |
| `Text.ContainsIgnoreCase` | repository.py:112-114 | `ILIKE '%sub%'` holds exactly when the case-folded `sub` occurs in the case-folded column |
| `Text.ContainsIgnoreCaseSpec` | repository.py:112-114 | lowering the column or the pattern first does not change the `ILIKE` match |
| `Text.MatchUpToCase` | repository.py:112-114 | `ILIKE` succeeds whenever the column holds, at some position, a text equal to the pattern up to ASCII case |
| `Table.IndexOf` | repository.py:25-26 | a key has a position exactly when it is stored, and the row there carries it |
| `Table.GetById` | repository.py:25-26 | `session.get` finds a row exactly when the key is stored, and the row it finds has that key |
| `Table.KeyedIds` | models.py:32-33 | every stored key was handed out by the serial sequence, so it is at least 1 |
| `Table.Page` | repository.py:28-30 | `OFFSET skip LIMIT limit` is the contiguous slice from `skip`, of length `min(limit, n - skip)` |
| `Table.Select` | repository.py:108-110 | `WHERE` keeps exactly the rows that satisfy the condition |
| `Table.SelectAscending` | repository.py:60-67 | a filtered result keeps key order |
| `Table.SelectAll` | repository.py:28-30 | a condition every row meets selects the whole table |
| `Table.AppendKeyed` | repository.py:14-20 | an insert with the next serial key keeps keys ascending and adds exactly that key |
| `Table.RemoveAt` | repository.py:52-53 | deleting the row at a position shortens the table by one and shifts the later rows down, keeping the earlier ones |
| `Table.RemoveAtKeyed` | repository.py:48-54 | a delete removes exactly the row with that key and keeps the others in order |
| `Table.ReplaceDataKeyed` | repository.py:32-43 | overwriting the columns of a row keeps every key in place |
| `Models.AnioValido` | models.py:19-23 | the year validator passes exactly the years from 1900 to the current year, returning the year unchanged, and otherwise raises the year error |
| `Models.MatchesChasisPattern` | models.py:25-29 | the `fullmatch` of `[A-Za-z0-9\-]+` holds exactly when the chassis is non-empty and every character is in the class |
| `Models.ChasisAlfanumerico` | models.py:25-29 | the chassis validator passes exactly the chassis numbers the pattern accepts, returning the chassis unchanged, and otherwise raises the chassis error |
| `Models.PrecioPositivo` | models.py:80-84 | the price validator passes exactly the positive prices, unchanged, and otherwise raises the price error |
| `Models.FechaNoFutura` | models.py:92-96 | the date validator passes exactly the dates not after the clock reading, unchanged, and otherwise raises the date error |
| `Models.NombreNoVacio` | models.py:86-90 | the name validator fails exactly on blank names, and otherwise returns the stripped name |
| `Models.NombreNoVacioPatch` | models.py:122-126 | the update validator fails exactly on a sent blank name, and returns the name unstripped |
| `Models.IfSupplied` | models.py:49-63 | an update validator lets an absent field through and applies the create rule to a sent one |
| `Models.ValidateAutoCreate` | models.py:13-29 | a car body is accepted exactly when its year is in range and its chassis matches, and each reported error names a broken rule |
| `Models.ValidateAutoUpdate` | models.py:43-63 | a car patch is accepted exactly when every sent field obeys its rule, and each reported error names a broken rule |
| `Models.ValidateVentaCreate` | models.py:75-96 | a sale body is accepted exactly when its price is positive, its name is not blank and its date is not in the future; the accepted body carries the stripped name |
| `Models.VentaCreateErrors` | models.py:80-96 | a rejected sale body reports exactly the fields that broke a rule |
| `Models.ValidateVentaUpdate` | models.py:110-132 | a sale patch is accepted exactly when every sent field obeys its rule, and is returned as sent |
| `Models.AutoPatchLaws` | repository.py:32-38 | an empty patch changes nothing, a patch applied twice equals it applied once, a sent field takes the sent value whatever was stored, an absent field keeps the stored value |
| `Models.VentaPatchLaws` | repository.py:88-94 | the same four laws for a sale patch |
| `Models.AutoAssignmentsApplyPatch` | repository.py:36-38 | the `setattr` loop over the sent fields gives the car with exactly those fields replaced |
| `Models.VentaAssignmentsApplyPatch` | repository.py:92-94 | the `setattr` loop over the sent fields gives the sale with exactly those fields replaced |
| `Models.AutoPatchKeepsValid` | models.py:43-63 | a validated patch applied to a valid car gives a valid car |
| `Models.VentaPatchKeepsValid` | models.py:110-132 | a validated patch keeps a sale's price positive and its buyer name non-blank |
| `Models.AutoUpdateRulesMatchCreate` | models.py:43-63 | a patch sending every field is accepted exactly when the same create body is, and overwrites the car with that body |
| `Models.VentaUpdateRulesMatchCreate` | models.py:110-132 | a full sale patch is accepted exactly when the create body is; they differ only in the stripping of the name |
| `Models.NameStrippedOnCreateOnly` | models.py:86-126 | `"  Jane Doe  "` is stored as `"Jane Doe"` by a create, and kept with its blanks by an update |
| `Models.AnioBoundsInclusive` | models.py:19-23 | 1900 and the current year are both accepted; the years just outside are rejected |
| `Models.AsVentaResponse` | models.py:135-137 | a returned sale keeps its key, price, date and car, and carries the stored name stripped; a valid stored sale stays valid, and a name that was stored stripped comes back as stored |
| `Models.VentaResponsesMembers` | models.py:135-137 | a `List[VentaResponse]` holds the response of every sale of the list and nothing else |
| `Repository.AutoByChasis` | repository.py:56-58 | the lookup by chassis finds nothing exactly when no car has that exact chassis, and otherwise finds a car with it |
| `Repository.AutoByChasisFindsTheCar` | models.py:34 | under the UNIQUE index the lookup by chassis returns the one car that has it |
| `Repository.SearchAutos` | repository.py:60-67 | a search returns at most `limit` stored cars, each matching both given filters |
| `Repository.SearchAutosSpec` | repository.py:60-67 | a search result is in key order, and a first page large enough holds every matching car |
| `Repository.SearchWithoutFilters` | repository.py:60-67 | with neither filter given a search is the plain page |
| `Repository.VentasByAutoId` | repository.py:108-110 | the result holds exactly the sales that name the car |
| `Repository.VentasByComprador` | repository.py:112-114 | the result holds exactly the sales whose buyer contains the text, ignoring case |
| `Repository.VentasByDateRange` | repository.py:116-123 | at most `limit` sales, each within the given date bounds |
| `Repository.VentasByPriceRange` | repository.py:125-132 | at most `limit` sales, each within the given price bounds |
| `Repository.RangeFiltersComplete` | repository.py:116-132 | both bounds are inclusive and a missing bound leaves that end open: a large first page holds every sale in range |
| `Repository.Database.constructor` | database.py:22-23 | freshly created tables are empty, both serial sequences start at 1, and the invariant holds |
| `Repository.Database.CreateAuto` | repository.py:14-23 | a new chassis is appended with the next key; a stored chassis raises an integrity error with the table unchanged; the key is spent either way |
| `Repository.Database.UpdateAuto` | repository.py:32-46 | a stored car gets exactly the sent fields; a chassis of another car raises an integrity error with nothing changed; a missing id changes nothing |
| `Repository.Database.DeleteAuto` | repository.py:48-54 | a car no sale names is removed; a car with sales fails the commit (the session nulls the sales' `auto_id`, which is NOT NULL) and stays, with the error passed to the caller; a missing id changes nothing |
| `Repository.Database.CreateVenta` | repository.py:74-79 | a sale naming a stored car is appended with the next key; another car id raises an integrity error with the table unchanged |
| `Repository.Database.UpdateVenta` | repository.py:88-98 | a stored sale gets exactly the sent fields unless the new car id names no car, which raises an integrity error with nothing changed |
| `Repository.Database.DeleteVenta` | repository.py:100-106 | a stored sale is removed and only its key disappears; a missing id changes nothing |
| `Http.QueryBounds` | routes/autos.py:31-32 | the default paging is within bounds; `skip` must be non-negative and `limit` lie between 1 and 1000, both ends included |
| `AutoRoutes.ChasisOfAnotherIsTaken` | routes/autos.py:70-74 | the route's test "another car has this chassis" agrees with the UNIQUE index's test "a row at another position has it" |
| `AutoRoutes.CreateAuto` | routes/autos.py:12-25 | an invalid body is 422, a chassis already stored is 400 with nothing changed, otherwise 201 with the car appended; stored cars stay valid |
| `AutoRoutes.ListAutos` | routes/autos.py:29-42 | paging out of bounds is 422; otherwise at most `limit` stored cars, each matching the given filters |
| `AutoRoutes.ListAutosIsSearch` | routes/autos.py:39-42 | choosing between `search` and `get_all` makes no difference: the result is always the search |
| `AutoRoutes.GetByChasis` | routes/autos.py:46-52 | 200 exactly when some car has that chassis, with such a car; 404 otherwise |
| `AutoRoutes.GetAuto` | routes/autos.py:56-62 | 200 exactly when the id is stored, with that car; 404 otherwise |
| `AutoRoutes.UpdateAuto` | routes/autos.py:66-84 | invalid body 422; a chassis of another car 400 before the id is looked up; missing id 404; otherwise 200 with only the sent fields changed |
| `AutoRoutes.ChasisGuardComplete` | routes/autos.py:70-74 | under the UNIQUE index the route's chassis lookup catches every chassis of another car |
| `AutoRoutes.UpdateKeepsChasisUnique` | routes/autos.py:70-79 | once the lookup has passed, the commit cannot break the UNIQUE index |
| `AutoRoutes.DeleteAuto` | routes/autos.py:88-101 | missing id 404; a car that has sales 400 and kept; otherwise 204 with only that car removed |
| `AutoRoutes.GetAutoWithVentas` | routes/autos.py:105-115 | 200 exactly when the id is stored, with that car and exactly the sales that name it, each with its name stripped |
| `VentaRoutes.CreateVenta` | routes/ventas.py:22-35 | invalid body 422, missing car 400 with nothing changed, otherwise 201 with the sale (name stripped) appended and listed among the car's sales |
| `VentaRoutes.ListVentas` | routes/ventas.py:39-57 | paging out of bounds is 422; otherwise at most `limit` sales, each the response of a stored sale passing the filter that applies |
| `VentaRoutes.ListVentasIsFilteredPage` | routes/ventas.py:51-57 | the three branches are one query: the responses of the page of the sales in the price range if a price bound is given, else in the date range (with no bound, all) |
| `VentaRoutes.DatesIgnoredWhenPriced` | routes/ventas.py:51-55 | when a price bound is given the date bounds do not change the answer |
| `VentaRoutes.VentasPorAuto` | routes/ventas.py:62-65 | always 200, with the response of exactly the sales that name the car (none for an unknown car) |
| `VentaRoutes.VentasPorComprador` | routes/ventas.py:68-71 | always 200, with the response of exactly the sales whose stored buyer contains the text, ignoring case |
| `VentaRoutes.GetVenta` | routes/ventas.py:75-81 | 200 exactly when the id is stored, with the response of that sale; 404 otherwise |
| `VentaRoutes.UpdateVenta` | routes/ventas.py:85-100 | invalid body 422; a truthy car id naming no car 400 before the sale is looked up; missing sale 404; `auto_id` 0 500 with nothing changed; otherwise the sent fields are stored as sent and 200 answers the stored sale with its name stripped |
| `VentaRoutes.DeleteVenta` | routes/ventas.py:104-112 | missing id 404; otherwise 204 with only that sale removed |
| `VentaRoutes.GetVentaWithAuto` | routes/ventas.py:116-127 | 200 exactly when the id is stored, with the response of that sale and its car when the car is stored |
| `VentaRoutes.SaleAlwaysHasItsCar` | routes/ventas.py:116-127 | under the FOREIGN KEY every sale that is found comes with its car |

## Left out

- `database.py`, `main.py` and `create_tables.py` are not part of this model,
  beyond the empty tables `create_db_and_tables` leaves, which the `Database`
  constructor stands for:
  - the engine;
  - the session dependency;
  - application wiring.

  The session is the `Database` object handed to each route.
- HTTP itself is not modelled:
  - dispatch, including the order of `/chasis/{…}` and `/{id}`;
  - parsing of path and query strings, including a non-integer id answered 422;
  - pydantic's type coercion;
  - the encoding of a response body as JSON.
- Of the response models' validators, only the stripping of the buyer name is
  modelled. The others return a stored row unchanged, because every route keeps
  `AutosValid` and `VentasValid` and a stored date stays in the past. A stored
  row that failed them would be answered 500; the model does not represent that.
- A body field sent as an explicit `null` is treated like an absent field. In
  the service `dict(exclude_unset=True)` keeps it, and `setattr` then stores
  `None` into a NOT NULL column.
- The detail of a caught database error is the driver's message (`str(e)`).
  The model names the case (`CommitRechazado`) but not the text.
- `ILIKE` is modelled as a substring match after ASCII lower-casing. Two
  differences from the database:
  - `%`, `_` and `\` inside the filter text are taken literally, not as
    wildcards;
  - locale-dependent case folding is not modelled.
- Prices are real numbers. Float rounding, NaN and infinities are not modelled.
- Dates are integer timestamps. Time zones are not modelled.
- Requests run one at a time. Two requests racing between a route's lookup and
  its commit are not modelled.
- Query results are read in key order. The service's queries have no
  `ORDER BY`, so the database may return another order.
- The uncaught exception of a repository write that the routes already rule out
  is answered 500. This covers an integrity error in `AutoRepository.delete`,
  which no state satisfying `Valid` reaches.
- A field error is named by the rule it breaks; the message text is not
  modelled.
