/** What a route answers: a status code with either a body or the `detail` of
    the `HTTPException` it raised. Shared by the car and the sale routes. */
module Http {
  import opened Models

  /** The `detail` of each `HTTPException` the routes raise. */
  datatype Detail =
    | ChasisYaExiste      // 400 on create and update of a car
    | AutoConVentas       // 400 on delete of a car that has sales
    | AutoInexistente     // 400 when a sale names a car that is not stored
    | AutoNoEncontrado    // 404 for a car id or chassis
    | VentaNoEncontrada   // 404 for a sale id
    | CommitRechazado     // 400 carrying the text of a caught database error

  datatype Response<T> =
    | Ok(body: T)                            // 200
    | Created(body: T)                       // 201
    | NoContent                              // 204
    | BadRequest(detail: Detail)             // 400
    | NotFound(detail: Detail)               // 404
    | InvalidBody(errors: seq<FieldError>)   // 422: the body failed its validators
    | InvalidQuery                           // 422: `skip` or `limit` out of bounds
    | ServerError                            // 500: an exception no handler caught

  const DefaultLimit: int := 100
  const MaxLimit: int := 1000

  /** The bounds `Query(0, ge=0)` and `Query(100, ge=1, le=1000)` put on paging. */
  predicate QueryOk(skip: int, limit: int)
  {
    skip >= 0 && 1 <= limit <= MaxLimit
  }

  /** The defaults are within bounds, both ends of the `limit` range are inclusive,
      and a negative `skip` or a `limit` just outside the range is refused. */
  lemma QueryBounds(skip: int, limit: int)
    ensures QueryOk(0, DefaultLimit)
    ensures QueryOk(skip, limit) ==> 0 <= skip && 0 < limit
    ensures skip >= 0 ==> QueryOk(skip, 1) && QueryOk(skip, MaxLimit)
    ensures !QueryOk(-1, limit) && !QueryOk(skip, 0) && !QueryOk(skip, MaxLimit + 1)
  {
  }
}
