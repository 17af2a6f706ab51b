/**
 * The monolithic backend: one module whose route handlers validate the body
 * themselves, talk to the links table directly and catch every error inline.
 * Inside create, a unique violation from the insert becomes 409; every other
 * error, in any route, becomes a bare 500.
 */
module Server {
  import opened Wrappers
  import opened LinkModel
  import opened Schema
  import opened Http

  /** The table after a request, and the response sent. */
  datatype Served = Served(table: Table, response: Response)

  /** The inline `catch (dbError)` of create: 23505 is answered 409, anything else is rethrown to the 500 catch. */
  function InsertCatch(err: DbError): (r: Response)
    ensures r == CodeTaken <==> err.code == UniqueViolationCode
    ensures r != CodeTaken ==> r == InternalError
  {
    if err.code == UniqueViolationCode then CodeTaken else InternalError
  }

  /**
   * `POST /api/links`: validate, then store. `connectFails` stands for
   * `pool.connect()` rejecting; `insertFailure` for the INSERT failing for a reason
   * other than the table's own constraints.
   */
  function CreateResult(t: Table, body: Body, isUri: string -> bool, generated: string, baseUrl: Option<string>,
                        now: nat, connectFails: bool, insertFailure: Option<DbError>): Served
  {
    match Validate(body, isUri)
    case Failure(e) => Served(t, Json(400, InvalidBody(e)))
    case Success(req) => StoreRequest(t, req, generated, baseUrl, now, connectFails, insertFailure)
  }

  /** The part of create after validation: choose the code, connect, insert, answer. */
  function StoreRequest(t: Table, req: CreateRequest, generated: string, baseUrl: Option<string>,
                        now: nat, connectFails: bool, insertFailure: Option<DbError>): (s: Served)
    ensures s.response == CodeTaken || s.response == InternalError || (s.response.Json? && s.response.status == 201)
  {
    if connectFails then Served(t, InternalError)
    else
      var e := Insert(t, ChooseCode(req, generated), req.originalUrl, now, insertFailure);
      match e.result
      case Failure(err) => Served(e.table, InsertCatch(err))
      case Success(row) => Served(e.table, Json(201, Created(CreatedBody(row, baseUrl))))
  }

  /** `GET /api/links/:code`; `failure` stands for the connection or the SELECT failing. */
  function StatsResult(t: Table, code: string, failure: Option<DbError>): (r: Response)
    ensures failure.Some? ==> r == InternalError
    ensures failure.None? && code !in t ==> r == LinkNotFound
    ensures failure.None? && code in t ==> r == Json(200, Stats(Project(t[code])))
  {
    match Select(t, code, failure)
    case Failure(_) => InternalError
    case Success(None) => LinkNotFound
    case Success(Some(row)) => Json(200, Stats(Project(row)))
  }

  /** `DELETE /api/links/:code`. */
  function DeleteResult(t: Table, code: string, failure: Option<DbError>): Served
  {
    var e := Delete(t, code, failure);
    match e.result
    case Failure(_) => Served(e.table, InternalError)
    case Success(None) => Served(e.table, LinkNotFound)
    case Success(Some(_)) => Served(e.table, Empty(204))
  }

  /** `GET /:code`. */
  function RedirectResult(t: Table, code: string, now: nat, failure: Option<DbError>): Served
  {
    var e := Update(t, code, now, failure);
    match e.result
    case Failure(_) => Served(e.table, InternalError)
    case Success(None) => Served(e.table, LinkNotFound)
    case Success(Some(url)) => Served(e.table, Redirect(302, url))
  }

  method HandleCreate(table: LinkTable, body: Body, isUri: string -> bool, generated: string, baseUrl: Option<string>,
                      now: nat, connectFails: bool, insertFailure: Option<DbError>) returns (r: Response)
    requires table.Valid()
    modifies table
    ensures table.Valid()
    ensures Served(table.rows, r) == CreateResult(old(table.rows), body, isUri, generated, baseUrl, now, connectFails, insertFailure)
  {
    var v := Validate(body, isUri);
    if v.Failure? {
      return Json(400, InvalidBody(v.error));
    }
    if connectFails {
      return InternalError;
    }
    var link := table.Create(ChooseCode(v.value, generated), v.value.originalUrl, now, insertFailure);
    if link.Failure? {
      return InsertCatch(link.error);
    }
    r := Json(201, Created(CreatedBody(link.value, baseUrl)));
  }

  /** `GET /api/links`: 200 with every row, newest first, or a bare 500. */
  method HandleList(table: LinkTable, failure: Option<DbError>) returns (r: Response)
    requires table.Valid()
    ensures failure.Some? ==> r == InternalError
    ensures failure.None? ==> r.Json? && r.status == 200 && r.payload.List? && IsJsonListing(table.rows, r.payload.links)
  {
    var links := table.FindAll(failure);
    if links.Failure? {
      return InternalError;
    }
    r := Json(200, List(Projected(links.value)));
  }

  method HandleStats(table: LinkTable, code: string, failure: Option<DbError>) returns (r: Response)
    ensures r == StatsResult(table.rows, code, failure)
  {
    var link := table.FindByCode(code, failure);
    if link.Failure? {
      return InternalError;
    }
    if link.value.None? {
      return LinkNotFound;
    }
    r := Json(200, Stats(Project(link.value.value)));
  }

  method HandleDelete(table: LinkTable, code: string, failure: Option<DbError>) returns (r: Response)
    requires table.Valid()
    modifies table
    ensures table.Valid()
    ensures Served(table.rows, r) == DeleteResult(old(table.rows), code, failure)
  {
    var deleted := table.DeleteByCode(code, failure);
    if deleted.Failure? {
      return InternalError;
    }
    if deleted.value.None? {
      return LinkNotFound;
    }
    r := Empty(204);
  }

  method HandleRedirect(table: LinkTable, code: string, now: nat, failure: Option<DbError>) returns (r: Response)
    requires table.Valid()
    modifies table
    ensures table.Valid()
    ensures Served(table.rows, r) == RedirectResult(old(table.rows), code, now, failure)
  {
    var url := table.IncrementClick(code, now, failure);
    if url.Failure? {
      return InternalError;
    }
    if url.value.None? {
      return LinkNotFound;
    }
    r := Redirect(302, url.value.value);
  }

  /** Create answers 400 exactly when the schema refuses the body, and then changes nothing. */
  lemma CreateRejects(t: Table, body: Body, isUri: string -> bool, generated: string, baseUrl: Option<string>,
                      now: nat, connectFails: bool, insertFailure: Option<DbError>)
    ensures var s := CreateResult(t, body, isUri, generated, baseUrl, now, connectFails, insertFailure);
      (s.response.Json? && s.response.status == 400 <==> !Acceptable(body, isUri)) &&
      (!Acceptable(body, isUri) ==> s.table == t)
  {
  }

  /**
   * After validation, the table changes only when the answer is 201, and then
   * exactly the new row is added under the chosen code, with zero clicks, and the
   * answer carries its short URL. Every other answer is 409 or 500.
   */
  lemma StoreInserts(t: Table, req: CreateRequest, generated: string, baseUrl: Option<string>,
                     now: nat, connectFails: bool, insertFailure: Option<DbError>)
    requires |ChooseCode(req, generated)| <= MaxCodeLength
    ensures var s := StoreRequest(t, req, generated, baseUrl, now, connectFails, insertFailure);
      var code := ChooseCode(req, generated);
      (s.response.Json? && s.response.status == 201 <==> s.table != t) &&
      (s.table == t ==> s.response == CodeTaken || s.response == InternalError) &&
      (s.table != t ==>
        code !in t && s.table == t[code := NewRow(code, req.originalUrl, now)] &&
        s.response == Json(201, Created(CreatedJson(code, req.originalUrl, ShortUrl(baseUrl, code), 0, now))))
  {
    if !connectFails {
      var code := ChooseCode(req, generated);
      var e := Insert(t, code, req.originalUrl, now, insertFailure);
      InsertSemantics(t, code, req.originalUrl, now, insertFailure, e);
      if e.result.Success? {
        assert code in e.table && code !in t;
      }
    }
  }

  /**
   * A valid body whose chosen code is taken is answered 409, whether the code was
   * custom or generated, and nothing is inserted.
   */
  lemma CreateTakenCode(t: Table, body: Body, isUri: string -> bool, generated: string, baseUrl: Option<string>, now: nat)
    requires Acceptable(body, isUri)
    requires ChooseCode(Validate(body, isUri).value, generated) in t
    requires |ChooseCode(Validate(body, isUri).value, generated)| <= MaxCodeLength
    ensures CreateResult(t, body, isUri, generated, baseUrl, now, false, None) == Served(t, CodeTaken)
  {
  }

  /**
   * The stats, delete and redirect routes answer any fault, a 23505 included, with
   * a bare 500 and no change; create does so for a failed connection and for an
   * insert fault other than 23505.
   */
  lemma FaultsAreBare500(t: Table, body: Body, isUri: string -> bool, generated: string, baseUrl: Option<string>,
                         code: string, now: nat, err: DbError)
    ensures Acceptable(body, isUri) ==>
      CreateResult(t, body, isUri, generated, baseUrl, now, true, None) == Served(t, InternalError)
    ensures Acceptable(body, isUri) && err.code != UniqueViolationCode ==>
      CreateResult(t, body, isUri, generated, baseUrl, now, false, Some(err)) == Served(t, InternalError)
    ensures StatsResult(t, code, Some(err)) == InternalError
    ensures DeleteResult(t, code, Some(err)) == Served(t, InternalError)
    ensures RedirectResult(t, code, now, Some(err)) == Served(t, InternalError)
  {
  }
}
