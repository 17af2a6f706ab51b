/**
 * The request handlers of the modular backend. Each handler runs its statements
 * against the links table and either answers the request or passes the store's
 * error to `next`, where the global error handler answers it.
 */
module LinkController {
  import opened Wrappers
  import opened LinkModel
  import opened Schema
  import opened Http
  import ErrorHandler

  /** How a handler ends: it answers, or it calls `next(error)`. */
  datatype Outcome = Respond(response: Response) | PassToNext(error: DbError)

  /** The table after a handler, and how the handler ended. */
  datatype Handled = Handled(table: Table, outcome: Outcome)

  /** `LinkModel.create` followed by the 201 answer. */
  function InsertAndAnswer(t: Table, code: string, originalUrl: string, baseUrl: Option<string>, now: nat,
                           failure: Option<DbError>): Handled
  {
    var e := Insert(t, code, originalUrl, now, failure);
    match e.result
    case Failure(err) => Handled(e.table, PassToNext(err))
    case Success(row) => Handled(e.table, Respond(Json(201, Created(CreatedBody(row, baseUrl)))))
  }

  /** `createLink`: pre-check a custom code, then insert. */
  function CreateLinkResult(t: Table, req: CreateRequest, generated: string, baseUrl: Option<string>, now: nat,
                            existsFailure: Option<DbError>, insertFailure: Option<DbError>): Handled
  {
    var code := ChooseCode(req, generated);
    if HasCustomCode(req) then
      match SelectExists(t, req.customCode.value, existsFailure)
      case Failure(e) => Handled(t, PassToNext(e))
      case Success(taken) =>
        if taken then Handled(t, Respond(CodeTaken))
        else InsertAndAnswer(t, code, req.originalUrl, baseUrl, now, insertFailure)
    else InsertAndAnswer(t, code, req.originalUrl, baseUrl, now, insertFailure)
  }

  /** `getLinkStats`. */
  function LinkStatsResult(t: Table, code: string, failure: Option<DbError>): (o: Outcome)
    ensures failure.Some? ==> o == PassToNext(failure.value)
    ensures failure.None? && code !in t ==> o == Respond(LinkNotFound)
    ensures failure.None? && code in t ==> o == Respond(Json(200, Stats(Project(t[code]))))
  {
    match Select(t, code, failure)
    case Failure(e) => PassToNext(e)
    case Success(None) => Respond(LinkNotFound)
    case Success(Some(row)) => Respond(Json(200, Stats(Project(row))))
  }

  /** `deleteLink`. */
  function DeleteLinkResult(t: Table, code: string, failure: Option<DbError>): Handled
  {
    var e := Delete(t, code, failure);
    match e.result
    case Failure(err) => Handled(e.table, PassToNext(err))
    case Success(None) => Handled(e.table, Respond(LinkNotFound))
    case Success(Some(_)) => Handled(e.table, Respond(Empty(204)))
  }

  /** `redirectLink`. */
  function RedirectLinkResult(t: Table, code: string, now: nat, failure: Option<DbError>): Handled
  {
    var e := Update(t, code, now, failure);
    match e.result
    case Failure(err) => Handled(e.table, PassToNext(err))
    case Success(None) => Handled(e.table, Respond(LinkNotFound))
    case Success(Some(url)) => Handled(e.table, Respond(Redirect(302, url)))
  }

  /** What the client receives: the handler's answer, or the error handler's answer to `next(error)`. */
  function Deliver(o: Outcome, nodeEnv: Option<string>): Response
  {
    match o
    case Respond(r) => r
    case PassToNext(e) => ErrorHandler.HandleError(e, nodeEnv)
  }

  method CreateLink(table: LinkTable, req: CreateRequest, generated: string, baseUrl: Option<string>, now: nat,
                    existsFailure: Option<DbError>, insertFailure: Option<DbError>) returns (o: Outcome)
    requires table.Valid()
    modifies table
    ensures table.Valid()
    ensures Handled(table.rows, o) == CreateLinkResult(old(table.rows), req, generated, baseUrl, now, existsFailure, insertFailure)
  {
    var code := ChooseCode(req, generated);
    if HasCustomCode(req) {
      var taken := table.CodeExists(req.customCode.value, existsFailure);
      if taken.Failure? {
        return PassToNext(taken.error);
      }
      if taken.value {
        return Respond(CodeTaken);
      }
    }
    var link := table.Create(code, req.originalUrl, now, insertFailure);
    if link.Failure? {
      return PassToNext(link.error);
    }
    o := Respond(Json(201, Created(CreatedBody(link.value, baseUrl))));
  }

  /** `getAllLinks`: 200 with every row, newest first, in the five-field projection. */
  method GetAllLinks(table: LinkTable, failure: Option<DbError>) returns (o: Outcome)
    requires table.Valid()
    ensures failure.Some? ==> o == PassToNext(failure.value)
    ensures failure.None? ==> o.Respond? && o.response.Json? && o.response.status == 200
    ensures failure.None? ==> o.response.payload.List? && IsJsonListing(table.rows, o.response.payload.links)
  {
    var links := table.FindAll(failure);
    if links.Failure? {
      return PassToNext(links.error);
    }
    o := Respond(Json(200, List(Projected(links.value))));
  }

  method GetLinkStats(table: LinkTable, code: string, failure: Option<DbError>) returns (o: Outcome)
    ensures o == LinkStatsResult(table.rows, code, failure)
  {
    var link := table.FindByCode(code, failure);
    if link.Failure? {
      return PassToNext(link.error);
    }
    if link.value.None? {
      return Respond(LinkNotFound);
    }
    o := Respond(Json(200, Stats(Project(link.value.value))));
  }

  method DeleteLink(table: LinkTable, code: string, failure: Option<DbError>) returns (o: Outcome)
    requires table.Valid()
    modifies table
    ensures table.Valid()
    ensures Handled(table.rows, o) == DeleteLinkResult(old(table.rows), code, failure)
  {
    var deleted := table.DeleteByCode(code, failure);
    if deleted.Failure? {
      return PassToNext(deleted.error);
    }
    if deleted.value.None? {
      return Respond(LinkNotFound);
    }
    o := Respond(Empty(204));
  }

  method RedirectLink(table: LinkTable, code: string, now: nat, failure: Option<DbError>) returns (o: Outcome)
    requires table.Valid()
    modifies table
    ensures table.Valid()
    ensures Handled(table.rows, o) == RedirectLinkResult(old(table.rows), code, now, failure)
  {
    var url := table.IncrementClick(code, now, failure);
    if url.Failure? {
      return PassToNext(url.error);
    }
    if url.value.None? {
      return Respond(LinkNotFound);
    }
    o := Respond(Redirect(302, url.value.value));
  }

  /** A custom code already in the table gets 409 and inserts nothing. */
  lemma CreateTakenCustomCode(t: Table, req: CreateRequest, generated: string, baseUrl: Option<string>, now: nat,
                              insertFailure: Option<DbError>)
    requires HasCustomCode(req) && req.customCode.value in t
    ensures CreateLinkResult(t, req, generated, baseUrl, now, None, insertFailure) == Handled(t, Respond(CodeTaken))
  {
  }

  /**
   * A chosen code that is free gives 201 with the code, the URL, `clicks = 0`, the
   * creation time and `shortUrl = BASE_URL + "/" + code`, and adds exactly that row.
   */
  lemma CreateFreshCode(t: Table, req: CreateRequest, generated: string, baseUrl: Option<string>, now: nat)
    requires ChooseCode(req, generated) !in t && |ChooseCode(req, generated)| <= MaxCodeLength
    ensures var code := ChooseCode(req, generated);
      CreateLinkResult(t, req, generated, baseUrl, now, None, None) ==
      Handled(t[code := NewRow(code, req.originalUrl, now)],
              Respond(Json(201, Created(CreatedJson(code, req.originalUrl, ShortUrl(baseUrl, code), 0, now)))))
  {
    InsertSemantics(t, ChooseCode(req, generated), req.originalUrl, now, None,
                    Insert(t, ChooseCode(req, generated), req.originalUrl, now, None));
  }

  /**
   * A generated code that collides is not regenerated: the insert's unique violation
   * goes to `next`, the client sees 409, and nothing is inserted.
   */
  lemma GeneratedCollisionNotRetried(t: Table, req: CreateRequest, generated: string, baseUrl: Option<string>,
                                     now: nat, nodeEnv: Option<string>)
    requires !HasCustomCode(req) && generated in t && |generated| <= MaxCodeLength
    ensures CreateLinkResult(t, req, generated, baseUrl, now, None, None) == Handled(t, PassToNext(UniqueViolation))
    ensures Deliver(PassToNext(UniqueViolation), nodeEnv) == CodeTaken
  {
  }

  /** Store errors reach `next` unchanged, and every answer other than 201 leaves the table as it was. */
  lemma CreateForwardsErrors(t: Table, req: CreateRequest, generated: string, baseUrl: Option<string>, now: nat,
                             existsFailure: Option<DbError>, insertFailure: Option<DbError>)
    ensures var h := CreateLinkResult(t, req, generated, baseUrl, now, existsFailure, insertFailure);
      (HasCustomCode(req) && existsFailure.Some? ==> h == Handled(t, PassToNext(existsFailure.value))) &&
      (!HasCustomCode(req) && insertFailure.Some? ==> h == Handled(t, PassToNext(insertFailure.value))) &&
      (HasCustomCode(req) && existsFailure.None? && req.customCode.value !in t && insertFailure.Some? ==>
        h == Handled(t, PassToNext(insertFailure.value))) &&
      (!(h.outcome.Respond? && h.outcome.response.Json? && h.outcome.response.status == 201) ==> h.table == t)
  {
  }

  /** After a delete the code is gone: delete answers 204 when a row was removed, and a later stats lookup answers 404. */
  lemma DeleteThenStats(t: Table, code: string)
    ensures DeleteLinkResult(t, code, None).outcome == Respond(if code in t then Empty(204) else LinkNotFound)
    ensures LinkStatsResult(DeleteLinkResult(t, code, None).table, code, None) == Respond(LinkNotFound)
  {
  }

  /**
   * A redirect of an existing code answers 302 to its URL, and stats afterwards show
   * one more click and the redirect's time; an absent code answers 404 and changes nothing.
   */
  lemma RedirectThenStats(t: Table, code: string, now: nat)
    requires WellFormed(t)
    requires code in t ==> t[code].clicks < MaxInteger
    ensures var h := RedirectLinkResult(t, code, now, None);
      (code !in t ==> h == Handled(t, Respond(LinkNotFound))) &&
      (code in t ==>
        h.outcome == Respond(Redirect(302, t[code].originalUrl)) &&
        LinkStatsResult(h.table, code, None) ==
        Respond(Json(200, Stats(Project(t[code]).(clicks := t[code].clicks + 1, lastClicked := Some(now))))))
  {
    UpdateSemantics(t, code, now, None, Update(t, code, now, None));
  }

  /**
   * Create without a custom code, redirect, then read stats: the new link starts at
   * zero clicks with no last click, the redirect goes to the submitted URL, and the
   * stats then show one click at the redirect's time.
   */
  lemma CreateRedirectStats(t: Table, url: string, generated: string, baseUrl: Option<string>, created: nat, clicked: nat)
    requires WellFormed(t) && generated !in t && |generated| == 6
    ensures var c := CreateLinkResult(t, CreateRequest(url, None), generated, baseUrl, created, None, None);
      c.outcome == Respond(Json(201, Created(CreatedJson(generated, url, ShortUrl(baseUrl, generated), 0, created)))) &&
      var r := RedirectLinkResult(c.table, generated, clicked, None);
      r.outcome == Respond(Redirect(302, url)) &&
      LinkStatsResult(r.table, generated, None) == Respond(Json(200, Stats(LinkJson(generated, url, 1, created, Some(clicked)))))
  {
    var req := CreateRequest(url, None);
    CreateFreshCode(t, req, generated, baseUrl, created);
    var c := CreateLinkResult(t, req, generated, baseUrl, created, None, None);
    assert c.table[generated] == NewRow(generated, url, created);
    UpdateSemantics(c.table, generated, clicked, None, Update(c.table, generated, clicked, None));
  }
}
