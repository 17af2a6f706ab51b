/**
 * The two backends side by side. The modular one runs the validation middleware,
 * then the controller, then the global error handler on anything passed to
 * `next`; the monolithic one does all of it inline. They answer alike when
 * nothing fails; they part ways where the modular one pre-checks a custom code,
 * forwards a 23505 from a read route as 409, or adds `details` in development.
 */
module Backends {
  import opened Wrappers
  import opened LinkModel
  import opened Schema
  import opened Http
  import opened Validation
  import opened LinkController
  import opened ErrorHandler
  import opened Server

  /** `POST /api/links` in the modular backend. */
  function ModularCreate(t: Table, body: Body, isUri: string -> bool, generated: string, baseUrl: Option<string>,
                         now: nat, nodeEnv: Option<string>, existsFailure: Option<DbError>,
                         insertFailure: Option<DbError>): Served
  {
    match ValidateCreateLink(body, isUri)
    case Reject(r) => Served(t, r)
    case Proceed(req) =>
      var h := CreateLinkResult(t, req, generated, baseUrl, now, existsFailure, insertFailure);
      Served(h.table, Deliver(h.outcome, nodeEnv))
  }

  /** `GET /api/links/:code` in the modular backend. */
  function ModularStats(t: Table, code: string, nodeEnv: Option<string>, failure: Option<DbError>): Response
  {
    Deliver(LinkStatsResult(t, code, failure), nodeEnv)
  }

  /** `DELETE /api/links/:code` in the modular backend. */
  function ModularDelete(t: Table, code: string, nodeEnv: Option<string>, failure: Option<DbError>): Served
  {
    var h := DeleteLinkResult(t, code, failure);
    Served(h.table, Deliver(h.outcome, nodeEnv))
  }

  /** The redirect in the modular backend. */
  function ModularRedirect(t: Table, code: string, now: nat, nodeEnv: Option<string>, failure: Option<DbError>): Served
  {
    var h := RedirectLinkResult(t, code, now, failure);
    Served(h.table, Deliver(h.outcome, nodeEnv))
  }

  /** The global error handler answers a store error as the inline catch does, unless it is 23505 or in development. */
  predicate AnsweredAlike(err: DbError, nodeEnv: Option<string>)
  {
    err.code != UniqueViolationCode && nodeEnv != Some(Development)
  }

  /** After validation, the two create handlers agree whenever no pre-check hides an insert fault. */
  lemma StoreAgrees(t: Table, req: CreateRequest, generated: string, baseUrl: Option<string>, now: nat,
                    nodeEnv: Option<string>, insertFailure: Option<DbError>)
    requires |ChooseCode(req, generated)| <= MaxCodeLength
    requires insertFailure.Some? ==> !(HasCustomCode(req) && req.customCode.value in t)
    requires nodeEnv != Some(Development)
    ensures var h := CreateLinkResult(t, req, generated, baseUrl, now, None, insertFailure);
      Served(h.table, Deliver(h.outcome, nodeEnv)) == StoreRequest(t, req, generated, baseUrl, now, false, insertFailure)
  {
    var code := ChooseCode(req, generated);
    var e := Insert(t, code, req.originalUrl, now, insertFailure);
    InsertSemantics(t, code, req.originalUrl, now, insertFailure, e);
    if e.result.Failure? {
      MatchesInlineCatch(e.result.error, nodeEnv);
    }
  }

  /**
   * With a six-character generated code, a working connection and no fault in the
   * existence check, both backends answer create alike and leave the same table,
   * unless a taken custom code hides an insert fault; development mode aside.
   */
  lemma CreateBackendsAgree(t: Table, body: Body, isUri: string -> bool, generated: string, baseUrl: Option<string>,
                            now: nat, nodeEnv: Option<string>, insertFailure: Option<DbError>)
    requires |generated| == 6 && nodeEnv != Some(Development)
    requires insertFailure.Some? && Validate(body, isUri).Success? ==>
      var req := Validate(body, isUri).value; !(HasCustomCode(req) && req.customCode.value in t)
    ensures ModularCreate(t, body, isUri, generated, baseUrl, now, nodeEnv, None, insertFailure) ==
            CreateResult(t, body, isUri, generated, baseUrl, now, false, insertFailure)
  {
    var v := Validate(body, isUri);
    if v.Success? {
      StoreAgrees(t, v.value, generated, baseUrl, now, nodeEnv, insertFailure);
    }
  }

  /**
   * Where they part: a taken custom code is answered 409 by the modular pre-check
   * even when the insert would have failed with some other error, which the
   * monolithic backend answers 500.
   */
  lemma PreCheckHidesInsertFault(t: Table, req: CreateRequest, generated: string, baseUrl: Option<string>, now: nat,
                                 nodeEnv: Option<string>, err: DbError)
    requires HasCustomCode(req) && req.customCode.value in t
    requires err.code != UniqueViolationCode
    ensures var h := CreateLinkResult(t, req, generated, baseUrl, now, None, Some(err));
      Deliver(h.outcome, nodeEnv) == CodeTaken
    ensures StoreRequest(t, req, generated, baseUrl, now, false, Some(err)).response == InternalError
  {
  }

  /** Stats: the backends agree exactly when the SELECT succeeds or fails with an error answered alike. */
  lemma StatsBackendsAgree(t: Table, code: string, nodeEnv: Option<string>, failure: Option<DbError>)
    ensures ModularStats(t, code, nodeEnv, failure) == StatsResult(t, code, failure) <==>
      (failure.Some? ==> AnsweredAlike(failure.value, nodeEnv))
  {
    if failure.Some? && nodeEnv != Some(Development) {
      MatchesInlineCatch(failure.value, nodeEnv);
    }
  }

  /** Delete: both leave the same table, and answer alike exactly when the DELETE's error, if any, is answered alike. */
  lemma DeleteBackendsAgree(t: Table, code: string, nodeEnv: Option<string>, failure: Option<DbError>)
    ensures ModularDelete(t, code, nodeEnv, failure).table == DeleteResult(t, code, failure).table
    ensures ModularDelete(t, code, nodeEnv, failure) == DeleteResult(t, code, failure) <==>
      (failure.Some? ==> AnsweredAlike(failure.value, nodeEnv))
  {
    if failure.Some? && nodeEnv != Some(Development) {
      MatchesInlineCatch(failure.value, nodeEnv);
    }
  }

  /**
   * Redirect: both leave the same table, and answer alike exactly when the UPDATE's
   * error, if any, is answered alike. That error includes the 22003 of a click
   * counter already at its maximum, which development mode answers with details.
   */
  lemma RedirectBackendsAgree(t: Table, code: string, now: nat, nodeEnv: Option<string>, failure: Option<DbError>)
    ensures ModularRedirect(t, code, now, nodeEnv, failure).table == RedirectResult(t, code, now, failure).table
    ensures var e := Update(t, code, now, failure);
      ModularRedirect(t, code, now, nodeEnv, failure) == RedirectResult(t, code, now, failure) <==>
      (e.result.Failure? ==> AnsweredAlike(e.result.error, nodeEnv))
  {
    var e := Update(t, code, now, failure);
    if e.result.Failure? && nodeEnv != Some(Development) {
      MatchesInlineCatch(e.result.error, nodeEnv);
    }
  }
}
