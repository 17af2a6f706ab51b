/** The global error handler and the catch-all 404 of the modular backend. */
module ErrorHandler {
  import opened Wrappers
  import opened LinkModel
  import opened Http

  const Development := "development"

  /**
   * `errorHandler(err, ...)`: a unique violation becomes 409; every other error
   * becomes 500, with the error's message attached only when `NODE_ENV` is
   * `development`.
   */
  function HandleError(err: DbError, nodeEnv: Option<string>): (r: Response)
    ensures r.Json? && r.payload.ErrorJson?
    ensures r.status == 409 <==> err.code == UniqueViolationCode
    ensures r.status == 409 ==> r == CodeTaken
    ensures r.status != 409 ==> r.status == 500 && r.payload.error == "Internal server error"
    ensures r.payload.details.Some? <==> r.status == 500 && nodeEnv == Some(Development)
    ensures r.payload.details.Some? ==> r.payload.details.value == err.message
  {
    if err.code == UniqueViolationCode then CodeTaken
    else Json(500, ErrorJson("Internal server error", if nodeEnv == Some(Development) then Some(err.message) else None))
  }

  /** `notFound`: any unmatched route. */
  function NotFound(): (r: Response)
    ensures r.Json? && r.status == 404 && r.payload == ErrorJson("Route not found", None)
  {
    Json(404, ErrorJson("Route not found", None))
  }

  /** Outside development, the handler answers exactly like an inline `catch` that maps 23505 to 409 and the rest to 500. */
  lemma MatchesInlineCatch(err: DbError, nodeEnv: Option<string>)
    requires nodeEnv != Some(Development)
    ensures HandleError(err, nodeEnv) == if err.code == UniqueViolationCode then CodeTaken else InternalError
  {
  }
}
