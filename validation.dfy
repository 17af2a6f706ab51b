/** The `validateCreateLink` middleware in front of the create route. */
module Validation {
  import opened Wrappers
  import opened Schema
  import opened Http

  /** What the middleware does: answer 400 itself, or call `next()` once with the validated data. */
  datatype Step = Reject(response: Response) | Proceed(validatedData: CreateRequest)

  /**
   * `validateCreateLink(req, res, next)`: a body the schema refuses gets 400 with the
   * first failure and `next` is not called; otherwise `req.validatedData` is the
   * validated value and `next` is called.
   */
  function ValidateCreateLink(body: Body, isUri: string -> bool): (s: Step)
    ensures s.Proceed? <==> Acceptable(body, isUri)
    ensures s.Reject? ==> s.response == Json(400, InvalidBody(Validate(body, isUri).error))
    ensures s.Proceed? ==> Validate(body, isUri) == Success(s.validatedData)
  {
    match Validate(body, isUri)
    case Failure(e) => Reject(Json(400, InvalidBody(e)))
    case Success(v) => Proceed(v)
  }
}
