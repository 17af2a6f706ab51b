/**
 * The request-body schema for creating a link: `originalUrl`, a required string
 * that is a URI, and `customCode`, an optional string of 6 to 8 ASCII letters or
 * digits. The same schema is declared in the validation middleware and in the
 * monolithic server. Joi checks the keys in declaration order and stops at the
 * first failure; keys the schema does not name are refused after that.
 */
module Schema {
  import opened Wrappers

  /** A JSON value as the schema sees it: a string, or anything else (number, null, object, ...). */
  datatype Json = JString(s: string) | JOther

  /** A JSON object body: its keys and their values. */
  type Body = map<string, Json>

  const OriginalUrlKey := "originalUrl"
  const CustomCodeKey := "customCode"

  /** The validated value: the URL and, when given, the custom code. */
  datatype CreateRequest = CreateRequest(originalUrl: string, customCode: Option<string>)

  /** Which of Joi's rules rejected the body (Joi's wording of the message is not modelled). */
  datatype ValidationError =
    | Required(key: string)            // a required key is absent
    | NotAString(key: string)          // the value is not a string
    | EmptyString(key: string)         // the value is the empty string
    | NotAUri                          // `originalUrl` fails `.uri()`
    | PatternMismatch(value: string)   // `customCode` fails the pattern
    | UnknownKeys(keys: set<string>)   // keys the schema does not declare

  /** `[A-Za-z0-9]`: an ASCII letter or digit. */
  predicate IsAsciiAlnum(ch: char)
  {
    'A' <= ch <= 'Z' || 'a' <= ch <= 'z' || '0' <= ch <= '9'
  }

  /** `/^[A-Za-z0-9]{6,8}$/`: 6 to 8 characters, all ASCII letters or digits. */
  predicate MatchesCodePattern(s: string)
  {
    6 <= |s| <= 8 && forall i | 0 <= i < |s| :: IsAsciiAlnum(s[i])
  }

  /** `Joi.string()` on one key, `.required()` or `.optional()`. */
  function StringKey(body: Body, key: string, required: bool): (r: Result<Option<string>, ValidationError>)
    ensures r.Success? <==> (key in body ==> body[key].JString? && body[key].s != "") && (required ==> key in body)
    ensures r.Success? ==> r.value == (if key in body then Some(body[key].s) else None)
  {
    if key !in body then (if required then Failure(Required(key)) else Success(None))
    else match body[key]
      case JOther => Failure(NotAString(key))
      case JString(s) => if s == "" then Failure(EmptyString(key)) else Success(Some(s))
  }

  /** A body the schema accepts, stated key by key. */
  ghost predicate Acceptable(body: Body, isUri: string -> bool)
  {
    && OriginalUrlKey in body && body[OriginalUrlKey].JString?
    && body[OriginalUrlKey].s != "" && isUri(body[OriginalUrlKey].s)
    && (CustomCodeKey in body ==> body[CustomCodeKey].JString? && MatchesCodePattern(body[CustomCodeKey].s))
    && body.Keys <= {OriginalUrlKey, CustomCodeKey}
  }

  /**
   * `createLinkSchema.validate(body)`; `isUri` is Joi's `.uri()` check, which the
   * model leaves opaque.
   */
  function Validate(body: Body, isUri: string -> bool): (r: Result<CreateRequest, ValidationError>)
    ensures r.Success? <==> Acceptable(body, isUri)
    ensures r.Success? ==> r.value.originalUrl == body[OriginalUrlKey].s
    ensures r.Success? ==> r.value.customCode == (if CustomCodeKey in body then Some(body[CustomCodeKey].s) else None)
    ensures r.Success? && r.value.customCode.Some? ==> MatchesCodePattern(r.value.customCode.value)
    ensures OriginalUrlKey !in body ==> r == Failure(Required(OriginalUrlKey))
  {
    match StringKey(body, OriginalUrlKey, true)
    case Failure(e) => Failure(e)
    case Success(url) =>
      if !isUri(url.value) then Failure(NotAUri)
      else match StringKey(body, CustomCodeKey, false)
        case Failure(e) => Failure(e)
        case Success(code) =>
          if code.Some? && !MatchesCodePattern(code.value) then Failure(PatternMismatch(code.value))
          else
            var extra := body.Keys - {OriginalUrlKey, CustomCodeKey};
            if extra != {} then Failure(UnknownKeys(extra))
            else Success(CreateRequest(url.value, code))
  }

  /** `if (customCode)`: a custom code counts only when it is a non-empty string. */
  predicate HasCustomCode(req: CreateRequest)
  {
    req.customCode.Some? && req.customCode.value != ""
  }

  /** `customCode || nanoid(6)`, with `generated` standing for the random code. */
  function ChooseCode(req: CreateRequest, generated: string): (code: string)
    ensures HasCustomCode(req) ==> code == req.customCode.value
    ensures !HasCustomCode(req) ==> code == generated
  {
    if HasCustomCode(req) then req.customCode.value else generated
  }

  /**
   * For a validated request and a six-character generated code, the chosen code has
   * 6 to 8 characters, so it fits the `VARCHAR(8)` column.
   */
  lemma ChosenCodeFits(req: CreateRequest, generated: string)
    requires req.customCode.Some? ==> MatchesCodePattern(req.customCode.value)
    requires |generated| == 6
    ensures 6 <= |ChooseCode(req, generated)| <= 8
  {
  }

  /** Neither an absent nor a well-formed custom code makes the schema fail on that key. */
  lemma CustomCodeRule(body: Body, isUri: string -> bool)
    requires OriginalUrlKey in body && body[OriginalUrlKey].JString?
    requires body[OriginalUrlKey].s != "" && isUri(body[OriginalUrlKey].s)
    requires body.Keys <= {OriginalUrlKey, CustomCodeKey}
    ensures CustomCodeKey !in body ==> Validate(body, isUri).Success?
    ensures CustomCodeKey in body && body[CustomCodeKey].JString? ==>
      (Validate(body, isUri).Success? <==> MatchesCodePattern(body[CustomCodeKey].s))
  {
  }
}
