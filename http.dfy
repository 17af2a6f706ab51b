/** HTTP responses and the JSON shapes both backends send. */
module Http {
  import opened Wrappers
  import opened LinkModel
  import Schema

  /** The five-field link JSON: `{code, originalUrl, clicks, createdAt, lastClicked}`. */
  datatype LinkJson = LinkJson(code: string, originalUrl: string, clicks: int, createdAt: nat, lastClicked: Option<nat>)

  /** The JSON of a created link: `{code, originalUrl, shortUrl, clicks, createdAt}`. */
  datatype CreatedJson = CreatedJson(code: string, originalUrl: string, shortUrl: string, clicks: int, createdAt: nat)

  datatype Payload =
    | ErrorJson(error: string, details: Option<string>)
    | InvalidBody(reason: Schema.ValidationError)
    | Created(created: CreatedJson)
    | Stats(link: LinkJson)
    | List(links: seq<LinkJson>)

  datatype Response =
    | Json(status: nat, payload: Payload)      // res.status(s).json(...) (status 200 when not set)
    | Redirect(status: nat, location: string)  // res.redirect(302, url)
    | Empty(status: nat)                       // res.status(204).send()

  const LinkNotFound := Json(404, ErrorJson("Link not found", None))
  const CodeTaken := Json(409, ErrorJson("Custom code already exists", None))
  const InternalError := Json(500, ErrorJson("Internal server error", None))

  /** Row to JSON: `original_url` becomes `originalUrl`, and so on. */
  function Project(row: Link): LinkJson
  {
    LinkJson(row.code, row.originalUrl, row.clicks, row.createdAt, row.lastClicked)
  }

  /** `rows.map(...)` with the five-field projection. */
  function Projected(rows: seq<Link>): (js: seq<LinkJson>)
    ensures |js| == |rows|
    ensures forall i | 0 <= i < |rows| :: js[i] == Project(rows[i])
  {
    seq(|rows|, i requires 0 <= i < |rows| => Project(rows[i]))
  }

  /** `js` is what a list request may answer for table `t`: a listing, projected. */
  ghost predicate IsJsonListing(t: Table, js: seq<LinkJson>)
  {
    exists s :: IsListing(t, s) && js == Projected(s)
  }

  /** A JSON listing has one entry per row, newest first, each the projection of its row. */
  lemma JsonListing(t: Table, js: seq<LinkJson>)
    requires WellFormed(t) && IsJsonListing(t, js)
    ensures |js| == |t|
    ensures forall i | 0 <= i < |js| :: js[i].code in t && js[i] == Project(t[js[i].code])
    ensures forall i, j | 0 <= i < j < |js| :: js[i].createdAt >= js[j].createdAt && js[i].code != js[j].code
    ensures forall c | c in t :: Project(t[c]) in js
  {
    var s :| IsListing(t, s) && js == Projected(s);
    ListingLength(t, s);
    forall i | 0 <= i < |js| ensures js[i].code in t && js[i] == Project(t[js[i].code]) {
      assert s[i] in s && js[i] == Project(s[i]);
    }
    forall i, j | 0 <= i < j < |js| ensures js[i].createdAt >= js[j].createdAt && js[i].code != js[j].code {
      assert js[i] == Project(s[i]) && js[j] == Project(s[j]);
    }
    forall c | c in t ensures Project(t[c]) in js {
      var i :| 0 <= i < |s| && s[i] == t[c];
      assert js[i] == Project(t[c]);
    }
  }

  /** `${process.env.NAME}`: an unset variable renders as "undefined". */
  function EnvText(v: Option<string>): string
  {
    if v.Some? then v.value else "undefined"
  }

  /** `${process.env.BASE_URL}/${code}` */
  function ShortUrl(baseUrl: Option<string>, code: string): string
  {
    EnvText(baseUrl) + "/" + code
  }

  /** The 201 body for a created row. */
  function CreatedBody(row: Link, baseUrl: Option<string>): CreatedJson
  {
    CreatedJson(row.code, row.originalUrl, ShortUrl(baseUrl, row.code), row.clicks, row.createdAt)
  }
}
