# tinylink in Dafny

tinylink is a URL shortener. A client posts a long URL, optionally with a custom
code of 6 to 8 letters or digits; the backend stores a row in a PostgreSQL
`links` table under that code (or a generated 6-character one) and answers with
the short URL. Visiting the short URL redirects to the long one and counts the
click; the link's statistics can be read, and the link can be deleted. A React
dashboard validates the form, posts it, and filters the listed links by a
search term.

The repository has two backends with the same routes: a modular one (model,
controller, validation middleware, global error handler) and a monolithic
`server.js` that does everything inline. This project models both, and the
dashboard's pure parts:

- `wrappers.dfy` — `Option` and `Result`.
- `link_model.dfy` — the `links` table as a map from code to row, each SQL
  statement of the link model as a function from table to table and result, and
  the class `LinkTable` whose methods run those statements in place. It covers
  the `VARCHAR(8)` code column (22001, or truncation of trailing spaces), the
  UNIQUE code (23505) and the 32-bit `INTEGER` click counter (22003). A database
  fault is a caller-supplied `failure`.
- `schema.dfy` — the Joi schema shared by the middleware and `server.js`, and
  the code choice `customCode || nanoid(6)`.
- `http.dfy` — responses and the JSON projections of rows.
- `error_handler.dfy`, `validation.dfy`, `link_controller.dfy` — the modular
  backend.
- `server.dfy` — the monolithic backend.
- `backends.dfy` — the two backends compared, route by route.
- `dashboard.dfy` — the form validators, the submit guard and payload, and the
  search filter.

Time is a caller-supplied natural number, the generated code is a parameter
`generated`, Joi's `.uri()` and the browser's `new URL` are opaque predicates
`isUri` and `parses`, and the environment variables `BASE_URL` and `NODE_ENV`
are `Option<string>` parameters (an unset `BASE_URL` renders as "undefined").

## Model

| member | source | states |
|---|---|---|
| LinkModel.StoredCode | backend/src/server.js:33 | a code is stored iff it has at most 8 characters or only spaces past the 8th; a code that fits is stored unchanged, and a longer one is stored as its first 8 characters |
| LinkModel.InsertSemantics | backend/src/models/linkModel.js:5-12 | INSERT with a fresh code of at most 8 characters adds exactly one row with that code and URL, clicks 0, created_at now and last_clicked null, and returns it; a taken code raises 23505; any raised error leaves the table unchanged; the schema's guarantees are kept |
| LinkModel.Select | backend/src/models/linkModel.js:23-29 | findByCode returns the row stored under the code, or nothing when absent; a fault is raised as given |
| LinkModel.SelectExists | backend/src/models/linkModel.js:50-56 | codeExists answers true iff the code is in the table |
| LinkModel.DeleteSemantics | backend/src/models/linkModel.js:32-38 | DELETE removes exactly the row with the code and returns it; when absent it returns nothing; no other row changes |
| LinkModel.UpdateSemantics | backend/src/models/linkModel.js:41-47 | UPDATE of an existing code raises clicks by exactly 1, sets last_clicked and returns original_url, leaving every other row and field as it was; an absent code returns nothing and changes nothing; at the INTEGER limit it raises 22003 and changes nothing |
| LinkModel.ExistsIffFound | backend/src/models/linkModel.js:50-56 | codeExists(c) is true exactly when findByCode(c) returns a row |
| LinkModel.ListingLength | backend/src/models/linkModel.js:15-20 | a listing of every row once has exactly as many entries as the table has rows |
| LinkModel.PlaceByCreatedAt | backend/src/models/linkModel.js:17 | inserting a row into a newest-first sequence keeps it newest first with unique codes, and adds exactly that row |
| LinkModel.RunWellFormed | backend/src/server.js:31-38 | every sequence of inserts, deletes and redirects keeps codes unique and at most 8 characters and clicks within 0..2^31-1 |
| LinkModel.RunKeepsRow | backend/src/models/linkModel.js:43 | a row no statement deletes keeps its code, URL and creation time through any sequence of writes, and its clicks rise by exactly the number of redirects of its code, up to the INTEGER limit |
| LinkModel.ClicksCounted | backend/src/models/linkModel.js:41-47 | n redirects of an existing code raise clicks by exactly n and leave last_clicked at the last redirect's time |
| LinkModel.LinkTable.constructor | backend/src/server.js:31-38 | a new table is empty and well formed |
| LinkModel.LinkTable.Create | backend/src/models/linkModel.js:5-12 | create changes the table and answers as the INSERT does |
| LinkModel.LinkTable.FindAll | backend/src/models/linkModel.js:15-20 | findAll returns every row exactly once, each as stored, ordered by created_at non-increasing |
| LinkModel.LinkTable.FindByCode | backend/src/models/linkModel.js:23-29 | findByCode answers as the SELECT does and changes nothing |
| LinkModel.LinkTable.DeleteByCode | backend/src/models/linkModel.js:32-38 | deleteByCode changes the table and answers as the DELETE does |
| LinkModel.LinkTable.IncrementClick | backend/src/models/linkModel.js:41-47 | incrementClick changes the table and answers as the UPDATE does |
| LinkModel.LinkTable.CodeExists | backend/src/models/linkModel.js:50-56 | codeExists answers as the existence SELECT does and changes nothing |
| Schema.StringKey | backend/src/middleware/validation.js:5-6 | a string key passes iff, when present, it is a non-empty string, and, when required, it is present; it then yields its value |
| Schema.Validate | backend/src/middleware/validation.js:4-7 | a body is accepted iff originalUrl is a non-empty URI string, customCode is absent or matches ^[A-Za-z0-9]{6,8}$, and no other key is present; the accepted value carries the body's URL and code; a missing originalUrl is rejected as required |
| Schema.CustomCodeRule | backend/src/middleware/validation.js:6 | with a valid URL, an absent customCode is accepted and a present string customCode is accepted iff it matches the pattern |
| Schema.ChooseCode | backend/src/controllers/linkController.js:9 | the chosen code is the custom code when one is given and non-empty, otherwise the generated code |
| Schema.ChosenCodeFits | backend/src/server.js:73 | for a validated request and a 6-character generated code, the chosen code has 6 to 8 characters |
| Http.Projected | backend/src/controllers/linkController.js:38-44 | the JSON list has the rows' length and order, each entry the five-field projection of its row |
| Http.JsonListing | backend/src/controllers/linkController.js:34-50 | a JSON listing has one entry per row, each the projection of its stored row, newest first with distinct codes, and every row appears |
| ErrorHandler.HandleError | backend/src/middleware/errorHandler.js:2-15 | an error with code 23505 is answered 409 "Custom code already exists"; every other error 500 "Internal server error"; details, equal to the error's message, are present iff the answer is 500 and NODE_ENV is development |
| ErrorHandler.NotFound | backend/src/middleware/errorHandler.js:18-20 | notFound always answers 404 "Route not found" |
| ErrorHandler.MatchesInlineCatch | backend/src/middleware/errorHandler.js:6-14 | outside development the handler answers exactly 409 for 23505 and a bare 500 otherwise |
| Validation.ValidateCreateLink | backend/src/middleware/validation.js:10-17 | next is called (with the validated data) iff the schema accepts the body; otherwise the answer is 400 with the schema's first failure |
| LinkController.CreateLink | backend/src/controllers/linkController.js:6-31 | createLink changes the table and answers as the pre-check, insert and 201 body do, forwarding store errors |
| LinkController.LinkStatsResult | backend/src/controllers/linkController.js:57-68 | stats pass a fault to next, answer 404 for an absent code, and 200 with the projection of the stored row otherwise |
| LinkController.GetAllLinks | backend/src/controllers/linkController.js:34-50 | getAllLinks answers 200 with a JSON listing of the whole table, or forwards the store error; it changes nothing |
| LinkController.GetLinkStats | backend/src/controllers/linkController.js:53-72 | getLinkStats answers 404 for an absent code and 200 with the row's projection otherwise; it changes nothing |
| LinkController.DeleteLink | backend/src/controllers/linkController.js:75-88 | deleteLink answers 404 when no row was removed and 204 when one was |
| LinkController.RedirectLink | backend/src/controllers/linkController.js:91-104 | redirectLink answers 404 when absent and 302 to the stored URL after counting the click |
| LinkController.CreateTakenCustomCode | backend/src/controllers/linkController.js:12-17 | a custom code already in the table is answered 409 and nothing is inserted |
| LinkController.CreateFreshCode | backend/src/controllers/linkController.js:19-27 | a free chosen code is answered 201 with code, URL, shortUrl = BASE_URL + "/" + code, clicks 0 and createdAt, and exactly that row is added |
| LinkController.GeneratedCollisionNotRetried | backend/src/controllers/linkController.js:9-19 | a generated code that is taken is not regenerated: the unique violation is passed to next, which answers 409, and nothing is inserted |
| LinkController.CreateForwardsErrors | backend/src/controllers/linkController.js:12-30 | store faults, from the pre-check or from the insert of a generated or free custom code, are passed to next unchanged, and every outcome other than 201 leaves the table unchanged |
| LinkController.DeleteThenStats | backend/src/controllers/linkController.js:79-84 | delete answers 204 iff the code was present, and a later stats lookup of the code answers 404 |
| LinkController.RedirectThenStats | backend/src/controllers/linkController.js:95-100 | a redirect of a present code answers 302 to its URL and later stats show clicks + 1 and last_clicked at the redirect; an absent code answers 404 and changes nothing |
| LinkController.CreateRedirectStats | backend/src/controllers/linkController.js:19-27 | create, redirect, then stats: 201 with clicks 0, a 302 to the submitted URL, then stats with one click at the redirect's time |
| Server.InsertCatch | backend/src/server.js:89-93 | the insert's error is answered 409 iff its code is 23505, otherwise a bare 500 |
| Server.StatsResult | backend/src/server.js:137-160 | the stats route answers a fault with a bare 500, an absent code with 404, and a present one with 200 and the projection of its stored row |
| Server.StoreRequest | backend/src/server.js:73-99 | after validation, create answers only 201, 409 or a bare 500 |
| Server.StoreInserts | backend/src/server.js:73-96 | after validation the table changes iff the answer is 201, and then exactly the new row with clicks 0 is added under the chosen code, answered with its short URL; any other answer is 409 or 500 |
| Server.CreateRejects | backend/src/server.js:67-70 | create answers 400 iff the schema refuses the body, and then the table is not touched |
| Server.CreateTakenCode | backend/src/server.js:89-92 | a valid body whose chosen code, custom or generated, is taken is answered 409 and nothing is inserted |
| Server.FaultsAreBare500 | backend/src/server.js:93-99 | the stats, delete and redirect routes (their catches at lines 157-160, 183-186 and 209-212) answer any fault, a 23505 included, with a bare 500 and leave the table unchanged; create does so for a failed connection and for an insert fault other than 23505 (the list route's 500 is stated by Server.HandleList) |
| Server.HandleCreate | backend/src/server.js:65-101 | the create route changes the table and answers as validation, code choice and insert do |
| Server.HandleList | backend/src/server.js:104-128 | the list route answers 200 with a JSON listing of the whole table, or 500 |
| Server.HandleStats | backend/src/server.js:131-161 | the stats route answers 404 when absent, 200 with the projection otherwise, 500 on a fault; it changes nothing |
| Server.HandleDelete | backend/src/server.js:164-187 | the delete route answers 404 when no row was removed, 204 when one was, 500 on a fault |
| Server.HandleRedirect | backend/src/server.js:190-213 | the redirect route answers 404 when absent and 302 to the URL after counting the click in one UPDATE, 500 on a fault |
| Backends.StoreAgrees | backend/src/server.js:73-99 | after validation, with a chosen code of at most 8 characters, a pre-check that does not fail and a working connection, both create handlers leave the same table and answer alike outside development, unless a taken custom code hides an insert fault |
| Backends.CreateBackendsAgree | backend/src/server.js:65-101 | with a 6-character generated code and no faults before the insert, both backends answer create alike and leave the same table, outside development, unless a taken custom code hides an insert fault |
| Backends.PreCheckHidesInsertFault | backend/src/controllers/linkController.js:12-17 | a taken custom code is answered 409 by the modular pre-check even where the monolithic insert would fail with 500 |
| Backends.StatsBackendsAgree | backend/src/server.js:131-161 | the two stats routes answer alike iff the SELECT succeeds or fails with a non-23505 error outside development |
| Backends.DeleteBackendsAgree | backend/src/server.js:164-187 | the two delete routes leave the same table, and answer alike iff the DELETE succeeds or fails with a non-23505 error outside development |
| Backends.RedirectBackendsAgree | backend/src/server.js:190-213 | the two redirect routes leave the same table, and answer alike iff the UPDATE succeeds or fails with a non-23505 error outside development |
| Dashboard.ValidateUrl | frontend/src/components/Dashboard.js:39-47 | "" iff the URL is non-empty and parses; "URL is required" for an empty one, the fixed "valid URL" message otherwise |
| Dashboard.ValidateCustomCode | frontend/src/components/Dashboard.js:49-55 | "" iff the code is empty or matches ^[A-Za-z0-9]{6,8}$, else "Custom code must be 6-8 alphanumeric characters" |
| Dashboard.IsFormValid | frontend/src/components/Dashboard.js:78-83 | the form is valid iff the URL is non-empty and parses and the code is empty or matches the pattern |
| Dashboard.PostedBody | frontend/src/components/Dashboard.js:108-111 | the posted body has originalUrl, and has customCode iff it is non-empty, so "" is never sent |
| Dashboard.Submit | frontend/src/components/Dashboard.js:94-111 | submit posts iff the form is valid; otherwise it shows both validators' messages, at least one non-empty |
| Dashboard.PostedFormPassesSchema | frontend/src/components/Dashboard.js:108-111 | a posted body passes the backend schema iff the backend's URI check accepts the URL, and validates to the form's URL and non-empty code |
| Dashboard.LowerChar | frontend/src/components/Dashboard.js:156-157 | toLowerCase maps A-Z to a-z and leaves every other character |
| Dashboard.Lower | frontend/src/components/Dashboard.js:156-157 | toLowerCase keeps the length and lowercases each character |
| Dashboard.IncludesIffOccurs | frontend/src/components/Dashboard.js:156-157 | includes answers true iff the term occurs at some position of the string |
| Dashboard.FilteredLinks | frontend/src/components/Dashboard.js:155-158 | the filter is an order-preserving subsequence of the links that keeps every occurrence of a matching link and none of any other, where a link matches iff its lowercased code or URL contains the lowercased term |
| Dashboard.EmptyTermKeepsAll | frontend/src/components/Dashboard.js:155-158 | an empty search term keeps every link, in order |
| Dashboard.FilterIgnoresCase | frontend/src/components/Dashboard.js:155-158 | searching for a term or for its lowercase finds the same links |

## Left out

- LinkModel.LinkTable.FindAll: rows with equal created_at come back in no defined order, so the listing is stated as a predicate every answer satisfies, not as one function.
- Schema.Validate: rejections are kinds of failure (required, not a string, empty, not a URI, pattern, unknown keys), not Joi's message text, and a body that is not a JSON object is not modelled.
- Schema.Validate: Joi's `.uri()` is an opaque predicate; its RFC 3986 syntax check is not modelled.
- Dashboard.ValidateUrl: the browser's `new URL` is an opaque predicate; the WHATWG URL parser is not modelled.
- Dashboard.Lower: only ASCII letters are lowercased; Unicode case mapping is not modelled.
- The lemmas that compare create across backends take the generated code to have 6 characters; nanoid's randomness and alphabet are not modelled.
- The surrogate `id SERIAL` column is never read by the core and is not modelled; nor is a NUL byte in a code, which PostgreSQL refuses.
- Concurrency: the check-then-insert race between codeExists and create, and concurrent redirects. Statements run one at a time.
- Connection pooling, SSL, `initDB`, `client.release`, logging, dotenv, helmet and cors.
- Express routing and mounting: the modular backend mounts the redirect under `/api`, and server.js has no catch-all 404; routes are modelled as separate functions.
- The health endpoint and its uptime and timestamp.
- The dashboard's React state, rendering, fetching, the 409 message after a post, clipboard, `window.open`, `confirm` and `setTimeout`.
- Wall-clock timestamps: `CURRENT_TIMESTAMP` is a caller-supplied natural number.
