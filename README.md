# Linkify URL shortener — a Dafny model of its request handlers

Linkify is a URL-shortening service. `POST /api/url` takes a `link`, stores
it under a freshly generated six-character code and answers with the
shortened URL `http://localhost:5500/<code>`. `GET /<code>` looks the code
up, counts the visit, and redirects to the stored link, putting `https://` in
front of a link that names no http(s) scheme.

This project models the two handlers of `src/controller/url.controller.ts`
and the record schema of `src/models/urlSchema.ts`:

- `wrappers.dfy` — `Option` and `Result`.
- `js_string.dfy` (module `JsString`) — `String.prototype.trim`, modelled by
  two index-scanning functions over a whitespace predicate (the WhiteSpace and
  LineTerminator code points of ECMA-262, sections 12.2 and 12.3), and the ASCII
  case folding of a case-insensitive regular expression without the `u` flag.
- `url_schema.dfy` (module `UrlSchema`) — the `Record` datatype, the schema's
  validation (`WellFormed`: both required strings non-empty, the link trimmed),
  document construction (`NewDocument`: the `trim` setter and the `click_count`
  default of 0), and the `Url` collection as a class `UrlStore` holding a
  `map<string, Record>` keyed by `short_code`, with `Create`, `FindOne` and
  `Save`. The map's keys make `short_code` unique; `Create` refuses a code that
  is already stored. A ghost `log` records which store operations ran, so the
  contracts can say that a request did no lookup, tried exactly one insert, or
  saved before redirecting.
- `url_controller.dfy` (module `UrlController`) — `UrlRegister`, `Redirect`,
  the normalisation `NormalizeLink`, the scheme test `HasScheme` with an
  independent matcher `SchemeMatch` for the regular expression
  `/^https?:\/\//i`, and the shortened-URL format.
- `scenarios.dfy` (module `Scenarios`) — client methods whose assertions
  follow from the handlers' contracts alone: a registered link visited twice
  has been counted twice and redirects to its https form; the same link
  registered twice gives two records; a taken code fails the request and is
  not retried; blank links and missing or unknown codes are rejected.

Database failures are parameters: `unreachable` says that the round trip of a
store operation fails, and `RedirectFaults` says which of the lookup and the
save of a redirect fail. The generated code is a parameter too, required to
be six characters of the URL-safe alphabet `A-Za-z0-9_-`.

Two behaviours of the code are kept as written:

- A missing or empty `link` is answered with status 404 (as the code does),
  not with a 400-class validation status.
- A link made only of whitespace is truthy, so it passes the handler's own
  check. The schema's `trim` setter then empties it and the `required`
  validator refuses it, so the request ends in status 500 with no record
  stored.

## Model

| member | source | states |
|---|---|---|
| JsString.SkipForward | src/controller/url.controller.ts:53 | the first index at or after `i` that is not whitespace (or the end); every character skipped is whitespace |
| JsString.SkipBackward | src/controller/url.controller.ts:53 | the end of the part before `j` that does not end in whitespace; every character dropped is whitespace |
| JsString.Trim | src/controller/url.controller.ts:53 | the result has no whitespace at either end and is no longer than the input |
| JsString.TrimIsInfix | src/controller/url.controller.ts:53 | the result of `trim` is a contiguous part of the input, and everything removed before and after it is whitespace |
| JsString.TrimOfPadded | src/models/urlSchema.ts:13 | whitespace of any length around a trimmed string is exactly what `trim` removes: `Trim(p + t + q) == t` |
| JsString.TrimOfTrimmed | src/models/urlSchema.ts:13 | `trim` leaves a string with no whitespace at either end unchanged |
| JsString.TrimIdempotent | src/models/urlSchema.ts:13 | trimming twice gives the same as trimming once |
| JsString.IsWhitespace | src/controller/url.controller.ts:53 | the characters `trim` removes: ECMA-262's WhiteSpace and LineTerminator code points |
| JsString.AsciiLowerMatches | src/controller/url.controller.ts:54 | under the `i` flag a small ASCII letter of the pattern matches exactly itself and its capital, and a pattern character that is no ASCII letter matches only itself |
| UrlController.HasScheme | src/controller/url.controller.ts:54 | the link starts with `http://` or `https://`, ASCII letters compared without regard to case |
| UrlController.SchemeMatch | src/controller/url.controller.ts:54 | a match of `/^https?:\/\//i` has length 7 or 8 and ends in `://` |
| UrlController.HasSchemeMatches | src/controller/url.controller.ts:54 | a link starting with `http://` or `https://`, case ignored, is matched by the regular expression |
| UrlController.SchemeMatchHasScheme | src/controller/url.controller.ts:54 | a link matched by the regular expression starts with `http://` or `https://`, case ignored |
| UrlController.SchemeMatchIffHasScheme | src/controller/url.controller.ts:54 | the regular expression matches if and only if the case-insensitive prefix test holds |
| UrlController.HttpsPrefixed | src/controller/url.controller.ts:55 | `https://` put in front of a trimmed string gives a trimmed string that has a scheme and ends in the original |
| UrlController.NormalizeLink | src/controller/url.controller.ts:53-56 | the redirect target always has an http(s) scheme and no surrounding whitespace; it equals the trimmed link exactly when the trimmed link already has a scheme |
| UrlController.NormalizeLinkKeepsLink | src/controller/url.controller.ts:53-56 | the trimmed link is kept whole at the end of the target, with either nothing or `https://` in front of it |
| UrlController.NormalizeLinkIdempotent | src/controller/url.controller.ts:53-56 | normalising a normalised link returns it unchanged |
| UrlController.NormalizeStoredLink | src/controller/url.controller.ts:53-56 | a stored (trimmed) link is redirected to as it is when it has a scheme, and with `https://` in front otherwise |
| UrlController.IsFalsy | src/controller/url.controller.ts:16 | JavaScript falsiness of an optional string field (`!link`, and `!code` at line 38): absent or empty |
| UrlController.IsShortCode | src/controller/url.controller.ts:20 | what `nanoid(6)` returns: exactly six characters of the alphabet `A-Za-z0-9_-` |
| UrlController.ShortenedUrl | src/controller/url.controller.ts:28 | the reported URL: `http://localhost:5500/` followed by the code |
| UrlController.CodeOfUrl | src/controller/url.controller.ts:28 | the inverse of the URL format at line 28: what it returns is a non-empty segment without `/` that follows the base address |
| UrlController.CodeOfSegment | src/controller/url.controller.ts:28 | the inverse of the URL format at line 28 recovers every non-empty segment without `/` after the base address |
| UrlController.ShortenedUrlRoutesToCode | src/controller/url.controller.ts:20-28 | the shortened URL of a generated code parses back to exactly that code; such codes hold no `?`, `#`, `%` or `/`, on which Express routing and `CodeOfUrl` differ |
| UrlController.UrlRegister | src/controller/url.controller.ts:12-33 | falsy link: 404 with no store access; otherwise exactly one create attempt, no retry; 201 with `http://localhost:5500/<code>` and count 0 and exactly one new record `(trim(link), code, 0)` when the link is not blank, the store answers and the code is free; 500 and no change otherwise; existing records never change |
| UrlController.Redirect | src/controller/url.controller.ts:35-62 | falsy code: 400 with no store access; failed lookup: 500; unknown code: 404; in those cases no record changes; a known code is looked up then saved; if the save fails: 500, no change; otherwise that record's count goes up by exactly 1, nothing else changes, and the reply is a 302 redirect to the normalised link |
| UrlSchema.WellFormed | src/models/urlSchema.ts:13-15 | the schema's validation: link and code are non-empty (`required`) and the link has no surrounding whitespace (`trim`) |
| UrlSchema.NewDocument | src/models/urlSchema.ts:12-15 | a new document stores the link trimmed (`Trim(link)`), the given code, and the count 0 unless one is supplied |
| UrlSchema.Evolves | src/models/urlSchema.ts:12-18 | the life cycle of stored records: none disappears, none changes its link or code, no count goes down |
| UrlSchema.EvolvesTransitive | src/models/urlSchema.ts:12-18 | the life-cycle rule, kept by each request, holds across any sequence of requests |
| UrlSchema.UrlStore.constructor | src/models/urlSchema.ts:20 | the collection starts empty and valid |
| UrlSchema.UrlStore.Create | src/models/urlSchema.ts:12-18 | blank link or empty code: validation error; failed round trip: unavailable; code already stored: duplicate-key error; in every failure the store is unchanged; otherwise exactly the new document is added under its code |
| UrlSchema.UrlStore.FindOne | src/controller/url.controller.ts:44 | exact-match lookup by code: the stored record, none when the code is unknown, or an error when the round trip fails; no record changes |
| UrlSchema.UrlStore.Save | src/controller/url.controller.ts:52 | a valid fetched document overwrites the stored record with its code and nothing else; on a validation error, a failed round trip or a missing record the store is unchanged |

## Left out

- HTTP plumbing in `src/index.ts` (JSON body parser, CORS, route mounting, `listen`) is not modelled.
- CodeOfUrl: is only the inverse of the URL format at line 28, not Express's `/:code` routing. Express strips the query string, percent-decodes `req.params`, and without strict routing accepts a trailing slash. So `.../abc?x=1` routes to `abc`, `.../a%41` to `aA`, and `.../abc/` to `abc`, where `CodeOfUrl` gives `abc?x=1`, `a%41` and nothing. The two agree on URLs built from generated codes, which contain no `?`, `#`, `%` or `/`.
- The reported URL hard-codes `http://localhost:5500/` (line 28), while the server listens on the port named by `PORT_NUMBER` (src/index.ts:7). The routing round trip of `ShortenedUrlRoutesToCode` therefore describes the service only when it is served at that address.
- The database connection in `src/database/index.ts` and its environment configuration are not modelled. A failing round trip is a boolean parameter of each store operation.
- The randomness of `nanoid(6)` is not modelled. The code is an input required to be six URL-safe characters.
- The unguarded read-modify-write of `click_count` under concurrent redirects is not modelled. Each request is one atomic sequential step.
- The `createdAt`/`updatedAt` timestamps (`timestamps: true`) are not modelled.
- `console.log`/`console.error` output and the unused `inspector` import are left out as I/O.
- Only a string or absent `link` field is modelled. A `link` field holding another JSON value (a number, a boolean, an object) and Mongoose's casting of it are not. A `null` or undefined request body fails the destructuring at line 13, outside the `try`; that path is not modelled. A JSON number, string or boolean body (the parser runs with `strict: false`) destructures to an undefined `link`, which is the model's `None`.
- JavaScript strings are UTF-16 code units and Dafny `char` is a Unicode scalar value, so strings with unpaired surrogates cannot be expressed. Every whitespace code point lies in the BMP, so `trim` agrees on every other string.
- `click_count` is an unbounded integer. JavaScript numbers are doubles and lose precision past 2^53.
- How Express encodes the `Location` header of a redirect and what body it sends are not modelled. The redirect reply carries status 302 and the normalised link.
- Mongoose's `save` sends only the modified paths, while `UrlStore.Save` writes back the whole document. The two agree here because a redirect changes only `click_count` on a document it just read.
