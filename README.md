# Ona-Prox worker, modelled in Dafny

Ona-Prox is a Cloudflare Worker that proxies images. Its whole behaviour is in
`src/index.ts`, and this project models that file:

- **Target rewrite.** The first non-empty `/`-separated segment of the request
  path picks the upstream. A segment `~host` sends the request to `host`. The
  worker removes the first `/~host` from the path and passes the caller's
  `Referer` on. Any other path goes to `i.pximg.net` with
  `Referer: https://pixiv.net`.
- **CORS.** `setCorsHeaders` grants credentialed access to any non-empty
  origin except the blocked `http://blacked.com`. It always sets
  `Vary: Origin`. This follows the CORS protocol in section 3.2 of the WHATWG
  Fetch Standard and the `Vary` rule in section 12.5.5 of RFC 9110.
- **Responses.** An `OPTIONS` request gets a 204 preflight answer built by the
  worker itself. Any other request is forwarded. The upstream response comes
  back with its status and body. Its headers get the CORS update and an
  `Access-Control-Expose-Headers` list.

Modules, leaf first:

- `Wrappers` (wrappers.dfy): `Option`, standing for JavaScript's `null`.
- `JsStrings` (js_strings.dfy): the ECMAScript meaning of `split`,
  `filter(Boolean)`, `indexOf`, `replace` with a string pattern, `startsWith`,
  `slice` and string truthiness.
- `FetchHeaders` (fetch_headers.dfy): the Fetch Standard `Headers` object.
  Names are compared after ASCII lower-casing and stored in lower case. `Headers`
  is a class whose `Set` updates its `entries` map in place.
- `Cors` (cors.dfy): `CorsUpdate` is the specification of
  `setCorsHeaders`, and `SetCorsHeaders` is the in-place method proved
  against it.
- `Target` (target.dfy): `Rewrite`, proved against an independent
  decomposition of the path: leading slashes, then a run without slashes.
- `Worker` (worker.dfy): the handler. `IsPreflightResponse` and
  `IsProxiedResponse` state what each branch promises. `Preflight`, `Proxy`
  and `Fetch` are proved to meet them.

One as-written behaviour is worth knowing. When the first segment has no `~`,
the worker still removes the first `/~i.pximg.net` anywhere in the path. So
`/a/~i.pximg.net/b` is forwarded to `i.pximg.net` as `/a/b`.
`RewriteToDefaultHost` states this behaviour exactly.

## Model

| member | source | states |
|---|---|---|
| `JsStrings.Split` | src/index.ts:28 | `split('/')` always gives at least one piece, and no piece contains the separator |
| `JsStrings.JoinSplit` | src/index.ts:28 | joining the pieces of a split with the separator gives back the original string |
| `JsStrings.SplitJoin` | src/index.ts:28 | splitting a join of separator-free pieces gives back exactly those pieces, so split and join are inverses |
| `JsStrings.NonEmpty` | src/index.ts:28 | `filter(Boolean)` keeps exactly the non-empty pieces and never adds any |
| `JsStrings.NonEmptyAppend` | src/index.ts:28 | filtering a concatenation is the concatenation of the filtered parts, so `filter(Boolean)` keeps the non-empty pieces in their order and number |
| `JsStrings.NonEmptySingle` | src/index.ts:28 | one piece survives the filter exactly when it is non-empty |
| `JsStrings.IndexOf` | src/index.ts:36 | a found index is an occurrence with no earlier one, and "not found" holds exactly when the pattern occurs nowhere |
| `JsStrings.ReplaceFirst` | src/index.ts:36 | `replace` with a string pattern leaves the string alone when the pattern is absent, and otherwise replaces only the first occurrence |
| `JsStrings.SliceFrom` | src/index.ts:37 | `slice(n)` drops the first `n` characters and keeps the rest in order; it gives the empty string past the end |
| `FetchHeaders.With` | src/index.ts:7-10 | after `set(name, v)`, `name` reads `v` in any letter case, every other name reads as before, and names stay lower-case |
| `FetchHeaders.Headers.constructor` | src/index.ts:17 | `new Headers()` starts empty |
| `FetchHeaders.Headers.Copy` | src/index.ts:44 | `new Headers(res.headers)` starts with exactly the upstream headers |
| `FetchHeaders.Headers.Set` | src/index.ts:7-10 | the object's entries become the `With` update of their old value |
| `FetchHeaders.GetDetermines` | src/index.ts:44-47 | two header maps that give the same answer for every name are equal |
| `Cors.CorsUpdate` | src/index.ts:1-11 | `Vary` is always `Origin`. `Access-Control-Allow-Origin` is the origin and `Access-Control-Allow-Credentials` is `true` exactly when the origin is non-null, non-empty and not blocked; otherwise both keep their old values. All other names are unchanged |
| `Cors.SetCorsHeaders` | src/index.ts:5-11 | updates the headers object in place to the `CorsUpdate` of its old entries |
| `Cors.CorsUpdateIdempotent` | src/index.ts:5-11 | applying the CORS update a second time changes nothing |
| `Target.FirstSegment` | src/index.ts:28 | a chosen segment is non-empty and contains no `/` |
| `Target.AllSlashesNoSegment` | src/index.ts:28 | a path made only of slashes, including `/` and the empty path, has no segment |
| `Target.FirstSegmentOf` | src/index.ts:28 | in any path of the form slashes + slash-free run + (end or `/`…), that run is the chosen segment |
| `Target.FirstSegmentSpec` | src/index.ts:28 | there is no segment exactly when the path is all slashes; otherwise the segment is the run after the leading slashes, up to the next `/` |
| `Target.Rewrite` | src/index.ts:28-37 | the upstream hostname never contains `/` |
| `Target.RewriteToNamedHost` | src/index.ts:28-37 | for a first segment `~host`, the hostname is `host` (one character shorter than the segment) and the referer is the caller's, null included. For a path starting with `/`, the upstream path is the inbound path without that `/~host` |
| `Target.RewriteToDefaultHost` | src/index.ts:28-37 | for no segment, or a first segment without `~`, the hostname is `i.pximg.net` and the referer is `https://pixiv.net` whatever the caller sent. The path is unchanged if it lacks `/~i.pximg.net`, and otherwise loses only the first occurrence |
| `Worker.OutboundFor` | src/index.ts:29-43 | the forwarded request keeps the inbound method and body, and its init headers contain nothing but `Referer` |
| `Worker.OutboundToDefaultHost` | src/index.ts:29-42 | without a `~` segment the request goes to `i.pximg.net` with `Referer: https://pixiv.net` |
| `Worker.OutboundToNamedHost` | src/index.ts:29-42 | with a `~host` segment the request goes to `host`. It carries the caller's `Referer` if that is non-empty, and no `Referer` otherwise |
| `Worker.Preflight` | src/index.ts:15-23 | an `OPTIONS` answer is 204 with a null body. It carries `Access-Control-Allow-Methods: GET,HEAD,POST,OPTIONS` and `Access-Control-Max-Age: 86400`. It echoes `Access-Control-Request-Headers` only when that is present and non-empty. It carries the CORS grant only for an allowed origin, always `Vary: Origin`, and no other header |
| `Worker.Proxy` | src/index.ts:44-47 | a forwarded answer keeps the upstream status, body and headers, plus the CORS update, plus `Access-Control-Expose-Headers: Content-Length,Content-Type,Cache-Control,ETag,Accept-Ranges` |
| `Worker.Fetch` | src/index.ts:14-48 | an `OPTIONS` request gets the preflight answer. Any other request gets the proxied answer to the upstream response for `OutboundFor(request)` |
| `Worker.PreflightResponseUnique` | src/index.ts:16-23 | the preflight promise fixes the whole response, given the origin and the requested headers |
| `Worker.ProxiedResponseUnique` | src/index.ts:44-47 | the proxied promise fixes the whole response, given the origin and the upstream response |

## Left out

- URL parsing and the URL setters (src/index.ts:26, 36-37) are not modelled. The model takes the already-parsed pathname as a raw string and returns the raw strings assigned to `url.pathname` and `url.hostname`. The setters' normalisation is not modelled: an empty pathname becoming `/`, host lower-casing, and an empty or invalid hostname being ignored (for example after a bare `~` segment).
- The network fetch and body streaming (src/index.ts:39-43, 47) are not modelled. The fetch is the parameter `upstream` of `Worker.Fetch`, and a body is an opaque token passed through unchanged. Redirect handling is not modelled.
- `Worker.OutboundFor`: its `headers` are the whole header list of the forwarded request. Under the Fetch Standard's `Request` constructor, a `headers` member in the init replaces the copied header list. That holds even when it is `{}`. So no inbound header is forwarded except, at most, `Referer`.
- `Worker.OutboundFor`: only the hostname and pathname of the outbound URL are modelled (src/index.ts:36-37). The scheme, port, credentials, query string and fragment of the inbound URL pass through unchanged and are not modelled. For example, `?w=100` is forwarded as it is.
- `Worker.Fetch`: requires the request's `headers` map to be normalised, with lower-case names. This holds for every header list read through `Headers`.
- `Response` construction checks are not modelled: the status range and bodies on null-body statuses. The status text is also missing, because the source does not pass it on.
- `FetchHeaders.With`: does not model the `Headers` object's value normalisation (trimming of HTTP whitespace) or its rejection of invalid names and values. Every value set here is a literal or a value read back from a `Headers` object, so neither applies.
- `FetchHeaders.Headers.Copy`: requires that the upstream headers are already normalised. This always holds for a `Headers` object, and keeps the model from having to combine duplicate names.
- Strings are sequences of `char`, standing for JavaScript's UTF-16 code units. The `OPTIONS` test is exact string equality, as `===` is.
- The async handler shape, the `Env` and `ExecutionContext` parameters and the `satisfies ExportedHandler` typing (src/index.ts:14, 49) are Worker plumbing with no behaviour. `eslint.config.js` is lint configuration and is not part of this model.
