/**
 * The worker's `fetch` handler (src/index.ts): answer a CORS preflight
 * itself, or forward the request to the rewritten target and hand the
 * upstream response back with CORS headers added.
 */
module Worker {
  import opened Wrappers
  import opened JsStrings
  import opened FetchHeaders
  import opened Cors
  import opened Target

  const OriginName := "Origin"
  const RefererName := "Referer"
  const RequestHeadersName := "Access-Control-Request-Headers"
  const AllowMethodsName := "Access-Control-Allow-Methods"
  const AllowHeadersName := "Access-Control-Allow-Headers"
  const MaxAgeName := "Access-Control-Max-Age"
  const ExposeHeadersName := "Access-Control-Expose-Headers"

  const AllowedMethods := "GET,HEAD,POST,OPTIONS"
  const MaxAgeSeconds := "86400"
  const ExposedHeaders := "Content-Length,Content-Type,Cache-Control,ETag,Accept-Ranges"

  /** A body stream, passed through untouched; `NullBody` is `null`. */
  datatype Body = NullBody | Stream(id: nat)

  /** An inbound request: its method, the pathname of its URL, its headers
      (names in lower case, as `FetchHeaders.Normalized` says). */
  datatype Request = Request(httpMethod: string, pathname: string, headers: map<string, string>, body: Body)

  /** A response, upstream or returned to the caller. */
  datatype Response = Response(status: int, headers: map<string, string>, body: Body)

  /** The request the worker sends upstream: the inbound method and body, to
      the rewritten host and path, with the headers given in its init. */
  datatype Outbound = Outbound(httpMethod: string, hostname: string, pathname: string, headers: map<string, string>, body: Body)

  /** The names a preflight response may carry. */
  predicate IsPreflightName(n: string)
  {
    || IsCorsName(n)
    || Lower(n) == Lower(AllowMethodsName)
    || Lower(n) == Lower(AllowHeadersName)
    || Lower(n) == Lower(MaxAgeName)
  }

  /** What the worker promises a preflight: 204 with no body, the allowed
      methods and max age, the requested headers echoed back when there are
      any, the CORS grant for an allowed origin, `Vary: Origin`, nothing else. */
  ghost predicate IsPreflightResponse(origin: Option<string>, requested: Option<string>, r: Response)
  {
    && r.status == 204
    && r.body == NullBody
    && Normalized(r.headers)
    && Get(r.headers, AllowMethodsName) == Some(AllowedMethods)
    && Get(r.headers, MaxAgeName) == Some(MaxAgeSeconds)
    && Get(r.headers, AllowHeadersName) == (if Truthy(requested) then requested else None)
    && Get(r.headers, VaryName) == Some("Origin")
    && Get(r.headers, AllowOriginName) == (if OriginAllowed(origin) then origin else None)
    && Get(r.headers, AllowCredentialsName) == (if OriginAllowed(origin) then Some("true") else None)
    && forall n :: !IsPreflightName(n) ==> Get(r.headers, n) == None
  }

  /** What the worker promises of a forwarded response: the upstream status,
      body and headers, with the CORS update and the exposed-headers list. */
  ghost predicate IsProxiedResponse(origin: Option<string>, upstream: Response, r: Response)
  {
    && r.status == upstream.status
    && r.body == upstream.body
    && Normalized(r.headers)
    && Get(r.headers, ExposeHeadersName) == Some(ExposedHeaders)
    && Get(r.headers, VaryName) == Some("Origin")
    && Get(r.headers, AllowOriginName) == (if OriginAllowed(origin) then origin else Get(upstream.headers, AllowOriginName))
    && Get(r.headers, AllowCredentialsName) == (if OriginAllowed(origin) then Some("true") else Get(upstream.headers, AllowCredentialsName))
    && forall n :: !IsCorsName(n) && Lower(n) != Lower(ExposeHeadersName) ==> Get(r.headers, n) == Get(upstream.headers, n)
  }

  lemma NamesDistinct()
    ensures Lower(AllowMethodsName) != Lower(AllowHeadersName)
    ensures Lower(AllowMethodsName) != Lower(MaxAgeName) && Lower(AllowHeadersName) != Lower(MaxAgeName)
    ensures !IsCorsName(AllowMethodsName) && !IsCorsName(AllowHeadersName) && !IsCorsName(MaxAgeName)
    ensures !IsCorsName(ExposeHeadersName)
  {
    assert Lower(AllowMethodsName)[21] == 'm' && Lower(AllowHeadersName)[21] == 'h';
  }

  /** The OPTIONS branch of the handler (lines 16-23). */
  method Preflight(request: Request, origin: Option<string>) returns (response: Response)
    ensures IsPreflightResponse(origin, Get(request.headers, RequestHeadersName), response)
  {
    NamesDistinct();
    var headers := new Headers();
    SetCorsHeaders(headers, origin);
    headers.Set(AllowMethodsName, AllowedMethods);
    var requested := Get(request.headers, RequestHeadersName);
    if Truthy(requested) {
      headers.Set(AllowHeadersName, requested.value);
    }
    headers.Set(MaxAgeName, MaxAgeSeconds);
    response := Response(204, headers.entries, NullBody);
  }

  /** The forwarded request (lines 26-43): the rewritten target, with a
      `Referer` header only when the chosen referer is non-empty. The init
      headers replace the copied ones, so `headers` is the whole list. */
  function OutboundFor(request: Request): (o: Outbound)
    ensures o.httpMethod == request.httpMethod && o.body == request.body
    ensures forall n :: Lower(n) != Lower(RefererName) ==> Get(o.headers, n) == None
  {
    var t := Rewrite(request.pathname, Get(request.headers, RefererName));
    var init := if Truthy(t.referer) then With(map[], RefererName, t.referer.value) else map[];
    Outbound(request.httpMethod, t.hostname, t.pathname, init, request.body)
  }

  /** The response branch of the handler (lines 44-47). */
  method Proxy(upstream: Response, origin: Option<string>) returns (response: Response)
    requires Normalized(upstream.headers)
    ensures IsProxiedResponse(origin, upstream, response)
  {
    NamesDistinct();
    var headers := new Headers.Copy(upstream.headers);
    SetCorsHeaders(headers, origin);
    headers.Set(ExposeHeadersName, ExposedHeaders);
    response := Response(upstream.status, headers.entries, upstream.body);
  }

  /** The handler: `upstream` stands for the network fetch of the outbound request. */
  method Fetch(request: Request, upstream: Outbound -> Response) returns (response: Response)
    requires Normalized(request.headers)
    requires request.httpMethod != "OPTIONS" ==> Normalized(upstream(OutboundFor(request)).headers)
    ensures request.httpMethod == "OPTIONS" ==>
              IsPreflightResponse(Get(request.headers, OriginName), Get(request.headers, RequestHeadersName), response)
    ensures request.httpMethod != "OPTIONS" ==>
              IsProxiedResponse(Get(request.headers, OriginName), upstream(OutboundFor(request)), response)
  {
    var origin := Get(request.headers, OriginName);
    if request.httpMethod == "OPTIONS" {
      response := Preflight(request, origin);
      return;
    }
    var res := upstream(OutboundFor(request));
    response := Proxy(res, origin);
  }

  /** A preflight answer is fully determined by the origin and the requested headers. */
  lemma {:induction false} PreflightResponseUnique(origin: Option<string>, requested: Option<string>, r1: Response, r2: Response)
    requires IsPreflightResponse(origin, requested, r1) && IsPreflightResponse(origin, requested, r2)
    ensures r1 == r2
  {
    forall n ensures Get(r1.headers, n) == Get(r2.headers, n) {
      if Lower(n) == Lower(AllowMethodsName) {
        assert Get(r1.headers, n) == Get(r1.headers, AllowMethodsName) && Get(r2.headers, n) == Get(r2.headers, AllowMethodsName);
      } else if Lower(n) == Lower(AllowHeadersName) {
        assert Get(r1.headers, n) == Get(r1.headers, AllowHeadersName) && Get(r2.headers, n) == Get(r2.headers, AllowHeadersName);
      } else if Lower(n) == Lower(MaxAgeName) {
        assert Get(r1.headers, n) == Get(r1.headers, MaxAgeName) && Get(r2.headers, n) == Get(r2.headers, MaxAgeName);
      } else if Lower(n) == Lower(VaryName) {
        assert Get(r1.headers, n) == Get(r1.headers, VaryName) && Get(r2.headers, n) == Get(r2.headers, VaryName);
      } else if Lower(n) == Lower(AllowOriginName) {
        assert Get(r1.headers, n) == Get(r1.headers, AllowOriginName) && Get(r2.headers, n) == Get(r2.headers, AllowOriginName);
      } else if Lower(n) == Lower(AllowCredentialsName) {
        assert Get(r1.headers, n) == Get(r1.headers, AllowCredentialsName) && Get(r2.headers, n) == Get(r2.headers, AllowCredentialsName);
      }
    }
    GetDetermines(r1.headers, r2.headers);
  }

  /** A forwarded answer is fully determined by the origin and the upstream response. */
  lemma {:induction false} ProxiedResponseUnique(origin: Option<string>, upstream: Response, r1: Response, r2: Response)
    requires IsProxiedResponse(origin, upstream, r1) && IsProxiedResponse(origin, upstream, r2)
    ensures r1 == r2
  {
  }

  /** Without a `~` first segment the request goes to `i.pximg.net` with
      `Referer: https://pixiv.net`, whatever the caller sent. */
  lemma {:induction false} OutboundToDefaultHost(request: Request)
    requires var p := request.pathname; LeadingSlashes(p) == |p| || p[LeadingSlashes(p)] != '~'
    ensures var o := OutboundFor(request);
            o.hostname == "i.pximg.net" && Get(o.headers, RefererName) == Some(DefaultReferer)
  {
    RewriteToDefaultHost(request.pathname, Get(request.headers, RefererName));
  }

  /** With a `~host` first segment the request goes to `host` and carries the
      caller's `Referer` when it sent a non-empty one, and no `Referer` otherwise. */
  lemma {:induction false} OutboundToNamedHost(request: Request)
    requires var p := request.pathname; LeadingSlashes(p) < |p| && p[LeadingSlashes(p)] == '~'
    ensures var p := request.pathname;
            var k := LeadingSlashes(p);
            var o := OutboundFor(request);
            var inbound := Get(request.headers, RefererName);
            && o.hostname == p[k + 1..k + RunLength(p[k..])]
            && Get(o.headers, RefererName) == (if Truthy(inbound) then inbound else None)
  {
    RewriteToNamedHost(request.pathname, Get(request.headers, RefererName));
  }
}
