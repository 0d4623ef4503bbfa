/**
 * The worker's CORS decision (`setCorsHeaders` in src/index.ts): the CORS
 * protocol of section 3.2 of the WHATWG Fetch Standard, with `Vary: Origin`
 * as section 12.5.5 of RFC 9110 asks of a response that depends on `Origin`.
 */
module Cors {
  import opened Wrappers
  import opened JsStrings
  import opened FetchHeaders

  const AllowOriginName := "Access-Control-Allow-Origin"
  const AllowCredentialsName := "Access-Control-Allow-Credentials"
  const VaryName := "Vary"

  /** The origins that never get CORS access. */
  const BlockedOrigins: set<string> := {"http://blacked.com"}

  /** The guard of `setCorsHeaders`: a non-empty origin that is not blocked. */
  predicate OriginAllowed(origin: Option<string>)
  {
    Truthy(origin) && origin.value !in BlockedOrigins
  }

  /** One of the three names `setCorsHeaders` may write, in any case. */
  predicate IsCorsName(n: string)
  {
    Lower(n) == Lower(AllowOriginName) || Lower(n) == Lower(AllowCredentialsName) || Lower(n) == Lower(VaryName)
  }

  lemma CorsNamesDistinct()
    ensures Lower(AllowOriginName) != Lower(AllowCredentialsName)
    ensures Lower(AllowOriginName) != Lower(VaryName)
    ensures Lower(AllowCredentialsName) != Lower(VaryName)
  {
  }

  /** The headers after `setCorsHeaders(headers, origin)`. */
  function CorsUpdate(m: map<string, string>, origin: Option<string>): (r: map<string, string>)
    ensures Normalized(m) ==> Normalized(r)
    ensures Get(r, VaryName) == Some("Origin")
    ensures Get(r, AllowOriginName) == if OriginAllowed(origin) then origin else Get(m, AllowOriginName)
    ensures Get(r, AllowCredentialsName) == if OriginAllowed(origin) then Some("true") else Get(m, AllowCredentialsName)
    ensures forall n :: !IsCorsName(n) ==> Get(r, n) == Get(m, n)
  {
    CorsNamesDistinct();
    var granted := if OriginAllowed(origin)
      then With(With(m, AllowOriginName, origin.value), AllowCredentialsName, "true")
      else m;
    With(granted, VaryName, "Origin")
  }

  /** `setCorsHeaders(headers, origin)`: grant the origin credentialed access
      unless it is missing, empty or blocked, and always mark the response as
      varying by `Origin`. */
  method SetCorsHeaders(headers: Headers, origin: Option<string>)
    requires headers.Valid()
    modifies headers
    ensures headers.Valid() && headers.entries == CorsUpdate(old(headers.entries), origin)
  {
    if Truthy(origin) && origin.value !in BlockedOrigins {
      headers.Set(AllowOriginName, origin.value);
      headers.Set(AllowCredentialsName, "true");
    }
    headers.Set(VaryName, "Origin");
  }

  /** Running the update twice changes nothing more: a response that already
      carries the proxy's CORS headers keeps them as they are. */
  lemma {:induction false} CorsUpdateIdempotent(m: map<string, string>, origin: Option<string>)
    requires Normalized(m)
    ensures CorsUpdate(CorsUpdate(m, origin), origin) == CorsUpdate(m, origin)
  {
  }
}
