/** The CORS middleware (internal/middleware/cors.go) for one request. */
module Cors {

  import opened Http

  const AllowOriginHeader := "Access-Control-Allow-Origin"
  const AllowMethodsHeader := "Access-Control-Allow-Methods"
  const AllowHeadersHeader := "Access-Control-Allow-Headers"
  const AllowCredentialsHeader := "Access-Control-Allow-Credentials"

  const AllowedMethods := "GET, POST, PUT, DELETE, OPTIONS"
  const AllowedHeaders := "Content-Type, Authorization"

  /** Some configured origin is the request's origin or the wildcard "*". */
  predicate OriginListed(origins: seq<string>, origin: string)
  {
    exists k :: 0 <= k < |origins| && (origins[k] == origin || origins[k] == "*")
  }

  /** The search loop of `CORS`: stops at the first configured origin that
      matches or is "*". */
  method OriginAllowed(origins: seq<string>, origin: string) returns (allowed: bool)
    ensures allowed <==> OriginListed(origins, origin)
  {
    allowed := false;
    var i := 0;
    while i < |origins|
      invariant 0 <= i <= |origins|
      invariant !allowed
      invariant forall k :: 0 <= k < i ==> origins[k] != origin && origins[k] != "*"
    {
      if origins[i] == origin || origins[i] == "*" {
        allowed := true;
        break;
      }
      i := i + 1;
    }
  }

  /** What the middleware does with the request: answer 204 itself, or hand
      it to the next handler; either way with these response headers. */
  datatype CorsResult = NoContent(headers: Header) | Next(headers: Header)

  /** One request through `CORS(origins)`; `response` holds the response
      headers already set. Allow-Origin echoes the request's own origin when
      it is allowed (also when only "*" matched), falls back to the first
      configured origin otherwise, and is left alone when the list is empty.
      The three other CORS headers are always set; no other header changes.
      OPTIONS is answered with 204 and goes no further. */
  method Handle(origins: seq<string>, request: Request, response: Header) returns (out: CorsResult)
    ensures out.NoContent? <==> request.httpMethod == MethodOptions
    ensures var origin := HeaderGet(request.header, "Origin");
            OriginListed(origins, origin) ==> AllowOriginHeader in out.headers && out.headers[AllowOriginHeader] == origin
    ensures var origin := HeaderGet(request.header, "Origin");
            !OriginListed(origins, origin) && |origins| > 0 ==>
              AllowOriginHeader in out.headers && out.headers[AllowOriginHeader] == origins[0]
    ensures |origins| == 0 ==>
              (AllowOriginHeader in out.headers <==> AllowOriginHeader in response)
              && (AllowOriginHeader in response ==> out.headers[AllowOriginHeader] == response[AllowOriginHeader])
    ensures AllowMethodsHeader in out.headers && out.headers[AllowMethodsHeader] == AllowedMethods
    ensures AllowHeadersHeader in out.headers && out.headers[AllowHeadersHeader] == AllowedHeaders
    ensures AllowCredentialsHeader in out.headers && out.headers[AllowCredentialsHeader] == "true"
    ensures forall name :: name !in {AllowOriginHeader, AllowMethodsHeader, AllowHeadersHeader, AllowCredentialsHeader} ==>
              (name in out.headers <==> name in response) && (name in response ==> out.headers[name] == response[name])
  {
    var origin := HeaderGet(request.header, "Origin");
    var allowed := OriginAllowed(origins, origin);
    var headers := response;
    if allowed {
      headers := headers[AllowOriginHeader := origin];
    } else if |origins| > 0 {
      headers := headers[AllowOriginHeader := origins[0]];
    }
    headers := headers[AllowMethodsHeader := AllowedMethods];
    headers := headers[AllowHeadersHeader := AllowedHeaders];
    headers := headers[AllowCredentialsHeader := "true"];
    if request.httpMethod == MethodOptions {
      return NoContent(headers);
    }
    return Next(headers);
  }
}
