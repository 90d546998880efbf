/** The slice of net/http the two middlewares touch: a request's method,
    headers and context values, and a header map's `Get`. Header names are
    in their canonical form. */
module Http {

  const MethodGet := "GET"
  const MethodOptions := "OPTIONS"
  const StatusUnauthorized := 401

  type Header = map<string, string>

  /** `Header.Get`: the value, or "" when the header is absent. */
  function HeaderGet(h: Header, name: string): string
  {
    if name in h then h[name] else ""
  }

  /** An inbound request; `ctx` holds the string values stored in its
      context under the middleware package's private key type. */
  datatype Request = Request(httpMethod: string, header: Header, ctx: map<string, string>)
}
