/** The authentication middleware (internal/middleware/auth.go) for one
    request. Token validation is the function value `validate`, in the
    system the auth service's `ValidateAccessToken`, returning the user ID
    or some error. */
module AuthGate {

  import opened Wrappers
  import opened Strings
  import opened Http

  /** `UserIDKey`. */
  const UserIdKey := "userID"

  const MissingHeader := "missing authorization header"
  const BadHeaderFormat := "invalid authorization header format"
  const BadToken := "invalid or expired token"

  datatype GateResult =
    | Forward(request: Request)               // next.ServeHTTP with this request
    | Reject(status: int, message: string)    // http.Error; next is not called

  /** GET and OPTIONS pass without authentication. */
  predicate IsSafe(httpMethod: string)
  {
    httpMethod == MethodGet || httpMethod == MethodOptions
  }

  /** The header is "Bearer ", then a token with no space in it (possibly
      empty). */
  predicate WellFormedBearer(header: string)
  {
    |header| >= 7 && header[..7] == "Bearer " && ' ' !in header[7..]
  }

  /** The token the middleware extracts: `strings.Split(header, " ")` must
      give exactly two parts, the first exactly "Bearer"; the token is the
      second part. */
  function BearerToken(header: string): (token: Option<string>)
    ensures token.Some? ==> header == "Bearer " + token.value && ' ' !in token.value
  {
    var parts := Split(header, ' ');
    if |parts| != 2 || parts[0] != "Bearer" then None
    else
      assert parts == ["Bearer", parts[1]];
      assert header == "Bearer" + [' '] + parts[1] && ' ' !in parts[1] by {
        SplitIsPair(header, ' ', "Bearer", parts[1]);
      }
      Some(parts[1])
  }

  /** The split-based check accepts exactly the well-formed headers, and the
      token is everything after "Bearer ". */
  lemma BearerTokenShape(header: string)
    ensures BearerToken(header) == if WellFormedBearer(header) then Some(header[7..]) else None
  {
    var parts := Split(header, ' ');
    if WellFormedBearer(header) {
      assert header == "Bearer" + [' '] + header[7..];
      SplitIsPair(header, ' ', "Bearer", header[7..]);
    } else if |parts| == 2 && parts[0] == "Bearer" {
      assert parts == ["Bearer", parts[1]];
      SplitIsPair(header, ' ', "Bearer", parts[1]);
      assert false;
    }
  }

  /** Malformed and well-formed Authorization headers. */
  lemma BearerTokenExamples()
    ensures BearerToken("Bearer") == None
    ensures BearerToken("Token abc") == None
    ensures BearerToken("bearer abc") == None
    ensures BearerToken("Bearer  abc") == None
    ensures BearerToken("Bearer abc") == Some("abc")
    ensures BearerToken("Bearer ") == Some("")
  {
    BearerTokenShape("Bearer");
    BearerTokenShape("Token abc");
    assert "Token abc"[..7][0] != "Bearer "[0];
    BearerTokenShape("bearer abc");
    assert "bearer abc"[..7][0] != "Bearer "[0];
    BearerTokenShape("Bearer  abc");
    assert "Bearer  abc"[7..] == " abc";
    BearerTokenShape("Bearer abc");
    assert "Bearer abc"[7..] == "abc";
    BearerTokenShape("Bearer ");
  }

  /** The handler `Auth(authService)(next)` applied to request `r`. */
  function Gate<E>(validate: string -> Result<string, E>, r: Request): (out: GateResult)
    ensures IsSafe(r.httpMethod) ==> out == Forward(r)
    ensures out.Reject? ==> !IsSafe(r.httpMethod) && out.status == StatusUnauthorized
    ensures out.Forward? && !IsSafe(r.httpMethod) ==>
              && BearerToken(HeaderGet(r.header, "Authorization")).Some?
              && validate(BearerToken(HeaderGet(r.header, "Authorization")).value) == Ok(GetUserID(out.request))
              && out.request == r.(ctx := r.ctx[UserIdKey := GetUserID(out.request)])
  {
    if IsSafe(r.httpMethod) then Forward(r)
    else
      var header := HeaderGet(r.header, "Authorization");
      if header == "" then Reject(StatusUnauthorized, MissingHeader)
      else
        match BearerToken(header)
        case None => Reject(StatusUnauthorized, BadHeaderFormat)
        case Some(token) =>
          match validate(token)
          case Err(_) => Reject(StatusUnauthorized, BadToken)
          case Ok(userId) => Forward(r.(ctx := r.ctx[UserIdKey := userId]))
  }

  /** `GetUserID`: the user ID the gate attached, or "" if none was. */
  function GetUserID(r: Request): (userId: string)
    ensures UserIdKey !in r.ctx ==> userId == ""
    ensures UserIdKey in r.ctx ==> userId == r.ctx[UserIdKey]
  {
    if UserIdKey in r.ctx then r.ctx[UserIdKey] else ""
  }

  /** Any other method without an Authorization header is refused before the
      header is parsed. */
  lemma GateMissingHeader<E>(validate: string -> Result<string, E>, r: Request)
    requires !IsSafe(r.httpMethod) && HeaderGet(r.header, "Authorization") == ""
    ensures Gate(validate, r) == Reject(StatusUnauthorized, MissingHeader)
  {
  }

  /** A present header is refused for its format exactly when it is not
      "Bearer " followed by a space-free token; validation is never reached. */
  lemma GateFormat<E>(validate: string -> Result<string, E>, r: Request)
    requires !IsSafe(r.httpMethod) && HeaderGet(r.header, "Authorization") != ""
    ensures Gate(validate, r) == Reject(StatusUnauthorized, BadHeaderFormat)
            <==> !WellFormedBearer(HeaderGet(r.header, "Authorization"))
  {
    var header := HeaderGet(r.header, "Authorization");
    BearerTokenShape(header);
  }

  /** A well-formed header hands everything after "Bearer " to validation;
      every validation error, whatever it is, becomes the same 401, and
      success forwards the request with exactly the validated user ID
      attached. */
  lemma GateValidates<E>(validate: string -> Result<string, E>, r: Request)
    requires !IsSafe(r.httpMethod)
    requires WellFormedBearer(HeaderGet(r.header, "Authorization"))
    ensures var token := HeaderGet(r.header, "Authorization")[7..];
            && (validate(token).Err? ==> Gate(validate, r) == Reject(StatusUnauthorized, BadToken))
            && (validate(token).Ok? ==> Gate(validate, r).Forward?
                                        && GetUserID(Gate(validate, r).request) == validate(token).value)
  {
    BearerTokenShape(HeaderGet(r.header, "Authorization"));
  }
}
