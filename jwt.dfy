/** A symbolic model of the parts of golang-jwt/jwt v5 that the auth service
    uses: signing a claims map with HS256 and parsing a token string with a
    key function and the library's default claim validation.

    A token is modelled by what it carries rather than by its compact
    `header.payload.signature` text: the algorithm named in its header, its
    claims, and the key its signature was computed with. Any string that is
    not a well-formed signed token is `Malformed`. HMAC itself is not
    modelled; the one property used from it is that a signature verifies
    exactly under the key that produced it. */
module Jwt {

  import opened Wrappers
  import opened Models

  /** The `alg` header values a token may name. */
  datatype Alg = HS256 | HS384 | HS512 | RS256 | ES256 | EdDSA | NoneAlg

  /** `token.Method.(*jwt.SigningMethodHMAC)` succeeds. */
  predicate IsHmac(a: Alg)
  {
    a.HS256? || a.HS384? || a.HS512?
  }

  /** A JSON claim value: only strings and numbers occur in this system. */
  datatype ClaimValue = Str(s: string) | Num(n: int)

  /** `jwt.MapClaims`. */
  type Claims = map<string, ClaimValue>

  datatype Token = Signed(alg: Alg, claims: Claims, key: string) | Malformed(raw: string)

  /** The library's parse failures, one per `ErrToken...` sentinel that
      `errors.Is` finds in the returned error. The three time-claim failures
      come back wrapped in `ErrTokenInvalidClaims`, so their text reads
      "token has invalid claims: " followed by the sentinel's own text. */
  datatype JwtError =
    | TokenMalformed      // not a compact JWS
    | TokenUnverifiable   // the key function refused: "invalid signing method"
    | SignatureInvalid    // signature does not verify under the supplied key
    | TokenInvalidClaims  // a registered time claim is not a number
    | TokenExpired        // now is not before "exp"
    | TokenNotValidYet    // now is before "nbf"

  /** `jwt.NewWithClaims(jwt.SigningMethodHS256, claims).SignedString(key)`;
      signing with a byte-slice key does not fail. */
  function Sign(claims: Claims, key: string): (t: Token)
    ensures t.Signed? && t.alg == HS256 && IsHmac(t.alg)
    ensures t.claims == claims && t.key == key
  {
    Signed(HS256, claims, key)
  }

  /** The default validator of jwt v5: "exp" (if present) must be a number
      and `now` strictly before it; "nbf" (if present) must be a number and
      `now` not before it. A number claim equal to 0 reads as absent, as
      `MapClaims` does for a decoded 0, so it is never checked. "iat" is not
      checked by default. */
  function ValidateTimes(c: Claims, now: Time): (r: Outcome<JwtError>)
    ensures r.Pass? <==> (&& ("exp" in c ==> c["exp"].Num? && (c["exp"].n == 0 || now < c["exp"].n * Second))
                          && ("nbf" in c ==> c["nbf"].Num? && (c["nbf"].n == 0 || now >= c["nbf"].n * Second)))
    ensures r == Fail(TokenExpired) <==> ("exp" in c && c["exp"].Num? && c["exp"].n != 0 && now >= c["exp"].n * Second
                                         && !("nbf" in c && c["nbf"].Str?))
  {
    if "exp" in c && c["exp"].Str? then Fail(TokenInvalidClaims)
    else if "nbf" in c && c["nbf"].Str? then Fail(TokenInvalidClaims)
    else if "exp" in c && c["exp"].n != 0 && now >= c["exp"].n * Second then Fail(TokenExpired)
    else if "nbf" in c && c["nbf"].n != 0 && now < c["nbf"].n * Second then Fail(TokenNotValidYet)
    else Pass
  }

  /** `jwt.Parse(tokenString, keyFunc)` where the key function, as at every
      parse site of the auth service, refuses any algorithm that is not HMAC
      and otherwise returns `secret`. The checks run in the library's order:
      well-formedness, key function, signature, time claims. Success means
      the token names an HMAC algorithm, was signed with `secret`, and its
      time claims accept `now`; the claims come back unchanged. */
  function Parse(t: Token, secret: string, now: Time): (r: Result<Claims, JwtError>)
    ensures r.Ok? <==> t.Signed? && IsHmac(t.alg) && t.key == secret && ValidateTimes(t.claims, now).Pass?
    ensures r.Ok? ==> r.value == t.claims
    ensures t.Malformed? ==> r == Err(TokenMalformed)
    ensures t.Signed? && !IsHmac(t.alg) ==> r == Err(TokenUnverifiable)
    ensures t.Signed? && IsHmac(t.alg) && t.key == secret && ValidateTimes(t.claims, now).Fail?
            ==> r == Err(ValidateTimes(t.claims, now).error)
    ensures t.Signed? && IsHmac(t.alg) && t.key != secret ==> r == Err(SignatureInvalid)
  {
    match t
    case Malformed(_) => Err(TokenMalformed)
    case Signed(alg, claims, key) =>
      if !IsHmac(alg) then Err(TokenUnverifiable)
      else if key != secret then Err(SignatureInvalid)
      else
        match ValidateTimes(claims, now)
        case Fail(e) => Err(e)
        case Pass => Ok(claims)
  }

  /** `claims[name].(string)`: present and a string. */
  function StringClaim(c: Claims, name: string): (r: Option<string>)
    ensures r.Some? <==> name in c && c[name].Str?
    ensures r.Some? ==> c[name] == Str(r.value)
  {
    if name in c && c[name].Str? then Some(c[name].s) else None
  }

  /** A token parses under the key it was signed with, giving back its
      claims, whenever its time claims accept `now`. */
  lemma SignThenParse(c: Claims, key: string, now: Time)
    requires ValidateTimes(c, now).Pass?
    ensures Parse(Sign(c, key), key, now) == Ok(c)
  {
  }

  /** Under any other key the same token is rejected for its signature,
      whatever its claims and the time. */
  lemma ParseUnderOtherKey(c: Claims, key: string, other: string, now: Time)
    requires other != key
    ensures Parse(Sign(c, key), other, now) == Err(SignatureInvalid)
  {
  }
}
