/** The authentication service (internal/services/auth_service.go):
    registration, login, refresh, logout and access-token validation over
    the user and refresh-token stores.

    Every `time.Now()` of one call is the single parameter `now`; what
    `generateID` and `rand.Read` produce is supplied by the caller (`newId`,
    `newJti`, `random`). Tokens are the symbolic tokens of module Jwt. */
module AuthService {

  import opened Wrappers
  import opened Models
  import opened Jwt
  import opened PasswordHash
  import opened UserRepo
  import opened RefreshTokenRepo
  import C = Config
  import Http
  import AuthGate

  /** The errors the service returns. */
  datatype AuthError =
    | UserExists                    // "user already exists"
    | InvalidCredentials            // "invalid credentials"
    | InvalidRefreshToken           // "invalid refresh token"
    | InvalidAccessToken            // "invalid access token"
    | InvalidUserId                 // "invalid user ID in token"
    | InvalidJti                    // "invalid JTI in token"
    | TokenNotFound                 // "token not found"
    | TokenRevoked                  // "token has been revoked"
    | RefreshExpired                // "token has expired"
    | JwtFailed(jwtError: JwtError) // a jwt.Parse error passed on unchanged
    | RandomFailed                  // rand.Read failed while salting
    | Db(dbError: DbError)          // a store error passed on unchanged

  /** Every user in `rows` with this email has `password` as password. */
  predicate PasswordFitsAll(crypto: Primitives, rows: map<string, User>, email: string, password: string)
  {
    forall id :: id in rows && rows[id].email == email ==> PasswordMatches(crypto, password, rows[id].passwordHash)
  }

  /** No user in `rows` with this email has `password` as password (true
      when there is no such user). */
  predicate PasswordFitsNone(crypto: Primitives, rows: map<string, User>, email: string, password: string)
  {
    forall id :: id in rows && rows[id].email == email ==> !PasswordMatches(crypto, password, rows[id].passwordHash)
  }

  /** What Login returns on success. */
  datatype Session = Session(user: User, accessToken: Token, refreshToken: Token)

  /** The claims of `generateAccessToken`: subject, expiry `now + ttl` and
      issue time, both rounded down to whole Unix seconds; no "jti". */
  function AccessClaims(userId: string, now: Time, ttl: Duration): (c: Claims)
    ensures c.Keys == {"sub", "exp", "iat"} && c["sub"] == Str(userId)
    ensures c["exp"].Num? && c["exp"].n * Second <= now + ttl < c["exp"].n * Second + Second
    ensures c["iat"].Num? && c["iat"].n * Second <= now < c["iat"].n * Second + Second
  {
    map["sub" := Str(userId), "exp" := Num(UnixSeconds(now + ttl)), "iat" := Num(UnixSeconds(now))]
  }

  /** The claims of `generateRefreshToken`: those of an access token plus
      the token's own ID. */
  function RefreshClaims(userId: string, jti: string, now: Time, ttl: Duration): (c: Claims)
    ensures "jti" in c && c["jti"] == Str(jti)
    ensures c - {"jti"} == AccessClaims(userId, now, ttl)
  {
    map["sub" := Str(userId), "jti" := Str(jti), "exp" := Num(UnixSeconds(now + ttl)), "iat" := Num(UnixSeconds(now))]
  }

  /** `ValidateAccessToken`: the token must be an HMAC token signed with the
      access secret whose time claims accept `now`, and must carry a string
      "sub", which is the answer. Every parse failure is the same
      "invalid access token". */
  function ValidateAccessToken(cfg: C.Config, t: Token, now: Time): (r: Result<string, AuthError>)
    ensures r.Ok? <==> && t.Signed? && IsHmac(t.alg) && t.key == cfg.jwtSecret
                       && ValidateTimes(t.claims, now).Pass?
                       && "sub" in t.claims && t.claims["sub"].Str?
    ensures r.Ok? ==> t.claims["sub"] == Str(r.value)
    ensures r.Err? ==> (r.error == InvalidAccessToken <==> Parse(t, cfg.jwtSecret, now).Err?)
    ensures r.Err? ==> r.error == InvalidAccessToken || r.error == InvalidUserId
  {
    match Parse(t, cfg.jwtSecret, now)
    case Err(_) => Err(InvalidAccessToken)
    case Ok(claims) =>
      match StringClaim(claims, "sub")
      case None => Err(InvalidUserId)
      case Some(userId) => Ok(userId)
  }

  /** The token parses under the refresh secret and carries string "sub"
      and "jti" claims: what `Refresh` checks before it consults the store. */
  predicate RefreshIdentified(cfg: C.Config, t: Token, now: Time)
  {
    Parse(t, cfg.jwtRefreshSecret, now).Ok? && StringClaim(t.claims, "sub").Some? && StringClaim(t.claims, "jti").Some?
  }

  /** What `Refresh` answers when the refresh-token store is `online` with
      `rows`: the token must parse under the refresh secret, carry string
      "sub" and "jti" claims, and its JTI must name a stored row that is
      neither revoked nor past its stored expiry; the answer is a new access
      token for the subject. Nothing is written. */
  function RefreshResult(cfg: C.Config, online: bool, rows: Rows, t: Token, now: Time): (r: Result<Token, AuthError>)
    ensures r == Err(InvalidRefreshToken) <==> Parse(t, cfg.jwtRefreshSecret, now).Err?
    ensures r.Ok? <==> && Parse(t, cfg.jwtRefreshSecret, now).Ok?
                       && StringClaim(t.claims, "sub").Some? && StringClaim(t.claims, "jti").Some?
                       && online && t.claims["jti"].s in rows
                       && rows[t.claims["jti"].s].revokedAt.None?
                       && now <= rows[t.claims["jti"].s].expiresAt
    ensures r.Ok? ==> r.value == Sign(AccessClaims(t.claims["sub"].s, now, cfg.accessTtl), cfg.jwtSecret)
    ensures Parse(t, cfg.jwtRefreshSecret, now).Ok? && StringClaim(t.claims, "sub").None?
            ==> r == Err(InvalidUserId)
    ensures Parse(t, cfg.jwtRefreshSecret, now).Ok? && StringClaim(t.claims, "sub").Some?
            && StringClaim(t.claims, "jti").None?
            ==> r == Err(InvalidJti)
    ensures RefreshIdentified(cfg, t, now) && !online ==> r.Err? && r.error.Db?
    ensures RefreshIdentified(cfg, t, now) && online && t.claims["jti"].s !in rows
            ==> r == Err(TokenNotFound)
    ensures RefreshIdentified(cfg, t, now) && online && t.claims["jti"].s in rows
            && rows[t.claims["jti"].s].revokedAt.Some?
            ==> r == Err(TokenRevoked)
    ensures RefreshIdentified(cfg, t, now) && online && t.claims["jti"].s in rows
            && rows[t.claims["jti"].s].revokedAt.None? && now > rows[t.claims["jti"].s].expiresAt
            ==> r == Err(RefreshExpired)
  {
    match Parse(t, cfg.jwtRefreshSecret, now)
    case Err(_) => Err(InvalidRefreshToken)
    case Ok(claims) =>
      match StringClaim(claims, "sub")
      case None => Err(InvalidUserId)
      case Some(userId) =>
        match StringClaim(claims, "jti")
        case None => Err(InvalidJti)
        case Some(jti) =>
          match Lookup(online, rows, jti)
          case Err(e) => Err(Db(e))
          case Ok(None) => Err(TokenNotFound)
          case Ok(Some(stored)) =>
            if stored.revokedAt.Some? then Err(TokenRevoked)
            else if now > stored.expiresAt then Err(RefreshExpired)
            else Ok(Sign(AccessClaims(userId, now, cfg.accessTtl), cfg.jwtSecret))
  }

  /** The JTI `Logout` revokes: the token must parse under the refresh
      secret (a parse error is returned as it is) and carry a string "jti".
      The subject is not looked at. */
  function LogoutTarget(cfg: C.Config, t: Token, now: Time): (r: Result<string, AuthError>)
    ensures r.Ok? <==> && t.Signed? && IsHmac(t.alg) && t.key == cfg.jwtRefreshSecret
                       && ValidateTimes(t.claims, now).Pass?
                       && "jti" in t.claims && t.claims["jti"].Str?
    ensures r.Ok? ==> t.claims["jti"] == Str(r.value)
    ensures Parse(t, cfg.jwtRefreshSecret, now).Err? ==> r == Err(JwtFailed(Parse(t, cfg.jwtRefreshSecret, now).error))
    ensures Parse(t, cfg.jwtRefreshSecret, now).Ok? && StringClaim(t.claims, "jti").None? ==> r == Err(InvalidJti)
  {
    match Parse(t, cfg.jwtRefreshSecret, now)
    case Err(e) => Err(JwtFailed(e))
    case Ok(claims) =>
      match StringClaim(claims, "jti")
      case None => Err(InvalidJti)
      case Some(jti) => Ok(jti)
  }

  class AuthService {
    const users: UserRepository
    const tokens: RefreshTokenRepository
    const cfg: C.Config
    const crypto: Primitives

    ghost predicate Valid()
      reads users, tokens
    {
      users.Valid() && tokens.Valid()
    }

    /** `NewAuthService`. */
    constructor (users: UserRepository, tokens: RefreshTokenRepository, cfg: C.Config, crypto: Primitives)
      requires users.Valid() && tokens.Valid()
      ensures Valid()
      ensures this.users == users && this.tokens == tokens
      ensures this.cfg == cfg && this.crypto == crypto
    {
      this.users := users;
      this.tokens := tokens;
      this.cfg := cfg;
      this.crypto := crypto;
    }

    /** `Register`: refuses an email some user already has, salts and hashes
        the password, and inserts the user under `newId`. */
    method Register(email: string, password: string, random: Option<Salt>, newId: string, now: Time)
      returns (r: Result<User, AuthError>)
      requires Valid()
      modifies users
      ensures Valid()
      ensures r.Ok? ==> && users.online && !HasEmail(old(users.rows), email) && random.Some?
                        && r.value == User(newId, email, EncodedHash(crypto, password, random.value), now)
                        && users.rows == old(users.rows)[newId := r.value]
      ensures r.Err? ==> users.rows == old(users.rows)
      ensures !users.online ==> r.Err? && r.error.Db?
      ensures users.online && HasEmail(old(users.rows), email) ==> r == Err(UserExists)
      ensures users.online && !HasEmail(old(users.rows), email) && random.None? ==> r == Err(RandomFailed)
      ensures users.online && !HasEmail(old(users.rows), email) && random.Some? && newId !in old(users.rows)
              ==> r.Ok?
      ensures EmailsUnique(old(users.rows)) ==> EmailsUnique(users.rows)
    {
      var existing := users.GetByEmail(email);
      if existing.Err? {
        return Err(Db(existing.error));
      }
      if existing.value.Some? {
        return Err(UserExists);
      }
      var passwordHash := HashPassword(crypto, password, random);
      if passwordHash.None? {
        return Err(RandomFailed);
      }
      var user := User(newId, email, passwordHash.value, now);
      var created := users.Create(user);
      if created.Fail? {
        return Err(Db(created.error));
      }
      if EmailsUnique(old(users.rows)) {
        InsertNewEmailKeepsUnique(old(users.rows), user);
      }
      return Ok(user);
    }

    /** `Login`: looks the user up by email, checks the password, issues an
        access token and a refresh token with ID `newJti`, and stores the
        refresh token's record. An unknown email and a wrong password give
        the same error. */
    method Login(email: string, password: string, newJti: string, now: Time)
      returns (r: Result<Session, AuthError>)
      requires Valid()
      modifies tokens
      ensures Valid()
      ensures users.rows == old(users.rows)
      ensures r.Ok? ==>
                var user := r.value.user;
                && users.online && user.id in users.rows && users.rows[user.id] == user
                && user.email == email
                && PasswordMatches(crypto, password, user.passwordHash)
                && r.value.accessToken == Sign(AccessClaims(user.id, now, cfg.accessTtl), cfg.jwtSecret)
                && r.value.refreshToken
                   == Sign(RefreshClaims(user.id, newJti, now, cfg.refreshTtl), cfg.jwtRefreshSecret)
                && tokens.rows
                   == old(tokens.rows)[newJti := RefreshToken(newJti, user.id, now + cfg.refreshTtl, None, now)]
      ensures r.Err? ==> tokens.rows == old(tokens.rows)
      ensures !users.online ==> r.Err? && r.error.Db?
      ensures users.online
              && PasswordFitsNone(crypto, users.rows, email, password)
              ==> r == Err(InvalidCredentials)
      ensures users.online && HasEmail(users.rows, email)
              && PasswordFitsAll(crypto, users.rows, email, password)
              && !tokens.online
              ==> r.Err? && r.error.Db?
      ensures users.online && HasEmail(users.rows, email)
              && PasswordFitsAll(crypto, users.rows, email, password)
              && tokens.online && newJti !in old(tokens.rows)
              ==> r.Ok?
    {
      var found := users.GetByEmail(email);
      if found.Err? {
        return Err(Db(found.error));
      }
      if found.value.None? {
        return Err(InvalidCredentials);
      }
      var user := found.value.value;
      var ok := VerifyPassword(crypto, password, user.passwordHash);
      if !ok {
        return Err(InvalidCredentials);
      }
      var accessToken := Sign(AccessClaims(user.id, now, cfg.accessTtl), cfg.jwtSecret);
      var refreshToken := Sign(RefreshClaims(user.id, newJti, now, cfg.refreshTtl), cfg.jwtRefreshSecret);
      var record := RefreshToken(newJti, user.id, now + cfg.refreshTtl, None, now);
      var stored := tokens.Create(record);
      if stored.Fail? {
        return Err(Db(stored.error));
      }
      return Ok(Session(user, accessToken, refreshToken));
    }

    /** `Refresh`, step by step as the handler runs it, reading the store
        once through `GetByJTI`; `RefreshResult` is the same decision as a
        function of the store's state, which the lemmas reason about. */
    method Refresh(t: Token, now: Time) returns (r: Result<Token, AuthError>)
      ensures r == RefreshResult(cfg, tokens.online, tokens.rows, t, now)
    {
      var parsed := Parse(t, cfg.jwtRefreshSecret, now);
      if parsed.Err? {
        return Err(InvalidRefreshToken);
      }
      var userId := StringClaim(parsed.value, "sub");
      if userId.None? {
        return Err(InvalidUserId);
      }
      var jti := StringClaim(parsed.value, "jti");
      if jti.None? {
        return Err(InvalidJti);
      }
      var stored := tokens.GetByJTI(jti.value);
      if stored.Err? {
        return Err(Db(stored.error));
      }
      if stored.value.None? {
        return Err(TokenNotFound);
      }
      if stored.value.value.revokedAt.Some? {
        return Err(TokenRevoked);
      }
      if now > stored.value.value.expiresAt {
        return Err(RefreshExpired);
      }
      return Ok(Sign(AccessClaims(userId.value, now, cfg.accessTtl), cfg.jwtSecret));
    }

    /** `Logout`: revokes the row named by the token's JTI, at `now`. A JTI
        with no row is not an error. */
    method Logout(t: Token, now: Time) returns (r: Outcome<AuthError>)
      requires Valid()
      modifies tokens
      ensures Valid()
      ensures LogoutTarget(cfg, t, now).Err? ==>
                r == Fail(LogoutTarget(cfg, t, now).error) && tokens.rows == old(tokens.rows)
      ensures LogoutTarget(cfg, t, now).Ok? ==>
                && (r.Pass? <==> tokens.online)
                && (r.Pass? ==> tokens.rows == RevokeRow(old(tokens.rows), LogoutTarget(cfg, t, now).value, now))
                && (r.Fail? ==> r.error.Db? && tokens.rows == old(tokens.rows))
    {
      var parsed := Parse(t, cfg.jwtRefreshSecret, now);
      if parsed.Err? {
        return Fail(JwtFailed(parsed.error));
      }
      var jti := StringClaim(parsed.value, "jti");
      if jti.None? {
        return Fail(InvalidJti);
      }
      var revoked := tokens.Revoke(jti.value, now);
      if revoked.Fail? {
        return Fail(Db(revoked.error));
      }
      return Pass;
    }

    /** A whole session at one instant: a new user registers, logs in,
        refreshes, logs out, and the same refresh token is then refused as
        revoked. */
    method SessionLifecycle(email: string, password: string, salt: Salt, newId: string, newJti: string, now: Time)
      returns (registered: Result<User, AuthError>, refreshed: Result<Token, AuthError>,
               afterLogout: Result<Token, AuthError>)
      requires Valid() && Lawful(crypto)
      requires users.online && tokens.online
      requires EmailsUnique(users.rows) && !HasEmail(users.rows, email)
      requires newId !in users.rows && newJti !in tokens.rows
      requires cfg.refreshTtl >= Second
      modifies users, tokens
      ensures registered.Ok? && registered.value.id == newId && registered.value.email == email
      ensures refreshed == Ok(Sign(AccessClaims(newId, now, cfg.accessTtl), cfg.jwtSecret))
      ensures afterLogout == Err(TokenRevoked)
    {
      registered := Register(email, password, Some(salt), newId, now);
      var user := registered.value;
      assert users.rows[newId].email == email;
      VerifyEncodedHash(crypto, password, password, salt);
      var session := Login(email, password, newJti, now);
      assert session.value.user == user;
      RefreshTokenLifetime(cfg, tokens.rows, newId, newJti, now, now);
      refreshed := Refresh(session.value.refreshToken, now);
      var loggedOut := Logout(session.value.refreshToken, now);
      afterLogout := Refresh(session.value.refreshToken, now);
    }
  }

  /** `t.Unix()` rounds down to a whole second. */
  lemma UnixSecondsBounds(t: Time)
    ensures UnixSeconds(t) * Second <= t < UnixSeconds(t) * Second + Second
  {
  }

  /** An access token issued at `issued` is accepted, with its subject, at
      every instant before the whole second its expiry was rounded down to,
      and refused as invalid from then on; an expiry that rounds to second 0
      reads as no expiry at all. */
  lemma AccessTokenLifetime(cfg: C.Config, userId: string, issued: Time, now: Time)
    ensures ValidateAccessToken(cfg, Sign(AccessClaims(userId, issued, cfg.accessTtl), cfg.jwtSecret), now)
            == if UnixSeconds(issued + cfg.accessTtl) == 0 || now < UnixSeconds(issued + cfg.accessTtl) * Second
               then Ok(userId) else Err(InvalidAccessToken)
  {
  }

  /** With an access lifetime of at least a second, a fresh access token is
      accepted at the instant it was issued. */
  lemma AccessTokenValidAtIssue(cfg: C.Config, userId: string, issued: Time)
    requires cfg.accessTtl >= Second
    ensures ValidateAccessToken(cfg, Sign(AccessClaims(userId, issued, cfg.accessTtl), cfg.jwtSecret), issued)
            == Ok(userId)
  {
    UnixSecondsBounds(issued + cfg.accessTtl);
    AccessTokenLifetime(cfg, userId, issued, issued);
  }

  /** With an access lifetime under a second, a token issued on a whole
      second is already refused at the instant it was issued, except at
      second 0, whose expiry reads as absent. */
  lemma SubSecondAccessTtlExpiresAtIssue(cfg: C.Config, userId: string, issued: Time)
    requires 0 <= cfg.accessTtl < Second && issued % Second == 0
    ensures ValidateAccessToken(cfg, Sign(AccessClaims(userId, issued, cfg.accessTtl), cfg.jwtSecret), issued)
            == if issued == 0 then Ok(userId) else Err(InvalidAccessToken)
  {
    assert UnixSeconds(issued + cfg.accessTtl) * Second == issued;
    AccessTokenLifetime(cfg, userId, issued, issued);
  }

  /** A refresh token issued by Login at `issued`, whose record is still
      stored unrevoked, refreshes exactly until the whole second its "exp"
      claim was rounded down to; the later expiry of the stored record is
      never the reason a refresh is refused. The exception is an "exp" that
      rounds to second 0: it reads as absent, and the stored expiry alone
      decides. */
  lemma RefreshTokenLifetime(cfg: C.Config, rows: Rows, userId: string, jti: string, issued: Time, now: Time)
    requires jti in rows && rows[jti] == RefreshToken(jti, userId, issued + cfg.refreshTtl, None, issued)
    ensures RefreshResult(cfg, true, rows, Sign(RefreshClaims(userId, jti, issued, cfg.refreshTtl), cfg.jwtRefreshSecret), now)
            == if UnixSeconds(issued + cfg.refreshTtl) == 0 then
                 if now <= issued + cfg.refreshTtl then Ok(Sign(AccessClaims(userId, now, cfg.accessTtl), cfg.jwtSecret))
                 else Err(RefreshExpired)
               else if now < UnixSeconds(issued + cfg.refreshTtl) * Second
               then Ok(Sign(AccessClaims(userId, now, cfg.accessTtl), cfg.jwtSecret))
               else Err(InvalidRefreshToken)
  {
    UnixSecondsBounds(issued + cfg.refreshTtl);
  }

  /** After Logout has revoked a refresh token's row, that token never
      refreshes again, whatever the time and the store's state, and if it
      still parses it is refused as revoked. */
  lemma RevokedTokenCannotRefresh(cfg: C.Config, online: bool, rows: Rows, t: Token, at: Time, now: Time)
    requires LogoutTarget(cfg, t, at).Ok?
    ensures var rows' := RevokeRow(rows, LogoutTarget(cfg, t, at).value, at);
            && RefreshResult(cfg, online, rows', t, now).Err?
            && (online && LogoutTarget(cfg, t, at).value in rows && Parse(t, cfg.jwtRefreshSecret, now).Ok?
                && StringClaim(t.claims, "sub").Some?
                ==> RefreshResult(cfg, online, rows', t, now) == Err(TokenRevoked))
  {
    var jti := LogoutTarget(cfg, t, at).value;
    assert t.claims["jti"] == Str(jti);
  }

  /** Logging one token out leaves every token with another JTI answering
      exactly as before. */
  lemma LogoutLeavesOtherTokens(cfg: C.Config, online: bool, rows: Rows, jti: string, at: Time, t: Token, now: Time)
    requires !(t.Signed? && "jti" in t.claims && t.claims["jti"] == Str(jti))
    ensures RefreshResult(cfg, online, RevokeRow(rows, jti, at), t, now) == RefreshResult(cfg, online, rows, t, now)
  {
    if t.Signed? && StringClaim(t.claims, "jti").Some? {
      var other := t.claims["jti"].s;
      assert other != jti;
      assert (other in RevokeRow(rows, jti, at)) == (other in rows);
      if other in rows {
        assert RevokeRow(rows, jti, at)[other] == rows[other];
      }
    }
  }

  /** With distinct secrets, the two kinds of token cannot stand in for each
      other: a refresh token is not an access token, and an access token can
      neither refresh nor log out. */
  lemma SecretsSeparateTokenKinds(cfg: C.Config, online: bool, rows: Rows, userId: string, jti: string,
                                  issued: Time, now: Time)
    requires cfg.jwtSecret != cfg.jwtRefreshSecret
    ensures ValidateAccessToken(cfg, Sign(RefreshClaims(userId, jti, issued, cfg.refreshTtl), cfg.jwtRefreshSecret), now)
            == Err(InvalidAccessToken)
    ensures RefreshResult(cfg, online, rows, Sign(AccessClaims(userId, issued, cfg.accessTtl), cfg.jwtSecret), now)
            == Err(InvalidRefreshToken)
    ensures LogoutTarget(cfg, Sign(AccessClaims(userId, issued, cfg.accessTtl), cfg.jwtSecret), now)
            == Err(JwtFailed(SignatureInvalid))
  {
  }

  /** With equal secrets, which is what two unset secret variables give, a
      live refresh token is accepted as an access token for its subject. */
  lemma SharedSecretAdmitsRefreshTokens(cfg: C.Config, userId: string, jti: string, issued: Time, now: Time)
    requires cfg.jwtSecret == cfg.jwtRefreshSecret
    requires now < UnixSeconds(issued + cfg.refreshTtl) * Second
    ensures ValidateAccessToken(cfg, Sign(RefreshClaims(userId, jti, issued, cfg.refreshTtl), cfg.jwtRefreshSecret), now)
            == Ok(userId)
  {
    var c := RefreshClaims(userId, jti, issued, cfg.refreshTtl);
    assert ValidateTimes(c, now).Pass?;
  }

  /** A refresh token from Login can no longer be logged out once its "exp"
      second has passed: the parse reports it expired and nothing is
      revoked. An "exp" of second 0 reads as absent, and such a token can
      always be logged out. */
  lemma ExpiredTokenCannotLogOut(cfg: C.Config, userId: string, jti: string, issued: Time, now: Time)
    requires now >= UnixSeconds(issued + cfg.refreshTtl) * Second
    ensures LogoutTarget(cfg, Sign(RefreshClaims(userId, jti, issued, cfg.refreshTtl), cfg.jwtRefreshSecret), now)
            == if UnixSeconds(issued + cfg.refreshTtl) == 0 then Ok(jti) else Err(JwtFailed(TokenExpired))
  {
  }

  /** Every parse site refuses a token whose algorithm is not HMAC, before
      its signature or claims are looked at. */
  lemma NonHmacRefused(cfg: C.Config, online: bool, rows: Rows, t: Token, now: Time)
    requires t.Signed? && !IsHmac(t.alg)
    ensures ValidateAccessToken(cfg, t, now) == Err(InvalidAccessToken)
    ensures RefreshResult(cfg, online, rows, t, now) == Err(InvalidRefreshToken)
    ensures LogoutTarget(cfg, t, now) == Err(JwtFailed(TokenUnverifiable))
  {
  }

  /** The middleware in front of the service: with `decode` reading a token
      string, a protected request carrying "Bearer <token>" goes through
      exactly when the service accepts the token, and then carries the
      token's subject as its user ID. */
  lemma GateAdmitsValidAccessTokens(cfg: C.Config, decode: string -> Token, now: Time, r: Http.Request)
    requires !AuthGate.IsSafe(r.httpMethod)
    requires AuthGate.WellFormedBearer(Http.HeaderGet(r.header, "Authorization"))
    ensures var t := decode(Http.HeaderGet(r.header, "Authorization")[7..]);
            var out := AuthGate.Gate((s: string) => ValidateAccessToken(cfg, decode(s), now), r);
            && (out.Forward? <==> ValidateAccessToken(cfg, t, now).Ok?)
            && (out.Forward? ==> AuthGate.GetUserID(out.request) == t.claims["sub"].s)
  {
    AuthGate.GateValidates((s: string) => ValidateAccessToken(cfg, decode(s), now), r);
  }
}
