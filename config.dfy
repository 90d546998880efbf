/** Configuration loading (internal/config/config.go). The process
    environment is a map (a missing variable reads as ""), and
    `time.ParseDuration`, which is not part of this model, is a function
    value that answers `None` where the Go function returns an error. */
module Config {

  import opened Wrappers
  import opened Models
  import opened Strings

  datatype Config = Config(
    port: string,
    databaseUrl: string,
    corsOrigins: seq<string>,
    jwtSecret: string,
    jwtRefreshSecret: string,
    accessTtl: Duration,
    refreshTtl: Duration)

  const DefaultPort := "8080"
  const DefaultOrigin := "http://localhost:3000"
  const DefaultAccessTtl: Duration := 15 * Minute
  const DefaultRefreshTtl: Duration := 168 * Hour

  /** `os.Getenv`. */
  function Getenv(env: map<string, string>, key: string): string
  {
    if key in env then env[key] else ""
  }

  /** `parseDuration`: the parsed value, or `fallback` when the string is
      empty or does not parse. */
  function ParseDuration(parse: string -> Option<Duration>, s: string, fallback: Duration): (d: Duration)
    ensures s == "" || parse(s).None? ==> d == fallback
    ensures s != "" && parse(s).Some? ==> d == parse(s).value
  {
    if s == "" then fallback
    else match parse(s)
      case None => fallback
      case Some(v) => v
  }

  /** The loop of `Load` that trims every origin in place. */
  method TrimEach(pieces: seq<string>) returns (trimmed: seq<string>)
    ensures |trimmed| == |pieces|
    ensures forall k :: 0 <= k < |pieces| ==> trimmed[k] == TrimSpace(pieces[k])
  {
    var a := new string[|pieces|](k requires 0 <= k < |pieces| => pieces[k]);
    for i := 0 to a.Length
      invariant forall k :: 0 <= k < i ==> a[k] == TrimSpace(pieces[k])
      invariant forall k :: i <= k < a.Length ==> a[k] == pieces[k]
    {
      a[i] := TrimSpace(a[i]);
    }
    trimmed := a[..];
  }

  /** `Load`: PORT defaults to "8080"; a non-empty CORS_ORIGINS is split on
      ',' into one more entry than it has commas, each entry trimmed in
      place, and an empty one gives the single development origin; the two
      TTLs default to 15 minutes and 168 hours; the database URL and both
      secrets are copied as they are, with no default. */
  method Load(env: map<string, string>, parse: string -> Option<Duration>) returns (cfg: Config)
    ensures cfg.port == (if Getenv(env, "PORT") == "" then DefaultPort else Getenv(env, "PORT"))
    ensures Getenv(env, "CORS_ORIGINS") == "" ==> cfg.corsOrigins == [DefaultOrigin]
    ensures var v := Getenv(env, "CORS_ORIGINS");
            v != "" ==> && |cfg.corsOrigins| == Count(v, ',') + 1
                        && forall k :: 0 <= k < |cfg.corsOrigins| ==> cfg.corsOrigins[k] == TrimSpace(Split(v, ',')[k])
    ensures cfg.accessTtl == ParseDuration(parse, Getenv(env, "ACCESS_TTL"), DefaultAccessTtl)
    ensures cfg.refreshTtl == ParseDuration(parse, Getenv(env, "REFRESH_TTL"), DefaultRefreshTtl)
    ensures cfg.databaseUrl == Getenv(env, "DATABASE_URL")
    ensures cfg.jwtSecret == Getenv(env, "JWT_SECRET")
    ensures cfg.jwtRefreshSecret == Getenv(env, "JWT_REFRESH_SECRET")
  {
    var port := Getenv(env, "PORT");
    if port == "" {
      port := DefaultPort;
    }

    var corsOrigins := Getenv(env, "CORS_ORIGINS");
    var origins: seq<string>;
    if corsOrigins != "" {
      origins := TrimEach(Split(corsOrigins, ','));
    } else {
      origins := [DefaultOrigin];
    }

    var accessTtl := ParseDuration(parse, Getenv(env, "ACCESS_TTL"), DefaultAccessTtl);
    var refreshTtl := ParseDuration(parse, Getenv(env, "REFRESH_TTL"), DefaultRefreshTtl);

    cfg := Config(
      port := port,
      databaseUrl := Getenv(env, "DATABASE_URL"),
      corsOrigins := origins,
      jwtSecret := Getenv(env, "JWT_SECRET"),
      jwtRefreshSecret := Getenv(env, "JWT_REFRESH_SECRET"),
      accessTtl := accessTtl,
      refreshTtl := refreshTtl);
  }
}
