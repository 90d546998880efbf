/** The records the core stores and serves (internal/models), with time as
    plain integers. */
module Models {

  import opened Wrappers

  /** An instant: nanoseconds since the Unix epoch (Go's `time.Time`). */
  type Time = int

  /** A span of time in nanoseconds (Go's `time.Duration`). */
  type Duration = int

  const Second: Duration := 1_000_000_000
  const Minute: Duration := 60 * Second
  const Hour: Duration := 60 * Minute

  /** `t.Unix()`: whole seconds since the epoch, rounded down. */
  function UnixSeconds(t: Time): int
  {
    t / Second
  }

  /** A row of the `users` table. */
  datatype User = User(id: string, email: string, passwordHash: string, createdAt: Time)

  /** A row of the `refresh_tokens` table; `revokedAt == None` is SQL NULL,
      a token that was never revoked. */
  datatype RefreshToken = RefreshToken(
    jti: string,
    userId: string,
    expiresAt: Time,
    revokedAt: Option<Time>,
    createdAt: Time)

  /** An error reported by the database driver. */
  datatype DbError = DbError(message: string)

  datatype Post = Post(id: string, title: string, content: string, tags: seq<string>, publishedAt: string)

  datatype Contact = Contact(id: string, email: string, telegram: string, linkedIn: string, github: string)

  /** Only the `ID` of a project is used by the core; its other fields are
      opaque here. */
  datatype Project = Project(id: string, fields: map<string, string>)

  /** Only the `ID` of a skill is used by the core; its other fields are
      opaque here. */
  datatype Skill = Skill(id: string, fields: map<string, string>)
}
