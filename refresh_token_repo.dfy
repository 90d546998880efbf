/** `PGRefreshTokenRepository` (internal/repositories/refresh_token_repo.go):
    the `refresh_tokens` table as a map from JTI to row. `online` stands for
    the database connection: when it is down every statement fails and
    nothing changes. */
module RefreshTokenRepo {

  import opened Wrappers
  import opened Models

  type Rows = map<string, RefreshToken>

  /** The row `INSERT INTO refresh_tokens (jti, user_id, expires_at,
      created_at)` writes: `revoked_at` is not among the columns, so it starts
      NULL whatever the record passed in says. */
  function Inserted(t: RefreshToken): (row: RefreshToken)
    ensures row.revokedAt.None?
    ensures row.jti == t.jti && row.userId == t.userId
    ensures row.expiresAt == t.expiresAt && row.createdAt == t.createdAt
  {
    t.(revokedAt := None)
  }

  /** `UPDATE refresh_tokens SET revoked_at = at WHERE jti = jti`: the
      matching row, if any, gets `revoked_at = at`; no other row and no other
      column changes, and a missing JTI changes nothing. */
  function RevokeRow(rows: Rows, jti: string, at: Time): (rows': Rows)
    ensures rows'.Keys == rows.Keys
    ensures jti in rows ==> rows'[jti] == rows[jti].(revokedAt := Some(at))
    ensures forall j :: j in rows && j != jti ==> rows'[j] == rows[j]
  {
    if jti in rows then rows[jti := rows[jti].(revokedAt := Some(at))] else rows
  }

  /** `DELETE FROM refresh_tokens WHERE expires_at < now`: exactly the rows
      that expired strictly before `now` go; a row expiring at `now` stays. */
  function DeleteExpiredRows(rows: Rows, now: Time): (rows': Rows)
    ensures forall j :: j in rows' <==> j in rows && rows[j].expiresAt >= now
    ensures forall j :: j in rows' ==> rows'[j] == rows[j]
  {
    map j | j in rows && !(rows[j].expiresAt < now) :: rows[j]
  }

  /** What `GetByJTI` answers: the row with that JTI, absent (not an error)
      when there is none, an error only when the database is down. */
  function Lookup(online: bool, rows: Rows, jti: string): (r: Result<Option<RefreshToken>, DbError>)
    ensures r.Err? <==> !online
    ensures r.Ok? ==> (r.value.Some? <==> jti in rows)
    ensures r.Ok? && r.value.Some? ==> r.value.value == rows[jti]
  {
    if !online then Err(DbError("connection refused"))
    else if jti in rows then Ok(Some(rows[jti]))
    else Ok(None)
  }

  class RefreshTokenRepository {
    const online: bool
    var rows: Rows

    /** Rows are keyed by their own JTI. */
    ghost predicate Valid()
      reads this
    {
      forall j :: j in rows ==> rows[j].jti == j
    }

    constructor (online: bool)
      ensures Valid() && this.online == online && rows == map[]
    {
      this.online := online;
      rows := map[];
    }

    /** `Create`. Whether inserting a JTI that is already present fails
        depends on a schema that is not part of this model, so the contract
        leaves that case open. */
    method Create(token: RefreshToken) returns (r: Outcome<DbError>)
      requires Valid()
      modifies this
      ensures Valid()
      ensures r.Pass? ==> rows == old(rows)[token.jti := Inserted(token)]
      ensures r.Fail? ==> rows == old(rows)
      ensures !online ==> r.Fail?
      ensures online && token.jti !in old(rows) ==> r.Pass?
    {
      if !online {
        return Fail(DbError("connection refused"));
      }
      if token.jti in rows {
        return Fail(DbError("duplicate key value violates unique constraint"));
      }
      rows := rows[token.jti := Inserted(token)];
      return Pass;
    }

    /** `GetByJTI`: the query against the table; `Lookup` is its answer as
        a function of the table, for use in specifications. */
    method GetByJTI(jti: string) returns (r: Result<Option<RefreshToken>, DbError>)
      ensures r == Lookup(online, rows, jti)
    {
      if !online {
        return Err(DbError("connection refused"));
      }
      if jti in rows {
        return Ok(Some(rows[jti]));
      }
      return Ok(None);
    }

    /** `Revoke`, with `now` for `time.Now()`. */
    method Revoke(jti: string, now: Time) returns (r: Outcome<DbError>)
      requires Valid()
      modifies this
      ensures Valid()
      ensures r.Pass? <==> online
      ensures r.Pass? ==> rows == RevokeRow(old(rows), jti, now)
      ensures r.Fail? ==> rows == old(rows)
    {
      if !online {
        return Fail(DbError("connection refused"));
      }
      rows := RevokeRow(rows, jti, now);
      return Pass;
    }

    /** `DeleteExpired`, with `now` for `time.Now()`. */
    method DeleteExpired(now: Time) returns (r: Outcome<DbError>)
      requires Valid()
      modifies this
      ensures Valid()
      ensures r.Pass? <==> online
      ensures r.Pass? ==> rows == DeleteExpiredRows(old(rows), now)
      ensures r.Fail? ==> rows == old(rows)
    {
      if !online {
        return Fail(DbError("connection refused"));
      }
      rows := DeleteExpiredRows(rows, now);
      return Pass;
    }
  }

  /** Revocation is monotonic: a revoked row stays revoked through another
      Revoke (which may only move its timestamp), through DeleteExpired (if
      the row survives it) and through the insert of a different JTI. */
  lemma RevocationIsMonotonic(rows: Rows, j: string, jti: string, at: Time, now: Time, t: RefreshToken)
    requires j in rows && rows[j].revokedAt.Some?
    ensures j in RevokeRow(rows, jti, at) && RevokeRow(rows, jti, at)[j].revokedAt.Some?
    ensures j in DeleteExpiredRows(rows, now) ==> DeleteExpiredRows(rows, now)[j].revokedAt.Some?
    ensures t.jti != j ==> rows[t.jti := Inserted(t)][j].revokedAt.Some?
  {
  }
}
