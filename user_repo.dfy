/** `PGUserRepository` (internal/repositories/user_repo.go): the `users`
    table as a map from id to row. `online` stands for the database
    connection: when it is down every statement fails and nothing changes. */
module UserRepo {

  import opened Wrappers
  import opened Models

  /** Some user in `rows` has exactly this email. */
  predicate HasEmail(rows: map<string, User>, email: string)
  {
    exists id :: id in rows && rows[id].email == email
  }

  /** No two users share an email: what Register's pre-check maintains. */
  predicate EmailsUnique(rows: map<string, User>)
  {
    forall i, j :: i in rows && j in rows && rows[i].email == rows[j].email ==> i == j
  }

  class UserRepository {
    const online: bool
    var rows: map<string, User>

    /** Rows are keyed by their own id. */
    ghost predicate Valid()
      reads this
    {
      forall id :: id in rows ==> rows[id].id == id
    }

    constructor (online: bool)
      ensures Valid() && this.online == online && rows == map[]
    {
      this.online := online;
      rows := map[];
    }

    /** `INSERT INTO users (id, email, password_hash, created_at)`. Nothing
        here checks the email: two rows may share one. Whether an insert
        whose id is already taken fails depends on a schema that is not
        part of this model, so the contract leaves that case open. */
    method Create(user: User) returns (r: Outcome<DbError>)
      requires Valid()
      modifies this
      ensures Valid()
      ensures r.Pass? ==> rows == old(rows)[user.id := user]
      ensures r.Fail? ==> rows == old(rows)
      ensures !online ==> r.Fail?
      ensures online && user.id !in old(rows) ==> r.Pass?
    {
      if !online {
        return Fail(DbError("connection refused"));
      }
      if user.id in rows {
        return Fail(DbError("duplicate key value violates unique constraint"));
      }
      rows := rows[user.id := user];
      return Pass;
    }

    /** `SELECT ... WHERE email = $1` through `QueryRow`: some row with
        exactly that email, or absent (not an error) when there is none. If
        several rows match, which one comes back is not determined. */
    method GetByEmail(email: string) returns (r: Result<Option<User>, DbError>)
      requires Valid()
      ensures r.Err? <==> !online
      ensures r.Ok? && r.value.Some? ==> r.value.value.id in rows && rows[r.value.value.id] == r.value.value
      ensures r.Ok? && r.value.Some? ==> r.value.value.email == email
      ensures r.Ok? ==> (r.value.None? <==> !HasEmail(rows, email))
    {
      if !online {
        return Err(DbError("connection refused"));
      }
      if HasEmail(rows, email) {
        var id :| id in rows && rows[id].email == email;
        return Ok(Some(rows[id]));
      }
      return Ok(None);
    }

    /** `SELECT ... WHERE id = $1`: the row with that id, or absent. */
    method GetByID(id: string) returns (r: Result<Option<User>, DbError>)
      ensures r.Err? <==> !online
      ensures r.Ok? && r.value.Some? ==> id in rows && r.value.value == rows[id]
      ensures r.Ok? ==> (r.value.None? <==> id !in rows)
    {
      if !online {
        return Err(DbError("connection refused"));
      }
      if id in rows {
        return Ok(Some(rows[id]));
      }
      return Ok(None);
    }
  }

  /** Inserting a user whose email is new keeps emails unique. */
  lemma InsertNewEmailKeepsUnique(rows: map<string, User>, user: User)
    requires EmailsUnique(rows)
    requires !HasEmail(rows, user.email)
    ensures EmailsUnique(rows[user.id := user])
  {
    var rows' := rows[user.id := user];
    forall i, j | i in rows' && j in rows' && rows'[i].email == rows'[j].email
      ensures i == j
    {
      if i != user.id && j != user.id {
        assert rows'[i] == rows[i] && rows'[j] == rows[j];
      }
    }
  }
}
