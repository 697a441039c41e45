/**
 * models/user_model.go: the User record, the database settings InitDB reads, and the `users`
 * table with its operations. The SQL Server table is an in-memory map from userid to row,
 * with the IDENTITY(1,1) counter beside it; the column widths and the UNIQUE username
 * column are checked the way the server checks them.
 */
module UserModel {
  import opened Wrappers
  import opened Os
  import Bcrypt

  /** The User struct (CreatedBy, UpdatedBy and UpdatedOn are never filled by any query). */
  datatype User = User(userId: int, username: string, password: string, fullName: string, email: string, createdOn: string)

  /** One row of `users`; `password` holds the bcrypt hash, `updatedOn` is NULL until an UPDATE. */
  datatype Row = Row(username: string, password: string, fullName: string, email: string, createdOn: string, updatedOn: Option<string>)

  // ---------------------------------------------------------------------------------------------
  // InitDB: database settings from the environment

  datatype DbConfig = DbConfig(server: string, user: string, password: string, port: string, database: string)

  /** A setting read from the environment, replaced by `fallback` when it is empty. */
  function SettingOr(env: Environment, name: string, fallback: string): (value: string)
    ensures Getenv(env, name) == "" ==> value == fallback
    ensures Getenv(env, name) != "" ==> value == Getenv(env, name)
  {
    var value := Getenv(env, name);
    if value == "" then fallback else value
  }

  /** The five DB_* settings, each with its default. */
  function LoadDbConfig(env: Environment): (cfg: DbConfig)
    ensures cfg.server == (if Getenv(env, "DB_SERVER") == "" then "localhost" else Getenv(env, "DB_SERVER"))
    ensures cfg.user == (if Getenv(env, "DB_USER") == "" then "sa" else Getenv(env, "DB_USER"))
    ensures cfg.password == (if Getenv(env, "DB_PASSWORD") == "" then "YourPassword123" else Getenv(env, "DB_PASSWORD"))
    ensures cfg.port == (if Getenv(env, "DB_PORT") == "" then "1433" else Getenv(env, "DB_PORT"))
    ensures cfg.database == (if Getenv(env, "DB_NAME") == "" then "TestDB" else Getenv(env, "DB_NAME"))
    ensures cfg.server != "" && cfg.user != "" && cfg.password != "" && cfg.port != "" && cfg.database != ""
  {
    DbConfig(
      SettingOr(env, "DB_SERVER", "localhost"),
      SettingOr(env, "DB_USER", "sa"),
      SettingOr(env, "DB_PASSWORD", "YourPassword123"),
      SettingOr(env, "DB_PORT", "1433"),
      SettingOr(env, "DB_NAME", "TestDB"))
  }

  // ---------------------------------------------------------------------------------------------
  // The table's constraints

  const UsernameWidth := 50
  const PasswordWidth := 255
  const FullNameWidth := 100
  const EmailWidth := 100

  const ErrUserNotFound := "user not found"
  const ErrTruncated := "mssql: String or binary data would be truncated."
  const ErrDuplicateUsername := "mssql: Violation of UNIQUE KEY constraint. Cannot insert duplicate key in object 'dbo.users'."
  /** Stands for the error of the random source when no salt could be drawn. */
  const ErrRandomSalt := "crypto/bcrypt: could not read random salt"

  /** The NVARCHAR widths of the columns. */
  predicate FitsColumns(r: Row)
  {
    |r.username| <= UsernameWidth && |r.password| <= PasswordWidth
    && |r.fullName| <= FullNameWidth && |r.email| <= EmailWidth
  }

  /** Some row other than `id` already holds `name`. */
  predicate HeldByOther(rows: map<int, Row>, name: string, id: int)
  {
    exists k :: k in rows && k != id && rows[k].username == name
  }

  /** The error the server raises when row `id` is written as `r`: width first, then uniqueness. */
  function WriteError(rows: map<int, Row>, id: int, r: Row): (err: Option<string>)
    ensures err.None? <==> FitsColumns(r) && !HeldByOther(rows, r.username, id)
  {
    if !FitsColumns(r) then Some(ErrTruncated)
    else if HeldByOther(rows, r.username, id) then Some(ErrDuplicateUsername)
    else None
  }

  /** The table invariant: identities below the counter, unique usernames, values that fit. */
  ghost predicate WellFormed(rows: map<int, Row>, nextId: int)
  {
    && 1 <= nextId
    && (forall id :: id in rows ==> 1 <= id < nextId)
    && (forall id :: id in rows ==> FitsColumns(rows[id]))
    && (forall a, b :: a in rows && b in rows && rows[a].username == rows[b].username ==> a == b)
  }

  /** A row as `SELECT userid, username, fullname, email, created_on` returns it. */
  function Listed(id: int, r: Row): (u: User)
    ensures u.userId == id && u.password == ""
  {
    User(id, r.username, "", r.fullName, r.email, r.createdOn)
  }

  /**
   * `users` lists, in ascending id and without passwords, exactly the rows whose id is below
   * `id`: the state of GetAllUsers' scan when it reaches `id`.
   */
  ghost predicate ListsRowsBelow(users: seq<User>, rows: map<int, Row>, id: int)
  {
    && (forall i :: 0 <= i < |users| ==> users[i].userId in rows && users[i].userId < id)
    && (forall i :: 0 <= i < |users| ==> users[i] == Listed(users[i].userId, rows[users[i].userId]))
    && (forall i, j :: 0 <= i < j < |users| ==> users[i].userId < users[j].userId)
    && (forall k :: k in rows && k < id ==> exists i :: 0 <= i < |users| && users[i].userId == k)
  }

  /** Listing row `id` next extends the scan past `id`. */
  lemma ListsNextRow(users: seq<User>, rows: map<int, Row>, id: int)
    requires ListsRowsBelow(users, rows, id) && id in rows
    ensures ListsRowsBelow(users + [Listed(id, rows[id])], rows, id + 1)
  {
    var next := users + [Listed(id, rows[id])];
    forall k | k in rows && k < id + 1
      ensures exists i :: 0 <= i < |next| && next[i].userId == k
    {
      if k == id {
        assert next[|users|].userId == k;
      } else {
        var i :| 0 <= i < |users| && users[i].userId == k;
        assert next[i].userId == k;
      }
    }
  }

  /** An id with no row adds nothing to the listing. */
  lemma ListsPastGap(users: seq<User>, rows: map<int, Row>, id: int)
    requires ListsRowsBelow(users, rows, id) && id !in rows
    ensures ListsRowsBelow(users, rows, id + 1)
  {
  }

  /**
   * ValidatePassword: accepts exactly when the record's stored value is a hash generated from
   * `password` under some salt.
   */
  function ValidatePassword(kdf: Bcrypt.Kdf, u: User, password: string): (err: Option<string>)
    ensures err.None? <==> exists salt: Bcrypt.Salt :: u.password == Bcrypt.GenerateFromPassword(kdf, salt, password)
  {
    Bcrypt.CompareHashAndPassword(kdf, u.password, password)
  }

  /**
   * A record holding the hash of `password` accepts exactly the candidates with the same
   * 72-byte key schedule, when the digest has no collisions under the record's salt. Among
   * NUL-free passwords of at most 72 bytes, that is exactly the password itself.
   */
  lemma ValidatePasswordOfStoredHash(kdf: Bcrypt.Kdf, salt: Bcrypt.Salt, u: User, password: string, candidate: string)
    requires u.password == Bcrypt.GenerateFromPassword(kdf, salt, password)
    requires Bcrypt.CollisionFree(kdf, salt)
    ensures ValidatePassword(kdf, u, candidate).None? <==> Bcrypt.EffectiveKey(candidate) == Bcrypt.EffectiveKey(password)
    ensures && Bcrypt.Nul !in candidate && Bcrypt.Nul !in password
            && |candidate| <= Bcrypt.KeyScheduleLength && |password| <= Bcrypt.KeyScheduleLength ==>
              (ValidatePassword(kdf, u, candidate).None? <==> candidate == password)
  {
    if Bcrypt.EffectiveKey(candidate) == Bcrypt.EffectiveKey(password) {
      Bcrypt.CompareGenerated(kdf, salt, password);
      assert u.password == Bcrypt.GenerateFromPassword(kdf, salt, candidate);
      if Bcrypt.Nul !in candidate && Bcrypt.Nul !in password
         && |candidate| <= Bcrypt.KeyScheduleLength && |password| <= Bcrypt.KeyScheduleLength {
        Bcrypt.EffectiveKeyInjective(candidate, password);
      }
    } else {
      Bcrypt.CompareOtherPassword(kdf, salt, password, candidate);
    }
  }

  // ---------------------------------------------------------------------------------------------
  // UPDATE

  /**
   * `UPDATE users SET ... WHERE userid = @id`: overwrites username, full name and email, the hash
   * when one is given, and updated_on; no matching row is not an error.
   */
  function UpdateRow(rows: map<int, Row>, id: int, username: string, hash: Option<string>,
                     fullName: string, email: string, now: string): (r: Result<map<int, Row>>)
    ensures r.Err? <==> id in rows && (|username| > UsernameWidth || |fullName| > FullNameWidth || |email| > EmailWidth
                                       || |if hash.Some? then hash.value else rows[id].password| > PasswordWidth
                                       || HeldByOther(rows, username, id))
    ensures r.Ok? ==> r.value.Keys == rows.Keys
    ensures r.Ok? ==> forall k :: k in rows && k != id ==> r.value[k] == rows[k]
    ensures r.Ok? && id in rows ==>
              && r.value[id].username == username && r.value[id].fullName == fullName && r.value[id].email == email
              && r.value[id].password == (if hash.Some? then hash.value else rows[id].password)
              && r.value[id].createdOn == rows[id].createdOn && r.value[id].updatedOn == Some(now)
  {
    if id !in rows then Ok(rows)
    else
      var old_row := rows[id];
      var row := Row(username, if hash.Some? then hash.value else old_row.password, fullName, email, old_row.createdOn, Some(now));
      match WriteError(rows, id, row)
      case Some(e) => Err(e)
      case None => Ok(rows[id := row])
  }

  /** A successful UPDATE keeps the table invariant. */
  lemma UpdateRowWellFormed(rows: map<int, Row>, nextId: int, id: int, username: string, hash: Option<string>,
                            fullName: string, email: string, now: string)
    requires WellFormed(rows, nextId)
    requires UpdateRow(rows, id, username, hash, fullName, email, now).Ok?
    ensures WellFormed(UpdateRow(rows, id, username, hash, fullName, email, now).value, nextId)
  {
    var updated := UpdateRow(rows, id, username, hash, fullName, email, now).value;
    forall a, b | a in updated && b in updated && updated[a].username == updated[b].username
      ensures a == b
    {
      if a != b && (a == id || b == id) {
        assert HeldByOther(rows, username, id);
      }
    }
  }

  /** The new hash when User.Update is given a password; "" means the password is kept. */
  function NewHash(kdf: Bcrypt.Kdf, salt: Option<Bcrypt.Salt>, u: User): Option<string>
    requires u.password != "" ==> salt.Some?
  {
    if u.password != "" then Some(Bcrypt.GenerateFromPassword(kdf, salt.value, u.password)) else None
  }

  /**
   * User.Update as written: in the new-password branch the result of the UPDATE is assigned to
   * the `err` declared inside that branch, so the outer `err` that is checked stays nil and a
   * rejected UPDATE is reported as success. Returns the error and the resulting table.
   */
  function UpdateAsWritten(rows: map<int, Row>, u: User, kdf: Bcrypt.Kdf, salt: Option<Bcrypt.Salt>, now: string): (r: (Option<string>, map<int, Row>))
    ensures u.password != "" && salt.Some? ==> r.0.None?
    ensures u.password == "" ==>
              (r.0.None? <==> UpdateRow(rows, u.userId, u.username, None, u.fullName, u.email, now).Ok?)
    ensures u.password != "" && salt.None? ==> r == (Some("error hashing password: " + ErrRandomSalt), rows)
    ensures u.password == "" || salt.Some? ==>
              var write := UpdateRow(rows, u.userId, u.username, NewHash(kdf, salt, u), u.fullName, u.email, now);
              r.1 == if write.Ok? then write.value else rows
  {
    if u.password != "" && salt.None? then (Some("error hashing password: " + ErrRandomSalt), rows)
    else
      match UpdateRow(rows, u.userId, u.username, NewHash(kdf, salt, u), u.fullName, u.email, now)
      case Err(e) => (if u.password != "" then None else Some("error updating user: " + e), rows)
      case Ok(updated) => (None, updated)
  }

  /**
   * Renaming user 2 to the name user 1 holds while also setting a password: the server refuses
   * the UPDATE, the table is unchanged, and yet the code as written reports no error.
   */
  lemma UpdateAsWrittenHidesRejectedUpdate(kdf: Bcrypt.Kdf, salt: Bcrypt.Salt)
    ensures var rows := map[1 := Row("alice", "h1", "Alice", "", "t0", None), 2 := Row("bob", "h2", "Bob", "", "t0", None)];
            var u := User(2, "alice", "newpass", "Bob", "", "t0");
            UpdateRow(rows, 2, "alice", NewHash(kdf, Some(salt), u), "Bob", "", "t1").Err?
            && UpdateAsWritten(rows, u, kdf, Some(salt), "t1") == (None, rows)
  {
    var rows := map[1 := Row("alice", "h1", "Alice", "", "t0", None), 2 := Row("bob", "h2", "Bob", "", "t0", None)];
    assert rows[1].username == "alice";
    assert HeldByOther(rows, "alice", 2);
  }

  /**
   * User.Update, corrected: the UPDATE's error is reported in both branches. Returns the error
   * and the resulting table; every error leaves the table as it was.
   */
  function UpdateOutcome(rows: map<int, Row>, u: User, kdf: Bcrypt.Kdf, salt: Option<Bcrypt.Salt>, now: string): (r: (Option<string>, map<int, Row>))
    ensures r.0.Some? ==> r.1 == rows
    ensures u.password != "" && salt.None? ==> r.0 == Some("error hashing password: " + ErrRandomSalt)
    ensures u.password == "" || salt.Some? ==>
              (r.0.None? <==> UpdateRow(rows, u.userId, u.username, NewHash(kdf, salt, u), u.fullName, u.email, now).Ok?)
    ensures r.0.None? ==> r.1 == UpdateRow(rows, u.userId, u.username, NewHash(kdf, salt, u), u.fullName, u.email, now).value
  {
    if u.password != "" && salt.None? then (Some("error hashing password: " + ErrRandomSalt), rows)
    else
      match UpdateRow(rows, u.userId, u.username, NewHash(kdf, salt, u), u.fullName, u.email, now)
      case Err(e) => (Some("error updating user: " + e), rows)
      case Ok(updated) => (None, updated)
  }

  /** The corrected update keeps the table invariant, whatever its outcome. */
  lemma UpdateOutcomeWellFormed(rows: map<int, Row>, nextId: int, u: User, kdf: Bcrypt.Kdf, salt: Option<Bcrypt.Salt>, now: string)
    requires WellFormed(rows, nextId)
    ensures WellFormed(UpdateOutcome(rows, u, kdf, salt, now).1, nextId)
  {
    if UpdateOutcome(rows, u, kdf, salt, now).0.None? {
      UpdateRowWellFormed(rows, nextId, u.userId, u.username, NewHash(kdf, salt, u), u.fullName, u.email, now);
    }
  }

  /**
   * The code as written differs from the corrected update in one case only: a new password is
   * given and the server rejects the UPDATE. Then it reports success over an unchanged table.
   */
  lemma UpdateAsWrittenDiffersOnlyOnHiddenError(rows: map<int, Row>, u: User, kdf: Bcrypt.Kdf, salt: Option<Bcrypt.Salt>, now: string)
    ensures UpdateAsWritten(rows, u, kdf, salt, now).1 == UpdateOutcome(rows, u, kdf, salt, now).1
    ensures UpdateAsWritten(rows, u, kdf, salt, now) != UpdateOutcome(rows, u, kdf, salt, now) <==>
              && u.password != "" && salt.Some?
              && UpdateRow(rows, u.userId, u.username, NewHash(kdf, salt, u), u.fullName, u.email, now).Err?
    ensures UpdateAsWritten(rows, u, kdf, salt, now) != UpdateOutcome(rows, u, kdf, salt, now) ==>
              UpdateAsWritten(rows, u, kdf, salt, now).0.None? && UpdateOutcome(rows, u, kdf, salt, now).0.Some?
  {
  }

  // ---------------------------------------------------------------------------------------------
  // The table

  class UserStore {
    /** The rows of `users`, by userid. */
    var rows: map<int, Row>
    /** The next value of the IDENTITY(1,1) column. */
    var nextId: int

    ghost predicate Valid()
      reads this
    {
      WellFormed(rows, nextId)
    }

    /** InitDB drops and re-creates the table: no rows, identity seed 1. */
    constructor ()
      ensures Valid() && rows == map[] && nextId == 1
    {
      rows := map[];
      nextId := 1;
    }

    /**
     * User.Create: hashes the password, inserts the row with the next identity, then stores the
     * new id in the record and clears its password. Both errors leave table and record unchanged.
     */
    method Create(u: User, kdf: Bcrypt.Kdf, salt: Option<Bcrypt.Salt>, now: string) returns (err: Option<string>, saved: User)
      requires Valid()
      modifies this
      ensures Valid()
      ensures salt.None? ==> err == Some("error hashing password: " + ErrRandomSalt)
      ensures salt.Some? ==>
                var row := Row(u.username, Bcrypt.GenerateFromPassword(kdf, salt.value, u.password), u.fullName, u.email, now, None);
                match WriteError(old(rows), old(nextId), row)
                case Some(e) => err == Some("error creating user: " + e)
                case None =>
                  && err.None?
                  && rows == old(rows)[old(nextId) := row]
                  && nextId == old(nextId) + 1
                  && saved == u.(userId := old(nextId), password := "")
      ensures err.Some? ==> rows == old(rows) && nextId == old(nextId) && saved == u
    {
      if salt.None? {
        return Some("error hashing password: " + ErrRandomSalt), u;
      }
      var hashed := Bcrypt.GenerateFromPassword(kdf, salt.value, u.password);
      var row := Row(u.username, hashed, u.fullName, u.email, now, None);
      var failure := WriteError(rows, nextId, row);
      if failure.Some? {
        return Some("error creating user: " + failure.value), u;
      }
      var newId := nextId;
      rows := rows[newId := row];
      nextId := nextId + 1;
      saved := u;
      saved := saved.(userId := newId);
      saved := saved.(password := "");
      err := None;
    }

    /** GetUserByID: the row without its password, or "user not found". */
    function GetUserByID(id: int): (r: Result<User>)
      reads this
      ensures r.Ok? <==> id in rows
      ensures r.Ok? ==> r.value == Listed(id, rows[id])
      ensures r.Err? ==> r.error == ErrUserNotFound
    {
      if id in rows then Ok(Listed(id, rows[id])) else Err(ErrUserNotFound)
    }

    /** GetUserByUsername: the row with its stored hash (and no created_on), or "user not found". */
    function GetUserByUsername(username: string): (r: Result<User>)
      reads this
      requires Valid()
      ensures r.Ok? <==> exists id :: id in rows && rows[id].username == username
      ensures r.Ok? ==> r.value.userId in rows && rows[r.value.userId].username == username
      ensures r.Ok? ==> var row := rows[r.value.userId];
                        r.value == User(r.value.userId, row.username, row.password, row.fullName, row.email, "")
      ensures r.Err? ==> r.error == ErrUserNotFound
    {
      if exists id :: id in rows && rows[id].username == username then
        var id :| id in rows && rows[id].username == username;
        var row := rows[id];
        Ok(User(id, row.username, row.password, row.fullName, row.email, ""))
      else Err(ErrUserNotFound)
    }

    /**
     * GetAllUsers: every row once, without passwords. The query has no ORDER BY; the rows come
     * in the order of the clustered primary key, ascending userid.
     */
    method GetAllUsers() returns (users: seq<User>)
      requires Valid()
      ensures forall i :: 0 <= i < |users| ==> users[i].userId in rows && users[i] == Listed(users[i].userId, rows[users[i].userId])
      ensures forall i, j :: 0 <= i < j < |users| ==> users[i].userId < users[j].userId
      ensures forall id :: id in rows ==> exists i :: 0 <= i < |users| && users[i].userId == id
    {
      users := [];
      var id := 1;
      while id < nextId
        invariant 1 <= id <= nextId
        invariant ListsRowsBelow(users, rows, id)
      {
        if id in rows {
          ListsNextRow(users, rows, id);
          users := users + [Listed(id, rows[id])];
        } else {
          ListsPastGap(users, rows, id);
        }
        id := id + 1;
      }
    }

    /**
     * User.Update, corrected: the UPDATE's error is reported in both branches. Hashes a
     * non-empty password first; on success the record's password is cleared.
     */
    method Update(u: User, kdf: Bcrypt.Kdf, salt: Option<Bcrypt.Salt>, now: string) returns (err: Option<string>, saved: User)
      requires Valid()
      modifies this
      ensures Valid() && nextId == old(nextId)
      ensures (err, rows) == UpdateOutcome(old(rows), u, kdf, salt, now)
      ensures saved == if err.None? then u.(password := "") else u
    {
      var hash: Option<string> := None;
      if u.password != "" {
        if salt.None? {
          return Some("error hashing password: " + ErrRandomSalt), u;
        }
        hash := Some(Bcrypt.GenerateFromPassword(kdf, salt.value, u.password));
      }
      var result := UpdateRow(rows, u.userId, u.username, hash, u.fullName, u.email, now);
      if result.Err? {
        return Some("error updating user: " + result.error), u;
      }
      UpdateOutcomeWellFormed(rows, nextId, u, kdf, salt, now);
      rows := result.value;
      saved := u.(password := "");
      err := None;
    }

    /** DeleteUser: removes row `id`; "user not found" when no row matched. */
    method DeleteUser(id: int) returns (err: Option<string>)
      requires Valid()
      modifies this
      ensures Valid() && nextId == old(nextId)
      ensures err.None? <==> id in old(rows)
      ensures err.Some? ==> err == Some(ErrUserNotFound)
      ensures rows == old(rows) - {id}
    {
      if id !in rows {
        return Some(ErrUserNotFound);
      }
      rows := rows - {id};
      err := None;
    }
  }
}
