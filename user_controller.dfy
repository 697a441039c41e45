/**
 * controllers/user_controller.go: the /users handlers. Each maps the path id, the request body
 * and the store's answer to a status code and a JSON body.
 */
module UserController {
  import opened Wrappers
  import opened Codec
  import Bcrypt
  import opened UserModel
  import opened Http

  const ErrInvalidUserId := "Invalid user ID"
  const ErrUserNotFoundReply := "User not found"
  const ErrCreateFailed := "Failed to create user"
  const ErrUpdateFailed := "Failed to update user"
  const ErrDeleteFailed := "Failed to delete user"
  const UserCreated := "User created successfully"
  const UserUpdated := "User updated successfully"
  const UserDeleted := "User deleted successfully"

  const InvalidUserId := Response(StatusBadRequest, ErrorBody(ErrInvalidUserId, None))

  // ---------------------------------------------------------------------------------------------
  // strconv.Atoi on a 64-bit platform

  const MinInt := -0x8000_0000_0000_0000
  const MaxInt := 0x7fff_ffff_ffff_ffff

  /** The digits after an optional leading sign. */
  function Unsigned(s: string): (digits: string)
    ensures |digits| == |s| || (|digits| == |s| - 1 && s[0] in {'+', '-'})
  {
    if s != [] && (s[0] == '+' || s[0] == '-') then s[1..] else s
  }

  /**
   * strconv.Atoi: an optional sign and at least one decimal digit, and a value that fits in a
   * 64-bit int; anything else is an error.
   */
  function Atoi(s: string): (r: Option<int>)
    ensures r.Some? ==> MinInt <= r.value <= MaxInt
    ensures r.Some? ==> Unsigned(s) != [] && AllDigits(Unsigned(s))
    ensures r.Some? && r.value < 0 ==> s[0] == '-'
  {
    var digits := Unsigned(s);
    if digits == [] || !AllDigits(digits) then None
    else
      var magnitude: int := TextToNat(digits);
      var value := if s[0] == '-' then -magnitude else magnitude;
      if MinInt <= value <= MaxInt then Some(value) else None
  }

  /** Every 64-bit int reads back from its decimal rendering. */
  lemma AtoiOfIntToText(n: int)
    requires MinInt <= n <= MaxInt
    ensures Atoi(IntToText(n)) == Some(n)
  {
    var s := IntToText(n);
    if n < 0 {
      assert Unsigned(s) == NatToText(-n);
      TextToNatOfNatToText(-n);
    } else {
      assert !IsDigit('-') && !IsDigit('+');
      assert s[0] != '-' && s[0] != '+';
      TextToNatOfNatToText(n);
    }
  }

  /** Path ids that are not integers. */
  lemma AtoiRejectsNonIntegers()
    ensures Atoi("") == None && Atoi("-") == None && Atoi("+") == None
    ensures Atoi("abc") == None && Atoi("12a") == None && Atoi("1.5") == None
  {
    assert !IsDigit('a');
    assert "12a"[2] == 'a';
    assert "1.5"[1] == '.';
  }

  // ---------------------------------------------------------------------------------------------
  // Request bodies

  /** CreateUserRequest: all three fields are `binding:"required"`; there is no email. */
  datatype CreateUserRequest = CreateUserRequest(username: string, password: string, fullName: string)

  const CreateUserFields := [FieldTag("Username", "username", true), FieldTag("Password", "password", true),
                             FieldTag("FullName", "full_name", true)]

  function BindCreateUserRequest(p: Payload): (r: Result<CreateUserRequest>)
    ensures p.Err? ==> r == Err(p.error)
    ensures p.Ok? ==> (r.Ok? <==> Member(p.value, "username") != "" && Member(p.value, "password") != ""
                                  && Member(p.value, "full_name") != "")
    ensures r.Ok? ==> r.value == CreateUserRequest(Member(p.value, "username"), Member(p.value, "password"),
                                                   Member(p.value, "full_name"))
  {
    match Bind(p, "CreateUserRequest", CreateUserFields)
    case Err(e) => Err(e)
    case Ok(values) => Ok(CreateUserRequest(values[0], values[1], values[2]))
  }

  /** UpdateUserRequest: every field optional; there is no email. */
  datatype UpdateUserRequest = UpdateUserRequest(username: string, password: string, fullName: string)

  const UpdateUserFields := [FieldTag("Username", "username", false), FieldTag("Password", "password", false),
                             FieldTag("FullName", "full_name", false)]

  function BindUpdateUserRequest(p: Payload): (r: Result<UpdateUserRequest>)
    ensures r.Err? <==> p.Err?
    ensures p.Err? ==> r == Err(p.error)
    ensures r.Ok? ==> r.value == UpdateUserRequest(Member(p.value, "username"), Member(p.value, "password"),
                                                   Member(p.value, "full_name"))
  {
    match Bind(p, "UpdateUserRequest", UpdateUserFields)
    case Err(e) => Err(e)
    case Ok(values) => Ok(UpdateUserRequest(values[0], values[1], values[2]))
  }

  // ---------------------------------------------------------------------------------------------
  // POST /users

  /**
   * CreateUser: 400 when binding fails, 500 with the model's error when the insert fails, and
   * otherwise 201 with the saved record: its new id and no password. The row holds the hash.
   */
  method CreateUser(store: UserStore, p: Payload, kdf: Bcrypt.Kdf, salt: Option<Bcrypt.Salt>, now: string) returns (resp: Response)
    requires store.Valid()
    modifies store
    ensures store.Valid()
    ensures BindCreateUserRequest(p).Err? ==>
              resp == Response(StatusBadRequest, ErrorBody(ErrInvalidRequest, Some(BindCreateUserRequest(p).error)))
    ensures resp.status != StatusCreated ==> store.rows == old(store.rows) && store.nextId == old(store.nextId)
    ensures resp.status == StatusInternalServerError ==> resp.body.ErrorBody? && resp.body.error == ErrCreateFailed
    ensures resp.status in {StatusCreated, StatusBadRequest, StatusInternalServerError}
    ensures BindCreateUserRequest(p).Ok? && resp.status != StatusCreated ==> resp.status == StatusInternalServerError
    ensures resp.status == StatusCreated ==>
              var req := BindCreateUserRequest(p).value;
              var id := old(store.nextId);
              && salt.Some?
              && resp == Response(StatusCreated, UserMessageBody(UserCreated, User(id, req.username, "", req.fullName, "", "")))
              && store.rows == old(store.rows)[id := Row(req.username, Bcrypt.GenerateFromPassword(kdf, salt.value, req.password),
                                                        req.fullName, "", now, None)]
    ensures BindCreateUserRequest(p).Ok? && salt.Some? ==>
              var req := BindCreateUserRequest(p).value;
              var row := Row(req.username, Bcrypt.GenerateFromPassword(kdf, salt.value, req.password), req.fullName, "", now, None);
              (resp.status == StatusCreated <==> WriteError(old(store.rows), old(store.nextId), row).None?)
  {
    var bound := BindCreateUserRequest(p);
    if bound.Err? {
      return Response(StatusBadRequest, ErrorBody(ErrInvalidRequest, Some(bound.error)));
    }
    var req := bound.value;
    var user := User(0, req.username, req.password, req.fullName, "", "");
    var err, saved := store.Create(user, kdf, salt, now);
    if err.Some? {
      return Response(StatusInternalServerError, ErrorBody(ErrCreateFailed, Some(err.value)));
    }
    resp := Response(StatusCreated, UserMessageBody(UserCreated, saved));
  }

  // ---------------------------------------------------------------------------------------------
  // GET /users and GET /users/{id}

  /** GetUsers: every user once, without passwords, and `count` equal to the list's length. */
  method GetUsers(store: UserStore) returns (resp: Response)
    requires store.Valid()
    ensures resp.status == StatusOK && resp.body.UsersBody? && resp.body.count == |resp.body.users|
    ensures var users := resp.body.users;
            && (forall i :: 0 <= i < |users| ==> users[i].userId in store.rows && users[i].password == ""
                                                 && users[i] == Listed(users[i].userId, store.rows[users[i].userId]))
            && (forall i, j :: 0 <= i < j < |users| ==> users[i].userId != users[j].userId)
            && (forall id :: id in store.rows ==> exists i :: 0 <= i < |users| && users[i].userId == id)
  {
    var users := store.GetAllUsers();
    resp := Response(StatusOK, UsersBody(users, |users|));
  }

  /** GetUser: 400 for a non-integer id, 404 with the model's error for an unknown one, else the record. */
  function GetUser(store: UserStore, idParam: string): (resp: Response)
    reads store
    ensures Atoi(idParam).None? <==> resp == InvalidUserId
    ensures resp.status == StatusNotFound <==> Atoi(idParam).Some? && Atoi(idParam).value !in store.rows
    ensures resp.status == StatusNotFound ==> resp == Response(StatusNotFound, ErrorBody(ErrUserNotFoundReply, Some(ErrUserNotFound)))
    ensures resp.status == StatusOK ==>
              && resp.body.UserBody?
              && resp.body.user.userId == Atoi(idParam).value
              && resp.body.user.password == ""
              && resp.body.user == Listed(resp.body.user.userId, store.rows[resp.body.user.userId])
    ensures resp.status in {StatusOK, StatusBadRequest, StatusNotFound}
  {
    match Atoi(idParam)
    case None => InvalidUserId
    case Some(id) =>
      match store.GetUserByID(id)
      case Err(e) => Response(StatusNotFound, ErrorBody(ErrUserNotFoundReply, Some(e)))
      case Ok(user) => Response(StatusOK, UserBody(user))
  }

  /** GET /users/<id> for a stored id answers with that row. */
  lemma GetStoredUser(store: UserStore, id: int)
    requires id in store.rows && MinInt <= id <= MaxInt
    ensures GetUser(store, IntToText(id)) == Response(StatusOK, UserBody(Listed(id, store.rows[id])))
  {
    AtoiOfIntToText(id);
  }

  // ---------------------------------------------------------------------------------------------
  // PUT /users/{id}

  /** The field merge of UpdateUser: a non-empty request value overwrites, an empty one keeps. */
  function Merged(existing: User, req: UpdateUserRequest): (u: User)
    ensures u.userId == existing.userId && u.email == existing.email && u.createdOn == existing.createdOn
    ensures u.username in {existing.username, req.username} && u.fullName in {existing.fullName, req.fullName}
    ensures u.password in {existing.password, req.password}
  {
    var u1 := if req.username != "" then existing.(username := req.username) else existing;
    var u2 := if req.fullName != "" then u1.(fullName := req.fullName) else u1;
    if req.password != "" then u2.(password := req.password) else u2
  }

  /** Each field is the request's when that is non-empty and the existing one otherwise. */
  lemma MergePerField(existing: User, req: UpdateUserRequest)
    ensures req.username == "" ==> Merged(existing, req).username == existing.username
    ensures req.username != "" ==> Merged(existing, req).username == req.username
    ensures req.fullName == "" ==> Merged(existing, req).fullName == existing.fullName
    ensures req.fullName != "" ==> Merged(existing, req).fullName == req.fullName
    ensures req.password == "" ==> Merged(existing, req).password == existing.password
    ensures req.password != "" ==> Merged(existing, req).password == req.password
  {
  }

  /** An empty body changes nothing, and applying the same request twice is applying it once. */
  lemma MergeEmptyAndIdempotent(existing: User, req: UpdateUserRequest)
    ensures Merged(existing, UpdateUserRequest("", "", "")) == existing
    ensures Merged(Merged(existing, req), req) == Merged(existing, req)
  {
  }

  /**
   * UpdateUser: 400 for a non-integer id; 404 for an unknown id, checked before the body is
   * read; 400 when binding fails; then the merged record is saved: 500 with the model's error,
   * or 200 with the saved record. A successful update keeps the email and creation time, and
   * keeps the stored hash when no password was sent.
   */
  method UpdateUser(store: UserStore, idParam: string, p: Payload, kdf: Bcrypt.Kdf, salt: Option<Bcrypt.Salt>, now: string)
    returns (resp: Response)
    requires store.Valid()
    modifies store
    ensures store.Valid() && store.nextId == old(store.nextId)
    ensures Atoi(idParam).None? ==> resp == InvalidUserId
    ensures Atoi(idParam).Some? && Atoi(idParam).value !in old(store.rows) ==>
              resp == Response(StatusNotFound, ErrorBody(ErrUserNotFoundReply, Some(ErrUserNotFound)))
    ensures Atoi(idParam).Some? && Atoi(idParam).value in old(store.rows) && p.Err? ==>
              resp == Response(StatusBadRequest, ErrorBody(ErrInvalidRequest, Some(p.error)))
    ensures resp.status != StatusOK ==> store.rows == old(store.rows)
    ensures resp.status == StatusInternalServerError ==> resp.body.ErrorBody? && resp.body.error == ErrUpdateFailed
    ensures resp.status == StatusOK ==>
              var id := Atoi(idParam).value;
              var merged := Merged(Listed(id, old(store.rows)[id]), BindUpdateUserRequest(p).value);
              && resp == Response(StatusOK, UserMessageBody(UserUpdated, merged.(password := "")))
              && (merged.password == "" || salt.Some?)
              && UpdateRow(old(store.rows), id, merged.username, NewHash(kdf, salt, merged), merged.fullName, merged.email, now).Ok?
              && store.rows == UpdateRow(old(store.rows), id, merged.username, NewHash(kdf, salt, merged),
                                         merged.fullName, merged.email, now).value
              && id in store.rows
              && store.rows[id].email == old(store.rows)[id].email
              && store.rows[id].createdOn == old(store.rows)[id].createdOn
              && (BindUpdateUserRequest(p).value.password == "" ==> store.rows[id].password == old(store.rows)[id].password)
    ensures Atoi(idParam).Some? && Atoi(idParam).value in old(store.rows) && p.Ok? ==>
              var id := Atoi(idParam).value;
              var merged := Merged(Listed(id, old(store.rows)[id]), BindUpdateUserRequest(p).value);
              (resp.status == StatusOK <==> (merged.password == "" || salt.Some?)
                                            && UpdateRow(old(store.rows), id, merged.username, NewHash(kdf, salt, merged),
                                                         merged.fullName, merged.email, now).Ok?)
    ensures Atoi(idParam).Some? && Atoi(idParam).value in old(store.rows) && p.Ok? && resp.status != StatusOK ==>
              resp.status == StatusInternalServerError
    ensures resp.status in {StatusOK, StatusBadRequest, StatusNotFound, StatusInternalServerError}
  {
    var parsed := Atoi(idParam);
    if parsed.None? {
      return InvalidUserId;
    }
    var id := parsed.value;
    var found := store.GetUserByID(id);
    if found.Err? {
      return Response(StatusNotFound, ErrorBody(ErrUserNotFoundReply, Some(found.error)));
    }
    var bound := BindUpdateUserRequest(p);
    if bound.Err? {
      return Response(StatusBadRequest, ErrorBody(ErrInvalidRequest, Some(bound.error)));
    }
    var req := bound.value;
    var existing := found.value;
    if req.username != "" {
      existing := existing.(username := req.username);
    }
    if req.fullName != "" {
      existing := existing.(fullName := req.fullName);
    }
    if req.password != "" {
      existing := existing.(password := req.password);
    }
    assert existing == Merged(found.value, req);
    var err, saved := store.Update(existing, kdf, salt, now);
    if err.Some? {
      return Response(StatusInternalServerError, ErrorBody(ErrUpdateFailed, Some(err.value)));
    }
    resp := Response(StatusOK, UserMessageBody(UserUpdated, saved));
  }

  // ---------------------------------------------------------------------------------------------
  // DELETE /users/{id}

  /** DeleteUser: 400 for a non-integer id, 404 when no row had it, else 200 and the row is gone. */
  method DeleteUser(store: UserStore, idParam: string) returns (resp: Response)
    requires store.Valid()
    modifies store
    ensures store.Valid() && store.nextId == old(store.nextId)
    ensures Atoi(idParam).None? ==> resp == InvalidUserId && store.rows == old(store.rows)
    ensures Atoi(idParam).Some? ==>
              var id := Atoi(idParam).value;
              && store.rows == old(store.rows) - {id}
              && (id in old(store.rows) ==> resp == Response(StatusOK, MessageBody(UserDeleted)))
              && (id !in old(store.rows) ==> resp == Response(StatusNotFound, ErrorBody(ErrDeleteFailed, Some(ErrUserNotFound))))
  {
    var parsed := Atoi(idParam);
    if parsed.None? {
      return InvalidUserId;
    }
    var err := store.DeleteUser(parsed.value);
    if err.Some? {
      return Response(StatusNotFound, ErrorBody(ErrDeleteFailed, Some(err.value)));
    }
    resp := Response(StatusOK, MessageBody(UserDeleted));
  }
}
