/**
 * controllers/auth_controller.go: POST /login. Binds the credentials, looks the user up by
 * name, checks the password against the stored bcrypt hash and answers with a fresh token.
 */
module AuthController {
  import opened Wrappers
  import opened Os
  import Jwt
  import Bcrypt
  import opened Token
  import opened UserModel
  import opened Http
  import AuthMiddleware

  const ErrInvalidCredentials := "Invalid username or password"
  const ErrTokenGeneration := "Failed to generate token"
  const LoginSucceeded := "Login successful"

  /** The LoginRequest struct: both fields are `binding:"required"`. */
  datatype LoginRequest = LoginRequest(username: string, password: string)

  const LoginFields := [FieldTag("Username", "username", true), FieldTag("Password", "password", true)]

  /** ShouldBindJSON into a LoginRequest. */
  function BindLoginRequest(p: Payload): (r: Result<LoginRequest>)
    ensures p.Err? ==> r == Err(p.error)
    ensures p.Ok? ==> (r.Ok? <==> Member(p.value, "username") != "" && Member(p.value, "password") != "")
    ensures r.Ok? ==> r.value == LoginRequest(Member(p.value, "username"), Member(p.value, "password"))
  {
    match Bind(p, "LoginRequest", LoginFields)
    case Err(e) => Err(e)
    case Ok(values) => Ok(LoginRequest(values[0], values[1]))
  }

  /** The single 401 answer for an unknown user and for a wrong password alike. */
  const InvalidCredentials := Response(StatusUnauthorized, ErrorBody(ErrInvalidCredentials, None))

  /** The stored user named `name` accepts `password`. */
  ghost predicate CredentialsMatch(store: UserStore, kdf: Bcrypt.Kdf, name: string, password: string)
    reads store
  {
    exists id :: id in store.rows && store.rows[id].username == name
                 && Bcrypt.CompareHashAndPassword(kdf, store.rows[id].password, password).None?
  }

  /**
   * Login once the credentials are bound: the same 401 for an unknown name and a wrong
   * password; 500 when signing fails; otherwise 200 with a token for the stored user and that
   * user's record with the password cleared.
   */
  function LoginWithRequest(store: UserStore, req: LoginRequest, kdf: Bcrypt.Kdf, hmac: Jwt.HmacFunction, env: Environment, now: int): (resp: Response)
    reads store
    requires store.Valid()
    ensures resp == InvalidCredentials <==> !CredentialsMatch(store, kdf, req.username, req.password)
    ensures resp.status == StatusUnauthorized ==> resp == InvalidCredentials
    ensures resp.status == StatusOK ==>
              && resp.body.LoginBody?
              && resp.body.message == LoginSucceeded
              && resp.body.user.password == ""
              && resp.body.user.userId in store.rows
              && store.rows[resp.body.user.userId].username == req.username
              && Bcrypt.CompareHashAndPassword(kdf, store.rows[resp.body.user.userId].password, req.password).None?
              && Ok(resp.body.token) == GenerateToken(env, hmac, resp.body.user.userId, resp.body.user.username, now)
    ensures resp.status in {StatusOK, StatusUnauthorized, StatusInternalServerError}
    ensures resp.status == StatusInternalServerError <==>
              && store.GetUserByUsername(req.username).Ok?
              && ValidatePassword(kdf, store.GetUserByUsername(req.username).value, req.password).None?
              && var user := store.GetUserByUsername(req.username).value;
                 GenerateToken(env, hmac, user.userId, user.username, now).Err?
    ensures resp.status == StatusInternalServerError ==> resp == Response(StatusInternalServerError, ErrorBody(ErrTokenGeneration, None))
  {
    match store.GetUserByUsername(req.username)
    case Err(_) => InvalidCredentials
    case Ok(user) =>
      if ValidatePassword(kdf, user, req.password).Some? then InvalidCredentials
      else
        match GenerateToken(env, hmac, user.userId, user.username, now)
        case Err(_) => Response(StatusInternalServerError, ErrorBody(ErrTokenGeneration, None))
        case Ok(token) => Response(StatusOK, LoginBody(token, user.(password := ""), LoginSucceeded))
  }

  /** Login: 400 when binding fails, before any lookup; otherwise LoginWithRequest. */
  function Login(store: UserStore, p: Payload, kdf: Bcrypt.Kdf, hmac: Jwt.HmacFunction, env: Environment, now: int): (resp: Response)
    reads store
    requires store.Valid()
    ensures BindLoginRequest(p).Err? ==>
              resp == Response(StatusBadRequest, ErrorBody(ErrInvalidRequest, Some(BindLoginRequest(p).error)))
    ensures BindLoginRequest(p).Ok? ==>
              var req := BindLoginRequest(p).value;
              (resp == InvalidCredentials <==> !CredentialsMatch(store, kdf, req.username, req.password))
    ensures resp.status == StatusUnauthorized ==> resp == InvalidCredentials
    ensures resp.status == StatusOK ==>
              && resp.body.LoginBody?
              && resp.body.message == LoginSucceeded
              && resp.body.user.password == ""
              && resp.body.user.userId in store.rows
              && store.rows[resp.body.user.userId].username == BindLoginRequest(p).value.username
              && Bcrypt.CompareHashAndPassword(kdf, store.rows[resp.body.user.userId].password,
                                               BindLoginRequest(p).value.password).None?
              && Ok(resp.body.token) == GenerateToken(env, hmac, resp.body.user.userId, resp.body.user.username, now)
    ensures resp.status in {StatusOK, StatusBadRequest, StatusUnauthorized, StatusInternalServerError}
    ensures BindLoginRequest(p).Ok? ==> resp.status != StatusBadRequest
    ensures resp.status == StatusInternalServerError <==>
              && BindLoginRequest(p).Ok?
              && var req := BindLoginRequest(p).value;
                 && store.GetUserByUsername(req.username).Ok?
                 && ValidatePassword(kdf, store.GetUserByUsername(req.username).value, req.password).None?
                 && var user := store.GetUserByUsername(req.username).value;
                    GenerateToken(env, hmac, user.userId, user.username, now).Err?
    ensures resp.status == StatusInternalServerError ==> resp == Response(StatusInternalServerError, ErrorBody(ErrTokenGeneration, None))
  {
    match BindLoginRequest(p)
    case Err(e) => Response(StatusBadRequest, ErrorBody(ErrInvalidRequest, Some(e)))
    case Ok(req) => LoginWithRequest(store, req, kdf, hmac, env, now)
  }

  /** The credentials body a client sends. */
  function CredentialsBody(username: string, password: string): Payload
  {
    Ok(map["username" := username, "password" := password])
  }

  /** Once the stored user accepts the password and signing works, Login answers 200 for that user. */
  lemma LoginOfAcceptedCredentials(store: UserStore, p: Payload, kdf: Bcrypt.Kdf, hmac: Jwt.HmacFunction, env: Environment, now: int)
    requires store.Valid()
    requires BindLoginRequest(p).Ok?
    requires var req := BindLoginRequest(p).value;
             && store.GetUserByUsername(req.username).Ok?
             && ValidatePassword(kdf, store.GetUserByUsername(req.username).value, req.password).None?
    requires var user := store.GetUserByUsername(BindLoginRequest(p).value.username).value;
             GenerateToken(env, hmac, user.userId, user.username, now).Ok?
    ensures var user := store.GetUserByUsername(BindLoginRequest(p).value.username).value;
            Login(store, p, kdf, hmac, env, now)
            == Response(StatusOK, LoginBody(GenerateToken(env, hmac, user.userId, user.username, now).value,
                                            user.(password := ""), LoginSucceeded))
  {
  }

  /** Logging in with the password a stored hash was generated from succeeds, for that row. */
  lemma LoginWithStoredPassword(store: UserStore, kdf: Bcrypt.Kdf, salt: Bcrypt.Salt, hmac: Jwt.HmacFunction,
                                env: Environment, id: int, password: string, now: int)
    requires store.Valid()
    requires id in store.rows && store.rows[id].password == Bcrypt.GenerateFromPassword(kdf, salt, password)
    requires store.rows[id].username != "" && password != ""
    requires GenerateToken(env, hmac, id, store.rows[id].username, now).Ok?
    ensures var resp := Login(store, CredentialsBody(store.rows[id].username, password), kdf, hmac, env, now);
            resp.status == StatusOK && resp.body.user.userId == id
  {
    var name := store.rows[id].username;
    var body := CredentialsBody(name, password);
    assert Member(body.value, "username") == name && Member(body.value, "password") == password;
    assert BindLoginRequest(body) == Ok(LoginRequest(name, password));
    var user := store.GetUserByUsername(name).value;
    assert user.userId == id;
    Bcrypt.CompareGenerated(kdf, salt, password);
    LoginOfAcceptedCredentials(store, body, kdf, hmac, env, now);
  }

  /** Any password with a different bcrypt key schedule is refused with the common 401. */
  lemma LoginWithOtherPassword(store: UserStore, kdf: Bcrypt.Kdf, salt: Bcrypt.Salt, hmac: Jwt.HmacFunction,
                               env: Environment, id: int, password: string, other: string, now: int)
    requires store.Valid()
    requires id in store.rows && store.rows[id].password == Bcrypt.GenerateFromPassword(kdf, salt, password)
    requires store.rows[id].username != "" && other != ""
    requires Bcrypt.CollisionFree(kdf, salt) && Bcrypt.EffectiveKey(other) != Bcrypt.EffectiveKey(password)
    ensures Login(store, CredentialsBody(store.rows[id].username, other), kdf, hmac, env, now) == InvalidCredentials
  {
    var name := store.rows[id].username;
    var body := CredentialsBody(name, other);
    assert Member(body.value, "username") == name && Member(body.value, "password") == other;
    assert BindLoginRequest(body) == Ok(LoginRequest(name, other));
    var user := store.GetUserByUsername(name).value;
    assert user.userId == id && user.password == store.rows[id].password;
    Bcrypt.CompareOtherPassword(kdf, salt, password, other);
    assert ValidatePassword(kdf, user, other).Some?;
  }

  /** The token a successful login returns authorizes its user on protected routes for 24 hours. */
  lemma LoginTokenAuthorizes(store: UserStore, p: Payload, kdf: Bcrypt.Kdf, hmac: Jwt.HmacFunction,
                             env: Environment, now: int, later: int)
    requires store.Valid()
    requires Login(store, p, kdf, hmac, env, now).status == StatusOK
    requires now <= later <= now + TokenLifetime
    ensures var body := Login(store, p, kdf, hmac, env, now).body;
            AuthMiddleware.Authenticate(env, hmac, BearerPrefix + body.token, later)
            == AuthMiddleware.Authorize(body.user.userId, body.user.username)
  {
    var body := Login(store, p, kdf, hmac, env, now).body;
    AuthMiddleware.GeneratedTokenAuthorizes(env, hmac, body.user.userId, body.user.username, now, later);
  }
}
