# simple-restful-api: authentication and user store, modelled in Dafny

The service is a Gin REST API over a SQL Server `users` table. It has two public routes:
`POST /login` checks a bcrypt-hashed password and answers with a 24-hour HS256 JWT, and
`POST /users` creates an account. It also has four routes behind a Bearer-token middleware:
list users, get one user, update a user and delete a user.

This project models the logic of those handlers, the middleware, the token utilities and the
user model. The things the code reaches out to become explicit inputs:

- **Environment.** `os.Getenv` reads a map (`Os.Environment`).
- **Clock.** The time is a parameter: `now` in Unix seconds for tokens, and a timestamp string for `created_on`/`updated_on`.
- **HMAC.** The keyed hash is a function-typed parameter (`Jwt.HmacFunction`). It returns `None` when the hash is unavailable. No property of HMAC is assumed except where a lemma states it as a `requires`: `Token.CollisionFree`.
- **bcrypt.** The bcrypt key derivation is a function-typed parameter (`Bcrypt.Kdf`), and the random salt is an input. `Bcrypt.CollisionFree` is the one hypothesis, used where wrong passwords must be refused: under one salt, the digest gives different outputs for different 72-byte key schedules. bcrypt's key schedule is the password followed by a NUL byte, repeated over 72 bytes, so passwords containing NUL can share one (`Bcrypt.NulPasswordsShareKey`).
- **The `users` table.** It is the class `UserModel.UserStore`: a map from `userid` to row plus the IDENTITY(1,1) counter. Its invariant `UserModel.WellFormed` says:
  - ids lie below the counter;
  - usernames are unique (the UNIQUE column);
  - values fit their NVARCHAR widths.
- **Gin's context.** It is the class `AuthMiddleware.Context`: headers, a key/value map, the aborted and continued flags, and the response written.
- **JSON binding and `strconv.Atoi`.** `ShouldBindJSON` is `Http.Bind` over a decoded body (`Http.Payload`). It checks the `binding:"required"` tags. `strconv.Atoi` is `UserController.Atoi`, with Go's 64-bit range.
- **Token encoding.** A token is three segments joined by `.`: header, claims, signature. Segments use an escape encoding in place of base64url/JSON. `Codec` proves the two properties the code relies on: a segment never contains `.`, and decoding inverts encoding.

The main results:

- A freshly generated token validates to the same claims throughout its lifetime, and is refused after it. With a collision-free HMAC, a token with a forged signature or altered claims is refused.
- `ValidateToken` accepts only HMAC algorithms, and it accepts exactly the genuine, current tokens.
- The middleware runs its checks in a fixed order and either aborts with 401 or sets `user_id`/`username` and continues, never both.
- Login returns the same 401 for an unknown user and for a wrong password. A successful login returns a token that authorizes that user on the protected routes.
- The handlers map each outcome to its status code. The update merge only overwrites fields sent non-empty and never touches the email.
- The store keeps its invariant across create, update and delete.

Behaviours of the code the model keeps:

- The code re-reads `JWT_SECRET` on every call and falls back to a built-in default secret. It does not load the secret once and fail when it is missing.
- The code accepts any HMAC method (HS256, HS384, HS512), not HS256 alone.
- A rejected token's response carries the internal validation error in `details`.

`controllers/auth_controller.go:67` passes `user.ID`, but `User` has only `UserID`
(`models/user_model.go:16`), so that file does not compile as shown. The model uses the
evidently intended `UserID`.

Assumptions fixed by the model:

- **Expiry.** jwt-go v3 accepts a token at exactly its `exp` second (`now <= exp`). A zero `exp`, `iat` or `nbf` is not checked.
- **Clock readings.** `GenerateToken` reads the clock twice. The model reads it once, so `exp - iat` is exactly 86400.
- **Username comparison.** Usernames compare exactly. The server's collation may ignore case; that is not modelled.
- **Identity counter.** The model advances the IDENTITY counter only on a successful INSERT. SQL Server also uses up a value on a failed INSERT; the model does not track those gaps.
- **Row order.** `GetAllUsers` returns rows in ascending `userid`, the clustered primary-key order.

## Model

| member | source | states |
|---|---|---|
| `Token.GetJwtSecret` | utils/token.go:13-24 | the secret is `JWT_SECRET` when that is non-empty, the fixed default otherwise, and never empty |
| `Token.NewClaims` | utils/token.go:36-44 | claims carry exactly the given user id and username, issuer "simple-restful-api", issued at `now`, expiry exactly 24 h later |
| `Token.DecodeEncodeClaims` | utils/token.go:47-50 | the claims segment decodes back to the claims it was built from |
| `Token.GeneratedTokenSegments` | utils/token.go:46-55 | generation fails only when the HMAC cannot be computed; otherwise the token is header.claims.signature |
| `Token.KeyFunc` | utils/token.go:61-67 | a key is supplied exactly for HMAC methods, and it is the configured secret |
| `Token.HmacAlgorithms` | utils/token.go:63-65 | exactly "HS256", "HS384" and "HS512" pass the signing-method check; "none", RS*, PS* and ES* do not |
| `Token.GenerateToken` | utils/token.go:34-56 | the token is produced exactly when the HS256 MAC of header and the user's claims under the configured secret is available, and is then header.claims.signature with that MAC as signature; otherwise "error signing token: " and the hash error |
| `Token.ParseWithClaims` | utils/token.go:61-71 | a parse that succeeds always yields a token marked valid |
| `Token.ValidateToken` | utils/token.go:59-79 | claims are returned only for an authentic token (HMAC alg, signature matching under the secret) that is current; every authentic current token is accepted; any non-HMAC alg is an error |
| `Token.GeneratedTokenValidates` | utils/token.go:34-79 | a generated token validates, at any time within its 24 h lifetime, to exactly the claims it was made from |
| `Token.GeneratedTokenExpires` | utils/token.go:40-41 | a generated token is refused after its expiry |
| `Token.ForgedSignatureRejected` | utils/token.go:61-71 | a generated token whose signature is replaced by any other bytes is refused |
| `Token.SigningStringsDiffer` | utils/token.go:47-50 | different claims give different signed strings under one header |
| `Token.AlteredClaimsRejected` | utils/token.go:61-78 | keeping the genuine signature but changing the claims is refused, for a collision-free HMAC |
| `Token.ExtractTokenFromHeader` | utils/token.go:82-87 | the result is non-empty exactly when the header is longer than 7 and starts with "Bearer ", and then the header is "Bearer " + result |
| `Token.ExtractBearerRoundTrip` | utils/token.go:82-84 | extracting from "Bearer " + t gives t back for every non-empty t |
| `Token.ExtractRejectsOtherHeaders` | utils/token.go:83-86 | "bearer abc123", "abc123", "" and "Bearer " alone all give ""; "Bearer abc123" gives "abc123" |
| `Jwt.GetSigningMethod` | utils/token.go:61-63 | a method found for an "alg" has that name |
| `Jwt.GetSigningMethodOfAlgName` | utils/token.go:47 | every method is found again under its own "alg" name |
| `Jwt.ValidateStandardClaims` | utils/token.go:74 | the time claims pass exactly when the token is current; a not-yet-valid token reports that error |
| `Jwt.Sign` | utils/token.go:50 | signing succeeds exactly for an HMAC method whose hash is available, and the signature segment is the MAC's encoding and decodes to it; otherwise the error is the invalid-key-type error for a non-HMAC method and the hash-unavailable error for HMAC |
| `Jwt.Verify` | utils/token.go:61 | a signature is accepted exactly when the method is HMAC and the decoded signature equals the MAC of the signed string |
| `Bcrypt.GenerateFromPassword` | models/user_model.go:116 | the stored hash starts with the version/cost prefix and embeds its salt |
| `Bcrypt.CompareGenerated` | models/user_model.go:250-252 | a hash accepts the password it was generated from |
| `Bcrypt.EffectiveKey` | models/user_model.go:250-252 | the digest reads 72 bytes: the password followed by NUL, repeated; each password byte within the first 72 is read at its position, and a shorter password is followed by NUL |
| `Bcrypt.EffectiveKeyOfLongPassword` | models/user_model.go:250-252 | a password of 72 bytes or more contributes exactly its first 72 bytes |
| `Bcrypt.EffectiveKeyInjective` | models/user_model.go:250-252 | NUL-free passwords of at most 72 bytes with the same key schedule are equal |
| `Bcrypt.NulPasswordsShareKey` | models/user_model.go:250-252 | "a" and "a", NUL, "a" have the same key schedule |
| `Bcrypt.CompareHashAndPassword` | models/user_model.go:250-252 | no error exactly when the hash is the password hashed under some salt; otherwise the error is "hash too short" or the mismatch error |
| `Bcrypt.CompareAcceptsNulVariant` | models/user_model.go:250-252 | the hash of "a" also accepts "a", NUL, "a" |
| `Bcrypt.CompareIgnoresBytesBeyondKey` | models/user_model.go:250-252 | a hash of a password of 72 bytes or more also accepts that password with any suffix |
| `Bcrypt.CompareOtherPassword` | models/user_model.go:250-252 | under `Bcrypt.CollisionFree` for the salt, a hash refuses every password with a different key schedule, with the mismatch error |
| `Bcrypt.DistinctSaltsDistinctHashes` | models/user_model.go:116 | one password hashed under two salts gives two different stored hashes |
| `UserModel.SettingOr` | models/user_model.go:44-59 | a setting is replaced by its default exactly when empty and kept unchanged otherwise |
| `UserModel.LoadDbConfig` | models/user_model.go:37-59 | each of the five DB settings is its environment value or, when empty, its default; none is empty |
| `UserModel.WriteError` | models/user_model.go:84-95 | a write is accepted exactly when the row fits the column widths and no other row holds the username |
| `UserModel.Listed` | models/user_model.go:161-165 | a row as selected carries its id and no password |
| `UserModel.ValidatePassword` | models/user_model.go:250-252 | no error exactly when the stored hash is the candidate hashed under some salt |
| `UserModel.ValidatePasswordOfStoredHash` | models/user_model.go:250-252 | under `Bcrypt.CollisionFree` for the salt, a record holding the hash of p accepts a candidate exactly when it has the key schedule of p; among NUL-free passwords of at most 72 bytes, exactly when it is p |
| `UserModel.UpdateRow` | models/user_model.go:204-218 | UPDATE overwrites username, full name and email, the hash only when one is given, keeps every other row, and fails exactly on a width or uniqueness violation; an absent id changes nothing |
| `UserModel.UpdateRowWellFormed` | models/user_model.go:84-95 | a successful UPDATE keeps ids, unique usernames and column widths |
| `UserModel.UpdateAsWritten` | models/user_model.go:194-227 | Update as written: with a new password and a salt, no error is ever reported; without a password, an error exactly when the UPDATE fails; the table is the UPDATE's outcome whenever it runs |
| `UserModel.UpdateAsWrittenHidesRejectedUpdate` | models/user_model.go:196-223 | with a new password, an UPDATE the server rejects for a duplicate username is reported as success |
| `UserModel.UpdateOutcome` | models/user_model.go:194-227 | corrected Update: an error is reported exactly when hashing or the UPDATE fails, and then the table is unchanged |
| `UserModel.UpdateOutcomeWellFormed` | models/user_model.go:194-227 | the corrected Update keeps the table invariant |
| `UserModel.UpdateAsWrittenDiffersOnlyOnHiddenError` | models/user_model.go:199-223 | as written and corrected Update differ only when a new password is given and the UPDATE fails, where the code reports success |
| `UserModel.UserStore.constructor` | models/user_model.go:84-95 | the re-created table is empty with identity seed 1 |
| `UserModel.UserStore.Create` | models/user_model.go:114-135 | stores the hash, never the plaintext, under the next identity; on success the record gets the new id and an empty password; any error (salt, width, duplicate username) leaves table and record unchanged |
| `UserModel.UserStore.GetUserByID` | models/user_model.go:160-174 | found exactly for a stored id, without the password; otherwise "user not found" |
| `UserModel.UserStore.GetUserByUsername` | models/user_model.go:177-191 | found exactly when some row has the username, returning that row with its stored hash; otherwise "user not found" |
| `UserModel.UserStore.GetAllUsers` | models/user_model.go:138-157 | lists every stored user once, without passwords, in ascending id |
| `UserModel.UserStore.Update` | models/user_model.go:194-227 | the table becomes the corrected Update's outcome; on success the record's password is cleared |
| `UserModel.UserStore.DeleteUser` | models/user_model.go:230-247 | "user not found" exactly when the id is absent; otherwise exactly that row is removed |
| `Http.Member` | controllers/user_controller.go:19-23 | a JSON member absent from the body decodes as "" |
| `Http.MissingFields` | controllers/auth_controller.go:12-15 | no validation error exactly when every required field is non-empty |
| `Http.Bind` | controllers/auth_controller.go:40-46 | binding passes a decoding error through, fails exactly when a required field is empty, and otherwise yields the members' values |
| `Http.BindReportsMissingField` | controllers/auth_controller.go:12-15 | a login body without a password is refused with the validator's message for Password |
| `AuthMiddleware.Authenticate` | middlewares/auth_middleware.go:14-49 | empty header gives 401 "Authorization header required"; a non-Bearer header 401 "Bearer token required"; every rejection is 401; authorization exactly for "Bearer " + an authentic current token, with its user id and username |
| `AuthMiddleware.InvalidTokenResponse` | middlewares/auth_middleware.go:34-41 | a token that fails validation gives 401 "Invalid or expired token" with the validation error as details |
| `AuthMiddleware.BareBearerPrefix` | middlewares/auth_middleware.go:15-30 | "Bearer " alone is refused as "Bearer token required", before validation |
| `AuthMiddleware.GeneratedTokenNonEmpty` | utils/token.go:50-55 | a generated token is never empty |
| `AuthMiddleware.GeneratedTokenAuthorizes` | middlewares/auth_middleware.go:24-49 | "Bearer " + a generated token authorizes its user during the token's lifetime |
| `AuthMiddleware.ExpiredTokenRejected` | middlewares/auth_middleware.go:34-41 | the same header is refused after expiry |
| `AuthMiddleware.Context.constructor` | middlewares/auth_middleware.go:12 | a fresh context has no keys, no response, and is neither aborted nor continued |
| `AuthMiddleware.Context.GetHeader` | middlewares/auth_middleware.go:14 | a header's value, or "" when absent |
| `AuthMiddleware.Run` | middlewares/auth_middleware.go:12-50 | exactly one of abort-with-401 or continue happens; on rejection no key is set; on success `user_id` and `username` are the token's |
| `AuthController.BindLoginRequest` | controllers/auth_controller.go:37-46 | binding succeeds exactly when username and password are both non-empty |
| `AuthController.Login` | controllers/auth_controller.go:36-86 | 400 exactly on a bad body, before any lookup; the identical 401 exactly when no stored user has that name and accepts that password; 500 "Failed to generate token" exactly when the credentials are accepted and signing fails; 200 carries "Login successful", the stored user with an empty password, and the token generated for that user |
| `AuthController.LoginWithRequest` | controllers/auth_controller.go:48-85 | for bound credentials: the identical 401 exactly when no stored user has that name and accepts that password; 500 exactly when they are accepted and signing fails; 200 carries the stored user with an empty password and the token generated for that user |
| `AuthController.LoginOfAcceptedCredentials` | controllers/auth_controller.go:66-85 | with accepted credentials and working signing, the response is 200 with the generated token and the password-cleared user |
| `AuthController.LoginWithStoredPassword` | controllers/auth_controller.go:48-85 | logging in with the password a row was hashed from succeeds for that row |
| `AuthController.LoginWithOtherPassword` | controllers/auth_controller.go:57-64 | under `Bcrypt.CollisionFree` for the stored hash's salt, any password with a key schedule different from the stored one's gets the common 401 |
| `AuthController.LoginTokenAuthorizes` | controllers/auth_controller.go:66-85 | the token from a successful login authorizes that user in the middleware for 24 h |
| `UserController.Atoi` | controllers/user_controller.go:115 | a parsed id is within the 64-bit range and came from an optional sign and digits |
| `UserController.AtoiOfIntToText` | controllers/user_controller.go:115 | every 64-bit integer parses back from its decimal text |
| `UserController.AtoiRejectsNonIntegers` | controllers/user_controller.go:115-121 | "", "-", "+", "abc", "12a" and "1.5" are not ids |
| `UserController.BindCreateUserRequest` | controllers/user_controller.go:37-46 | binding succeeds exactly when username, password and full_name are all non-empty |
| `UserController.BindUpdateUserRequest` | controllers/user_controller.go:174-182 | binding fails only on a decoding error; absent fields are "" |
| `UserController.CreateUser` | controllers/user_controller.go:36-70 | 400 exactly on a bad body; for a bound body, 500 "Failed to create user" whenever Create fails, with the table unchanged; 201 exactly when the insert is accepted, with the new id, no password, and the hash stored |
| `UserController.GetUsers` | controllers/user_controller.go:83-97 | 200 with every user once, without passwords, and count equal to the list length |
| `UserController.GetUser` | controllers/user_controller.go:112-136 | 400 exactly for a non-integer id; 404 exactly for an absent one; otherwise the stored record without password |
| `UserController.GetStoredUser` | controllers/user_controller.go:123-135 | GET of a stored id's decimal text returns that row |
| `UserController.Merged` | controllers/user_controller.go:184-193 | the merge never changes the id, email or creation time; username, full name and password each come from the existing record or the request |
| `UserController.MergePerField` | controllers/user_controller.go:184-193 | each of username, full name, password is the request's when non-empty and the existing one otherwise |
| `UserController.MergeEmptyAndIdempotent` | controllers/user_controller.go:184-193 | an empty request changes nothing; applying a request twice equals applying it once |
| `UserController.UpdateUser` | controllers/user_controller.go:153-209 | over the corrected Update: 400 for a bad id; 404 for an unknown id even when the body is malformed; 400 on a bad body; for a stored id and a decoded body, 500 "Failed to update user" whenever the update fails, with the table unchanged; 200 exactly when the merged record's update succeeds, keeping email and creation time, and the stored hash when no password was sent |
| `UserController.DeleteUser` | controllers/user_controller.go:224-248 | 400 for a bad id; otherwise exactly that row is removed, 200 when it existed and 404 "Failed to delete user" when it did not |

## Findings

| source | as written | input that shows it | evidently intended | confidence | as-written member | corrected member |
|---|---|---|---|---|---|---|
| models/user_model.go:200 | `hashedPassword, err :=` declares a new `err` inside the password branch; the UPDATE's error is stored there and the outer `err` tested at line 221 stays nil | table {1: "alice", 2: "bob"}; Update of user 2 with username "alice" and password "newpass": the UNIQUE column rejects the UPDATE, yet nil is returned and the handler answers 200 | report "error updating user: …" as the password-less branch does | not executed; high (Go scoping rule) | `UserModel.UpdateAsWrittenHidesRejectedUpdate` | `UserModel.UpdateOutcome` |

## Left out

- `main.go`: router wiring, Swagger, the port and server start-up are framework glue.
- The database connection is not modelled: `sql.Open`, `Ping`, the connection string, DROP/CREATE TABLE errors, `CloseDB` and `.env` loading. `InitDB` appears only as the settings defaults (`UserModel.LoadDbConfig`) and as the empty re-created table (`UserStore` constructor).
- I/O failures of the SQL driver are not modelled. These are a failing `Query`/`Scan` in `GetAllUsers` and the lookups ("error querying user"), and a failing `RowsAffected`. The store answers from memory.
- bcrypt is not modelled beyond its hash format: the Blowfish key schedule, the cost loop and the salt's random source. The digest is a parameter, and a failing salt source is the `None` salt.
- `UserController.UpdateUser` is modelled over the corrected `UserStore.Update` (see Findings). For a new password whose UPDATE the server rejects, the code as written answers 200 "User updated successfully"; the model answers 500.
- bcrypt's refusal of passwords over 72 bytes is not modelled. Recent golang.org/x/crypto versions make `GenerateFromPassword` fail on them, so Create and Update would report "error hashing password" and the handlers would answer 500. The model hashes the first 72 bytes, as older versions do, and accepts such passwords.
- Passwords containing a NUL byte: bcrypt reads the password and a NUL terminator cycled over 72 bytes, so such passwords can share a key schedule with others and be accepted for them (`Bcrypt.CompareAcceptsNulVariant`). The refusal lemmas therefore promise refusal only for a different key schedule, not for every different password.
- Stored hashes of other bcrypt versions or costs, which real bcrypt accepts, are refused by `Bcrypt.CompareHashAndPassword` with `Bcrypt.ErrHashTooShort`, the error for a hash it cannot read. The table only ever holds `$2a$10$` hashes written by this service.
- JSON object keys are matched to struct tags case-insensitively by encoding/json. `Http.Payload` holds the keys after that matching.
- One character of a model string stands for one byte of Go's `[]byte(password)`; the 72-byte limit is counted in characters.
- `UserModel.ErrRandomSalt` is a stand-in text. When no salt can be drawn, bcrypt returns the random source's own error.
- HMAC-SHA-2, base64url and JSON are not modelled. A segment codec with the same round-trip properties stands in for them.
- The HMAC key's byte encoding is not modelled. Secrets are strings.
- The exact text of jwt-go's validation errors is not modelled. The model keeps the error categories and the texts jwt-go v3 uses, but the check order inside `Parser.ParseWithClaims` is simplified: header, claims, method, key, time claims, signature.
- Gin's concurrent request handling and the handler chain after `c.Next` are not modelled.
- Columns no query writes are not modelled: `created_by`, `updated_by`, and `updated_on` as read back. `created_on` is stored as the given timestamp text.
- SQL Server's case-insensitive collation of the UNIQUE username column is not modelled. Usernames compare exactly.
- `UserModel.UserStore.GetAllUsers`: the order is ascending id. SQL gives no ORDER BY guarantee; ascending id is the clustered-key order the server uses in practice.
