/**
 * The slice of Gin the handlers use: status codes, the JSON bodies they write, and
 * ShouldBindJSON, which decodes the request body and then enforces `binding:"required"` tags.
 */
module Http {
  import opened Wrappers
  import Codec
  import UserModel

  const StatusOK := 200
  const StatusCreated := 201
  const StatusBadRequest := 400
  const StatusUnauthorized := 401
  const StatusNotFound := 404
  const StatusInternalServerError := 500

  /** The `error` text every handler answers a failed ShouldBindJSON with. */
  const ErrInvalidRequest := "Invalid request format"

  /** The `gin.H` maps and response structs the handlers serialise. */
  datatype Body =
    | ErrorBody(error: string, details: Option<string>)
    | MessageBody(message: string)
    | LoginBody(token: string, user: UserModel.User, message: string)
    | UserBody(user: UserModel.User)
    | UserMessageBody(message: string, user: UserModel.User)
    | UsersBody(users: seq<UserModel.User>, count: int)

  datatype Response = Response(status: int, body: Body)

  // ---------------------------------------------------------------------------------------------
  // ShouldBindJSON

  /**
   * A request body after JSON decoding: the decoder's error text, or the object's string members
   * by the struct's JSON tag they were matched to. encoding/json matches an object key to a tag
   * case-insensitively, so "Username" arrives here as "username". Members the struct does not
   * declare are ignored by the decoder.
   */
  type Payload = Result<map<string, string>>

  /** One string field of a request struct: Go name, JSON key, and whether it is `required`. */
  datatype FieldTag = FieldTag(name: string, key: string, required: bool)

  /** The value decoded into a field: the member's text, or Go's zero value "" when absent. */
  function Member(obj: map<string, string>, key: string): (value: string)
    ensures key in obj ==> value == obj[key]
    ensures key !in obj ==> value == ""
  {
    if key in obj then obj[key] else ""
  }

  /** The validator's message for a `required` string field left empty. */
  function RequiredMessage(structName: string, fieldName: string): string
  {
    "Key: '" + structName + "." + fieldName + "' Error:Field validation for '" + fieldName + "' failed on the 'required' tag"
  }

  /** Every failed `required` tag in declaration order: exactly the required fields left empty. */
  function MissingFields(obj: map<string, string>, structName: string, fields: seq<FieldTag>): (missing: seq<string>)
    ensures missing == [] <==> forall i :: 0 <= i < |fields| && fields[i].required ==> Member(obj, fields[i].key) != ""
    ensures |missing| <= |fields|
  {
    if fields == [] then []
    else
      var rest := MissingFields(obj, structName, fields[1..]);
      assert forall i :: 1 <= i < |fields| ==> fields[i] == fields[1..][i - 1];
      if fields[0].required && Member(obj, fields[0].key) == "" then
        [RequiredMessage(structName, fields[0].name)] + rest
      else rest
  }

  /**
   * ShouldBindJSON into a struct of string fields: the decoding error, else the validation
   * errors joined by newlines, else the field values in declaration order.
   */
  function Bind(p: Payload, structName: string, fields: seq<FieldTag>): (r: Result<seq<string>>)
    ensures p.Err? ==> r == Err(p.error)
    ensures p.Ok? ==> (r.Ok? <==> forall i :: 0 <= i < |fields| && fields[i].required ==> Member(p.value, fields[i].key) != "")
    ensures r.Ok? ==> |r.value| == |fields| && forall i :: 0 <= i < |fields| ==> r.value[i] == Member(p.value, fields[i].key)
  {
    match p
    case Err(e) => Err(e)
    case Ok(obj) =>
      var missing := MissingFields(obj, structName, fields);
      if missing != [] then Err(Codec.Join(missing, '\n'))
      else Ok(seq(|fields|, i requires 0 <= i < |fields| => Member(obj, fields[i].key)))
  }

  /** A body missing one required field is refused with that field's validator message. */
  lemma BindReportsMissingField(username: string)
    requires username != ""
    ensures Bind(Ok(map["username" := username]), "LoginRequest",
                 [FieldTag("Username", "username", true), FieldTag("Password", "password", true)])
            == Err(RequiredMessage("LoginRequest", "Password"))
  {
    var fields := [FieldTag("Username", "username", true), FieldTag("Password", "password", true)];
    var obj := map["username" := username];
    assert MissingFields(obj, "LoginRequest", fields[2..]) == [];
    assert MissingFields(obj, "LoginRequest", fields[1..]) == [RequiredMessage("LoginRequest", "Password")];
  }
}
