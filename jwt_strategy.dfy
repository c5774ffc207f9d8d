/** `JwtStrategy.validate`: the gate a verified token's payload passes before a request is served. */
module JwtStrategy {
  import opened Wrappers
  import opened JsValues
  import opened Users

  /** The fields of a decoded token payload that `validate` reads. */
  datatype Payload = Payload(userId: JsValue, username: JsValue)

  /** What `validate` attaches as `req.user`: an object with exactly `userId` and `username`. */
  datatype Identity = Identity(userId: JsValue, username: JsValue)
  {
    /** Reading a property of the object; a property it does not have reads `undefined`. */
    function Get(key: string): JsValue
    {
      if key == "userId" then userId
      else if key == "username" then username
      else Undefined
    }
  }

  /** `UnauthorizedException(message)`. */
  datatype AuthError = Unauthorized(message: string)

  const InvalidToken := Unauthorized("Invalid token")
  const UserNotFound := Unauthorized("User not found")

  /** `validate(payload)`; `None` is a null or undefined payload. It only reads the user store. */
  function Validate(payload: Option<Payload>, users: seq<User>): (r: Result<Identity, AuthError>)
    ensures r == Failure(InvalidToken) <==> payload.None? || !Truthy(payload.value.userId)
    ensures r == Failure(UserNotFound) <==>
      payload.Some? && Truthy(payload.value.userId) && forall u :: u in users ==> ToNumber(payload.value.userId) != Some(u.id)
    ensures r.Success? ==>
      && payload.Some?
      && r.value == Identity(payload.value.userId, payload.value.username)
      && exists u :: u in users && ToNumber(payload.value.userId) == Some(u.id)
    ensures r.Success? ==> r.value.Get("id") == Undefined
  {
    if payload.None? || !Truthy(payload.value.userId) then Failure(InvalidToken)
    else
      match FindById(users, payload.value.userId)
      case None => Failure(UserNotFound)
      case Some(_) => Success(Identity(payload.value.userId, payload.value.username))
  }

  /** The identity's `username` is the token's, even when the stored user has been renamed since. */
  lemma UsernameComesFromToken(id: JsValue, tokenName: string, users: seq<User>)
    requires Truthy(id)
    requires exists u :: u in users && ToNumber(id) == Some(u.id) && u.username != tokenName
    ensures Validate(Some(Payload(id, Str(tokenName))), users) == Success(Identity(id, Str(tokenName)))
  {
  }
}
