/** The principal of a mutation and the login assertion the server
    mutators start with (packages/zero-shared/src/auth.ts). */
module Auth {
  import opened Helper

  /** The decoded token of a logged-in user. */
  datatype AuthData = AuthData(sub: string, organizationId: string, email: string, iat: int, exp: int)

  const LoginMessage := "user must be logged in for this operation"

  /** How `assert` sees its first argument: an object when defined. */
  function AsJsValue(authData: Option<AuthData>): JsValue {
    if authData.Some? then Object else JsValue.Undefined
  }

  /** `assertIsLoggedIn`: fails with `LoginMessage` exactly when there is no
      principal; any defined principal passes, whatever its fields hold,
      and after a normal return the principal is known to be defined. */
  function AssertIsLoggedIn(authData: Option<AuthData>): (r: Result<AuthData>)
    ensures r.Ok? <==> authData.Some?
    ensures r.Ok? ==> r.value == authData.value
    ensures r.Err? ==> r.message == LoginMessage
  {
    match Assert(AsJsValue(authData), Text(LoginMessage))
    case Fail(m) => Err(m)
    case Pass => Ok(authData.value)
  }
}
