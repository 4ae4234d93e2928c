/**
 * The login and logout handlers (backend/src/controllers/auth.controller.ts):
 * field validation, delegation to the session service, and the mapping of its
 * outcome to a response.
 */
module AuthController {
  import opened Wrappers
  import opened Store
  import opened Http
  import Hex
  import AuthenticationService
  import AuthMiddleware

  const MissingFields: string := "Email e password são obrigatórios."
  const MissingToken: string := "Token ausente."

  /** The login body; a field is None when absent from the JSON. */
  datatype LoginRequest = LoginRequest(email: Option<string>, password: Option<string>)

  /** `!email || !password` on string fields: absent or empty. */
  predicate Filled(field: Option<string>)
  {
    field.Some? && field.value != ""
  }

  /** The response for a login outcome: 200 with the service's result unchanged, or 400 with the error's message. */
  function LoginResponse(r: Result<LoginResult, string>): (resp: Response)
    ensures r.Success? ==> resp == Response(200, LoginBody(r.value))
    ensures r.Failure? ==> resp == Response(400, MessageBody(r.error))
  {
    match r
    case Success(v) => Response(200, LoginBody(v))
    case Failure(m) => Response(400, MessageBody(m))
  }

  /** `loginUser`. */
  method LoginUser(db: Database, body: LoginRequest, verify: (string, string) -> bool, random: seq<Hex.byte>, now: int)
    returns (resp: Response)
    requires db.Valid()
    requires |random| == 30
    modifies db`sessions
    ensures db.Valid()
    ensures !(Filled(body.email) && Filled(body.password)) ==>
      resp == Response(400, MessageBody(MissingFields)) && db.sessions == old(db.sessions)
    ensures Filled(body.email) && Filled(body.password) ==>
      var d := AuthenticationService.LoginDecision(db.reachable, db.users, db.roles, old(db.sessions),
        body.email.value, body.password.value, verify, random, now);
      && resp == LoginResponse(d.result)
      && db.sessions == if d.session.Some? then old(db.sessions) + [d.session.value] else old(db.sessions)
  {
    if !(Filled(body.email) && Filled(body.password)) {
      return Response(400, MessageBody(MissingFields));
    }
    var r := AuthenticationService.Login(db, body.email.value, body.password.value, verify, random, now);
    resp := LoginResponse(r);
  }

  /** Unknown e-mail and wrong password produce the very same response. */
  lemma SameResponseForBothCredentialFailures(
    users: seq<UserRow>, roles: seq<Role>, sessions: seq<Session>,
    unknown: string, known: string, password: string, verify: (string, string) -> bool, random: seq<Hex.byte>, now: int)
    requires forall i :: 0 <= i < |users| ==> RoleExists(roles, users[i].roleId)
    requires FindUserByEmail(users, unknown).None?
    requires FindUserByEmail(users, known).Some? && !verify(password, FindUserByEmail(users, known).value.passwordHash)
    ensures LoginResponse(AuthenticationService.LoginDecision(true, users, roles, sessions, unknown, password, verify, random, now).result)
         == LoginResponse(AuthenticationService.LoginDecision(true, users, roles, sessions, known, password, verify, random, now).result)
         == Response(400, MessageBody(AuthenticationService.InvalidCredentials))
  {
    AuthenticationService.UnknownEmailLikeWrongPassword(users, roles, sessions, unknown, known, password, verify, random, now);
  }

  /** `logoutUser`: no usable token gives 401; otherwise the service's message with the default status 200. */
  method LogoutUser(db: Database, header: Option<string>) returns (resp: Response)
    requires db.Valid()
    modifies db`sessions
    ensures db.Valid()
    ensures !AuthMiddleware.Present(AuthMiddleware.ExtractToken(header)) ==>
      resp == Response(401, MessageBody(MissingToken)) && db.sessions == old(db.sessions)
    ensures AuthMiddleware.Present(AuthMiddleware.ExtractToken(header)) && db.reachable ==>
      && resp == Response(200, MessageBody(AuthenticationService.LogoutMessage))
      && db.sessions == AuthenticationService.RemoveSessions(old(db.sessions), AuthMiddleware.ExtractToken(header).value)
    ensures AuthMiddleware.Present(AuthMiddleware.ExtractToken(header)) && !db.reachable ==>
      resp == Response(400, MessageBody(StoreFailure)) && db.sessions == old(db.sessions)
  {
    var token := AuthMiddleware.ExtractToken(header);
    if !AuthMiddleware.Present(token) {
      return Response(401, MessageBody(MissingToken));
    }
    var r := AuthenticationService.Logout(db, token.value);
    match r
    case Success(m) => resp := Response(200, MessageBody(m));
    case Failure(m) => resp := Response(400, MessageBody(m));
  }
}
