/**
 * The authentication middleware (backend/src/middleware/auth.ts): reads the
 * bearer token from the Authorization header, looks its session up, and either
 * answers 401 or attaches the session's user (with role) to the request and
 * passes control on. The clock is the parameter `now` in milliseconds.
 */
module AuthMiddleware {
  import opened Wrappers
  import opened Text
  import opened Store
  import opened Http
  import Hex
  import AuthenticationService

  const NoToken: string := "Token não fornecido."
  const BadToken: string := "Token inválido ou expirado."
  const AuthFailed: string := "Autorização falhou."

  /** `authorization?.replace("Bearer ", "")`: the header with the first occurrence of `Bearer ` removed, wherever it stands. */
  function ExtractToken(header: Option<string>): (token: Option<string>)
    ensures header.None? ==> token.None?
    ensures header.Some? && IndexOf(header.value, "Bearer ").None? ==> token == header
    ensures header.Some? && IndexOf(header.value, "Bearer ").Some? ==>
      var i := IndexOf(header.value, "Bearer ").value;
      token == Some(header.value[..i] + header.value[i + 7..])
  {
    match header
    case None => None
    case Some(h) =>
      var r := ReplaceFirst(h, "Bearer ", "");
      assert IndexOf(h, "Bearer ").Some? ==> r == h[..IndexOf(h, "Bearer ").value] + h[IndexOf(h, "Bearer ").value + 7..];
      Some(r)
  }

  /** A token is usable only when it is present and non-empty (JavaScript truthiness). */
  predicate Present(token: Option<string>)
  {
    token.Some? && token.value != ""
  }

  lemma ExtractTokenFromBearerHeader(t: string)
    ensures ExtractToken(Some("Bearer " + t)) == Some(t)
  {
    ReplaceFirstAtFront("Bearer ", t);
  }

  /** A header that is exactly `Bearer ` yields the empty string, which counts as no token. */
  lemma BareBearerIsNoToken()
    ensures !Present(ExtractToken(Some("Bearer ")))
  {
    ExtractTokenFromBearerHeader("");
  }

  /** The user attached to the request: the user row with its role included. */
  datatype RequestUser = RequestUser(user: UserRow, role: Role)

  /** Either a 401 response, or a call of `next` with the user attached; `next` is called exactly when the outcome is `Next`. */
  datatype Outcome = Reject(response: Response) | Next(user: RequestUser)

  /** The session is still valid at `now`: the expiry check `expiresAt < now` is strict, so the expiry instant itself is accepted. */
  predicate Unexpired(s: Session, now: int)
  {
    !(s.expiresAt < now)
  }

  function UserOfSession(users: seq<UserRow>, roles: seq<Role>, s: Session): (r: RequestUser)
    requires UserExists(users, s.userId)
    requires forall i :: 0 <= i < |users| ==> RoleExists(roles, users[i].roleId)
    ensures r.user.id == s.userId && r.user in users && r.role in roles && r.role.id == r.user.roleId
  {
    var u := UserById(users, s.userId);
    RoleOfUserExists(users, roles, u);
    RequestUser(u, RoleById(roles, u.roleId))
  }

  /** `auth`. */
  function Authenticate(header: Option<string>, reachable: bool, sessions: seq<Session>, users: seq<UserRow>, roles: seq<Role>, now: int): (o: Outcome)
    requires SessionsValid(sessions, users)
    requires forall i :: 0 <= i < |users| ==> RoleExists(roles, users[i].roleId)
    ensures !Present(ExtractToken(header)) ==> o == Reject(Response(401, MessageBody(NoToken)))
    ensures Present(ExtractToken(header)) && !reachable ==> o == Reject(Response(401, MessageBody(AuthFailed)))
    ensures Present(ExtractToken(header)) && reachable ==>
      var found := FindSession(sessions, ExtractToken(header).value);
      && (found.None? ==> o == Reject(Response(401, MessageBody(BadToken))))
      && (found.Some? && !Unexpired(found.value, now) ==> o == Reject(Response(401, MessageBody(BadToken))))
      && (found.Some? && Unexpired(found.value, now) ==> o == Next(UserOfSession(users, roles, found.value)))
    ensures o.Next? ==> o.user.user.id == FindSession(sessions, ExtractToken(header).value).value.userId
  {
    var token := ExtractToken(header);
    if !Present(token) then Reject(Response(401, MessageBody(NoToken)))
    else if !reachable then Reject(Response(401, MessageBody(AuthFailed)))
    else match FindSession(sessions, token.value)
      case None => Reject(Response(401, MessageBody(BadToken)))
      case Some(s) =>
        if !Unexpired(s, now) then Reject(Response(401, MessageBody(BadToken)))
        else Next(UserOfSession(users, roles, s))
  }

  /**
   * A session issued by a login at time `t` (added to a table that had no row
   * with its token) lets the request through at every instant up to and
   * including `t` + 24 hours, and is refused afterwards.
   */
  lemma {:induction false} LoginSessionWindow(
    sessions: seq<Session>, users: seq<UserRow>, roles: seq<Role>,
    random: seq<Hex.byte>, userId: nat, t: int, now: int)
    requires |random| == 30
    requires SessionsValid(sessions, users) && UserExists(users, userId)
    requires forall i :: 0 <= i < |users| ==> RoleExists(roles, users[i].roleId)
    requires FindSession(sessions, Hex.Encode(random)).None?
    ensures var s := Session(Hex.Encode(random), userId, t + AuthenticationService.SessionLifetimeMs);
      var o := Authenticate(Some("Bearer " + s.token), true, sessions + [s], users, roles, now);
      o.Next? <==> now <= t + AuthenticationService.SessionLifetimeMs
  {
    var s := Session(Hex.Encode(random), userId, t + AuthenticationService.SessionLifetimeMs);
    ExtractTokenFromBearerHeader(s.token);
    Seqs.FindFirstSnoc(sessions, s, (x: Session) => x.token == s.token);
    assert FindSession(sessions + [s], s.token) == Some(s);
  }

  /** After a logout with the token, the same bearer header is refused as invalid. */
  lemma LoggedOutTokenRejected(sessions: seq<Session>, users: seq<UserRow>, roles: seq<Role>, token: string, now: int)
    requires token != ""
    requires SessionsValid(sessions, users)
    requires forall i :: 0 <= i < |users| ==> RoleExists(roles, users[i].roleId)
    ensures SessionsValid(AuthenticationService.RemoveSessions(sessions, token), users)
    ensures Authenticate(Some("Bearer " + token), true, AuthenticationService.RemoveSessions(sessions, token), users, roles, now)
         == Reject(Response(401, MessageBody(BadToken)))
  {
    ExtractTokenFromBearerHeader(token);
  }
}
