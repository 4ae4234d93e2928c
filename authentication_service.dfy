/**
 * The session service (backend/src/services/authentication.service.ts): login
 * against the user table, issuing a 24-hour access token made of 30 random
 * bytes in lowercase hexadecimal, and logout by deleting the token's rows.
 * Password hashing and the random source are outside the model: `verify` is
 * the hash library's comparison, `random` the 30 bytes drawn for this login,
 * and `now` the clock in milliseconds.
 */
module AuthenticationService {
  import opened Wrappers
  import opened Seqs
  import opened Store
  import opened Http
  import Hex

  const InvalidCredentials: string := "Credenciais inválidas."
  const LogoutMessage: string := "Sessão terminada com sucesso."
  /** 24 hours in milliseconds. */
  const SessionLifetimeMs: int := 1000 * 60 * 60 * 24

  /** The text of the store's rejection of a second row with the same (unique) token; its wording belongs to the data-access client. */
  const DuplicateToken: string := "Unique constraint failed on the fields: (`token`)"

  /** The name of a user's role; the role exists by the integrity of the user table. */
  function RoleName(roles: seq<Role>, id: nat): (name: string)
    requires RoleExists(roles, id)
    ensures exists i :: 0 <= i < |roles| && roles[i].id == id && roles[i].name == name
  {
    RoleById(roles, id).name
  }

  /** What a login decides: the response value and, on success, the new session row. */
  datatype Decision = Decision(result: Result<LoginResult, string>, session: Option<Session>)

  /** The login decision over the current tables. */
  function LoginDecision(
    reachable: bool, users: seq<UserRow>, roles: seq<Role>, sessions: seq<Session>,
    email: string, password: string, verify: (string, string) -> bool, random: seq<Hex.byte>, now: int): (d: Decision)
    requires forall i :: 0 <= i < |users| ==> RoleExists(roles, users[i].roleId)
    ensures d.result.Failure? <==> d.session.None?
    ensures d.session.Some? ==> d.session.value.token == Hex.Encode(random) && d.session.value.expiresAt == now + SessionLifetimeMs
    // A login succeeds exactly when the store answers, the e-mail is known, the password verifies and the token is new.
    ensures d.result.Success? <==>
      && reachable && FindUserByEmail(users, email).Some?
      && verify(password, FindUserByEmail(users, email).value.passwordHash)
      && FindSession(sessions, Hex.Encode(random)).None?
    // Each failure carries its own message.
    ensures !reachable ==> d.result == Failure(StoreFailure)
    ensures reachable && FindUserByEmail(users, email).None? ==> d.result == Failure(InvalidCredentials)
    ensures reachable && FindUserByEmail(users, email).Some? && !verify(password, FindUserByEmail(users, email).value.passwordHash) ==>
      d.result == Failure(InvalidCredentials)
    ensures reachable && FindUserByEmail(users, email).Some? && verify(password, FindUserByEmail(users, email).value.passwordHash) ==>
      (FindSession(sessions, Hex.Encode(random)).Some? ==> d.result == Failure(DuplicateToken))
  {
    if !reachable then Decision(Failure(StoreFailure), None)
    else match FindUserByEmail(users, email)
      case None => Decision(Failure(InvalidCredentials), None)
      case Some(u) =>
        if !verify(password, u.passwordHash) then Decision(Failure(InvalidCredentials), None)
        else
          var token := Hex.Encode(random);
          if FindSession(sessions, token).Some? then Decision(Failure(DuplicateToken), None)
          else Decision(
            Success(LoginResult(token, PublicUser(u.id, u.name, u.email, RoleName(roles, u.roleId)))),
            Some(Session(token, u.id, now + SessionLifetimeMs)))
  }

  /** An unknown e-mail and a wrong password are answered identically: the caller cannot tell which one failed. */
  lemma UnknownEmailLikeWrongPassword(
    users: seq<UserRow>, roles: seq<Role>, sessions: seq<Session>,
    unknown: string, known: string, password: string, verify: (string, string) -> bool, random: seq<Hex.byte>, now: int)
    requires forall i :: 0 <= i < |users| ==> RoleExists(roles, users[i].roleId)
    requires FindUserByEmail(users, unknown).None?
    requires FindUserByEmail(users, known).Some? && !verify(password, FindUserByEmail(users, known).value.passwordHash)
    ensures LoginDecision(true, users, roles, sessions, unknown, password, verify, random, now)
         == LoginDecision(true, users, roles, sessions, known, password, verify, random, now)
    ensures LoginDecision(true, users, roles, sessions, unknown, password, verify, random, now) == Decision(Failure(InvalidCredentials), None)
  {
  }

  /** A successful login returns the stored token and the user's public fields, with the role's name. */
  lemma SuccessfulLogin(
    users: seq<UserRow>, roles: seq<Role>, sessions: seq<Session>,
    email: string, password: string, verify: (string, string) -> bool, random: seq<Hex.byte>, now: int)
    requires forall i :: 0 <= i < |users| ==> RoleExists(roles, users[i].roleId)
    requires LoginDecision(true, users, roles, sessions, email, password, verify, random, now).result.Success?
    ensures var d := LoginDecision(true, users, roles, sessions, email, password, verify, random, now);
      var u := FindUserByEmail(users, email).value;
      && verify(password, u.passwordHash)
      && d.result.value.token == d.session.value.token == Hex.Encode(random)
      && d.session.value.userId == u.id
      && d.result.value.user.id == u.id && d.result.value.user.name == u.name && d.result.value.user.email == email
      && RoleName(roles, u.roleId) == d.result.value.user.role
      && FindSession(sessions, d.session.value.token).None?
  {
  }

  /** `login`: on success exactly one session row is added; on every failure the table is left as it was. */
  method Login(db: Database, email: string, password: string, verify: (string, string) -> bool, random: seq<Hex.byte>, now: int)
    returns (r: Result<LoginResult, string>)
    requires db.Valid()
    requires |random| == 30
    modifies db`sessions
    ensures db.Valid()
    ensures var d := LoginDecision(db.reachable, db.users, db.roles, old(db.sessions), email, password, verify, random, now);
      && r == d.result
      && db.sessions == if d.session.Some? then old(db.sessions) + [d.session.value] else old(db.sessions)
  {
    if !db.reachable {
      return Failure(StoreFailure);
    }
    var found := FindUserByEmail(db.users, email);
    if found.None? {
      return Failure(InvalidCredentials);
    }
    var user := found.value;
    if !verify(password, user.passwordHash) {
      return Failure(InvalidCredentials);
    }
    var token := Hex.Encode(random);
    if FindSession(db.sessions, token).Some? {
      return Failure(DuplicateToken);
    }
    var session := Session(token, user.id, now + SessionLifetimeMs);
    db.sessions := db.sessions + [session];
    r := Success(LoginResult(token, PublicUser(user.id, user.name, user.email, RoleName(db.roles, user.roleId))));
  }

  /** A login token is 60 lowercase hexadecimal characters that decode back to the random bytes. */
  lemma TokenShape(random: seq<Hex.byte>)
    requires |random| == 30
    ensures |Hex.Encode(random)| == 60
    ensures forall i :: 0 <= i < 60 ==> Hex.Encode(random)[i] in Hex.Alphabet
    ensures Hex.Decode(Hex.Encode(random)) == Some(random)
  {
    Hex.DecodeEncode(random);
  }

  /** `deleteMany({ where: { token } })`: the rows with other tokens, in their order. */
  function RemoveSessions(sessions: seq<Session>, token: string): (r: seq<Session>)
    ensures IsSubsequence(r, sessions)
    ensures forall i :: 0 <= i < |r| ==> r[i].token != token
    ensures forall i :: 0 <= i < |sessions| && sessions[i].token != token ==> sessions[i] in r
    ensures forall x :: multiset(r)[x] == if x.token != token then multiset(sessions)[x] else 0
    ensures FindSession(r, token).None?
  {
    FilterIsSubsequence(sessions, (s: Session) => s.token != token);
    FilterMultiset(sessions, (s: Session) => s.token != token);
    Filter(sessions, (s: Session) => s.token != token)
  }

  lemma RemoveSessionsIdempotent(sessions: seq<Session>, token: string)
    ensures RemoveSessions(RemoveSessions(sessions, token), token) == RemoveSessions(sessions, token)
  {
    FilterIdempotent(sessions, (s: Session) => s.token != token);
  }

  lemma RemoveSessionsAbsent(sessions: seq<Session>, token: string)
    requires FindSession(sessions, token).None?
    ensures RemoveSessions(sessions, token) == sessions
  {
    FilterAll(sessions, (s: Session) => s.token != token);
  }

  /** `logout`: deletes every row with the token and answers with the same message whether or not one existed. */
  method Logout(db: Database, token: string) returns (r: Result<string, string>)
    requires db.Valid()
    modifies db`sessions
    ensures db.Valid()
    ensures old(db.reachable) ==> r == Success(LogoutMessage) && db.sessions == RemoveSessions(old(db.sessions), token)
    ensures !old(db.reachable) ==> r == Failure(StoreFailure) && db.sessions == old(db.sessions)
  {
    if !db.reachable {
      return Failure(StoreFailure);
    }
    db.sessions := RemoveSessions(db.sessions, token);
    return Success(LogoutMessage);
  }
}
