/**
 * The relational store the backend reaches through its data-access client,
 * reduced to the tables and queries the core uses: roles, users, access
 * tokens (sessions), specializations, contacts, technicians and reports. Each
 * table is a sequence of rows in insertion order; auto-increment ids come from
 * one counter per table. `reachable` says whether the store answers queries.
 */
module Store {
  import opened Wrappers
  import opened Seqs

  datatype Role = Role(id: nat, name: string, description: Option<string>)

  datatype UserRow = UserRow(id: nat, name: string, email: string, passwordHash: string, roleId: nat)

  /** A row of the access-token table. */
  datatype Session = Session(token: string, userId: nat, expiresAt: int)

  datatype Specialization = Specialization(id: nat, name: string)

  datatype ContactRow = ContactRow(userId: nat, phone: string, kind: Option<string>)

  datatype TechnicianRow = TechnicianRow(id: nat, userId: nat, specializationId: nat)

  /** A report as the backend stores it; only the two columns the controller writes are modelled. */
  datatype ReportRow = ReportRow(id: nat, title: string, status: string)

  /** The text of the error raised by the data-access client when the store cannot be reached; its exact wording belongs to the client. */
  const StoreFailure: string := "Database error"

  // --- queries ---

  function FindUserByEmail(users: seq<UserRow>, email: string): (r: Option<UserRow>)
    ensures r.Some? ==> r.value in users && r.value.email == email
    ensures r.None? <==> forall i :: 0 <= i < |users| ==> users[i].email != email
  {
    FindFirst(users, (u: UserRow) => u.email == email)
  }

  function FindUserById(users: seq<UserRow>, id: nat): (r: Option<UserRow>)
    ensures r.Some? ==> r.value in users && r.value.id == id
    ensures r.None? <==> forall i :: 0 <= i < |users| ==> users[i].id != id
  {
    FindFirst(users, (u: UserRow) => u.id == id)
  }

  function FindRoleById(roles: seq<Role>, id: nat): (r: Option<Role>)
    ensures r.Some? ==> r.value in roles && r.value.id == id
    ensures r.None? <==> forall i :: 0 <= i < |roles| ==> roles[i].id != id
  {
    FindFirst(roles, (x: Role) => x.id == id)
  }

  function FindRoleByName(roles: seq<Role>, name: string): (r: Option<Role>)
    ensures r.Some? ==> r.value in roles && r.value.name == name
    ensures r.None? <==> forall i :: 0 <= i < |roles| ==> roles[i].name != name
  {
    FindFirst(roles, (x: Role) => x.name == name)
  }

  function FindSession(sessions: seq<Session>, token: string): (r: Option<Session>)
    ensures r.Some? ==> r.value in sessions && r.value.token == token
    ensures r.None? <==> forall i :: 0 <= i < |sessions| ==> sessions[i].token != token
  {
    FindFirst(sessions, (s: Session) => s.token == token)
  }

  function FindSpecializationByName(specs: seq<Specialization>, name: string): (r: Option<Specialization>)
    ensures r.Some? ==> r.value in specs && r.value.name == name
    ensures r.None? <==> forall i :: 0 <= i < |specs| ==> specs[i].name != name
  {
    FindFirst(specs, (x: Specialization) => x.name == name)
  }

  /** The number of rows of a table whose name equals `name`. */
  function RolesNamed(roles: seq<Role>, name: string): nat
  {
    Count(roles, (x: Role) => x.name == name)
  }

  function SpecializationsNamed(specs: seq<Specialization>, name: string): nat
  {
    Count(specs, (x: Specialization) => x.name == name)
  }

  /** With unique names, a present name is counted exactly once. */
  lemma {:induction false} UniqueNameCountedOnce<T>(s: seq<T>, p: T -> bool)
    requires forall i, j :: 0 <= i < |s| && 0 <= j < |s| && p(s[i]) && p(s[j]) ==> i == j
    ensures Count(s, p) == if exists i :: 0 <= i < |s| && p(s[i]) then 1 else 0
    decreases |s|
  {
    if s != [] {
      var init, last := s[..|s| - 1], s[|s| - 1];
      assert s == init + [last];
      assert forall i :: 0 <= i < |init| ==> init[i] == s[i];
      UniqueNameCountedOnce(init, p);
      CountSnoc(init, last, p);
      if p(last) {
        assert forall i :: 0 <= i < |init| ==> !p(init[i]);
      } else if exists i :: 0 <= i < |s| && p(s[i]) {
        var i :| 0 <= i < |s| && p(s[i]);
        assert i < |init| && p(init[i]);
      }
    }
  }

  // --- integrity of the tables ---

  predicate RoleExists(roles: seq<Role>, id: nat)
  {
    exists i :: 0 <= i < |roles| && roles[i].id == id
  }

  predicate UserExists(users: seq<UserRow>, id: nat)
  {
    exists i :: 0 <= i < |users| && users[i].id == id
  }

  /** Role names are unique (roles are upserted by name) and ids lie below the counter. */
  predicate RolesValid(roles: seq<Role>, nextId: nat)
  {
    && (forall i, j :: 0 <= i < |roles| && 0 <= j < |roles| && roles[i].name == roles[j].name ==> i == j)
    && (forall i :: 0 <= i < |roles| ==> roles[i].id < nextId)
  }

  /** E-mails are unique (the user is looked up by e-mail), ids lie below the counter, and every user's role exists. */
  predicate UsersValid(users: seq<UserRow>, roles: seq<Role>, nextId: nat)
  {
    && (forall i, j :: 0 <= i < |users| && 0 <= j < |users| && users[i].email == users[j].email ==> i == j)
    && (forall i :: 0 <= i < |users| ==> users[i].id < nextId)
    && (forall i :: 0 <= i < |users| ==> RoleExists(roles, users[i].roleId))
  }

  /** The user with the given id, which is known to exist. */
  function UserById(users: seq<UserRow>, id: nat): (u: UserRow)
    requires UserExists(users, id)
    ensures u in users && u.id == id
  {
    FindUserById(users, id).value
  }

  /** The role with the given id, which is known to exist. */
  function RoleById(roles: seq<Role>, id: nat): (r: Role)
    requires RoleExists(roles, id)
    ensures r in roles && r.id == id
  {
    FindRoleById(roles, id).value
  }

  /** A user row of a valid table has an existing role. */
  lemma RoleOfUserExists(users: seq<UserRow>, roles: seq<Role>, u: UserRow)
    requires u in users
    requires forall i :: 0 <= i < |users| ==> RoleExists(roles, users[i].roleId)
    ensures RoleExists(roles, u.roleId)
  {
    var k :| 0 <= k < |users| && users[k] == u;
  }

  /** Every session belongs to an existing user. */
  predicate SessionsValid(sessions: seq<Session>, users: seq<UserRow>)
  {
    forall i :: 0 <= i < |sessions| ==> UserExists(users, sessions[i].userId)
  }

  predicate SpecializationExists(specs: seq<Specialization>, id: nat)
  {
    exists i :: 0 <= i < |specs| && specs[i].id == id
  }

  /** Every contact belongs to an existing user. */
  predicate ContactsValid(contacts: seq<ContactRow>, users: seq<UserRow>)
  {
    forall i :: 0 <= i < |contacts| ==> UserExists(users, contacts[i].userId)
  }

  /** Technician ids lie below the counter, and every technician links an existing user to an existing specialization. */
  predicate TechniciansValid(technicians: seq<TechnicianRow>, users: seq<UserRow>, specs: seq<Specialization>, nextId: nat)
  {
    forall i :: 0 <= i < |technicians| ==>
      && technicians[i].id < nextId
      && UserExists(users, technicians[i].userId)
      && SpecializationExists(specs, technicians[i].specializationId)
  }

  /** Specialization names are unique (upsert by name) and ids lie below the counter. */
  predicate SpecializationsValid(specs: seq<Specialization>, nextId: nat)
  {
    && (forall i, j :: 0 <= i < |specs| && 0 <= j < |specs| && specs[i].name == specs[j].name ==> i == j)
    && (forall i :: 0 <= i < |specs| ==> specs[i].id < nextId)
  }

  class Database {
    var reachable: bool
    var roles: seq<Role>
    var nextRoleId: nat
    var users: seq<UserRow>
    var nextUserId: nat
    var sessions: seq<Session>
    var specializations: seq<Specialization>
    var nextSpecializationId: nat
    var contacts: seq<ContactRow>
    var technicians: seq<TechnicianRow>
    var nextTechnicianId: nat
    var reports: seq<ReportRow>
    var nextReportId: nat

    ghost predicate Valid()
      reads this
    {
      && RolesValid(roles, nextRoleId)
      && UsersValid(users, roles, nextUserId)
      && SessionsValid(sessions, users)
      && SpecializationsValid(specializations, nextSpecializationId)
      && ContactsValid(contacts, users)
      && TechniciansValid(technicians, users, specializations, nextTechnicianId)
      && (forall i :: 0 <= i < |reports| ==> reports[i].id < nextReportId)
    }

    /** An empty store; auto-increment ids start at 1. */
    constructor (reachable: bool)
      ensures Valid() && this.reachable == reachable
      ensures roles == [] && users == [] && sessions == [] && specializations == []
      ensures contacts == [] && technicians == [] && reports == []
      ensures nextRoleId == 1 && nextUserId == 1 && nextSpecializationId == 1 && nextTechnicianId == 1 && nextReportId == 1
    {
      this.reachable := reachable;
      roles, users, sessions, specializations := [], [], [], [];
      contacts, technicians, reports := [], [], [];
      nextRoleId, nextUserId, nextSpecializationId, nextTechnicianId, nextReportId := 1, 1, 1, 1, 1;
    }
  }
}
