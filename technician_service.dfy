/**
 * Technician provisioning (backend/src/services/technician.service.ts): a
 * fixed sequence of store steps with no transaction around them — e-mail
 * check, specialization upsert by name, role lookup, user insert, contact
 * inserts, technician link. The password hash (`bcrypt.hash(password, 10)`,
 * salted and so not a function of the password) is the parameter `hashedPassword`.
 */
module TechnicianService {
  import opened Wrappers
  import opened Seqs
  import opened Store
  import opened Http

  const DuplicateEmail: string := "Usuário já existe com esse email."
  const RoleMissing: string := "Role 'Technician' não encontrada. Insira na tabela Role."
  const DefaultRole: string := "Technician"

  datatype ContactInput = ContactInput(phone: string, kind: Option<string>)

  /** The service's input; `contacts` and `role` may be absent. */
  datatype CreateTechnicianInput = CreateTechnicianInput(
    name: string, email: string, password: string,
    contacts: Option<seq<ContactInput>>, specialization: string, role: Option<string>)

  /** `data.role || "Technician"`: an absent or empty role name falls back to the default. */
  function RoleLookupName(role: Option<string>): (name: string)
    ensures role.Some? && role.value != "" ==> name == role.value
    ensures role.None? || role == Some("") ==> name == DefaultRole
  {
    if role.Some? && role.value != "" then role.value else DefaultRole
  }

  /** `contacts = []` when the field is absent. */
  function ContactsOrEmpty(contacts: Option<seq<ContactInput>>): seq<ContactInput>
  {
    match contacts
    case Some(cs) => cs
    case None => []
  }

  /** The rows `createMany` inserts: one per input contact, in order, each owned by the new user. */
  function ContactRows(contacts: seq<ContactInput>, userId: nat): (rows: seq<ContactRow>)
    ensures |rows| == |contacts|
    ensures forall i :: 0 <= i < |rows| ==> rows[i].userId == userId && rows[i].phone == contacts[i].phone && rows[i].kind == contacts[i].kind
  {
    seq(|contacts|, i requires 0 <= i < |contacts| => ContactRow(userId, contacts[i].phone, contacts[i].kind))
  }

  /** The specialization the upsert yields: the existing row with that name, or a new row with the next id. */
  function UpsertedSpecialization(specs: seq<Specialization>, name: string, nextId: nat): (s: Specialization)
    ensures s.name == name
    ensures FindSpecializationByName(specs, name).Some? ==> s == FindSpecializationByName(specs, name).value
    ensures FindSpecializationByName(specs, name).None? ==> s.id == nextId
  {
    match FindSpecializationByName(specs, name)
    case Some(s) => s
    case None => Specialization(nextId, name)
  }

  /** The specialization table after the upsert; `update: {}` leaves an existing row as it is. */
  function UpsertedSpecializations(specs: seq<Specialization>, name: string, nextId: nat): (r: seq<Specialization>)
    ensures FindSpecializationByName(specs, name).Some? ==> r == specs
    ensures FindSpecializationByName(specs, name).None? ==> r == specs + [Specialization(nextId, name)]
  {
    if FindSpecializationByName(specs, name).Some? then specs else specs + [Specialization(nextId, name)]
  }

  /** After an upsert the lookup by name finds the upserted specialization. */
  lemma UpsertFindsName(specs: seq<Specialization>, name: string, nextId: nat)
    ensures FindSpecializationByName(UpsertedSpecializations(specs, name, nextId), name) == Some(UpsertedSpecialization(specs, name, nextId))
  {
    if FindSpecializationByName(specs, name).None? {
      var p := (x: Specialization) => x.name == name;
      assert FindSpecializationByName(specs + [Specialization(nextId, name)], name) == FindFirst(specs + [Specialization(nextId, name)], p);
      FindFirstSnoc(specs, Specialization(nextId, name), p);
    }
  }

  /** In a valid table a specialization that the lookup finds is counted exactly once. */
  lemma FoundSpecializationCountedOnce(specs: seq<Specialization>, nextId: nat, name: string)
    requires SpecializationsValid(specs, nextId) && FindSpecializationByName(specs, name).Some?
    ensures SpecializationsNamed(specs, name) == 1
  {
    var p := (x: Specialization) => x.name == name;
    var k :| 0 <= k < |specs| && specs[k] == FindSpecializationByName(specs, name).value;
    assert p(specs[k]);
    UniqueNameCountedOnce(specs, p);
  }

  /** After an upsert exactly one specialization has the name, the table stays valid, and a second upsert changes nothing. */
  lemma UpsertLeavesExactlyOne(specs: seq<Specialization>, name: string, nextId: nat)
    requires SpecializationsValid(specs, nextId)
    ensures var r := UpsertedSpecializations(specs, name, nextId);
      var next := if FindSpecializationByName(specs, name).Some? then nextId else nextId + 1;
      && SpecializationsValid(r, next)
      && SpecializationsNamed(r, name) == 1
      && FindSpecializationByName(r, name) == Some(UpsertedSpecialization(specs, name, nextId))
      && UpsertedSpecializations(r, name, next) == r
  {
    var r := UpsertedSpecializations(specs, name, nextId);
    var next := if FindSpecializationByName(specs, name).Some? then nextId else nextId + 1;
    UpsertFindsName(specs, name, nextId);
    assert SpecializationsValid(r, next);
    FoundSpecializationCountedOnce(r, next, name);
  }

  /** Step 2: `specialization.upsert({ where: { name }, update: {}, create: { name } })`. */
  method UpsertSpecialization(db: Database, name: string) returns (spec: Specialization)
    requires db.Valid()
    modifies db`specializations, db`nextSpecializationId
    ensures db.Valid()
    ensures spec == UpsertedSpecialization(old(db.specializations), name, old(db.nextSpecializationId))
    ensures db.specializations == UpsertedSpecializations(old(db.specializations), name, old(db.nextSpecializationId))
    ensures db.nextSpecializationId == if FindSpecializationByName(old(db.specializations), name).Some? then old(db.nextSpecializationId) else old(db.nextSpecializationId) + 1
    ensures SpecializationsNamed(db.specializations, name) == 1
    ensures spec in db.specializations
  {
    UpsertLeavesExactlyOne(db.specializations, name, db.nextSpecializationId);
    var found := FindSpecializationByName(db.specializations, name);
    if found.Some? {
      spec := found.value;
    } else {
      spec := Specialization(db.nextSpecializationId, name);
      SpecializationAddedKeepsLinks(db.technicians, db.users, db.specializations, db.nextTechnicianId, spec);
      db.specializations := db.specializations + [spec];
      db.nextSpecializationId := db.nextSpecializationId + 1;
    }
  }

  /** A new specialization row leaves every technician's links resolving. */
  lemma SpecializationAddedKeepsLinks(technicians: seq<TechnicianRow>, users: seq<UserRow>, specs: seq<Specialization>, nextId: nat, s: Specialization)
    requires TechniciansValid(technicians, users, specs, nextId)
    ensures TechniciansValid(technicians, users, specs + [s], nextId)
  {
    forall i | 0 <= i < |technicians| ensures SpecializationExists(specs + [s], technicians[i].specializationId) {
      var k :| 0 <= k < |specs| && specs[k].id == technicians[i].specializationId;
      assert (specs + [s])[k] == specs[k];
    }
  }

  /** A row appended to the user table keeps the e-mail and role integrity when its e-mail is new and its role exists. */
  lemma AddUserKeepsValid(users: seq<UserRow>, roles: seq<Role>, sessions: seq<Session>, nextId: nat, u: UserRow)
    requires UsersValid(users, roles, nextId) && SessionsValid(sessions, users)
    requires FindUserByEmail(users, u.email).None? && u.id == nextId && RoleExists(roles, u.roleId)
    ensures UsersValid(users + [u], roles, nextId + 1) && SessionsValid(sessions, users + [u])
  {
    var all := users + [u];
    forall i | 0 <= i < |sessions| ensures UserExists(all, sessions[i].userId) {
      var k :| 0 <= k < |users| && users[k].id == sessions[i].userId;
      assert all[k] == users[k];
    }
  }

  /** A user that exists still exists once another user row is appended. */
  lemma UserExistsAfterAppend(users: seq<UserRow>, u: UserRow, id: nat)
    requires UserExists(users, id)
    ensures UserExists(users + [u], id)
  {
    var k :| 0 <= k < |users| && users[k].id == id;
    assert (users + [u])[k] == users[k];
  }

  /** A new user row leaves every contact's and every technician's user link resolving. */
  lemma UserAddedKeepsLinks(users: seq<UserRow>, u: UserRow, contacts: seq<ContactRow>, technicians: seq<TechnicianRow>, specs: seq<Specialization>, nextId: nat)
    requires ContactsValid(contacts, users) && TechniciansValid(technicians, users, specs, nextId)
    ensures ContactsValid(contacts, users + [u]) && TechniciansValid(technicians, users + [u], specs, nextId)
  {
    forall i | 0 <= i < |contacts| ensures UserExists(users + [u], contacts[i].userId) {
      UserExistsAfterAppend(users, u, contacts[i].userId);
    }
    forall i | 0 <= i < |technicians| ensures UserExists(users + [u], technicians[i].userId) {
      UserExistsAfterAppend(users, u, technicians[i].userId);
    }
  }

  /** The contact rows of an existing user keep every contact's owner resolving. */
  lemma ContactRowsKeepValid(contacts: seq<ContactRow>, users: seq<UserRow>, inputs: seq<ContactInput>, userId: nat)
    requires ContactsValid(contacts, users) && UserExists(users, userId)
    ensures ContactsValid(contacts + ContactRows(inputs, userId), users)
  {
  }

  /** A link with the counter's id between an existing user and an existing specialization keeps the technician table valid under the advanced counter. */
  lemma LinkKeepsValid(technicians: seq<TechnicianRow>, users: seq<UserRow>, specs: seq<Specialization>, nextId: nat, link: TechnicianRow)
    requires TechniciansValid(technicians, users, specs, nextId)
    requires link.id == nextId && UserExists(users, link.userId) && SpecializationExists(specs, link.specializationId)
    ensures TechniciansValid(technicians + [link], users, specs, nextId + 1)
  {
  }

  /** The three rows of a provisioning keep every table the insert touches valid. */
  lemma InsertKeepsIntegrity(users: seq<UserRow>, roles: seq<Role>, sessions: seq<Session>, contacts: seq<ContactRow>,
                             technicians: seq<TechnicianRow>, specs: seq<Specialization>, nextUserId: nat, nextTechnicianId: nat,
                             user: UserRow, inputs: seq<ContactInput>, spec: Specialization)
    requires UsersValid(users, roles, nextUserId) && SessionsValid(sessions, users)
    requires ContactsValid(contacts, users) && TechniciansValid(technicians, users, specs, nextTechnicianId)
    requires FindUserByEmail(users, user.email).None? && user.id == nextUserId && RoleExists(roles, user.roleId)
    requires spec in specs
    ensures var all := users + [user];
      && UsersValid(all, roles, nextUserId + 1) && SessionsValid(sessions, all)
      && ContactsValid(contacts + ContactRows(inputs, user.id), all)
      && TechniciansValid(technicians + [TechnicianRow(nextTechnicianId, user.id, spec.id)], all, specs, nextTechnicianId + 1)
  {
    var all := users + [user];
    AddUserKeepsValid(users, roles, sessions, nextUserId, user);
    UserAddedKeepsLinks(users, user, contacts, technicians, specs, nextTechnicianId);
    assert all[|users|] == user;
    ContactRowsKeepValid(contacts, all, inputs, user.id);
    var k :| 0 <= k < |specs| && specs[k] == spec;
    LinkKeepsValid(technicians, all, specs, nextTechnicianId, TechnicianRow(nextTechnicianId, user.id, spec.id));
  }

  /** Steps 4 to 6: insert the user, its contacts (only when there are any) and the technician link. */
  method InsertTechnician(db: Database, user: UserRow, contacts: seq<ContactInput>, spec: Specialization)
    returns (link: TechnicianRow)
    requires db.Valid()
    requires FindUserByEmail(db.users, user.email).None? && user.id == db.nextUserId && RoleExists(db.roles, user.roleId)
    requires spec in db.specializations
    modifies db`users, db`nextUserId, db`contacts, db`technicians, db`nextTechnicianId
    ensures db.Valid()
    ensures link == TechnicianRow(old(db.nextTechnicianId), user.id, spec.id)
    ensures db.users == old(db.users) + [user]
    ensures db.contacts == old(db.contacts) + ContactRows(contacts, user.id)
    ensures db.technicians == old(db.technicians) + [link]
    ensures db.nextUserId == old(db.nextUserId) + 1 && db.nextTechnicianId == old(db.nextTechnicianId) + 1
  {
    InsertKeepsIntegrity(db.users, db.roles, db.sessions, db.contacts, db.technicians, db.specializations,
                         db.nextUserId, db.nextTechnicianId, user, contacts, spec);
    db.users, db.nextUserId := db.users + [user], db.nextUserId + 1;
    if |contacts| > 0 {
      db.contacts := db.contacts + ContactRows(contacts, user.id);
    } else {
      assert ContactRows(contacts, user.id) == [];
      assert db.contacts + ContactRows(contacts, user.id) == db.contacts;
    }
    link := TechnicianRow(db.nextTechnicianId, user.id, spec.id);
    db.technicians, db.nextTechnicianId := db.technicians + [link], db.nextTechnicianId + 1;
  }

  /** `createTechnician`. */
  method CreateTechnician(db: Database, data: CreateTechnicianInput, hashedPassword: string)
    returns (r: Result<TechnicianRecord, string>)
    requires db.Valid()
    modifies db`specializations, db`nextSpecializationId, db`users, db`nextUserId, db`contacts, db`technicians, db`nextTechnicianId
    ensures db.Valid()
    // Store unreachable or e-mail taken: nothing is written, because both checks come before the first write.
    ensures !db.reachable ==> r == Failure(StoreFailure) && unchanged(db)
    ensures db.reachable && FindUserByEmail(old(db.users), data.email).Some? ==> r == Failure(DuplicateEmail) && unchanged(db)
    // Otherwise the specialization upsert always happens.
    ensures db.reachable && FindUserByEmail(old(db.users), data.email).None? ==>
      && db.specializations == UpsertedSpecializations(old(db.specializations), data.specialization, old(db.nextSpecializationId))
      && SpecializationsNamed(db.specializations, data.specialization) == 1
      && db.nextSpecializationId == if FindSpecializationByName(old(db.specializations), data.specialization).Some? then old(db.nextSpecializationId) else old(db.nextSpecializationId) + 1
    // Role missing: an error, no user, contact or technician row, but the upserted specialization stays.
    ensures db.reachable && FindUserByEmail(old(db.users), data.email).None? && FindRoleByName(db.roles, RoleLookupName(data.role)).None? ==>
      && r == Failure(RoleMissing)
      && db.users == old(db.users) && db.contacts == old(db.contacts) && db.technicians == old(db.technicians)
      && db.nextUserId == old(db.nextUserId) && db.nextTechnicianId == old(db.nextTechnicianId)
    // Success: one user, its contacts and one technician row linking the user to the specialization.
    ensures db.reachable && FindUserByEmail(old(db.users), data.email).None? && FindRoleByName(db.roles, RoleLookupName(data.role)).Some? ==>
      var spec := UpsertedSpecialization(old(db.specializations), data.specialization, old(db.nextSpecializationId));
      var user := UserRow(old(db.nextUserId), data.name, data.email, hashedPassword, FindRoleByName(db.roles, RoleLookupName(data.role)).value.id);
      && db.users == old(db.users) + [user]
      && db.contacts == old(db.contacts) + ContactRows(ContactsOrEmpty(data.contacts), user.id)
      && db.technicians == old(db.technicians) + [TechnicianRow(old(db.nextTechnicianId), user.id, spec.id)]
      && db.nextUserId == old(db.nextUserId) + 1 && db.nextTechnicianId == old(db.nextTechnicianId) + 1
      && r == Success(TechnicianRecord(old(db.nextTechnicianId), user.id, spec.id, user, spec))
  {
    if !db.reachable {
      return Failure(StoreFailure);
    }
    var contacts := ContactsOrEmpty(data.contacts);
    // 1. e-mail already in use
    if FindUserByEmail(db.users, data.email).Some? {
      return Failure(DuplicateEmail);
    }
    // 2. specialization upsert
    var spec := UpsertSpecialization(db, data.specialization);
    // 3. role lookup
    var role := FindRoleByName(db.roles, RoleLookupName(data.role));
    if role.None? {
      return Failure(RoleMissing);
    }
    ghost var k :| 0 <= k < |db.roles| && db.roles[k] == role.value;
    var user := UserRow(db.nextUserId, data.name, data.email, hashedPassword, role.value.id);
    var link := InsertTechnician(db, user, contacts, spec);
    r := Success(TechnicianRecord(link.id, user.id, spec.id, user, spec));
  }
}
