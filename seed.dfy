/**
 * The role seed (backend/prisma/seed.ts): upsert the role "Technician" and
 * then the role "Admin" by name, each with a description used only when the
 * role is created (`update: {}`).
 */
module Seed {
  import opened Wrappers
  import opened Seqs
  import opened Store

  const TechnicianRoleName: string := "Technician"
  const TechnicianRoleDescription: string := "Usuário com função técnica"
  const AdminRoleName: string := "Admin"
  const AdminRoleDescription: string := "Administrador do sistema"

  /** The role table after an upsert by name: unchanged when the name exists, else one new row with the next id. */
  function UpsertedRoles(roles: seq<Role>, name: string, description: string, nextId: nat): (r: seq<Role>)
    ensures FindRoleByName(roles, name).Some? ==> r == roles
    ensures FindRoleByName(roles, name).None? ==> r == roles + [Role(nextId, name, Some(description))]
  {
    if FindRoleByName(roles, name).Some? then roles else roles + [Role(nextId, name, Some(description))]
  }

  function NextRoleIdAfter(roles: seq<Role>, name: string, nextId: nat): nat
  {
    if FindRoleByName(roles, name).Some? then nextId else nextId + 1
  }

  /** The role table after one run of the seed. */
  function SeededRoles(roles: seq<Role>, nextId: nat): seq<Role>
  {
    var r1 := UpsertedRoles(roles, TechnicianRoleName, TechnicianRoleDescription, nextId);
    UpsertedRoles(r1, AdminRoleName, AdminRoleDescription, NextRoleIdAfter(roles, TechnicianRoleName, nextId))
  }

  /** An upsert keeps the table valid, finds the name afterwards, and a repeated upsert changes nothing. */
  lemma UpsertRoleFacts(roles: seq<Role>, name: string, description: string, nextId: nat)
    requires RolesValid(roles, nextId)
    ensures var r := UpsertedRoles(roles, name, description, nextId);
      && RolesValid(r, NextRoleIdAfter(roles, name, nextId))
      && FindRoleByName(r, name).Some?
      && (FindRoleByName(roles, name).None? ==> FindRoleByName(r, name).value.description == Some(description))
      && roles <= r
      && (forall other: string :: other != name ==> FindRoleByName(r, other) == FindRoleByName(roles, other))
  {
    var r := UpsertedRoles(roles, name, description, nextId);
    if FindRoleByName(roles, name).None? {
      var row := Role(nextId, name, Some(description));
      FindFirstSnoc(roles, row, (x: Role) => x.name == name);
      forall other: string | other != name
        ensures FindRoleByName(r, other) == FindRoleByName(roles, other)
      {
        FindFirstSnoc(roles, row, (x: Role) => x.name == other);
      }
    }
  }

  /** Two upserts of different names: both are found afterwards, earlier rows are kept, and a created role carries its description. */
  lemma TwoUpserts(roles: seq<Role>, a: string, da: string, b: string, db: string, nextId: nat)
    requires RolesValid(roles, nextId) && a != b
    ensures var r1 := UpsertedRoles(roles, a, da, nextId);
      var n1 := NextRoleIdAfter(roles, a, nextId);
      var r := UpsertedRoles(r1, b, db, n1);
      && RolesValid(r, NextRoleIdAfter(r1, b, n1))
      && FindRoleByName(r, a).Some? && FindRoleByName(r, b).Some?
      && roles <= r
      && (FindRoleByName(roles, a).None? ==> FindRoleByName(r, a).value.description == Some(da))
      && (FindRoleByName(roles, b).None? ==> FindRoleByName(r, b).value.description == Some(db))
  {
    var r1 := UpsertedRoles(roles, a, da, nextId);
    var n1 := NextRoleIdAfter(roles, a, nextId);
    UpsertRoleFacts(roles, a, da, nextId);
    UpsertRoleFacts(r1, b, db, n1);
  }

  /** The counter after one run of the seed. */
  function SeededNextRoleId(roles: seq<Role>, nextId: nat): nat
  {
    var r1 := UpsertedRoles(roles, TechnicianRoleName, TechnicianRoleDescription, nextId);
    NextRoleIdAfter(r1, AdminRoleName, NextRoleIdAfter(roles, TechnicianRoleName, nextId))
  }

  /** After the seed both roles are found, earlier rows are kept as they were, and new rows carry their description. */
  lemma SeedFindsBothRoles(roles: seq<Role>, nextId: nat)
    requires RolesValid(roles, nextId)
    ensures var r := SeededRoles(roles, nextId);
      && RolesValid(r, SeededNextRoleId(roles, nextId))
      && FindRoleByName(r, TechnicianRoleName).Some?
      && FindRoleByName(r, AdminRoleName).Some?
      && roles <= r
      && (FindRoleByName(roles, TechnicianRoleName).None? ==> FindRoleByName(r, TechnicianRoleName).value.description == Some(TechnicianRoleDescription))
      && (FindRoleByName(roles, AdminRoleName).None? ==> FindRoleByName(r, AdminRoleName).value.description == Some(AdminRoleDescription))
  {
    assert |TechnicianRoleName| != |AdminRoleName|;
    TwoUpserts(roles, TechnicianRoleName, TechnicianRoleDescription, AdminRoleName, AdminRoleDescription, nextId);
  }

  /** After the seed each of the two roles exists exactly once, and a store holding both already is left as it was. */
  lemma SeedCreatesBothRoles(roles: seq<Role>, nextId: nat)
    requires RolesValid(roles, nextId)
    ensures RolesNamed(SeededRoles(roles, nextId), TechnicianRoleName) == 1
    ensures RolesNamed(SeededRoles(roles, nextId), AdminRoleName) == 1
    ensures FindRoleByName(roles, TechnicianRoleName).Some? && FindRoleByName(roles, AdminRoleName).Some? ==> SeededRoles(roles, nextId) == roles
  {
    SeedFindsBothRoles(roles, nextId);
    FoundRoleCountedOnce(SeededRoles(roles, nextId), SeededNextRoleId(roles, nextId), TechnicianRoleName);
    FoundRoleCountedOnce(SeededRoles(roles, nextId), SeededNextRoleId(roles, nextId), AdminRoleName);
  }

  /** In a valid table a role that the lookup finds is counted exactly once. */
  lemma FoundRoleCountedOnce(roles: seq<Role>, nextId: nat, name: string)
    requires RolesValid(roles, nextId) && FindRoleByName(roles, name).Some?
    ensures RolesNamed(roles, name) == 1
  {
    var p := (x: Role) => x.name == name;
    var k :| 0 <= k < |roles| && roles[k] == FindRoleByName(roles, name).value;
    assert p(roles[k]);
    UniqueNameCountedOnce(roles, p);
  }

  /** Running the seed a second time leaves the role table as the first run left it. */
  lemma SeedTwiceChangesNothing(roles: seq<Role>, nextId: nat, laterNextId: nat)
    requires RolesValid(roles, nextId)
    ensures SeededRoles(SeededRoles(roles, nextId), laterNextId) == SeededRoles(roles, nextId)
  {
    SeedFindsBothRoles(roles, nextId);
  }

  /** Adding roles keeps every user's role reference valid. */
  lemma MoreRolesKeepUsersValid(users: seq<UserRow>, roles: seq<Role>, more: seq<Role>, nextUserId: nat)
    requires UsersValid(users, roles, nextUserId) && roles <= more
    ensures UsersValid(users, more, nextUserId)
  {
    forall i | 0 <= i < |users| ensures RoleExists(more, users[i].roleId) {
      var k :| 0 <= k < |roles| && roles[k].id == users[i].roleId;
      assert more[k] == roles[k];
    }
  }

  /** One `role.upsert`. */
  method UpsertRole(db: Database, name: string, description: string)
    requires db.Valid()
    modifies db`roles, db`nextRoleId
    ensures db.Valid()
    ensures db.roles == UpsertedRoles(old(db.roles), name, description, old(db.nextRoleId))
    ensures db.nextRoleId == NextRoleIdAfter(old(db.roles), name, old(db.nextRoleId))
  {
    UpsertRoleFacts(db.roles, name, description, db.nextRoleId);
    var more := UpsertedRoles(db.roles, name, description, db.nextRoleId);
    MoreRolesKeepUsersValid(db.users, db.roles, more, db.nextUserId);
    db.nextRoleId := NextRoleIdAfter(db.roles, name, db.nextRoleId);
    db.roles := more;
  }

  /** The two upserts of the seed, in order. */
  method SeedRoles(db: Database)
    requires db.Valid()
    modifies db`roles, db`nextRoleId
    ensures db.Valid()
    ensures db.roles == SeededRoles(old(db.roles), old(db.nextRoleId))
    ensures db.nextRoleId == SeededNextRoleId(old(db.roles), old(db.nextRoleId))
    ensures db.nextRoleId == old(db.nextRoleId) + (|db.roles| - |old(db.roles)|)
  {
    UpsertRole(db, TechnicianRoleName, TechnicianRoleDescription);
    UpsertRole(db, AdminRoleName, AdminRoleDescription);
  }

  /** `main`: nothing is written when the store cannot be reached, otherwise both upserts run in order. */
  method Seed(db: Database)
    requires db.Valid()
    modifies db`roles, db`nextRoleId
    ensures db.Valid()
    ensures !db.reachable ==> unchanged(db)
    ensures db.reachable ==> db.roles == SeededRoles(old(db.roles), old(db.nextRoleId))
    ensures db.reachable ==> db.nextRoleId == SeededNextRoleId(old(db.roles), old(db.nextRoleId))
  {
    if db.reachable {
      SeedRoles(db);
    }
  }
}
