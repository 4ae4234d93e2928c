/**
 * The technician controller (backend/src/controllers/technician.controller.ts):
 * picks name, email, password, phone and specialization out of the request
 * body, turns the single phone into a contact list, calls the provisioning
 * service, and maps its outcome to 201 with the record or 400 with `{ error }`.
 */
module TechnicianController {
  import opened Wrappers
  import opened Store
  import opened Http
  import opened TechnicianService

  const PrincipalKind: string := "Principal"

  /** The request body; `role` is present so that the model can show it is never forwarded. */
  datatype AddTechnicianBody = AddTechnicianBody(
    name: string, email: string, password: string,
    phone: Option<string>, specialization: string, role: Option<string>)

  /** A truthy phone becomes the one contact `{ phone, type: "Principal" }`; a missing or empty phone gives none. */
  function ContactsFromPhone(phone: Option<string>): (cs: seq<ContactInput>)
    ensures phone.Some? && phone.value != "" ==> cs == [ContactInput(phone.value, Some(PrincipalKind))]
    ensures phone.None? || phone == Some("") ==> cs == []
  {
    if phone.Some? && phone.value != "" then [ContactInput(phone.value, Some(PrincipalKind))] else []
  }

  /** The service input the controller builds: five fields copied, contacts adapted, no role. */
  function ForwardedInput(body: AddTechnicianBody): (data: CreateTechnicianInput)
    ensures data.name == body.name && data.email == body.email && data.password == body.password
    ensures data.specialization == body.specialization
    ensures data.contacts == Some(ContactsFromPhone(body.phone))
    ensures data.role.None?
  {
    CreateTechnicianInput(body.name, body.email, body.password, Some(ContactsFromPhone(body.phone)), body.specialization, None)
  }

  /** Whatever role the body names, the service looks up the default role. */
  lemma RoleIsAlwaysDefault(body: AddTechnicianBody)
    ensures RoleLookupName(ForwardedInput(body).role) == DefaultRole
  {
  }

  /** The contact rows written for a body: one `Principal` row for a truthy phone, none otherwise. */
  lemma ContactRowsOfBody(body: AddTechnicianBody, userId: nat)
    ensures var rows := ContactRows(ContactsOrEmpty(ForwardedInput(body).contacts), userId);
      if body.phone.Some? && body.phone.value != ""
      then rows == [ContactRow(userId, body.phone.value, Some(PrincipalKind))]
      else rows == []
  {
    var rows := ContactRows(ContactsOrEmpty(ForwardedInput(body).contacts), userId);
    if body.phone.Some? && body.phone.value != "" {
      assert |rows| == 1;
    }
  }

  /** `addTechnician`. */
  method AddTechnician(db: Database, body: AddTechnicianBody, hashedPassword: string) returns (resp: Response)
    requires db.Valid()
    modifies db`specializations, db`nextSpecializationId, db`users, db`nextUserId, db`contacts, db`technicians, db`nextTechnicianId
    ensures db.Valid()
    ensures resp.status == 201 || resp.status == 400
    ensures resp.status == 400 ==> resp.body.ErrorBody?
    ensures !db.reachable ==> resp == Response(400, ErrorBody(StoreFailure)) && unchanged(db)
    ensures db.reachable && FindUserByEmail(old(db.users), body.email).Some? ==>
      resp == Response(400, ErrorBody(DuplicateEmail)) && unchanged(db)
    ensures db.reachable && FindUserByEmail(old(db.users), body.email).None? ==>
      && db.specializations == UpsertedSpecializations(old(db.specializations), body.specialization, old(db.nextSpecializationId))
      && db.nextSpecializationId == if FindSpecializationByName(old(db.specializations), body.specialization).Some? then old(db.nextSpecializationId) else old(db.nextSpecializationId) + 1
    ensures db.reachable && FindUserByEmail(old(db.users), body.email).None? && FindRoleByName(db.roles, DefaultRole).None? ==>
      && resp == Response(400, ErrorBody(RoleMissing))
      && db.users == old(db.users) && db.contacts == old(db.contacts) && db.technicians == old(db.technicians)
      && db.nextUserId == old(db.nextUserId) && db.nextTechnicianId == old(db.nextTechnicianId)
    ensures db.reachable && FindUserByEmail(old(db.users), body.email).None? && FindRoleByName(db.roles, DefaultRole).Some? ==>
      var spec := UpsertedSpecialization(old(db.specializations), body.specialization, old(db.nextSpecializationId));
      var user := UserRow(old(db.nextUserId), body.name, body.email, hashedPassword, FindRoleByName(db.roles, DefaultRole).value.id);
      && db.users == old(db.users) + [user]
      && db.contacts == old(db.contacts) + ContactRows(ContactsFromPhone(body.phone), user.id)
      && db.technicians == old(db.technicians) + [TechnicianRow(old(db.nextTechnicianId), user.id, spec.id)]
      && db.nextUserId == old(db.nextUserId) + 1 && db.nextTechnicianId == old(db.nextTechnicianId) + 1
      && resp == Response(201, TechnicianBody(TechnicianRecord(old(db.nextTechnicianId), user.id, spec.id, user, spec)))
  {
    var r := CreateTechnician(db, ForwardedInput(body), hashedPassword);
    match r {
      case Success(record) => resp := Response(201, TechnicianBody(record));
      case Failure(message) => resp := Response(400, ErrorBody(message));
    }
  }
}
