/** HTTP responses of the backend's controllers and middleware: a status code and a JSON body. */
module Http {
  import opened Store

  /** The public projection of a user returned by a login: no password field. */
  datatype PublicUser = PublicUser(id: nat, name: string, email: string, role: string)

  datatype LoginResult = LoginResult(token: string, user: PublicUser)

  /** A technician row with its user and specialization included, as the create call returns it. */
  datatype TechnicianRecord = TechnicianRecord(id: nat, userId: nat, specializationId: nat, user: UserRow, specialization: Specialization)

  datatype Body =
    | MessageBody(message: string)                   // { message }
    | ErrorBody(error: string)                       // { error }
    | LoginBody(result: LoginResult)                 // { token, user }
    | CreatedReportBody(message: string, data: ReportRow)
    | ReportListBody(reports: seq<ReportRow>)
    | TechnicianBody(record: TechnicianRecord)

  datatype Response = Response(status: nat, body: Body)
}
