/**
 * The report controller (backend/src/controllers/report.controller.ts): list
 * every stored report, and create one from the body's `title` and `status`.
 */
module ReportController {
  import opened Wrappers
  import opened Store
  import opened Http

  const ListFailed: string := "Erro ao buscar relatórios."
  const MissingReportFields: string := "Título e status são obrigatórios."
  const CreateFailed: string := "Erro ao criar relatório."
  const ReportCreated: string := "Relatório criado com sucesso!"

  /** The request body: the two fields read, and the others a client may send, which are ignored. */
  datatype CreateReportBody = CreateReportBody(
    title: Option<string>, status: Option<string>,
    description: Option<string>, technician: Option<string>, date: Option<string>)

  /** `!title || !status` is false: both are present and non-empty. */
  predicate HasRequiredFields(body: CreateReportBody)
  {
    body.title.Some? && body.title.value != "" && body.status.Some? && body.status.value != ""
  }

  /** `getReports`: every stored report, unfiltered and in table order, or 500 when the store fails. */
  method GetReports(db: Database) returns (resp: Response)
    ensures db.reachable ==> resp == Response(200, ReportListBody(db.reports))
    ensures !db.reachable ==> resp == Response(500, ErrorBody(ListFailed))
  {
    if !db.reachable {
      return Response(500, ErrorBody(ListFailed));
    }
    resp := Response(200, ReportListBody(db.reports));
  }

  /** The row `report.create` stores for a valid body: the next id, the title and the status, nothing else. */
  function NewReportRow(body: CreateReportBody, id: nat): (row: ReportRow)
    requires HasRequiredFields(body)
    ensures row.id == id && row.title == body.title.value && row.status == body.status.value
  {
    ReportRow(id, body.title.value, body.status.value)
  }

  /** Two bodies with the same title and status store the same row, whatever else they carry. */
  lemma OtherFieldsIgnored(b1: CreateReportBody, b2: CreateReportBody, id: nat)
    requires HasRequiredFields(b1) && b1.title == b2.title && b1.status == b2.status
    ensures HasRequiredFields(b2) && NewReportRow(b1, id) == NewReportRow(b2, id)
  {
  }

  /** `createReport`. */
  method CreateReport(db: Database, body: CreateReportBody) returns (resp: Response)
    requires db.Valid()
    modifies db`reports, db`nextReportId
    ensures db.Valid()
    ensures !HasRequiredFields(body) ==> resp == Response(400, ErrorBody(MissingReportFields)) && unchanged(db)
    ensures HasRequiredFields(body) && !db.reachable ==> resp == Response(500, ErrorBody(CreateFailed)) && unchanged(db)
    ensures HasRequiredFields(body) && db.reachable ==>
      && db.reports == old(db.reports) + [NewReportRow(body, old(db.nextReportId))]
      && db.nextReportId == old(db.nextReportId) + 1
      && resp == Response(201, CreatedReportBody(ReportCreated, NewReportRow(body, old(db.nextReportId))))
  {
    if !HasRequiredFields(body) {
      return Response(400, ErrorBody(MissingReportFields));
    }
    if !db.reachable {
      return Response(500, ErrorBody(CreateFailed));
    }
    var row := NewReportRow(body, db.nextReportId);
    db.reports := db.reports + [row];
    db.nextReportId := db.nextReportId + 1;
    resp := Response(201, CreatedReportBody(ReportCreated, row));
  }
}
