/**
 * The report screen (frontend/src/components/ReportManagement.tsx): the form
 * state, the submit handler that either merges an edit or appends a new report
 * with a count-based id, the search filter and the status badge styles.
 */
module ReportManagement {
  import opened Wrappers
  import opened Seqs
  import opened Text
  import opened Ids
  import opened App

  datatype ReportForm = ReportForm(title: string, description: string, technician: string, date: string, status: Status)

  /** The screen's local state: the form, the report being edited (if any), the dialog flag and the search box. */
  datatype ScreenState = ScreenState(form: ReportForm, editing: Option<Report>, dialogOpen: bool, searchTerm: string)

  /** `resetForm`: every text field empty, status `Pendente`, and no report under edit. */
  function ResetForm(st: ScreenState): (r: ScreenState)
    ensures r.form.title == "" && r.form.description == "" && r.form.technician == "" && r.form.date == ""
    ensures r.form.status == Pendente && r.editing == None
    ensures r.dialogOpen == st.dialogOpen && r.searchTerm == st.searchTerm
  {
    st.(form := ReportForm("", "", "", "", Pendente), editing := None)
  }

  /** The form filled from an existing report. */
  function FormOf(report: Report): ReportForm
  {
    ReportForm(report.title, report.description, report.technician, report.date, report.status)
  }

  /** `handleOpenDialog`: edit an existing report (form filled from it) or start a new one (form reset); the dialog opens. */
  function OpenDialog(st: ScreenState, report: Option<Report>): (r: ScreenState)
    ensures r.dialogOpen && r.searchTerm == st.searchTerm
    ensures r.editing == report
    ensures report.Some? ==> r.form == FormOf(report.value)
    ensures report.None? ==> r.form == ResetForm(st).form
  {
    match report
    case Some(rep) => st.(editing := Some(rep), form := FormOf(rep), dialogOpen := true)
    case None => ResetForm(st).(dialogOpen := true)
  }

  /** The id of a new report: `RPT-` and the current number of reports plus one, padded to three digits. */
  function NewReportId(count: nat): string
  {
    SequentialId("RPT-", count)
  }

  lemma NewReportIdShape(count: nat)
    ensures NewReportId(count)[..4] == "RPT-"
    ensures IdNumber("RPT-", NewReportId(count)) == Some(count + 1)
    ensures count < 999 <==> |NewReportId(count)| == 7
  {
    SequentialIdNumber("RPT-", count);
    SequentialIdShape("RPT-", count);
  }

  /** The edit merge `{ ...editingReport, ...formData }`: the id stays, every other field comes from the form. */
  function EditMerge(editing: Report, form: ReportForm): (r: Report)
    ensures r.id == editing.id
    ensures FormOf(r) == form
  {
    Report(editing.id, form.title, form.description, form.technician, form.date, form.status)
  }

  /** The new report `{ id, ...formData }`. */
  function NewReport(count: nat, form: ReportForm): (r: Report)
    ensures r.id == NewReportId(count) && FormOf(r) == form
  {
    Report(NewReportId(count), form.title, form.description, form.technician, form.date, form.status)
  }

  /** What a submit leaves behind: the report list handed to the parent and the screen state. */
  datatype Submitted = Submitted(reports: seq<Report>, state: ScreenState)

  /** `handleSubmit`: update or append through the parent's handlers, then close the dialog and reset the form. */
  function HandleSubmit(reports: seq<Report>, st: ScreenState): (r: Submitted)
    ensures st.editing.Some? ==> r.reports == UpdateReport(reports, EditMerge(st.editing.value, st.form))
    ensures st.editing.None? ==> r.reports == AddReport(reports, NewReport(|reports|, st.form))
    ensures r.state == ResetForm(st).(dialogOpen := false)
  {
    var next := match st.editing
      case Some(e) => UpdateReport(reports, EditMerge(e, st.form))
      case None => AddReport(reports, NewReport(|reports|, st.form));
    Submitted(next, ResetForm(st).(dialogOpen := false))
  }

  /** An edit never changes the list of ids: each position keeps its id. */
  lemma {:induction false} EditKeepsIds(reports: seq<Report>, st: ScreenState)
    requires st.editing.Some?
    ensures |HandleSubmit(reports, st).reports| == |reports|
    ensures forall i :: 0 <= i < |reports| ==> HandleSubmit(reports, st).reports[i].id == reports[i].id
  {
  }

  /** Opening an existing report for edit and submitting the unchanged form leaves the list as it was, when that report's id is not shared. */
  lemma EditWithoutChangesIsIdentity(reports: seq<Report>, report: Report, st: ScreenState)
    requires forall i :: 0 <= i < |reports| && reports[i].id == report.id ==> reports[i] == report
    ensures HandleSubmit(reports, OpenDialog(st, Some(report))).reports == reports
  {
    var r := HandleSubmit(reports, OpenDialog(st, Some(report))).reports;
    assert EditMerge(report, FormOf(report)) == report;
    assert forall i :: 0 <= i < |reports| ==> r[i] == reports[i];
  }

  /** A creation appends a report with a fresh count-based id and the form's fields. */
  lemma CreateAppends(reports: seq<Report>, st: ScreenState)
    requires st.editing.None?
    ensures |HandleSubmit(reports, st).reports| == |reports| + 1
    ensures HandleSubmit(reports, st).reports[..|reports|] == reports
    ensures HandleSubmit(reports, st).reports[|reports|].id == NewReportId(|reports|)
    ensures FormOf(HandleSubmit(reports, st).reports[|reports|]) == st.form
  {
  }

  /** The search criterion: the lower-cased term occurs in the lower-cased title, technician or id. */
  predicate ReportMatches(report: Report, term: string)
  {
    Includes(Lower(report.title), Lower(term))
    || Includes(Lower(report.technician), Lower(term))
    || Includes(Lower(report.id), Lower(term))
  }

  function MatchesTerm(term: string): Report -> bool
  {
    (r: Report) => ReportMatches(r, term)
  }

  /** `filteredReports`: the matching reports, in their order. */
  function FilteredReports(reports: seq<Report>, term: string): (r: seq<Report>)
    ensures IsSubsequence(r, reports)
    ensures forall i :: 0 <= i < |r| ==> ReportMatches(r[i], term)
    ensures forall i :: 0 <= i < |reports| && ReportMatches(reports[i], term) ==> reports[i] in r
    ensures forall x :: multiset(r)[x] == if ReportMatches(x, term) then multiset(reports)[x] else 0
  {
    FilterIsSubsequence(reports, MatchesTerm(term));
    FilterMultiset(reports, MatchesTerm(term));
    Filter(reports, MatchesTerm(term))
  }

  /** An empty search box shows every report. */
  lemma EmptySearchKeepsAll(reports: seq<Report>)
    ensures FilteredReports(reports, "") == reports
  {
    forall i | 0 <= i < |reports| ensures ReportMatches(reports[i], "") {
      IncludesEmpty(Lower(reports[i].title));
    }
    FilterAll(reports, MatchesTerm(""));
  }

  const BadgeConcluido: string := "bg-green-100 text-green-700"
  const BadgeEmProgresso: string := "bg-blue-100 text-blue-700"
  const BadgePendente: string := "bg-orange-100 text-orange-700"

  /** `getStatusBadge`: the style of a known status label; any other string gets the `Pendente` style. */
  function GetStatusBadge(status: string): (style: string)
    ensures status == "Concluído" ==> style == BadgeConcluido
    ensures status == "Em Progresso" ==> style == BadgeEmProgresso
    ensures status !in {"Concluído", "Em Progresso"} ==> style == BadgePendente
  {
    if status == "Concluído" then BadgeConcluido
    else if status == "Em Progresso" then BadgeEmProgresso
    else BadgePendente
  }

  /** Each of the three statuses gets its own, distinct style. */
  lemma StatusBadgesDistinct(a: Status, b: Status)
    ensures GetStatusBadge(StatusLabel(a)) == GetStatusBadge(StatusLabel(b)) <==> a == b
  {
  }

  // --- The count-based id after a delete ---

  const R1: Report := Report("RPT-001", "", "", "", "", Pendente)
  const R2: Report := Report("RPT-002", "", "", "", "", Pendente)

  /**
   * After deleting the first of two reports, the id generated for the next
   * report is the id of the report that remains.
   */
  lemma IdCollisionAfterDelete()
    ensures DeleteReport([R1, R2], "RPT-001") == [R2]
    ensures NewReportId(|DeleteReport([R1, R2], "RPT-001")|) == R2.id
  {
    var rest := DeleteReport([R1, R2], "RPT-001");
    assert R1.id != R2.id;
    assert rest == Filter([R1, R2], IdDiffers("RPT-001"));
    assert [R1, R2][1..] == [R2];
    assert [R2][1..] == [];
    assert rest == [R2];
    assert Decimal(2) == "2";
    assert PadStart("2", 3, '0') == "002";
  }

  /** The largest number carried by an `RPT-` id in the list, 0 if none. */
  function MaxReportNumber(reports: seq<Report>): (m: nat)
    ensures forall i, k :: 0 <= i < |reports| && IdNumber("RPT-", reports[i].id) == Some(k) ==> k <= m
    decreases |reports|
  {
    if reports == [] then 0
    else
      var rest := MaxReportNumber(reports[1..]);
      match IdNumber("RPT-", reports[0].id)
      case Some(k) => if k > rest then k else rest
      case None => rest
  }

  /** An id generator that does not collide: one past the largest `RPT-` number in use. */
  function FreshReportId(reports: seq<Report>): (id: string)
    ensures |id| >= 7 && id[..4] == "RPT-"
  {
    SequentialId("RPT-", MaxReportNumber(reports))
  }

  /** The fresh id is carried by no report of the list, whatever was deleted before. */
  lemma FreshReportIdUnused(reports: seq<Report>)
    ensures forall i :: 0 <= i < |reports| ==> reports[i].id != FreshReportId(reports)
  {
    SequentialIdNumber("RPT-", MaxReportNumber(reports));
  }
}
