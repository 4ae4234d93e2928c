/**
 * The application shell of the frontend (frontend/src/App.tsx): the report and
 * technician records, the list updates handed to the child components, and the
 * role gate that decides which page is shown.
 */
module App {
  import opened Seqs

  /** The three report states; the type admits no other value. */
  datatype Status = Pendente | EmProgresso | Concluido

  function StatusLabel(s: Status): string
  {
    match s
    case Pendente => "Pendente"
    case EmProgresso => "Em Progresso"
    case Concluido => "Concluído"
  }

  datatype Report = Report(id: string, title: string, description: string, technician: string, date: string, status: Status)

  datatype Technician = Technician(id: string, name: string, role: string, contact: string)

  /** `addReport`: the old list followed by the new report. */
  function AddReport(reports: seq<Report>, report: Report): (r: seq<Report>)
    ensures |r| == |reports| + 1
    ensures r[..|reports|] == reports && r[|reports|] == report
  {
    reports + [report]
  }

  /** `updateReport`: every report carrying the updated id is replaced, all others are kept, in place. */
  function UpdateReport(reports: seq<Report>, updated: Report): (r: seq<Report>)
    ensures |r| == |reports|
    ensures forall i :: 0 <= i < |r| ==> r[i] == if reports[i].id == updated.id then updated else reports[i]
    decreases |reports|
  {
    if reports == [] then []
    else [if reports[0].id == updated.id then updated else reports[0]] + UpdateReport(reports[1..], updated)
  }

  function IdDiffers(id: string): Report -> bool
  {
    (r: Report) => r.id != id
  }

  /** `deleteReport`: the reports whose id differs from `id`, in their order. */
  function DeleteReport(reports: seq<Report>, id: string): (r: seq<Report>)
    ensures IsSubsequence(r, reports)
    ensures forall i :: 0 <= i < |r| ==> r[i].id != id
    ensures forall i :: 0 <= i < |reports| && reports[i].id != id ==> reports[i] in r
    ensures forall x :: multiset(r)[x] == if x.id != id then multiset(reports)[x] else 0
    ensures (forall i :: 0 <= i < |reports| ==> reports[i].id != id) ==> r == reports
  {
    FilterKeepsAll(reports, IdDiffers(id));
    FilterIsSubsequence(reports, IdDiffers(id));
    FilterMultiset(reports, IdDiffers(id));
    Filter(reports, IdDiffers(id))
  }

  /** Deleting the same id twice is deleting it once. */
  lemma DeleteReportIdempotent(reports: seq<Report>, id: string)
    ensures DeleteReport(DeleteReport(reports, id), id) == DeleteReport(reports, id)
  {
    FilterIdempotent(reports, IdDiffers(id));
  }

  /** `addTechnician`: the old roster followed by the new technician. */
  function AddTechnician(technicians: seq<Technician>, technician: Technician): (r: seq<Technician>)
    ensures |r| == |technicians| + 1
    ensures r[..|technicians|] == technicians && r[|technicians|] == technician
  {
    technicians + [technician]
  }

  /** `shouldShowPage`: role names are compared exactly, letter case included. */
  function ShouldShowPage(role: string, page: string): (show: bool)
    ensures page == "reports" ==> (show <==> role == "technician" || role == "admin")
    ensures page == "technicians" ==> (show <==> role == "admin")
    ensures page == "home" || page == "statistics" || page == "settings" ==> show
    ensures page !in {"reports", "technicians", "home", "statistics", "settings"} ==> !show
  {
    if page == "reports" then role == "technician" || role == "admin"
    else if page == "technicians" then role == "admin"
    else page == "home" || page == "statistics" || page == "settings"
  }

  /** The role names the database seed creates are capitalised, so the gate refuses them the restricted pages. */
  lemma SeededRoleNamesAreDenied()
    ensures !ShouldShowPage("Admin", "technicians") && !ShouldShowPage("Admin", "reports")
    ensures !ShouldShowPage("Technician", "technicians") && !ShouldShowPage("Technician", "reports")
  {
  }

  /** The pages the navigation can select. */
  datatype Page = Home | Reports | Technicians | Statistics | Settings

  function PageName(p: Page): string
  {
    match p
    case Home => "home"
    case Reports => "reports"
    case Technicians => "technicians"
    case Statistics => "statistics"
    case Settings => "settings"
  }

  /** What `renderCurrentPage` produces; `Nothing` is the `null` of the technicians case for a non-admin. */
  datatype View = AccessRestricted | DashboardView | ReportManagementView | TechnicianManagementView | SettingsView | Nothing

  /** `renderCurrentPage`: the gate first, then the page's component. */
  function RenderCurrentPage(role: string, page: Page): (v: View)
    ensures v == AccessRestricted <==> !ShouldShowPage(role, PageName(page))
    ensures v == TechnicianManagementView <==> page == Technicians && role == "admin"
    ensures v == ReportManagementView <==> page == Reports && (role == "technician" || role == "admin")
    ensures v != Nothing
  {
    if !ShouldShowPage(role, PageName(page)) then AccessRestricted
    else match page
      case Home => DashboardView
      case Reports => ReportManagementView
      case Technicians => if role == "admin" then TechnicianManagementView else Nothing
      case Statistics => DashboardView
      case Settings => SettingsView
  }
}
