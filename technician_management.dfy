/**
 * The technician screen (frontend/src/components/TechnicianManagement.tsx):
 * the eight-field form, the password check, the request payload with its two
 * contacts, the conversion of the backend's answer into a roster entry, the
 * search filter and the avatar initials.
 */
module TechnicianManagement {
  import opened Wrappers
  import opened Seqs
  import opened Text
  import opened Ids
  import opened App

  datatype TechnicianForm = TechnicianForm(
    name: string, role: string, email: string, specialization: string,
    phonePersonal: string, phoneWork: string, password: string, confirmPassword: string)

  /** `resetForm`: all eight fields empty. */
  function ResetForm(): (f: TechnicianForm)
    ensures f.name == "" && f.role == "" && f.email == "" && f.specialization == ""
    ensures f.phonePersonal == "" && f.phoneWork == "" && f.password == "" && f.confirmPassword == ""
  {
    TechnicianForm("", "", "", "", "", "", "", "")
  }

  datatype PayloadContact = PayloadContact(phone: string, kind: string)

  /** The JSON body posted to the backend. */
  datatype Payload = Payload(name: string, email: string, password: string, specialization: string, role: string, contacts: seq<PayloadContact>)

  /** The payload: the form's fields and always two contacts, personal first, then work, even when a phone is empty. */
  function BuildPayload(f: TechnicianForm): (p: Payload)
    ensures p.name == f.name && p.email == f.email && p.password == f.password
    ensures p.specialization == f.specialization && p.role == f.role
    ensures |p.contacts| == 2
    ensures p.contacts[0] == PayloadContact(f.phonePersonal, "Pessoal")
    ensures p.contacts[1] == PayloadContact(f.phoneWork, "Trabalho")
  {
    Payload(f.name, f.email, f.password, f.specialization, f.role,
      [PayloadContact(f.phonePersonal, "Pessoal"), PayloadContact(f.phoneWork, "Trabalho")])
  }

  /** The part of the backend's JSON answer the screen reads: `saved.user.name` and `saved.user.email`. */
  datatype SavedUser = SavedUser(name: string, email: string)

  /** The id of a new roster entry: `TECH-` and the roster size plus one, padded to three digits. */
  function NewTechnicianId(count: nat): string
  {
    SequentialId("TECH-", count)
  }

  lemma NewTechnicianIdShape(count: nat)
    ensures NewTechnicianId(count)[..5] == "TECH-"
    ensures IdNumber("TECH-", NewTechnicianId(count)) == Some(count + 1)
    ensures count < 999 <==> |NewTechnicianId(count)| == 8
  {
    SequentialIdNumber("TECH-", count);
    SequentialIdShape("TECH-", count);
  }

  /** The roster entry built from the answer: name and e-mail from the saved user, role from the form's specialization. */
  function ToTechnician(count: nat, saved: SavedUser, f: TechnicianForm): (t: Technician)
    ensures t.id == NewTechnicianId(count)
    ensures t.name == saved.name && t.role == f.specialization && t.contact == saved.email
  {
    Technician(NewTechnicianId(count), saved.name, f.specialization, saved.email)
  }

  /**
   * What a submit does: `request` is the payload sent (None when nothing was
   * sent), `technicians` the roster afterwards and `form` the form afterwards.
   */
  datatype Submitted = Submitted(request: Option<Payload>, technicians: seq<Technician>, form: TechnicianForm, dialogOpen: bool)

  /**
   * `handleSubmit`. The network call is outside the model: `answer` is the
   * backend's reply, None when the request failed or was answered with an
   * error status.
   */
  function HandleSubmit(technicians: seq<Technician>, f: TechnicianForm, dialogOpen: bool, answer: Option<SavedUser>): (r: Submitted)
    ensures f.password != f.confirmPassword ==> r == Submitted(None, technicians, f, dialogOpen)
    ensures f.password == f.confirmPassword ==> r.request == Some(BuildPayload(f))
    ensures f.password == f.confirmPassword && answer.None? ==> r.technicians == technicians && r.form == f && r.dialogOpen == dialogOpen
    ensures f.password == f.confirmPassword && answer.Some? ==>
      && r.technicians == AddTechnician(technicians, ToTechnician(|technicians|, answer.value, f))
      && r.form == ResetForm() && !r.dialogOpen
  {
    if f.password != f.confirmPassword then Submitted(None, technicians, f, dialogOpen)
    else match answer
      case None => Submitted(Some(BuildPayload(f)), technicians, f, dialogOpen)
      case Some(saved) => Submitted(Some(BuildPayload(f)), AddTechnician(technicians, ToTechnician(|technicians|, saved, f)), ResetForm(), false)
  }

  /** The roster changes only by one appended entry, and only after a matching password pair and a successful reply. */
  lemma SubmitGrowsRosterByAtMostOne(technicians: seq<Technician>, f: TechnicianForm, dialogOpen: bool, answer: Option<SavedUser>)
    ensures var r := HandleSubmit(technicians, f, dialogOpen, answer);
      && r.technicians[..|technicians|] == technicians
      && (|r.technicians| == |technicians| + 1 <==> f.password == f.confirmPassword && answer.Some?)
      && (|r.technicians| == |technicians| <==> !(f.password == f.confirmPassword && answer.Some?))
  {
  }

  /** The search criterion: the lower-cased term occurs in the lower-cased name, role or contact. */
  predicate TechnicianMatches(t: Technician, term: string)
  {
    Includes(Lower(t.name), Lower(term))
    || Includes(Lower(t.role), Lower(term))
    || Includes(Lower(t.contact), Lower(term))
  }

  function MatchesTerm(term: string): Technician -> bool
  {
    (t: Technician) => TechnicianMatches(t, term)
  }

  /** `filteredTechnicians`: the matching entries, in their order. */
  function FilteredTechnicians(technicians: seq<Technician>, term: string): (r: seq<Technician>)
    ensures IsSubsequence(r, technicians)
    ensures forall i :: 0 <= i < |r| ==> TechnicianMatches(r[i], term)
    ensures forall i :: 0 <= i < |technicians| && TechnicianMatches(technicians[i], term) ==> technicians[i] in r
    ensures forall x :: multiset(r)[x] == if TechnicianMatches(x, term) then multiset(technicians)[x] else 0
  {
    FilterIsSubsequence(technicians, MatchesTerm(term));
    FilterMultiset(technicians, MatchesTerm(term));
    Filter(technicians, MatchesTerm(term))
  }

  lemma EmptySearchKeepsAll(technicians: seq<Technician>)
    ensures FilteredTechnicians(technicians, "") == technicians
  {
    forall i | 0 <= i < |technicians| ensures TechnicianMatches(technicians[i], "") {
      IncludesEmpty(Lower(technicians[i].name));
    }
    FilterAll(technicians, MatchesTerm(""));
  }

  /** The avatar text: the first characters of the space-separated name parts, joined, at most two (no case change here). */
  function AvatarInitials(name: string): (r: string)
    ensures r == Take(WordStarts(name, ' ', true), 2)
    ensures |r| <= 2
    ensures forall i :: 0 <= i < |r| ==> r[i] in name && r[i] != ' '
  {
    FirstCharsOfSplit(name, ' ');
    WordStartsFromString(name, ' ', true);
    Take(FirstChars(Split(name, ' ')), 2)
  }
}
