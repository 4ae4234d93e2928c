/**
 * The page header (frontend/src/components/Header.tsx): the user's initials,
 * the translated role label and the admin/technician mode styling.
 */
module Header {
  import opened Wrappers
  import opened Text

  /** `getInitials`: first characters of the space-separated parts, joined, upper-cased, at most two. */
  function GetInitials(name: string): (r: string)
    ensures r == Upper(Take(WordStarts(name, ' ', true), 2))
    ensures |r| <= 2
    ensures forall i :: 0 <= i < |r| ==> r[i] != ' ' && UpperChar(r[i]) == r[i]
  {
    FirstCharsOfSplit(name, ' ');
    WordStartsFromString(name, ' ', true);
    var joined := Upper(FirstChars(Split(name, ' ')));
    assert Take(joined, 2) == Upper(Take(FirstChars(Split(name, ' ')), 2));
    Take(joined, 2)
  }

  /** A two-word name gives the upper-cased first letters of both words. */
  lemma InitialsOfTwoWords(first: string, last: string)
    requires first != "" && last != "" && ' ' !in first && ' ' !in last
    ensures GetInitials(first + " " + last) == Upper([first[0], last[0]])
  {
    var name := first + " " + last;
    WordStartsOfWord(first, true);
    WordStartsOfWord(last, true);
    WordStartsOfWord(first[1..], false);
    WordStartsAppend(first, " " + last, true);
    assert name == first + (" " + last);
    assert WordStarts(" " + last, ' ', false) == WordStarts(last, ' ', true) by {
      assert (" " + last)[1..] == last;
    }
    assert WordStarts(name, ' ', true) == [first[0], last[0]];
  }

  lemma {:induction false} WordStartsOfWord(w: string, atStart: bool)
    requires ' ' !in w
    ensures w != "" && atStart ==> WordStarts(w, ' ', true) == [w[0]]
    ensures !atStart ==> WordStarts(w, ' ', false) == ""
    decreases |w|
  {
    if w != "" {
      WordStartsOfWord(w[1..], false);
    }
  }

  lemma {:induction false} WordStartsAppend(a: string, b: string, atStart: bool)
    requires a != ""
    ensures WordStarts(a + b, ' ', atStart) == WordStarts(a, ' ', atStart) + WordStarts(b, ' ', a[|a| - 1] == ' ')
    decreases |a|
  {
    assert (a + b)[1..] == a[1..] + b;
    if |a| > 1 {
      WordStartsAppend(a[1..], b, a[0] == ' ');
    }
  }

  /** `getRoleLabel`: the two known roles are translated, every other string is shown as it is. */
  function GetRoleLabel(role: string): (shown: string)
    ensures role == "admin" ==> shown == "Administrador"
    ensures role == "technician" ==> shown == "Técnico"
    ensures role != "admin" && role != "technician" ==> shown == role
  {
    if role == "admin" then "Administrador"
    else if role == "technician" then "Técnico"
    else role
  }

  /** No label is itself a translated key, so translating twice is translating once. */
  lemma RoleLabelIdempotent(role: string)
    ensures GetRoleLabel(GetRoleLabel(role)) == GetRoleLabel(role)
  {
  }

  datatype Colour = Purple | Blue

  /** The avatar colour: purple only for the role `admin`, blue otherwise and when no user is given. */
  function AvatarColour(role: Option<string>): (c: Colour)
    ensures c == Purple <==> role == Some("admin")
  {
    if role == Some("admin") then Purple else Blue
  }

  /** The status bar entry, present only when a user is logged in. */
  function ModeIndicator(role: Option<string>): (r: Option<(Colour, string)>)
    ensures role.None? <==> r.None?
    ensures role == Some("admin") ==> r == Some((Purple, "Modo Administrador"))
    ensures role.Some? && role != Some("admin") ==> r == Some((Blue, "Modo Técnico"))
  {
    match role
    case None => None
    case Some(name) => if name == "admin" then Some((Purple, "Modo Administrador")) else Some((Blue, "Modo Técnico"))
  }
}
